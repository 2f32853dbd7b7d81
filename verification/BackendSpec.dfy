/** Device assignments: the printer that builds them for the native library and
    the parser there that picks the diffusion backend, plus the normalising
    validators. */
module BackendSpec {
  import opened Common
  import opened Text
  import opened Lists

  datatype Invalid = BadSelector | Unavailable | BadModule | EmptyAssignment | BadEntry | Repeated | BadAmount

  // ------------------------------------------------------------- device lookup

  /** First enumerated name that matches without regard to case. */
  function FindDevice(devices: seq<string>, requested: string): (r: Option<string>)
    ensures r.Some? ==> r.value in devices && EqualsIgnoreCase(r.value, requested)
  {
    if devices == [] then None
    else if EqualsIgnoreCase(devices[0], requested) then Some(devices[0])
    else FindDevice(devices[1..], requested)
  }

  function Alias(requested: string): Option<string> {
    if EqualsIgnoreCase(requested, "metal") || EqualsIgnoreCase(requested, "metal0") then Some("MTL0")
    else if EqualsIgnoreCase(requested, "vulkan") then Some("vulkan0")
    else if EqualsIgnoreCase(requested, "cuda") then Some("cuda0")
    else None
  }

  function ResolveDevice(requested: string, devices: seq<string>): Result<string, Invalid> {
    if requested == "" || Contains(requested, '&') then Err(BadSelector)
    else
      var direct := FindDevice(devices, requested);
      if direct.Some? then Ok(direct.value)
      else
        var alias := Alias(requested);
        if alias == None then Err(Unavailable)
        else
          var device := FindDevice(devices, alias.value);
          if device.Some? then Ok(device.value) else Err(Unavailable)
  }

  lemma {:induction false} FindDeviceAgain(devices: seq<string>, requested: string, name: string)
    requires EqualsIgnoreCase(requested, name)
    ensures FindDevice(devices, requested) == FindDevice(devices, name)
  {
    if devices != [] {
      assert EqualsIgnoreCase(devices[0], requested) <==> EqualsIgnoreCase(devices[0], name);
      FindDeviceAgain(devices[1..], requested, name);
    }
  }

  /** A resolved name is one of the enumerated ones and resolves to itself. */
  lemma {:induction false} ResolvedIsFixed(requested: string, devices: seq<string>)
    requires ResolveDevice(requested, devices).Ok?
    ensures var name := ResolveDevice(requested, devices).value;
      name in devices && name != "" && ResolveDevice(name, devices) == Ok(name)
  {
    var direct := FindDevice(devices, requested);
    var matched := if direct.Some? then requested else Alias(requested).value;
    var name := ResolveDevice(requested, devices).value;
    assert !Contains(matched, '&');
    FindDeviceAgain(devices, matched, name);
    MarksKeepCase(matched, name, '&');
  }

  /** A name resolved from a text without some mark has none either. */
  lemma {:induction false} ResolvedHasNoMark(requested: string, devices: seq<string>, mark: char)
    requires ResolveDevice(requested, devices).Ok? && IsMark(mark) && !Contains(requested, mark)
    ensures !Contains(ResolveDevice(requested, devices).value, mark)
  {
    var direct := FindDevice(devices, requested);
    var matched := if direct.Some? then requested else Alias(requested).value;
    MarksKeepCase(matched, ResolveDevice(requested, devices).value, mark);
  }

  // ------------------------------------------------------------------- printer

  /** One entry of the ordered module map. */
  datatype Override = Override(selector: string, device: string)

  predicate IsModule(m: string) {
    m == "diffusion" || m == "te" || m == "clip_vision" || m == "vae"
  }

  predicate DistinctModules(overrides: seq<Override>) {
    forall i, j :: 0 <= i < j < |overrides| ==> overrides[i].selector != overrides[j].selector
  }

  function Entry(m: string, device: string): string {
    m + "=" + device
  }

  /** Module check, then device lookup. */
  function ResolveEntry(o: Override, devices: seq<string>): Result<Override, Invalid> {
    if !IsModule(o.selector) then Err(BadModule)
    else
      var device := ResolveDevice(o.device, devices);
      if device.Err? then Err(device.error) else Ok(Override(o.selector, device.value))
  }

  function ResolveOn(devices: seq<string>): Override -> Result<Override, Invalid> {
    (o: Override) => ResolveEntry(o, devices)
  }

  /** The overrides with their devices resolved, or the first error. */
  function Resolved(overrides: seq<Override>, devices: seq<string>): Result<seq<Override>, Invalid> {
    TryMap(ResolveOn(devices), overrides)
  }

  function Entries(overrides: seq<Override>): (r: seq<string>)
    ensures |r| == |overrides|
  {
    if overrides == [] then []
    else
      var n := |overrides| - 1;
      Entries(overrides[..n]) + [Entry(overrides[n].selector, overrides[n].device)]
  }

  /** What is printed for a resolved configuration. */
  function Printed(default: string, resolved: seq<Override>): string {
    if resolved == [] then default else Join([Entry("all", default)] + Entries(resolved))
  }

  /** `backend_assignment`: grows the text entry by entry. */
  method BackendAssignment(backend: string, overrides: seq<Override>, devices: seq<string>)
    returns (r: Result<string, Invalid>)
    ensures r == match (ResolveDevice(backend, devices), Resolved(overrides, devices)) {
      case (Err(e), _) => Err(e)
      case (_, Err(e)) => Err(e)
      case (Ok(default), Ok(resolved)) => Ok(Printed(default, resolved))
    }
  {
    var default := ResolveDevice(backend, devices);
    if default.Err? {
      return Err(default.error);
    }
    if overrides == [] {
      return Ok(default.value);
    }
    var assignment := "all=" + default.value;
    assert assignment == Entry("all", default.value);
    ghost var head := [Entry("all", default.value)];
    ghost var done: seq<Override> := [];
    for i := 0 to |overrides|
      invariant Resolved(overrides[..i], devices) == Ok(done)
      invariant assignment == Join(head + Entries(done))
    {
      var grown := PushEntry(assignment, overrides[i], devices, head, done);
      TryMapNext(ResolveOn(devices), overrides, i);
      if grown.Err? {
        TryMapErrorStays(ResolveOn(devices), overrides, i + 1);
        return Err(grown.error);
      }
      assignment := grown.value;
      done := done + [ResolveEntry(overrides[i], devices).value];
    }
    EndsPrinted(default.value, overrides, devices, done);
    return Ok(assignment);
  }

  /** One round of the loop: a comma, the module, an equals sign, the device. */
  method PushEntry(assignment: string, o: Override, devices: seq<string>,
                   ghost head: seq<string>, ghost done: seq<Override>) returns (r: Result<string, Invalid>)
    requires head != [] && assignment == Join(head + Entries(done))
    ensures r.Ok? <==> ResolveEntry(o, devices).Ok?
    ensures r.Err? ==> r.error == ResolveEntry(o, devices).error
    ensures r.Ok? ==> r.value == Join(head + Entries(done + [ResolveEntry(o, devices).value]))
  {
    if !IsModule(o.selector) {
      return Err(BadModule);
    }
    var device := ResolveDevice(o.device, devices);
    if device.Err? {
      return Err(device.error);
    }
    AppendEntry(head, done, Override(o.selector, device.value));
    var grown := assignment + ",";
    grown := grown + o.selector;
    grown := grown + "=";
    grown := grown + device.value;
    assert grown == Grown(assignment, Override(o.selector, device.value));
    return Ok(grown);
  }

  lemma {:induction false} EndsPrinted(default: string, overrides: seq<Override>, devices: seq<string>,
                                       done: seq<Override>)
    requires overrides != [] && Resolved(overrides[..|overrides|], devices) == Ok(done)
    ensures Resolved(overrides, devices) == Ok(done)
    ensures Printed(default, done) == Join([Entry("all", default)] + Entries(done))
  {
    assert overrides[..|overrides|] == overrides;
  }

  function Grown(assignment: string, o: Override): string {
    assignment + "," + Entry(o.selector, o.device)
  }

  lemma {:induction false} AppendEntry(head: seq<string>, before: seq<Override>, o: Override)
    requires head != []
    ensures Join(head + Entries(before + [o])) == Grown(Join(head + Entries(before)), o)
  {
    assert (before + [o])[..|before|] == before;
    var entry := Entry(o.selector, o.device);
    assert head + Entries(before + [o]) == (head + Entries(before)) + [entry];
    JoinAppend(head + Entries(before), entry);
  }

  // -------------------------------------------------------------------- parser

  datatype Backends = Backends(default: string, diffusion: string)

  predicate IsDefaultKey(key: string) {
    EqualsIgnoreCase(key, "all") || EqualsIgnoreCase(key, "default") || key == "*"
  }

  predicate IsDiffusionKey(key: string) {
    EqualsIgnoreCase(key, "diffusion") || EqualsIgnoreCase(key, "model")
    || EqualsIgnoreCase(key, "unet") || EqualsIgnoreCase(key, "dit")
  }

  /** Effect of one trimmed part. */
  function Applied(b: Backends, part: string): Backends {
    if part == "" then b
    else
      var pair := SplitOnce(part, '=');
      if pair == None then b.(default := part)
      else
        var (key, value) := (Trim(pair.value.0), Trim(pair.value.1));
        if IsDefaultKey(key) then b.(default := value)
        else if IsDiffusionKey(key) then b.(diffusion := value)
        else b
  }

  function AppliedAll(b: Backends, parts: seq<string>): Backends
    decreases |parts|
  {
    if parts == [] then b else AppliedAll(Applied(b, Trim(parts[0])), parts[1..])
  }

  function Picked(b: Backends): string {
    if b.diffusion == "" then b.default else b.diffusion
  }

  /** `diffusion_backend_from_assignment`: consumes the specification from the
      front and overwrites the two results as it goes. */
  method DiffusionBackend(specification: string) returns (r: string)
    ensures r == Picked(AppliedAll(Backends("", ""), Split(specification)))
  {
    var rest := specification;
    var b := Backends("", "");
    var ended := false;
    while rest != ""
      invariant ended ==> rest == ""
      invariant AppliedAll(Backends("", ""), Split(specification)) ==
        (if ended then b else AppliedAll(b, Split(rest)))
      decreases |rest|
    {
      var comma := IndexOf(rest, ',');
      ghost var parts := Split(rest);
      var part := TrimView(rest[..comma]);
      if comma == |rest| {
        assert rest[..comma] == rest && parts[1..] == [];
        rest := "";
        ended := true;
      } else {
        rest := rest[comma + 1..];
        assert parts[1..] == Split(rest);
      }
      b := ApplyPart(b, part);
    }
    if !ended {
      LastPartIsEmpty(b);
    }
    r := if b.diffusion == "" then b.default else b.diffusion;
  }

  method ApplyPart(b: Backends, part: string) returns (r: Backends)
    ensures r == Applied(b, part)
  {
    r := b;
    if part == "" {
      return;
    }
    var equals := IndexOf(part, '=');
    if equals == |part| {
      return b.(default := part);
    }
    var key := TrimView(part[..equals]);
    var value := TrimView(part[equals + 1..]);
    if IsDefaultKey(key) {
      r := b.(default := value);
    } else if IsDiffusionKey(key) {
      r := b.(diffusion := value);
    }
  }

  /** A trailing comma leaves an empty part, which changes nothing. */
  lemma {:induction false} LastPartIsEmpty(b: Backends)
    ensures AppliedAll(b, Split("")) == b
  {
    assert Split("") == [""];
    TrimTight("");
    assert [""][1..] == [];
  }

  // ----------------------------------------------------------------- agreement

  /** A device name that survives printing and parsing between other entries. */
  predicate Embeddable(name: string) {
    Tight(name) && !Contains(name, ',')
  }

  predicate Clean(name: string) {
    Embeddable(name) && !Contains(name, '=')
  }

  lemma {:induction false} EntryIsTight(m: string, name: string)
    requires Tight(m) && !Contains(m, '=') && Tight(name)
    ensures Trim(Entry(m, name)) == Entry(m, name)
    ensures SplitOnce(Entry(m, name), '=') == Some((m, name)) && Trim(m) == m && Trim(name) == name
  {
    SplitOnceOf(m, '=', name);
    TrimTight(m);
    TrimTight(name);
    TrimTight(Entry(m, name));
  }

  lemma {:induction false} ModuleShape(m: string)
    requires IsModule(m) || m == "all"
    ensures Tight(m) && !Contains(m, '=') && !Contains(m, ',')
    ensures IsDefaultKey(m) <==> m == "all"
    ensures !IsDefaultKey(m) ==> (IsDiffusionKey(m) <==> m == "diffusion")
  {
    if m == "vae" {
      assert Lower(m[0]) == 'v' && Lower("all"[0]) == 'a' && Lower("dit"[0]) == 'd';
    }
  }

  /** Effect of one printed entry. */
  lemma {:induction false} EntryApplies(b: Backends, m: string, name: string)
    requires (IsModule(m) || m == "all") && Tight(name)
    ensures Applied(b, Trim(Entry(m, name))) ==
      if m == "all" then b.(default := name) else if m == "diffusion" then b.(diffusion := name) else b
  {
    ModuleShape(m);
    EntryIsTight(m, name);
  }

  /** The diffusion override, if there is one. */
  function DiffusionOf(resolved: seq<Override>): Option<string> {
    if resolved == [] then None
    else if resolved[0].selector == "diffusion" then Some(resolved[0].device)
    else DiffusionOf(resolved[1..])
  }

  predicate EmbeddableOverrides(resolved: seq<Override>) {
    forall i :: 0 <= i < |resolved| ==> IsModule(resolved[i].selector) && Embeddable(resolved[i].device)
  }

  function EntriesFront(resolved: seq<Override>): seq<string> {
    if resolved == [] then []
    else [Entry(resolved[0].selector, resolved[0].device)] + EntriesFront(resolved[1..])
  }

  lemma {:induction false} EntriesFrontIs(resolved: seq<Override>)
    ensures EntriesFront(resolved) == Entries(resolved)
  {
    if |resolved| > 0 {
      var n := |resolved| - 1;
      EntriesFrontIs(resolved[..n]);
      EntriesFrontAppend(resolved[..n], resolved[n]);
      assert resolved == resolved[..n] + [resolved[n]];
    }
  }

  lemma {:induction false} EntriesFrontAppend(resolved: seq<Override>, o: Override)
    ensures EntriesFront(resolved + [o]) == EntriesFront(resolved) + [Entry(o.selector, o.device)]
  {
    if resolved == [] {
      assert ([o] + [])[1..] == [];
    } else {
      assert (resolved + [o])[1..] == resolved[1..] + [o];
      EntriesFrontAppend(resolved[1..], o);
    }
  }

  lemma {:induction false} EntriesApply(b: Backends, resolved: seq<Override>)
    requires EmbeddableOverrides(resolved) && DistinctModules(resolved)
    ensures AppliedAll(b, EntriesFront(resolved)) ==
      if DiffusionOf(resolved).Some? then b.(diffusion := DiffusionOf(resolved).value) else b
    decreases |resolved|
  {
    if resolved != [] {
      var (first, rest) := (resolved[0], resolved[1..]);
      EntryApplies(b, first.selector, first.device);
      var entries := EntriesFront(resolved);
      assert entries[1..] == EntriesFront(rest);
      EntriesApply(Applied(b, Trim(entries[0])), rest);
      if first.selector == "diffusion" {
        NoSecondDiffusion(rest);
      }
    }
  }

  lemma {:induction false} NoSecondDiffusion(rest: seq<Override>)
    requires forall i :: 0 <= i < |rest| ==> rest[i].selector != "diffusion"
    ensures DiffusionOf(rest) == None
  {
    if rest != [] {
      NoSecondDiffusion(rest[1..]);
    }
  }

  lemma {:induction false} EntriesAreCommaFree(resolved: seq<Override>)
    requires EmbeddableOverrides(resolved)
    ensures CommaFree(EntriesFront(resolved))
  {
    if resolved != [] {
      ModuleShape(resolved[0].selector);
      EntriesAreCommaFree(resolved[1..]);
    }
  }

  /** What the native parser picks from a printed assignment. */
  function Reparsed(default: string, resolved: seq<Override>): string {
    Picked(AppliedAll(Backends("", ""), Split(Printed(default, resolved))))
  }

  /** Both sides agree: the resolved diffusion override when there is one, and the
      resolved default otherwise. */
  lemma {:induction false} PrinterAndParserAgree(default: string, resolved: seq<Override>)
    requires Clean(default) && EmbeddableOverrides(resolved) && DistinctModules(resolved)
    ensures Reparsed(default, resolved) ==
      if DiffusionOf(resolved).Some? then DiffusionOf(resolved).value else default
  {
    if resolved == [] {
      DefaultAgreesIff(default);
    } else {
      OverridesAgree(default, resolved);
    }
  }

  /** With overrides, an equals sign inside a name does no harm. */
  lemma {:induction false} OverridesAgree(default: string, resolved: seq<Override>)
    requires resolved != [] && Embeddable(default) && EmbeddableOverrides(resolved) && DistinctModules(resolved)
    ensures Reparsed(default, resolved) ==
      if DiffusionOf(resolved).Some? then DiffusionOf(resolved).value else default
  {
    var entries := EntriesFront(resolved);
    var all := [Entry("all", default)] + entries;
    EntriesFrontIs(resolved);
    EntriesAreCommaFree(resolved);
    ModuleShape("all");
    assert CommaFree(all);
    SplitJoin(all);
    assert all[1..] == entries;
    var b := Backends("", "");
    EntryApplies(b, "all", default);
    EntriesApply(b.(default := default), resolved);
    DiffusionIsTight(resolved);
  }

  /** Commas are not harmless there: a device name that holds one can smuggle in a
      diffusion override that was never configured. */
  lemma {:induction false} CommaSmugglesOverride(default: string, x: string, y: string)
    requires Embeddable(default) && Embeddable(x) && Embeddable(y)
    ensures Reparsed(default, [Override("te", x + ",diffusion=" + y)]) == y
  {
    var one := [Override("te", x + ",diffusion=" + y)];
    var two := [Override("te", x), Override("diffusion", y)];
    EntriesFrontIs(one);
    EntriesFrontIs(two);
    assert one[1..] == [] && two[1..] == [two[1]] && two[1..][1..] == [];
    var first := Entry("all", default);
    assert EntriesFront(two) == [Entry("te", x), Entry("diffusion", y)];
    JoinAppend([first], Entry("te", x));
    JoinAppend([first, Entry("te", x)], Entry("diffusion", y));
    JoinAppend([first], Entry("te", x + ",diffusion=" + y));
    assert [first] + EntriesFront(one) == [first] + [Entry("te", x + ",diffusion=" + y)];
    assert [first] + EntriesFront(two) == [first, Entry("te", x)] + [Entry("diffusion", y)];
    assert [first] + [Entry("te", x)] == [first, Entry("te", x)];
    assert Printed(default, one) == Printed(default, two);
    OverridesAgree(default, two);
  }

  /** Printed as default and once more as an override, a name is read back exactly
      when it is embeddable. */
  lemma {:induction false} OverrideAgreesIff(name: string)
    requires name != ""
    ensures Reparsed(name, [Override("te", name)]) == name <==> Embeddable(name)
  {
    var resolved := [Override("te", name)];
    var (all, te) := (Entry("all", name), Entry("te", name));
    EntriesFrontIs(resolved);
    assert resolved[1..] == [];
    assert [all] + EntriesFront(resolved) == [all, te];
    JoinAppend([all], te);
    assert [all] + [te] == [all, te];
    assert Printed(name, resolved) == all + "," + te;
    if Embeddable(name) {
      OverridesAgree(name, resolved);
    } else if Contains(name, ',') {
      ValuesAreShorter("all", name);
      ValuesAreShorter("te", name);
      SplitAround(all, te);
      AllShortConcat(Split(all), Split(te), |name|);
      ShortValuesPicked(Backends("", ""), Split(all) + Split(te), |name|);
    } else {
      ModuleShape("all");
      ModuleShape("te");
      SplitFirst(all, te);
      IndexOfIs(te, ',', |te|);
      assert Split(te) == [te];
      assert [all] + [te] == [all, te];
      ShortValue("all", name);
      ShortValue("te", name);
      ShortValuesPicked(Backends("", ""), [all, te], |name|);
    }
  }

  /** Whatever a part assigns is shorter than `n`. */
  predicate ShortValues(part: string, n: nat) {
    var trimmed := Trim(part);
    var pair := SplitOnce(trimmed, '=');
    if pair == None then |trimmed| < n else |Trim(pair.value.1)| < n
  }

  lemma {:induction false} ShortValuesPicked(b: Backends, parts: seq<string>, n: nat)
    requires |b.default| < n && |b.diffusion| < n
    requires AllShort(parts, n)
    ensures |Picked(AppliedAll(b, parts))| < n
    decreases |parts|
  {
    if parts != [] {
      assert ShortValues(parts[0], n);
      var next := Applied(b, Trim(parts[0]));
      assert |next.default| < n && |next.diffusion| < n;
      ShortValuesPicked(next, parts[1..], n);
    }
  }

  lemma {:induction false} ShorterParts(part: string, n: nat)
    requires |part| < n
    ensures ShortValues(part, n)
  {
    TrimIsShorter(part);
    var pair := SplitOnce(Trim(part), '=');
    if pair.Some? {
      TrimIsShorter(pair.value.1);
    }
  }

  /** Trimming an entry trims the value at its end. */
  lemma {:induction false} TrimEntry(m: string, value: string)
    requires Tight(m)
    ensures Trim(Entry(m, value)) == m + "=" + TrimEnd(value)
  {
    assert TrimStart(Entry(m, value)) == Entry(m, value);
    TrimEndOf(m + "=", value);
  }

  lemma {:induction false} TrimEndOf(head: string, s: string)
    requires head != "" && !IsSpace(head[|head| - 1])
    ensures TrimEnd(head + s) == head + TrimEnd(s)
    decreases |s|
  {
    if s != "" && IsSpace(s[|s| - 1]) {
      assert (head + s)[..|head + s| - 1] == head + s[..|s| - 1];
      TrimEndOf(head, s[..|s| - 1]);
    } else if s == "" {
      assert head + s == head;
    }
  }

  /** An entry whose value is not tight, or shorter than `n`, assigns less. */
  lemma {:induction false} ShortEntry(m: string, value: string, n: nat)
    requires Tight(m) && !Contains(m, '=') && |value| <= n && n > 0
    requires |value| < n || !Tight(value)
    ensures ShortValues(Entry(m, value), n)
  {
    TrimEntry(m, value);
    SplitOnceOf(m, '=', TrimEnd(value));
    assert m + ['='] + TrimEnd(value) == m + "=" + TrimEnd(value);
    TrimEndLength(value);
    TrimIsShorter(TrimEnd(value));
    if |value| == n && |TrimEnd(value)| == n {
      TrimKeepsIff(value);
    }
  }

  lemma {:induction false} ShortValue(m: string, name: string)
    requires IsModule(m) || m == "all"
    requires name != "" && !Tight(name)
    ensures ShortValues(Entry(m, name), |name|)
  {
    ModuleShape(m);
    ShortEntry(m, name, |name|);
  }

  predicate AllShort(parts: seq<string>, n: nat) {
    forall k :: 0 <= k < |parts| ==> ShortValues(parts[k], n)
  }

  lemma {:induction false} AllShorterParts(parts: seq<string>, n: nat)
    requires forall k :: 0 <= k < |parts| ==> |parts[k]| < n
    ensures AllShort(parts, n)
  {
    forall k | 0 <= k < |parts| ensures ShortValues(parts[k], n) {
      ShorterParts(parts[k], n);
    }
  }

  lemma {:induction false} AllShortConcat(a: seq<string>, b: seq<string>, n: nat)
    requires AllShort(a, n) && AllShort(b, n)
    ensures AllShort(a + b, n)
  {
  }

  /** An entry whose device holds a comma falls into parts that all assign less. */
  lemma {:induction false} ValuesAreShorter(m: string, name: string)
    requires (IsModule(m) || m == "all") && Contains(name, ',')
    ensures AllShort(Split(Entry(m, name)), |name|)
  {
    var i := IndexOf(name, ',');
    var (first, rest) := (name[..i], name[i + 1..]);
    ModuleShape(m);
    assert Entry(m, name) == Entry(m, first) + "," + rest;
    SplitFirst(Entry(m, first), rest);
    ShortEntry(m, first, |name|);
    PartsAreShorter(rest);
    AllShorterParts(Split(rest), |name|);
    AllShortConcat([Entry(m, first)], Split(rest), |name|);
  }

  /** What both sides should make of a resolved configuration. */
  predicate AgreesOn(default: string, resolved: seq<Override>) {
    Reparsed(default, resolved) == if DiffusionOf(resolved).Some? then DiffusionOf(resolved).value else default
  }

  /** A configuration over some device names, each module at most once. */
  predicate ConfiguredFrom(names: seq<string>, default: string, resolved: seq<Override>) {
    && default in names && DistinctModules(resolved)
    && forall i :: 0 <= i < |resolved| ==> IsModule(resolved[i].selector) && resolved[i].device in names
  }

  lemma {:induction false} OverrideMustBeEmbeddable(names: seq<string>, d: string)
    requires d in names && d != "" && !Embeddable(d)
    ensures var resolved := [Override("te", d)];
      ConfiguredFrom(names, d, resolved) && !AgreesOn(d, resolved)
  {
    OverrideAgreesIff(d);
    NoSecondDiffusion([Override("te", d)]);
  }

  /** All configurations with overrides agree exactly over embeddable names. */
  lemma {:induction false} AllOverridesAgreeIff(names: seq<string>)
    requires forall d :: d in names ==> d != ""
    ensures (forall default, resolved ::
              resolved != [] && ConfiguredFrom(names, default, resolved) ==> AgreesOn(default, resolved))
      <==> forall d :: d in names ==> Embeddable(d)
  {
    if forall d :: d in names ==> Embeddable(d) {
      forall default, resolved | resolved != [] && ConfiguredFrom(names, default, resolved)
        ensures AgreesOn(default, resolved)
      {
        OverridesAgree(default, resolved);
      }
    } else {
      var d :| d in names && !Embeddable(d);
      OverrideMustBeEmbeddable(names, d);
    }
  }

  /** All configurations, plain defaults included, agree exactly over clean names. */
  lemma {:induction false} AllConfigurationsAgreeIff(names: seq<string>)
    requires forall d :: d in names ==> d != ""
    ensures (forall default, resolved :: ConfiguredFrom(names, default, resolved) ==> AgreesOn(default, resolved))
      <==> forall d :: d in names ==> Clean(d)
  {
    if forall d :: d in names ==> Clean(d) {
      forall default, resolved | ConfiguredFrom(names, default, resolved) ensures AgreesOn(default, resolved) {
        PrinterAndParserAgree(default, resolved);
      }
    } else {
      var d :| d in names && !Clean(d);
      DefaultAgreesIff(d);
      assert ConfiguredFrom(names, d, []) && !AgreesOn(d, []);
    }
  }

  lemma {:induction false} DiffusionIsTight(resolved: seq<Override>)
    requires EmbeddableOverrides(resolved)
    ensures DiffusionOf(resolved).Some? ==> Tight(DiffusionOf(resolved).value)
  {
    if resolved != [] {
      DiffusionIsTight(resolved[1..]);
    }
  }

  /** Printed alone, a name is read back exactly when it holds no comma and no
      equals sign and has no space at either end. */
  lemma {:induction false} DefaultAgreesIff(name: string)
    requires name != ""
    ensures Reparsed(name, []) == name <==> Clean(name)
  {
    if Contains(name, ',') {
      CommaIsLost(name);
    } else {
      OnePart(name);
      SinglePart(name);
    }
  }

  lemma {:induction false} OnePart(name: string)
    requires !Contains(name, ',')
    ensures AppliedAll(Backends("", ""), Split(name)) == Applied(Backends("", ""), Trim(name))
  {
    IndexOfIs(name, ',', |name|);
    assert Split(name) == [name] && [name][1..] == [];
  }

  /** A name with a comma falls apart: no part, and no value of one, is as long. */
  lemma {:induction false} CommaIsLost(name: string)
    requires Contains(name, ',')
    ensures Reparsed(name, []) != name
  {
    PartsAreShorter(name);
    PickedIsShorter(Backends("", ""), Split(name), |name|);
  }

  lemma {:induction false} PartsAreShorter(s: string)
    ensures forall k :: 0 <= k < |Split(s)| ==> |Split(s)[k]| <= |s|
    ensures Contains(s, ',') ==> forall k :: 0 <= k < |Split(s)| ==> |Split(s)[k]| < |s|
    decreases |s|
  {
    var i := IndexOf(s, ',');
    if i < |s| {
      PartsAreShorter(s[i + 1..]);
    }
  }

  lemma {:induction false} PickedIsShorter(b: Backends, parts: seq<string>, n: nat)
    requires |b.default| < n && |b.diffusion| < n && forall k :: 0 <= k < |parts| ==> |parts[k]| < n
    ensures |Picked(AppliedAll(b, parts))| < n
    decreases |parts|
  {
    if parts != [] {
      AppliedIsShorter(b, parts[0], n);
      PickedIsShorter(Applied(b, Trim(parts[0])), parts[1..], n);
    }
  }

  lemma {:induction false} TrimIsShorter(s: string)
    ensures |Trim(s)| <= |s|
  {
    TrimStartLength(s);
    TrimEndLength(TrimStart(s));
  }

  lemma {:induction false} AppliedIsShorter(b: Backends, part: string, n: nat)
    requires |b.default| < n && |b.diffusion| < n && |part| < n
    ensures |Applied(b, Trim(part)).default| < n && |Applied(b, Trim(part)).diffusion| < n
  {
    TrimIsShorter(part);
    var pair := SplitOnce(Trim(part), '=');
    if pair.Some? {
      TrimIsShorter(pair.value.1);
    }
  }

  lemma {:induction false} SinglePart(name: string)
    requires name != ""
    ensures Picked(Applied(Backends("", ""), Trim(name))) == name <==> Tight(name) && !Contains(name, '=')
  {
    TrimKeepsIff(name);
    if Tight(name) {
      if Contains(name, '=') {
        var pair := SplitOnce(name, '=');
        TrimIsShorter(pair.value.1);
      } else {
        IndexOfIs(name, '=', |name|);
      }
    } else {
      AppliedIsShorter2(Trim(name), |name|);
    }
  }

  lemma {:induction false} AppliedIsShorter2(part: string, n: nat)
    requires |part| < n
    ensures |Picked(Applied(Backends("", ""), part))| < n
  {
    var pair := SplitOnce(part, '=');
    if pair.Some? {
      TrimIsShorter(pair.value.1);
    }
  }

  /** Resolution followed by printing and parsing, for devices with clean names. */
  lemma {:induction false} ConfigurationsAgree(backend: string, overrides: seq<Override>, devices: seq<string>)
    requires forall d :: d in devices ==> Clean(d)
    requires DistinctModules(overrides)
    requires ResolveDevice(backend, devices).Ok? && Resolved(overrides, devices).Ok?
    ensures var (default, resolved) := (ResolveDevice(backend, devices).value, Resolved(overrides, devices).value);
      Reparsed(default, resolved) ==
        if DiffusionOf(resolved).Some? then DiffusionOf(resolved).value else default
  {
    ResolvedIsFixed(backend, devices);
    ResolvedShape(overrides, devices);
    PrinterAndParserAgree(ResolveDevice(backend, devices).value, Resolved(overrides, devices).value);
  }

  lemma {:induction false} ResolvedShape(overrides: seq<Override>, devices: seq<string>)
    requires forall d :: d in devices ==> Clean(d)
    requires Resolved(overrides, devices).Ok?
    ensures var resolved := Resolved(overrides, devices).value;
      && |resolved| == |overrides| && EmbeddableOverrides(resolved)
      && forall i :: 0 <= i < |resolved| ==> resolved[i].selector == overrides[i].selector
  {
    if overrides != [] {
      var n := |overrides| - 1;
      ResolvedShape(overrides[..n], devices);
      ResolvedIsFixed(overrides[n].device, devices);
    }
  }
}
