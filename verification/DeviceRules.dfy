/** Which device a text names, which assignments are accepted, and which entry of one
    wins, in terms of letters, parts and positions. */
module DeviceRules {
  import opened Common
  import opened Lists
  import opened Text
  import opened BackendSpec
  import opened Validators

  // ------------------------------------------------------------------------ texts

  function LowerLetter(c: char): char {
    if 'A' <= c <= 'Z' then c - 'A' + 'a' else c
  }

  function InLowerCase(s: string): string {
    seq(|s|, i requires 0 <= i < |s| => LowerLetter(s[i]))
  }

  lemma {:induction false} SameLetters(a: string, b: string)
    ensures EqualsIgnoreCase(a, b) <==> InLowerCase(a) == InLowerCase(b)
  {
    if InLowerCase(a) == InLowerCase(b) {
      forall i | 0 <= i < |a| ensures Lower(a[i]) == Lower(b[i]) {
        assert InLowerCase(a)[i] == InLowerCase(b)[i];
      }
    }
  }

  /** Splitting loses nothing. */
  lemma {:induction false} JoinSplit(s: string)
    ensures Join(Split(s)) == s
    decreases |s|
  {
    var i := IndexOf(s, ',');
    if i < |s| {
      JoinSplit(s[i + 1..]);
      assert s == s[..i] + "," + s[i + 1..];
    }
  }

  predicate AllSpaces(s: string) {
    forall i :: 0 <= i < |s| ==> IsSpace(s[i])
  }

  /** Trimming cuts spaces from both ends, and all of them. */
  lemma {:induction false} TrimCuts(s: string) returns (before: string, after: string)
    ensures s == before + Trim(s) + after && AllSpaces(before) && AllSpaces(after)
    ensures Trim(s) == "" || Tight(Trim(s))
  {
    before := CutStart(s);
    after := CutEnd(TrimStart(s));
    if Trim(s) != "" {
      assert Trim(s)[0] == TrimStart(s)[0];
    }
  }

  lemma {:induction false} CutStart(s: string) returns (before: string)
    ensures s == before + TrimStart(s) && AllSpaces(before)
    ensures TrimStart(s) == "" || !IsSpace(TrimStart(s)[0])
  {
    before := "";
    if s != "" && IsSpace(s[0]) {
      before := CutStart(s[1..]);
      before := [s[0]] + before;
    }
  }

  lemma {:induction false} CutEnd(s: string) returns (after: string)
    ensures s == TrimEnd(s) + after && AllSpaces(after)
    ensures TrimEnd(s) == "" || !IsSpace(TrimEnd(s)[|TrimEnd(s)| - 1])
  {
    after := "";
    if s != "" && IsSpace(s[|s| - 1]) {
      after := CutEnd(s[..|s| - 1]);
      after := after + [s[|s| - 1]];
    }
  }

  // ---------------------------------------------------------------------- devices

  /** The i-th device is the first of that name. */
  predicate FirstNamed(devices: seq<string>, lowered: string, i: nat) {
    && i < |devices| && InLowerCase(devices[i]) == lowered
    && forall j :: 0 <= j < i ==> InLowerCase(devices[j]) != lowered
  }

  predicate NoneNamed(devices: seq<string>, lowered: string) {
    forall j :: 0 <= j < |devices| ==> InLowerCase(devices[j]) != lowered
  }

  /** What the short names stand for. */
  function StandsFor(lowered: string): Option<string> {
    if lowered == "metal" then Some("mtl0")
    else if lowered == "metal0" then Some("mtl0")
    else if lowered == "vulkan" then Some("vulkan0")
    else if lowered == "cuda" then Some("cuda0")
    else None
  }

  lemma {:induction false} NoneNamedFrom(devices: seq<string>, lowered: string)
    requires devices != []
    ensures NoneNamed(devices, lowered) <==> InLowerCase(devices[0]) != lowered && NoneNamed(devices[1..], lowered)
  {
    var rest := devices[1..];
    assert forall j :: 0 <= j < |rest| ==> rest[j] == devices[j + 1];
    if InLowerCase(devices[0]) != lowered && NoneNamed(rest, lowered) {
      forall j | 0 <= j < |devices| ensures InLowerCase(devices[j]) != lowered {
        assert j > 0 ==> devices[j] == rest[j - 1];
      }
    }
  }

  lemma {:induction false} FindDeviceIff(devices: seq<string>, requested: string)
    ensures FindDevice(devices, requested) == None <==> NoneNamed(devices, InLowerCase(requested))
    ensures forall i: nat :: FirstNamed(devices, InLowerCase(requested), i) ==>
      FindDevice(devices, requested) == Some(devices[i])
    ensures FindDevice(devices, requested).Some? ==> exists i: nat :: FirstNamed(devices, InLowerCase(requested), i)
  {
    if devices != [] {
      SameLetters(devices[0], requested);
      var (rest, lowered) := (devices[1..], InLowerCase(requested));
      FindDeviceIff(rest, requested);
      if InLowerCase(devices[0]) == lowered {
        assert FirstNamed(devices, lowered, 0);
      } else {
        NoneNamedFrom(devices, lowered);
        forall i: nat | FirstNamed(devices, lowered, i) ensures FindDevice(devices, requested) == Some(devices[i]) {
          assert forall j :: 0 <= j < |rest| ==> rest[j] == devices[j + 1];
          assert FirstNamed(rest, lowered, i - 1);
        }
        if i: nat :| FirstNamed(rest, lowered, i) {
          forall j | 0 <= j < i + 1 ensures InLowerCase(devices[j]) != lowered {
            assert j > 0 ==> devices[j] == rest[j - 1];
          }
          assert FirstNamed(devices, lowered, i + 1);
        }
      }
    }
  }

  lemma {:induction false} AliasIs(requested: string)
    ensures var (alias, long) := (Alias(requested), StandsFor(InLowerCase(requested)));
      (alias == None <==> long == None) && (alias.Some? ==> InLowerCase(alias.value) == long.value)
  {
    SameLetters(requested, "metal");
    SameLetters(requested, "metal0");
    SameLetters(requested, "vulkan");
    SameLetters(requested, "cuda");
    Literals();
  }

  lemma {:induction false} Literals()
    ensures InLowerCase("metal") == "metal" && InLowerCase("metal0") == "metal0"
    ensures InLowerCase("vulkan") == "vulkan" && InLowerCase("cuda") == "cuda"
    ensures InLowerCase("MTL0") == "mtl0" && InLowerCase("vulkan0") == "vulkan0" && InLowerCase("cuda0") == "cuda0"
  {
  }

  /** The device that a text names: the first of that name, or, only where there is
      none, the first of the name that a short name stands for. */
  ghost predicate Names(devices: seq<string>, requested: string, name: string) {
    var lowered := InLowerCase(requested);
    && requested != "" && !Contains(requested, '&')
    && if NoneNamed(devices, lowered) then
         StandsFor(lowered).Some? && exists i: nat :: FirstNamed(devices, StandsFor(lowered).value, i) && devices[i] == name
       else exists i: nat :: FirstNamed(devices, lowered, i) && devices[i] == name
  }

  lemma {:induction false} ResolveDeviceIff(requested: string, devices: seq<string>, name: string)
    ensures ResolveDevice(requested, devices) == Ok(name) <==> Names(devices, requested, name)
  {
    FindDeviceIff(devices, requested);
    AliasIs(requested);
    if Alias(requested).Some? {
      FindDeviceIff(devices, Alias(requested).value);
    }
  }

  // ----------------------------------------------------------- accepted assignments

  /** The text is one part alone, or two around its first equals sign. */
  predicate Reads(item: string, selector: string, target: string) {
    (selector == "" && item == target && !Contains(target, '='))
    || (item == selector + "=" + target && !Contains(selector, '='))
  }

  lemma {:induction false} ReadsOnce(item: string, selector: string, target: string)
    ensures Reads(item, selector, target) <==> (selector, target) == Parsed(item)
  {
    SplitOnceFits(item);
    if Reads(item, selector, target) && Contains(item, '=') {
      SplitOnceOf(selector, '=', target);
      assert selector + ['='] + target == selector + "=" + target;
    } else if Reads(item, selector, target) {
      assert (selector + "=" + target)[|selector|] == '=';
    }
  }

  ghost predicate ItemReads(devices: seq<string>, item: string, normal: string,
                            selector: string, target: string, device: string) {
    && Reads(item, selector, target)
    && selector in {"", "all", "default", "*", "diffusion", "te", "clip_vision", "vae"}
    && (if target == "disk" then device == "disk" else Names(devices, target, device))
    && normal == (if selector == "" then device else selector + "=" + device)
  }

  lemma {:induction false} SelectorsAre(m: string)
    ensures m != "" && !IsParamsModule(m) <==> m !in {"", "all", "default", "*", "diffusion", "te", "clip_vision", "vae"}
  {
  }

  lemma {:induction false} ParamDeviceIff(target: string, devices: seq<string>, device: string)
    ensures ParamDevice(target, devices) == Ok(device) <==>
      if target == "disk" then device == "disk" else Names(devices, target, device)
  {
    ResolveDeviceIff(target, devices, device);
  }

  lemma {:induction false} ParsedItem(item: string, devices: seq<string>, normal: string)
    ensures var (selector, target) := Parsed(item);
      ParamItem(item, devices) == Ok(normal) <==>
        && !(selector != "" && !IsParamsModule(selector)) && ParamDevice(target, devices).Ok?
        && normal == (if selector == "" then ParamDevice(target, devices).value
                      else selector + "=" + ParamDevice(target, devices).value)
  {
  }

  /** An item is accepted exactly with a known selector, or none, and the disk or a
      named device. */
  lemma {:induction false} ParamItemAcceptedIff(item: string, devices: seq<string>, normal: string)
    ensures ParamItem(item, devices) == Ok(normal) <==>
      exists selector, target, device :: ItemReads(devices, item, normal, selector, target, device)
  {
    var (selector, target) := Parsed(item);
    ReadsOnce(item, selector, target);
    ParsedItem(item, devices, normal);
    SelectorsAre(selector);
    if ParamItem(item, devices) == Ok(normal) {
      var device := ParamDevice(target, devices).value;
      ParamDeviceIff(target, devices, device);
      assert ItemReads(devices, item, normal, selector, target, device);
    }
    if m, t, device :| ItemReads(devices, item, normal, m, t, device) {
      ReadsOnce(item, m, t);
      ParamDeviceIff(t, devices, device);
    }
  }

  /** A residency assignment is accepted exactly if it is not blank and all its items
      are; the result lists them in order. */
  lemma {:induction false} ParamsBackendAcceptedIff(assignment: string, devices: seq<string>, r: string)
    ensures ParamsBackend(assignment, devices) == Ok(r) <==>
      && !Blank(assignment)
      && exists normal: seq<string> ::
           && |normal| == |Split(assignment)| && normal != [] && r == Join(normal)
           && forall k :: 0 <= k < |normal| ==> ParamItem(Split(assignment)[k], devices) == Ok(normal[k])
  {
    var items := Split(assignment);
    if ParamItems(items, devices).Ok? {
      TryMapIff(ParamOn(devices), items, ParamItems(items, devices).value);
    }
    if !Blank(assignment) {
      if normal: seq<string> :|
        && |normal| == |items| && normal != [] && r == Join(normal)
        && forall k :: 0 <= k < |normal| ==> ParamItem(items[k], devices) == Ok(normal[k])
      {
        TryMapIff(ParamOn(devices), items, normal);
      }
    }
  }

  predicate LimitReads(item: string, target: string, amount: string) {
    item == target + "=" + amount && !Contains(target, '=')
  }

  /** A memory limit is accepted exactly for a named device that has none yet, with a
      finite amount; the device is then taken. */
  lemma {:induction false} LimitAcceptedIff(so: Limits, item: string, devices: seq<string>, numbers: Numbers,
                                            target: string, amount: string, device: string)
    requires LimitReads(item, target, amount)
    ensures AddLimit(so, item, devices, numbers).Ok? && ResolveDevice(target, devices) == Ok(device) <==>
      Names(devices, target, device) && device !in so.selected && numbers.amount(amount) == Finite
    ensures AddLimit(so, item, devices, numbers).Ok? && Names(devices, target, device) ==>
      AddLimit(so, item, devices, numbers).value
        == Limits(so.selected + {device}, so.entries + [device + "=" + amount])
  {
    ResolveDeviceIff(target, devices, device);
    SplitOnceOf(target, '=', amount);
    assert target + ['='] + amount == item;
  }

  /** Without an equals sign it is not. */
  lemma {:induction false} LimitNeedsEqualsSign(so: Limits, item: string, devices: seq<string>, numbers: Numbers)
    ensures !Contains(item, '=') ==> AddLimit(so, item, devices, numbers) == Err(BadEntry)
  {
    SplitOnceFits(item);
  }

  ghost predicate LimitItem(devices: seq<string>, numbers: Numbers, item: string, name: string) {
    && Contains(item, '=') && Names(devices, Parsed(item).0, name) && numbers.amount(Parsed(item).1) == Finite
  }

  /** The i-th item limits the i-th device, none of them twice, by a finite amount. */
  ghost predicate LimitsRead(items: seq<string>, devices: seq<string>, numbers: Numbers, named: seq<string>) {
    && |named| == |items|
    && (forall k :: 0 <= k < |items| ==> LimitItem(devices, numbers, items[k], named[k]))
    && forall j, k :: 0 <= j < k < |named| ==> named[j] != named[k]
  }

  lemma {:induction false} LimitsReadMore(items: seq<string>, devices: seq<string>, numbers: Numbers, named: seq<string>,
                                          item: string, name: string)
    requires |named| == |items|
    ensures LimitsRead(items + [item], devices, numbers, named + [name]) <==>
      LimitsRead(items, devices, numbers, named) && LimitItem(devices, numbers, item, name) && name !in named
    ensures EntriesRead(items + [item], named + [name]) == EntriesRead(items, named) + [name + "=" + Parsed(item).1]
    ensures NamesIn(named + [name]) == NamesIn(named) + {name}
  {
    var (more, names) := (items + [item], named + [name]);
    assert forall k :: 0 <= k < |items| ==> more[k] == items[k] && names[k] == named[k];
    assert more[|items|] == item && names[|items|] == name;
    if LimitsRead(more, devices, numbers, names) {
      forall k | 0 <= k < |items| ensures LimitItem(devices, numbers, items[k], named[k]) && named[k] != name {
        assert LimitItem(devices, numbers, more[k], names[k]) && names[k] != names[|items|];
      }
      assert LimitItem(devices, numbers, more[|items|], names[|items|]);
    }
  }

  function EntriesRead(items: seq<string>, named: seq<string>): seq<string>
    requires |named| == |items|
  {
    seq(|items|, k requires 0 <= k < |items| => named[k] + "=" + Parsed(items[k]).1)
  }

  function NamesIn(named: seq<string>): set<string> {
    set n | n in named
  }

  /** One item more is accepted exactly on those terms. */
  lemma {:induction false} OneLimitMore(so: Limits, item: string, devices: seq<string>, numbers: Numbers, device: string)
    ensures AddLimit(so, item, devices, numbers).Ok? && ResolveDevice(Parsed(item).0, devices) == Ok(device) <==>
      LimitItem(devices, numbers, item, device) && device !in so.selected
    ensures AddLimit(so, item, devices, numbers).Ok? && LimitItem(devices, numbers, item, device) ==>
      AddLimit(so, item, devices, numbers).value
        == Limits(so.selected + {device}, so.entries + [device + "=" + Parsed(item).1])
  {
    SplitOnceFits(item);
    if Contains(item, '=') {
      LimitAcceptedIff(so, item, devices, numbers, Parsed(item).0, Parsed(item).1, device);
    } else {
      LimitNeedsEqualsSign(so, item, devices, numbers);
    }
  }

  lemma {:induction false} AddedLast(items: seq<string>, item: string, devices: seq<string>, numbers: Numbers)
    ensures AddLimits(items + [item], devices, numbers) ==
      var rest := AddLimits(items, devices, numbers);
      if rest.Err? then rest else AddLimit(rest.value, item, devices, numbers)
  {
    assert (items + [item])[..|items|] == items;
  }

  lemma {:induction false} OneReadMore(items: seq<string>, devices: seq<string>, numbers: Numbers, named: seq<string>,
                                       item: string, name: string)
    requires |named| == |items|
    requires AddLimits(items, devices, numbers) == Ok(Limits(NamesIn(named), EntriesRead(items, named)))
    requires LimitItem(devices, numbers, item, name) && name !in named
    ensures AddLimits(items + [item], devices, numbers)
      == Ok(Limits(NamesIn(named + [name]), EntriesRead(items + [item], named + [name])))
  {
    LimitsReadMore(items, devices, numbers, named, item, name);
    OneLimitMore(Limits(NamesIn(named), EntriesRead(items, named)), item, devices, numbers, name);
    AddedLast(items, item, devices, numbers);
  }

  lemma {:induction false} LimitsReadAre(items: seq<string>, devices: seq<string>, numbers: Numbers, named: seq<string>)
    requires LimitsRead(items, devices, numbers, named)
    ensures AddLimits(items, devices, numbers) == Ok(Limits(NamesIn(named), EntriesRead(items, named)))
  {
    if items == [] {
      assert NamesIn(named) == {} && EntriesRead(items, named) == [];
    } else {
      var (n, item, name) := (|items| - 1, items[|items| - 1], named[|items| - 1]);
      assert items == items[..n] + [item] && named == named[..n] + [name];
      LimitsReadMore(items[..n], devices, numbers, named[..n], item, name);
      LimitsReadAre(items[..n], devices, numbers, named[..n]);
      OneReadMore(items[..n], devices, numbers, named[..n], item, name);
    }
  }

  lemma {:induction false} AcceptedLimitsRead(items: seq<string>, devices: seq<string>, numbers: Numbers)
    returns (named: seq<string>)
    requires AddLimits(items, devices, numbers).Ok?
    ensures LimitsRead(items, devices, numbers, named)
  {
    named := [];
    if items != [] {
      var (n, item) := (|items| - 1, items[|items| - 1]);
      assert items == items[..n] + [item];
      AddedLast(items[..n], item, devices, numbers);
      named := AcceptedLimitsRead(items[..n], devices, numbers);
      LimitsReadAre(items[..n], devices, numbers, named);
      var name := AcceptedName(AddLimits(items[..n], devices, numbers).value, item, devices, numbers);
      LimitsReadMore(items[..n], devices, numbers, named, item, name);
      named := named + [name];
    }
  }

  lemma {:induction false} AcceptedName(so: Limits, item: string, devices: seq<string>, numbers: Numbers)
    returns (name: string)
    requires AddLimit(so, item, devices, numbers).Ok?
    ensures LimitItem(devices, numbers, item, name) && name !in so.selected
  {
    SplitOnceFits(item);
    LimitNeedsEqualsSign(so, item, devices, numbers);
    name := ResolveDevice(Parsed(item).0, devices).value;
    OneLimitMore(so, item, devices, numbers, name);
  }

  /** A memory limit is accepted exactly if it is not blank and either one positive
      number or limits for named devices, none twice; the result lists those. */
  lemma {:induction false} MaxVramAcceptedIff(assignment: string, devices: seq<string>, numbers: Numbers, r: string)
    ensures MaxVram(assignment, devices, numbers) == Ok(r) <==>
      && !Blank(assignment)
      && if !Contains(assignment, '=') then numbers.scalar(assignment) && r == assignment
         else exists named ::
           LimitsRead(Split(assignment), devices, numbers, named) && r == Join(EntriesRead(Split(assignment), named))
  {
    var items := Split(assignment);
    if AddLimits(items, devices, numbers).Ok? {
      var named := AcceptedLimitsRead(items, devices, numbers);
      LimitsReadAre(items, devices, numbers, named);
    }
    forall named | LimitsRead(items, devices, numbers, named)
      ensures AddLimits(items, devices, numbers) == Ok(Limits(NamesIn(named), EntriesRead(items, named)))
    {
      LimitsReadAre(items, devices, numbers, named);
    }
  }

  /** Blank, tab, line feed, vertical tab, form feed and carriage return. */
  lemma {:induction false} SpacesAre(c: char)
    ensures IsSpace(c) <==> c as int in {32, 9, 10, 11, 12, 13}
  {
  }

  // ------------------------------------------------------------- the parser's choice

  /** The trimmed part gives the default, bare or under one of its keys. */
  ghost predicate GivesDefault(part: string, value: string) {
    || (part != "" && !Contains(part, '=') && value == part)
    || exists key, v ::
         && part == key + "=" + v && !Contains(key, '=') && value == Trim(v)
         && (InLowerCase(Trim(key)) in {"all", "default"} || Trim(key) == "*")
  }

  ghost predicate GivesDiffusion(part: string, value: string) {
    exists key, v ::
      && part == key + "=" + v && !Contains(key, '=') && value == Trim(v)
      && InLowerCase(Trim(key)) in {"diffusion", "model", "unet", "dit"}
  }

  lemma {:induction false} KeysAre(key: string)
    ensures IsDefaultKey(key) <==> InLowerCase(key) in {"all", "default"} || key == "*"
    ensures IsDiffusionKey(key) <==> InLowerCase(key) in {"diffusion", "model", "unet", "dit"}
  {
    SameLetters(key, "all");
    SameLetters(key, "default");
    SameLetters(key, "diffusion");
    SameLetters(key, "model");
    SameLetters(key, "unet");
    SameLetters(key, "dit");
    assert InLowerCase("all") == "all" && InLowerCase("default") == "default";
    assert InLowerCase("diffusion") == "diffusion" && InLowerCase("model") == "model";
    assert InLowerCase("unet") == "unet" && InLowerCase("dit") == "dit";
  }

  lemma {:induction false} PartGives(b: Backends, part: string)
    ensures forall v :: GivesDefault(part, v) ==> Applied(b, part).default == v
    ensures forall v :: GivesDiffusion(part, v) ==> Applied(b, part).diffusion == v
    ensures (forall v :: !GivesDefault(part, v)) ==> Applied(b, part).default == b.default
    ensures (forall v :: !GivesDiffusion(part, v)) ==> Applied(b, part).diffusion == b.diffusion
  {
    SplitOnceFits(part);
    var (key, value) := Parsed(part);
    KeysAre(Trim(key));
    forall k, v | part == k + "=" + v && !Contains(k, '=') ensures k == key && v == value && Contains(part, '=') {
      assert part[|k|] == '=';
      ReadsOnce(part, k, v);
    }
    if Contains(part, '=') {
      assert part == key + "=" + value;
      assert part != "";
      if IsDefaultKey(Trim(key)) {
        assert GivesDefault(part, Trim(value));
      }
      if IsDiffusionKey(Trim(key)) {
        assert GivesDiffusion(part, Trim(value));
      }
    } else if part != "" {
      assert GivesDefault(part, part);
    }
  }

  ghost predicate NoDefaultIn(parts: seq<string>) {
    forall p, v :: p in parts ==> !GivesDefault(Trim(p), v)
  }

  ghost predicate NoDiffusionIn(parts: seq<string>) {
    forall p, v :: p in parts ==> !GivesDiffusion(Trim(p), v)
  }

  lemma {:induction false} DefaultKept(b: Backends, parts: seq<string>)
    requires NoDefaultIn(parts)
    ensures AppliedAll(b, parts).default == b.default
    decreases |parts|
  {
    if parts != [] {
      PartGives(b, Trim(parts[0]));
      DefaultKept(Applied(b, Trim(parts[0])), parts[1..]);
    }
  }

  lemma {:induction false} DiffusionKept(b: Backends, parts: seq<string>)
    requires NoDiffusionIn(parts)
    ensures AppliedAll(b, parts).diffusion == b.diffusion
    decreases |parts|
  {
    if parts != [] {
      PartGives(b, Trim(parts[0]));
      DiffusionKept(Applied(b, Trim(parts[0])), parts[1..]);
    }
  }

  /** Of several parts that give the default, the last one counts. */
  lemma {:induction false} LastDefaultCounts(b: Backends, before: seq<string>, part: string, after: seq<string>, v: string)
    requires GivesDefault(Trim(part), v) && NoDefaultIn(after)
    ensures AppliedAll(b, before + ([part] + after)).default == v
    decreases |before|
  {
    if before == [] {
      assert before + ([part] + after) == [part] + after && ([part] + after)[1..] == after;
      PartGives(b, Trim(part));
      DefaultKept(Applied(b, Trim(part)), after);
    } else {
      assert (before + ([part] + after))[1..] == before[1..] + ([part] + after);
      LastDefaultCounts(Applied(b, Trim(before[0])), before[1..], part, after, v);
    }
  }

  /** And so for the diffusion backend. */
  lemma {:induction false} LastDiffusionCounts(b: Backends, before: seq<string>, part: string, after: seq<string>,
                                               v: string)
    requires GivesDiffusion(Trim(part), v) && NoDiffusionIn(after)
    ensures AppliedAll(b, before + ([part] + after)).diffusion == v
    decreases |before|
  {
    if before == [] {
      assert before + ([part] + after) == [part] + after && ([part] + after)[1..] == after;
      PartGives(b, Trim(part));
      DiffusionKept(Applied(b, Trim(part)), after);
    } else {
      assert (before + ([part] + after))[1..] == before[1..] + ([part] + after);
      LastDiffusionCounts(Applied(b, Trim(before[0])), before[1..], part, after, v);
    }
  }

  /** What the parser returns: a diffusion backend unless that is empty, else the
      default. */
  lemma {:induction false} DiffusionIsPreferred(b: Backends)
    ensures b.diffusion != "" ==> Picked(b) == b.diffusion
    ensures b.diffusion == "" ==> Picked(b) == b.default
  {
  }
}
