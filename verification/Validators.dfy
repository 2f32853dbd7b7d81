/** Normalising validators of parameter residency and memory limits. */
module Validators {
  import opened Common
  import opened Text
  import opened BackendSpec
  import opened Lists

  /** `trim().is_empty()`. */
  predicate Blank(s: string) {
    forall i :: 0 <= i < |s| ==> IsSpace(s[i])
  }

  /** The numeric syntax is the standard library's: `scalar` accepts positive
      32-bit integers; `amount` tells what parsing a float yields. */
  datatype Number = NotANumber | Infinite | Finite

  datatype Numbers = Numbers(scalar: string -> bool, amount: string -> Number)

  predicate IsParamsModule(m: string) {
    m == "all" || m == "default" || m == "*" || IsModule(m)
  }

  // ------------------------------------------------------------- params_backend

  /** Device part of an item. */
  function ParamDevice(requested: string, devices: seq<string>): Result<string, Invalid> {
    if requested == "disk" then Ok("disk") else ResolveDevice(requested, devices)
  }

  function ParamItem(item: string, devices: seq<string>): Result<string, Invalid> {
    var pair := SplitOnce(item, '=');
    var (m, requested) := if pair.Some? then pair.value else ("", item);
    if m != "" && !IsParamsModule(m) then Err(BadModule)
    else
      var device := ParamDevice(requested, devices);
      if device.Err? then Err(device.error)
      else Ok(if m == "" then device.value else m + "=" + device.value)
  }

  function ParamOn(devices: seq<string>): string -> Result<string, Invalid> {
    (item: string) => ParamItem(item, devices)
  }

  function ParamItems(items: seq<string>, devices: seq<string>): Result<seq<string>, Invalid> {
    TryMap(ParamOn(devices), items)
  }

  function ParamsBackend(assignment: string, devices: seq<string>): Result<string, Invalid> {
    if Blank(assignment) then Err(EmptyAssignment)
    else
      var items := ParamItems(Split(assignment), devices);
      if items.Err? then Err(items.error)
      else if items.value == [] then Ok("")
      else Ok(Join(items.value))
  }

  /** `validate_params_backend`: collects the normalised items, then joins them. */
  method ValidateParamsBackend(assignment: string, devices: seq<string>) returns (r: Result<string, Invalid>)
    ensures r == ParamsBackend(assignment, devices)
  {
    if Blank(assignment) {
      return Err(EmptyAssignment);
    }
    var items := Split(assignment);
    var normalized: seq<string> := [];
    for i := 0 to |items|
      invariant ParamItems(items[..i], devices) == Ok(normalized)
      invariant |normalized| == i
    {
      TryMapNext(ParamOn(devices), items, i);
      var item := ParamItem(items[i], devices);
      if item.Err? {
        TryMapErrorStays(ParamOn(devices), items, i + 1);
        return Err(item.error);
      }
      normalized := normalized + [item.value];
    }
    assert items[..|items|] == items;
    return Ok(Join(normalized));
  }

  /** Selector and requested device of an item. */
  function Parsed(item: string): (string, string) {
    var pair := SplitOnce(item, '=');
    if pair.Some? then pair.value else ("", item)
  }

  lemma {:induction false} ParamDeviceIsFixed(requested: string, devices: seq<string>)
    requires ParamDevice(requested, devices).Ok?
    ensures var name := ParamDevice(requested, devices).value;
      name != "" && ParamDevice(name, devices) == Ok(name)
      && (!Contains(requested, ',') ==> !Contains(name, ','))
      && (!Contains(requested, '=') ==> !Contains(name, '='))
  {
    if requested != "disk" {
      ResolvedIsFixed(requested, devices);
      if !Contains(requested, ',') {
        ResolvedHasNoMark(requested, devices, ',');
      }
      if !Contains(requested, '=') {
        ResolvedHasNoMark(requested, devices, '=');
      }
    }
  }

  lemma {:induction false} SelectedItem(m: string, name: string, devices: seq<string>)
    requires IsParamsModule(m) && ParamDevice(name, devices) == Ok(name)
    ensures ParamItem(m + "=" + name, devices) == Ok(m + "=" + name)
    ensures !Contains(name, ',') ==> !Contains(m + "=" + name, ',')
  {
    SelectorShape(m);
    SplitOnceOf(m, '=', name);
    assert m + ['='] + name == m + "=" + name;
  }

  lemma {:induction false} SelectorShape(m: string)
    requires IsParamsModule(m)
    ensures m != "" && !Contains(m, '=') && !Contains(m, ',')
  {
  }

  /** An item survives its own normal form unless it starts with an equals sign and
      names a device with another one in it, which then reads as a selector. */
  predicate Survives(item: string, devices: seq<string>)
    requires ParamItem(item, devices).Ok? && item != ""
  {
    var name := ParamItem(item, devices).value;
    item[0] != '=' || !Contains(name, '=')
    || (var (m, requested) := Parsed(name);
        m != "" && IsParamsModule(m) && ParamDevice(requested, devices) == Ok(requested))
  }

  lemma {:induction false} SplitOnceFits(s: string)
    ensures var (m, rest) := Parsed(s);
      && |rest| <= |s| && !Contains(m, '=')
      && (Contains(s, '=') ==> s == m + "=" + rest)
      && (!Contains(s, '=') ==> m == "" && rest == s)
      && (m != "" ==> Contains(s, '='))
  {
    var i := IndexOf(s, '=');
    if i < |s| {
      assert s == s[..i] + "=" + s[i + 1..];
    } else {
      assert !Contains(s, '=');
    }
  }

  /** Exactly the surviving items normalise to themselves. */
  lemma {:induction false} ParamItemIsFixedIff(item: string, devices: seq<string>)
    requires ParamItem(item, devices).Ok?
    ensures item != ""
    ensures var r := ParamItem(item, devices).value;
      r != "" && (ParamItem(r, devices) == Ok(r) <==> Survives(item, devices))
  {
    var (m, requested) := Parsed(item);
    SplitOnceFits(item);
    ParamDeviceIsFixed(requested, devices);
    var name := ParamDevice(requested, devices).value;
    if m != "" {
      SelectedItem(m, name, devices);
    } else if !Contains(name, '=') {
      BareItem(name, devices);
    } else {
      MarkedName(name, devices);
      if item[0] != '=' {
        ResolvedFromPlain(item, requested, devices);
      }
    }
  }

  lemma {:induction false} BareItem(name: string, devices: seq<string>)
    requires !Contains(name, '=') && ParamDevice(name, devices) == Ok(name)
    ensures ParamItem(name, devices) == Ok(name)
  {
    IndexOfIs(name, '=', |name|);
  }

  /** Only a leading equals sign lets a device name with one through. */
  lemma {:induction false} ResolvedFromPlain(item: string, requested: string, devices: seq<string>)
    requires item != "" && item[0] != '=' && Parsed(item) == ("", requested)
    ensures !Contains(requested, '=')
  {
    SplitOnceFits(item);
  }

  /** A name with an equals sign, read as an item. */
  lemma {:induction false} MarkedName(name: string, devices: seq<string>)
    requires Contains(name, '=')
    ensures var (m, requested) := Parsed(name);
      ParamItem(name, devices) == Ok(name) <==>
        m != "" && IsParamsModule(m) && ParamDevice(requested, devices) == Ok(requested)
  {
    var (m, requested) := Parsed(name);
    SplitOnceFits(name);
    if m == "" {
      DeviceIsShorter(requested, devices);
    }
  }

  /** A lookup that changes the length went through an alias, a word. */
  lemma {:induction false} AliasIsAWord(requested: string, devices: seq<string>)
    requires ParamDevice(requested, devices).Ok?
    ensures var name := ParamDevice(requested, devices).value;
      |name| != |requested| ==> name != "" && name[0] != '='
  {
    var name := ParamDevice(requested, devices).value;
    if |name| != |requested| {
      var alias := Alias(requested);
      assert EqualsIgnoreCase(name, alias.value);
      assert Lower(name[0]) == Lower(alias.value[0]);
    }
  }

  /** No lookup puts an equals sign in front. */
  lemma {:induction false} DeviceIsShorter(requested: string, devices: seq<string>)
    ensures ParamDevice(requested, devices) != Ok("=" + requested)
  {
    if ParamDevice(requested, devices).Ok? {
      AliasIsAWord(requested, devices);
      assert ("=" + requested)[0] == '=';
    }
  }

  lemma {:induction false} ItemsNormalised(items: seq<string>, devices: seq<string>)
    requires ParamItems(items, devices).Ok? && CommaFree(items)
    ensures var r := ParamItems(items, devices).value;
      && |r| == |items| && CommaFree(r)
      && forall k :: 0 <= k < |items| ==> ParamItem(items[k], devices) == Ok(r[k])
  {
    var r := ParamItems(items, devices).value;
    TryMapIff(ParamOn(devices), items, r);
    forall k | 0 <= k < |r| ensures !Contains(r[k], ',') {
      ItemHasNoComma(items[k], devices);
    }
  }

  lemma {:induction false} ItemHasNoComma(item: string, devices: seq<string>)
    requires ParamItem(item, devices).Ok? && !Contains(item, ',')
    ensures !Contains(ParamItem(item, devices).value, ',')
  {
    var (m, requested) := Parsed(item);
    SplitOnceFits(item);
    PartsKeepMarks(m, requested, ',');
    ParamDeviceIsFixed(requested, devices);
  }

  lemma {:induction false} PartsKeepMarks(a: string, b: string, mark: char)
    ensures Contains(a, mark) || Contains(b, mark) ==> Contains(a + "=" + b, mark)
  {
    var s := a + "=" + b;
    if Contains(a, mark) {
      var i :| 0 <= i < |a| && a[i] == mark;
      assert s[i] == mark;
    } else if Contains(b, mark) {
      var i :| 0 <= i < |b| && b[i] == mark;
      assert s[|a| + 1 + i] == mark;
    }
  }

  /** Every item of the assignment survives. */
  predicate AllSurvive(items: seq<string>, devices: seq<string>) {
    forall k :: 0 <= k < |items| ==>
      ParamItem(items[k], devices).Ok? && items[k] != "" && Survives(items[k], devices)
  }

  /** A different result for the items is a different text. */
  lemma {:induction false} OtherItemsJoinOtherwise(normal: seq<string>, devices: seq<string>)
    requires normal != [] && CommaFree(normal) && ParamItems(normal, devices).Ok?
    ensures Join(ParamItems(normal, devices).value) == Join(normal) ==> ParamItems(normal, devices) == Ok(normal)
  {
    ItemsNormalised(normal, devices);
    SplitJoin(normal);
    SplitJoin(ParamItems(normal, devices).value);
  }

  /** A joined list validates to itself exactly when all its items do. */
  lemma {:induction false} JoinedIsFixedIff(normal: seq<string>, devices: seq<string>)
    requires normal != [] && CommaFree(normal)
    ensures ParamsBackend(Join(normal), devices) == Ok(Join(normal))
      <==> !Blank(Join(normal)) && ParamItems(normal, devices) == Ok(normal)
  {
    SplitJoin(normal);
    if ParamItems(normal, devices).Ok? {
      ItemsNormalised(normal, devices);
      OtherItemsJoinOtherwise(normal, devices);
    }
  }

  lemma {:induction false} NormalIsFixedIff(items: seq<string>, normal: seq<string>, devices: seq<string>)
    requires CommaFree(items) && ParamItems(items, devices) == Ok(normal)
    ensures ParamItems(normal, devices) == Ok(normal) <==> AllSurvive(items, devices)
  {
    ItemsNormalised(items, devices);
    TryMapIff(ParamOn(devices), normal, normal);
    forall k | 0 <= k < |items|
      ensures items[k] != "" && (ParamItem(normal[k], devices) == Ok(normal[k]) <==> Survives(items[k], devices))
    {
      ParamItemIsFixedIff(items[k], devices);
    }
  }

  /** Validating a normalised residency assignment again returns it unchanged
      exactly when it is not blank and every item survives, whatever the devices
      are called. */
  lemma {:induction false} ParamsBackendIsFixedIff(assignment: string, devices: seq<string>)
    requires ParamsBackend(assignment, devices).Ok?
    ensures var r := ParamsBackend(assignment, devices).value;
      ParamsBackend(r, devices) == Ok(r) <==> !Blank(r) && AllSurvive(Split(assignment), devices)
  {
    var items := Split(assignment);
    var normal := ParamItems(items, devices).value;
    ItemsNormalised(items, devices);
    NormalIsFixedIff(items, normal, devices);
    JoinedIsFixedIff(normal, devices);
  }

  lemma {:induction false} PlainItem(item: string, devices: seq<string>)
    requires forall d :: d in devices ==> !Contains(d, '=') && !Blank(d)
    requires ParamItem(item, devices).Ok?
    ensures item != "" && Survives(item, devices) && !Blank(ParamItem(item, devices).value)
  {
    var (m, requested) := Parsed(item);
    SplitOnceFits(item);
    ParamItemIsFixedIff(item, devices);
    var name := ParamDevice(requested, devices).value;
    if requested != "disk" {
      ResolvedIsFixed(requested, devices);
    }
    assert "disk"[0] == 'd';
    if m != "" {
      SelectorShape(m);
      assert (m + "=" + name)[|m|] == '=';
    }
  }

  lemma {:induction false} PlainItems(items: seq<string>, devices: seq<string>)
    requires forall d :: d in devices ==> !Contains(d, '=') && !Blank(d)
    requires forall k :: 0 <= k < |items| ==> ParamItem(items[k], devices).Ok?
    ensures AllSurvive(items, devices)
  {
    forall k | 0 <= k < |items| ensures items[k] != "" && Survives(items[k], devices) {
      PlainItem(items[k], devices);
    }
  }

  /** For device names without an equals sign, and not of spaces alone, that is
      always so. */
  lemma {:induction false} ParamsBackendIsFixed(assignment: string, devices: seq<string>)
    requires forall d :: d in devices ==> !Contains(d, '=') && !Blank(d)
    requires ParamsBackend(assignment, devices).Ok?
    ensures var r := ParamsBackend(assignment, devices).value;
      ParamsBackend(r, devices) == Ok(r)
  {
    var items := Split(assignment);
    ItemsNormalised(items, devices);
    PlainItems(items, devices);
    PlainItem(items[0], devices);
    JoinIsNotBlank(ParamItems(items, devices).value);
    ParamsBackendIsFixedIff(assignment, devices);
  }

  /** Joined items of which one is not blank are not blank. */
  lemma {:induction false} JoinIsNotBlank(items: seq<string>)
    requires items != [] && !Blank(items[0])
    ensures !Blank(Join(items))
  {
    var i :| 0 <= i < |items[0]| && !IsSpace(items[0][i]);
    assert Join(items)[i] == items[0][i];
  }

  /** With one device "m=d", where `m` is no selector, "=m=d" is accepted and its
      normal form "m=d" rejected: it now selects a module. */
  lemma {:induction false} EqualsSignIsNotFixed(m: string, d: string)
    requires m != "" && !IsParamsModule(m) && !Contains(m, '=') && !IsSpace(m[0])
    requires !Contains(m + "=" + d, ',') && !Contains(m + "=" + d, '&')
    ensures var name := m + "=" + d;
      ParamsBackend("=" + name, [name]) == Ok(name) && ParamsBackend(name, [name]) == Err(BadModule)
  {
    var name := m + "=" + d;
    SplitOnceOf("", '=', name);
    assert "" + ['='] + name == "=" + name;
    SplitOnceOf(m, '=', d);
    assert m + ['='] + d == name && name[0] == m[0] && ("=" + name)[0] == '=';
    SingleItem("=" + name, [name]);
    SingleItem(name, [name]);
  }

  lemma {:induction false} SingleItem(item: string, devices: seq<string>)
    requires !Contains(item, ',') && !Blank(item)
    ensures ParamsBackend(item, devices) == ParamItem(item, devices)
  {
    IndexOfIs(item, ',', |item|);
    assert Split(item) == [item];
    assert [item][..0] == [];
    assert ParamItems([item][..0], devices) == Ok([]);
    if ParamItem(item, devices).Ok? {
      var v := ParamItem(item, devices).value;
      assert [] + [v] == [v];
      assert ParamItems([item], devices) == Ok([v]);
    }
  }

  // ------------------------------------------------------------------- max_vram

  /** Devices selected so far and the entries they became. */
  datatype Limits = Limits(selected: set<string>, entries: seq<string>)

  function AddLimit(so: Limits, item: string, devices: seq<string>, numbers: Numbers): Result<Limits, Invalid> {
    var pair := SplitOnce(item, '=');
    if pair == None then Err(BadEntry)
    else
      var (requested, amount) := pair.value;
      var device := ResolveDevice(requested, devices);
      if device.Err? then Err(device.error)
      else if device.value in so.selected then Err(Repeated)
      else if numbers.amount(amount) != Finite then Err(BadAmount)
      else Ok(Limits(so.selected + {device.value}, so.entries + [device.value + "=" + amount]))
  }

  function AddTo(devices: seq<string>, numbers: Numbers): (Limits, string) -> Result<Limits, Invalid> {
    (so: Limits, item: string) => AddLimit(so, item, devices, numbers)
  }

  function AddLimits(items: seq<string>, devices: seq<string>, numbers: Numbers): Result<Limits, Invalid> {
    TryFold(AddTo(devices, numbers), Limits({}, []), items)
  }

  function MaxVram(assignment: string, devices: seq<string>, numbers: Numbers): Result<string, Invalid> {
    if Blank(assignment) then Err(EmptyAssignment)
    else if !Contains(assignment, '=') then
      if numbers.scalar(assignment) then Ok(assignment) else Err(BadAmount)
    else
      var limits := AddLimits(Split(assignment), devices, numbers);
      if limits.Err? then Err(limits.error)
      else if limits.value.entries == [] then Ok("")
      else Ok(Join(limits.value.entries))
  }

  /** `validate_max_vram`. */
  method ValidateMaxVram(assignment: string, devices: seq<string>, numbers: Numbers)
    returns (r: Result<string, Invalid>)
    ensures r == MaxVram(assignment, devices, numbers)
  {
    if Blank(assignment) {
      return Err(EmptyAssignment);
    }
    if !Contains(assignment, '=') {
      return if numbers.scalar(assignment) then Ok(assignment) else Err(BadAmount);
    }
    var items := Split(assignment);
    var limits := Limits({}, []);
    for i := 0 to |items|
      invariant AddLimits(items[..i], devices, numbers) == Ok(limits)
      invariant |limits.entries| == i
    {
      TryFoldNext(AddTo(devices, numbers), Limits({}, []), items, i);
      var next := AddLimit(limits, items[i], devices, numbers);
      if next.Err? {
        TryFoldErrorStays(AddTo(devices, numbers), Limits({}, []), items, i + 1);
        return Err(next.error);
      }
      limits := next.value;
    }
    assert items[..|items|] == items;
    return Ok(Join(limits.entries));
  }

  /** A normalised entry adds itself again. */
  lemma {:induction false} LimitIsFixed(so: Limits, item: string, devices: seq<string>, numbers: Numbers)
    requires AddLimit(so, item, devices, numbers).Ok? && !Contains(item, ',')
    ensures var after := AddLimit(so, item, devices, numbers).value;
      && |after.entries| == |so.entries| + 1 && after.entries[..|so.entries|] == so.entries
      && var entry := after.entries[|so.entries|];
      !Contains(entry, ',') && Contains(entry, '=')
      && AddLimit(so, entry, devices, numbers) == Ok(after)
  {
    var (requested, amount) := SplitOnce(item, '=').value;
    SplitOnceFits(item);
    PartsKeepMarks(requested, amount, ',');
    ResolvedIsFixed(requested, devices);
    ResolvedHasNoMark(requested, devices, '=');
    ResolvedHasNoMark(requested, devices, ',');
    var name := ResolveDevice(requested, devices).value;
    SplitOnceOf(name, '=', amount);
    assert name + ['='] + amount == name + "=" + amount;
    var entry := name + "=" + amount;
    assert entry[|name|] == '=';
  }

  lemma {:induction false} LimitsAreFixed(items: seq<string>, devices: seq<string>, numbers: Numbers)
    requires AddLimits(items, devices, numbers).Ok? && CommaFree(items)
    ensures var limits := AddLimits(items, devices, numbers).value;
      && |limits.entries| == |items| && CommaFree(limits.entries)
      && AddLimits(limits.entries, devices, numbers) == Ok(limits)
      && forall k :: 0 <= k < |items| ==> Contains(limits.entries[k], '=')
  {
    if items != [] {
      var n := |items| - 1;
      LimitsAreFixed(items[..n], devices, numbers);
      LimitIsFixed(AddLimits(items[..n], devices, numbers).value, items[n], devices, numbers);
    }
  }

  /** Validating a normalised memory limit again returns it unchanged, whatever the
      devices are called. */
  lemma {:induction false} MaxVramIsFixed(assignment: string, devices: seq<string>, numbers: Numbers)
    requires MaxVram(assignment, devices, numbers).Ok?
    ensures var r := MaxVram(assignment, devices, numbers).value;
      MaxVram(r, devices, numbers) == Ok(r)
  {
    if Contains(assignment, '=') {
      LimitsAreFixed(Split(assignment), devices, numbers);
      var entries := AddLimits(Split(assignment), devices, numbers).value.entries;
      SplitJoin(entries);
      JoinKeeps(entries);
    }
  }

  lemma {:induction false} JoinKeeps(items: seq<string>)
    requires items != [] && Contains(items[0], '=')
    ensures Contains(Join(items), '=') && !Blank(Join(items))
  {
    var i :| 0 <= i < |items[0]| && items[0][i] == '=';
    assert Join(items)[i] == '=';
  }

  /** No device is limited twice, so each selected one has one entry. */
  lemma {:induction false} LimitsAreDistinct(items: seq<string>, devices: seq<string>, numbers: Numbers)
    requires AddLimits(items, devices, numbers).Ok?
    ensures var limits := AddLimits(items, devices, numbers).value;
      |limits.selected| == |items| && |limits.entries| == |items|
      && forall d :: d in limits.selected ==> d in devices
  {
    if items != [] {
      LimitsAreDistinct(items[..|items| - 1], devices, numbers);
      ResolvedIsFixed(SplitOnce(items[|items| - 1], '=').value.0, devices);
    }
  }
}
