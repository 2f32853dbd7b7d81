/** From a model directory to the file list that is hashed, and back: the digest
    input determines the directory. */
module ModelTree {
  import opened Common
  import opened Models

  const SLASH: byte := 47

  /** The entries of a directory in listing order, which the source sorts by name. */
  datatype Tree =
    | Nil
    | File(name: Bytes, content: Bytes, rest: Tree)
    | Dir(name: Bytes, sub: Tree, rest: Tree)

  /** `collect_model_files`: regular files with their relative paths, depth first. */
  function Collect(prefix: Bytes, t: Tree): seq<ModelFile>
    decreases t
  {
    match t
    case Nil => []
    case File(name, content, rest) => [ModelFile(prefix + name, content)] + Collect(prefix, rest)
    case Dir(name, sub, rest) => Collect(prefix + name + [SLASH], sub) + Collect(prefix, rest)
  }

  /** What the first entry contributes. */
  function Group(prefix: Bytes, t: Tree): seq<ModelFile>
    requires t != Nil
  {
    if t.File? then [ModelFile(prefix + t.name, t.content)] else Collect(prefix + t.name + [SLASH], t.sub)
  }

  predicate NamedIn(name: Bytes, t: Tree) {
    match t
    case Nil => false
    case File(n, _, rest) => n == name || NamedIn(name, rest)
    case Dir(n, _, rest) => n == name || NamedIn(name, rest)
  }

  /** File system names hold no slash and do not repeat in one directory. */
  predicate ProperName(name: Bytes, rest: Tree) {
    SLASH !in name && !NamedIn(name, rest)
  }

  /** No directory in it is empty. */
  predicate Proper(t: Tree) {
    match t
    case Nil => true
    case File(name, _, rest) => ProperName(name, rest) && Proper(rest)
    case Dir(name, sub, rest) => ProperName(name, rest) && sub != Nil && Proper(sub) && Proper(rest)
  }

  /** The path of the entry `name`, or one below it. */
  predicate Under(prefix: Bytes, name: Bytes, path: Bytes) {
    && prefix + name <= path
    && (|path| > |prefix + name| ==> path[|prefix + name|] == SLASH)
  }

  lemma {:induction false} SlashInside(prefix: Bytes, a: Bytes, b: Bytes, path: Bytes)
    requires Under(prefix, a, path) && Under(prefix, b, path) && |a| < |b|
    ensures SLASH in b
  {
    assert b[|a|] == (prefix + b)[|prefix + a|] == path[|prefix + a|];
  }

  lemma {:induction false} UnderOneOnly(prefix: Bytes, a: Bytes, b: Bytes, path: Bytes)
    requires Under(prefix, a, path) && Under(prefix, b, path) && SLASH !in a && SLASH !in b
    ensures a == b
  {
    if |a| < |b| {
      SlashInside(prefix, a, b, path);
    } else if |b| < |a| {
      SlashInside(prefix, b, a, path);
    } else {
      assert a == (prefix + a)[|prefix|..] == path[..|prefix + a|][|prefix|..];
      assert b == (prefix + b)[|prefix|..] == path[..|prefix + b|][|prefix|..];
    }
  }

  lemma {:induction false} PrefixStays(prefix: Bytes, t: Tree)
    ensures forall i :: 0 <= i < |Collect(prefix, t)| ==> prefix <= Collect(prefix, t)[i].name
    decreases t
  {
    match t {
      case Nil =>
      case File(name, _, rest) => PrefixStays(prefix, rest);
      case Dir(name, sub, rest) =>
        PrefixStays(prefix + name + [SLASH], sub);
        PrefixStays(prefix, rest);
    }
  }

  lemma {:induction false} BelowIsUnder(prefix: Bytes, name: Bytes, path: Bytes)
    requires prefix + name + [SLASH] <= path
    ensures Under(prefix, name, path) && |path| > |prefix + name|
  {
    var n := |prefix + name|;
    assert path[..n] == (prefix + name + [SLASH])[..n] == prefix + name;
    assert path[n] == (prefix + name + [SLASH])[n];
  }

  /** Everything a subdirectory contributes lies under its name. */
  lemma {:induction false} SubIsUnder(prefix: Bytes, name: Bytes, sub: Tree, group: seq<ModelFile>)
    requires group == Collect(prefix + name + [SLASH], sub)
    ensures forall i :: 0 <= i < |group| ==> Under(prefix, name, group[i].name) && |group[i].name| > |prefix + name|
  {
    PrefixStays(prefix + name + [SLASH], sub);
    forall i | 0 <= i < |group|
      ensures Under(prefix, name, group[i].name) && |group[i].name| > |prefix + name|
    {
      assert prefix + name + [SLASH] <= Collect(prefix + name + [SLASH], sub)[i].name;
      BelowIsUnder(prefix, name, group[i].name);
    }
  }

  lemma {:induction false} UnderOther(prefix: Bytes, a: Bytes, b: Bytes, path: Bytes)
    requires a != b && Under(prefix, a, path) && SLASH !in a && SLASH !in b
    ensures !Under(prefix, b, path)
  {
    if Under(prefix, b, path) {
      UnderOneOnly(prefix, a, b, path);
    }
  }

  /** No file of the list lies under the name. */
  ghost predicate NoneUnder(prefix: Bytes, name: Bytes, files: seq<ModelFile>) {
    forall i :: 0 <= i < |files| ==> !Under(prefix, name, files[i].name)
  }

  lemma {:induction false} NoneUnderEither(prefix: Bytes, name: Bytes, a: seq<ModelFile>, b: seq<ModelFile>)
    requires NoneUnder(prefix, name, a) && NoneUnder(prefix, name, b)
    ensures NoneUnder(prefix, name, a + b)
  {
  }

  /** Nothing lies under a name that the directory does not have. */
  lemma {:induction false} OthersAreNotUnder(prefix: Bytes, t: Tree, name: Bytes)
    requires Proper(t) && ProperName(name, t)
    ensures NoneUnder(prefix, name, Collect(prefix, t))
    decreases t
  {
    if t != Nil {
      var group := Group(prefix, t);
      if t.Dir? {
        SubIsUnder(prefix, t.name, t.sub, group);
      }
      OthersAreNotUnder(prefix, t.rest, name);
      forall i | 0 <= i < |group| ensures !Under(prefix, name, group[i].name) {
        UnderOther(prefix, t.name, name, group[i].name);
      }
      NoneUnderEither(prefix, name, group, Collect(prefix, t.rest));
    }
  }

  lemma {:induction false} ProperIsNotEmpty(prefix: Bytes, t: Tree)
    requires Proper(t) && t != Nil
    ensures Collect(prefix, t) != []
    decreases t
  {
    if t.Dir? {
      ProperIsNotEmpty(prefix + t.name + [SLASH], t.sub);
    }
  }

  lemma {:induction false} ShorterCut(a: seq<ModelFile>, a': seq<ModelFile>, b: seq<ModelFile>, b': seq<ModelFile>)
    requires a + a' == b + b' && |a| < |b|
    ensures a' != [] && b[|a|] == a'[0]
  {
    assert |a + a'| == |b + b'|;
    assert b[|a|] == (b + b')[|a|] == (a + a')[|a|];
  }

  /** Two ways to cut a list after the files under `name` are the same. */
  lemma {:induction false} SameCut(prefix: Bytes, name: Bytes, a: seq<ModelFile>, a': seq<ModelFile>,
                                   b: seq<ModelFile>, b': seq<ModelFile>)
    requires a + a' == b + b'
    requires forall i :: 0 <= i < |a| ==> Under(prefix, name, a[i].name)
    requires forall i :: 0 <= i < |b| ==> Under(prefix, name, b[i].name)
    requires NoneUnder(prefix, name, a') && NoneUnder(prefix, name, b')
    ensures a == b && a' == b'
  {
    if |a| < |b| {
      ShorterCut(a, a', b, b');
    } else if |b| < |a| {
      ShorterCut(b, b', a, a');
    } else {
      assert a == (a + a')[..|a|] && b == (b + b')[..|b|];
      assert a' == (a + a')[|a|..] && b' == (b + b')[|b|..];
    }
  }

  lemma {:induction false} FirstGroup(prefix: Bytes, t: Tree, group: seq<ModelFile>)
    requires t != Nil && Proper(t) && group == Group(prefix, t)
    ensures Collect(prefix, t) == group + Collect(prefix, t.rest) && group != []
    ensures forall i :: 0 <= i < |group| ==> Under(prefix, t.name, group[i].name)
    ensures NoneUnder(prefix, t.name, Collect(prefix, t.rest))
    ensures t.File? <==> |group[0].name| == |prefix + t.name|
  {
    OthersAreNotUnder(prefix, t.rest, t.name);
    if t.Dir? {
      ProperIsNotEmpty(prefix + t.name + [SLASH], t.sub);
      SubIsUnder(prefix, t.name, t.sub, group);
    }
  }

  /** The list of paths and contents determines the directory, empty
      subdirectories aside. */
  lemma {:induction false} FilesDetermineTree(prefix: Bytes, a: Tree, b: Tree)
    requires Proper(a) && Proper(b) && Collect(prefix, a) == Collect(prefix, b)
    ensures a == b
    decreases a
  {
    if a == Nil || b == Nil {
      if a != Nil {
        ProperIsNotEmpty(prefix, a);
      }
      if b != Nil {
        ProperIsNotEmpty(prefix, b);
      }
    } else {
      var (ga, gb) := (Group(prefix, a), Group(prefix, b));
      FirstGroup(prefix, a, ga);
      FirstGroup(prefix, b, gb);
      assert Collect(prefix, a)[0] == ga[0] == gb[0];
      UnderOneOnly(prefix, a.name, b.name, ga[0].name);
      SameCut(prefix, a.name, ga, Collect(prefix, a.rest), gb, Collect(prefix, b.rest));
      FilesDetermineTree(prefix, a.rest, b.rest);
      if a.Dir? {
        FilesDetermineTree(prefix + a.name + [SLASH], a.sub, b.sub);
      }
    }
  }

  /** Equal digest input means the same directory. */
  lemma {:induction false} PreimageDeterminesTree(a: Tree, b: Tree)
    requires Proper(a) && Proper(b)
    requires AllRepresentable(Collect([], a)) && AllRepresentable(Collect([], b))
    requires Preimage(Collect([], a)) == Preimage(Collect([], b))
    ensures a == b
  {
    PreimageIsInjective(Collect([], a), Collect([], b));
    FilesDetermineTree([], a, b);
  }

  /** The tree without its empty directories. */
  function Pruned(t: Tree): Tree {
    match t
    case Nil => Nil
    case File(name, content, rest) => File(name, content, Pruned(rest))
    case Dir(name, sub, rest) =>
      if Pruned(sub) == Nil then Pruned(rest) else Dir(name, Pruned(sub), Pruned(rest))
  }

  /** Names may be proper with empty directories about. */
  predicate ProperNames(t: Tree) {
    match t
    case Nil => true
    case File(name, _, rest) => ProperName(name, rest) && ProperNames(rest)
    case Dir(name, sub, rest) => ProperName(name, rest) && ProperNames(sub) && ProperNames(rest)
  }

  lemma {:induction false} PrunedIsProper(prefix: Bytes, t: Tree)
    requires ProperNames(t)
    ensures Proper(Pruned(t)) && Collect(prefix, Pruned(t)) == Collect(prefix, t)
    ensures forall name :: NamedIn(name, Pruned(t)) ==> NamedIn(name, t)
    decreases t
  {
    match t {
      case Nil =>
      case File(name, _, rest) => PrunedIsProper(prefix, rest);
      case Dir(name, sub, rest) =>
        PrunedIsProper(prefix + name + [SLASH], sub);
        PrunedIsProper(prefix, rest);
    }
  }

  /** Two directories have the same digest input exactly when they agree up to
      empty directories. */
  lemma {:induction false} SamePreimageIff(a: Tree, b: Tree)
    requires ProperNames(a) && ProperNames(b)
    requires AllRepresentable(Collect([], a)) && AllRepresentable(Collect([], b))
    ensures Preimage(Collect([], a)) == Preimage(Collect([], b)) <==> Pruned(a) == Pruned(b)
  {
    PrunedIsProper([], a);
    PrunedIsProper([], b);
    if Preimage(Collect([], a)) == Preimage(Collect([], b)) {
      PreimageDeterminesTree(Pruned(a), Pruned(b));
    }
  }
}
