/** Filtering, minima and sorting of lists under a strict order given as a
    function, and collecting results up to the first error, kept apart from what
    the elements are. */
module Lists {
  import opened Common

  function Filter<T(!new)>(keep: T -> bool, s: seq<T>): (r: seq<T>)
    ensures forall c :: c in r <==> c in s && keep(c)
    ensures |r| <= |s|
  {
    if s == [] then []
    else
      var rest := Filter(keep, s[..|s| - 1]);
      var last := s[|s| - 1];
      if keep(last) then rest + [last] else rest
  }

  lemma {:induction false} FilterSmall<T(!new)>(keep: T -> bool, c: T)
    ensures Filter(keep, []) == []
    ensures Filter(keep, [c]) == if keep(c) then [c] else []
  {
    assert [c][..0] == [];
  }

  lemma {:induction false} FilterAll<T(!new)>(keep: T -> bool, s: seq<T>)
    requires forall c :: c in s ==> keep(c)
    ensures Filter(keep, s) == s
  {
    if s != [] {
      var init, last := s[..|s| - 1], s[|s| - 1];
      assert last in s && forall c :: c in init ==> c in s;
      FilterAll(keep, init);
      assert s == init + [last];
    }
  }

  ghost predicate Distinct<T>(s: seq<T>) {
    forall i, j :: 0 <= i < j < |s| ==> s[i] != s[j]
  }

  lemma {:induction false} FilterMultiset<T(!new)>(keep: T -> bool, s: seq<T>, c: T)
    ensures multiset(Filter(keep, s))[c] == if keep(c) then multiset(s)[c] else 0
  {
    if s != [] {
      var init, last := s[..|s| - 1], s[|s| - 1];
      FilterMultiset(keep, init, c);
      assert s == init + [last];
    }
  }

  lemma {:induction false} FilterSameElements<T(!new)>(keep: T -> bool, a: seq<T>, b: seq<T>)
    requires multiset(a) == multiset(b)
    ensures multiset(Filter(keep, a)) == multiset(Filter(keep, b))
  {
    forall c ensures multiset(Filter(keep, a))[c] == multiset(Filter(keep, b))[c] {
      FilterMultiset(keep, a, c);
      FilterMultiset(keep, b, c);
    }
  }

  /** `less` is a strict order. */
  ghost predicate Strict<T(!new)>(less: (T, T) -> bool) {
    && (forall a, b, c :: less(a, b) && less(b, c) ==> less(a, c))
    && (forall a, b :: less(a, b) ==> !less(b, a))
  }

  /** Any two entries of `s` are comparable, so equal entries are excluded. */
  ghost predicate Comparable<T>(less: (T, T) -> bool, s: seq<T>) {
    forall i, j :: 0 <= i < j < |s| ==> less(s[i], s[j]) || less(s[j], s[i])
  }

  lemma {:induction false} FilterComparable<T(!new)>(less: (T, T) -> bool, keep: T -> bool, s: seq<T>)
    requires Comparable(less, s)
    ensures Comparable(less, Filter(keep, s))
  {
    if s != [] {
      var init, last := s[..|s| - 1], s[|s| - 1];
      FilterComparable(less, keep, init);
      var r := Filter(keep, init);
      forall i | 0 <= i < |r| ensures less(r[i], last) || less(last, r[i]) {
        assert r[i] in init;
      }
    }
  }

  /** `Iterator::min_by_key`: the first of the least elements. */
  function MinBy<T>(less: (T, T) -> bool, s: seq<T>): (r: Option<T>)
    ensures r == None <==> s == []
    ensures r.Some? ==> r.value in s
  {
    if s == [] then None
    else
      var last := s[|s| - 1];
      match MinBy(less, s[..|s| - 1])
      case None => Some(last)
      case Some(best) => if less(last, best) then Some(last) else Some(best)
  }

  lemma {:induction false} MinByLeast<T(!new)>(less: (T, T) -> bool, s: seq<T>)
    requires Strict(less) && Comparable(less, s) && s != []
    ensures forall c :: c in s && c != MinBy(less, s).value ==> less(MinBy(less, s).value, c)
  {
    var init, last := s[..|s| - 1], s[|s| - 1];
    if init != [] {
      MinByLeast(less, init);
    }
    forall c | c in s && c != MinBy(less, s).value ensures less(MinBy(less, s).value, c) {
      assert c in init || c == last;
    }
  }

  lemma {:induction false} MinBySameElements<T(!new)>(less: (T, T) -> bool, a: seq<T>, b: seq<T>)
    requires Strict(less) && Comparable(less, a) && Comparable(less, b) && multiset(a) == multiset(b)
    ensures MinBy(less, a) == MinBy(less, b)
  {
    if a != [] {
      assert a[0] in multiset(b);
      MinByLeast(less, a);
      MinByLeast(less, b);
      assert MinBy(less, a).value in multiset(b) && MinBy(less, b).value in multiset(a);
    } else {
      assert b == [] by {
        assert |multiset(b)| == 0;
      }
    }
  }

  function Insert<T>(less: (T, T) -> bool, c: T, sorted: seq<T>): seq<T> {
    if sorted == [] || less(c, sorted[0]) then [c] + sorted
    else [sorted[0]] + Insert(less, c, sorted[1..])
  }

  /** `sort_unstable_by_key`; which algorithm runs is immaterial, see
      `AscendingUnique`. */
  function Sort<T>(less: (T, T) -> bool, s: seq<T>): seq<T> {
    if s == [] then [] else Insert(less, s[0], Sort(less, s[1..]))
  }

  ghost predicate Ascending<T>(less: (T, T) -> bool, s: seq<T>) {
    forall i, j :: 0 <= i < j < |s| ==> less(s[i], s[j])
  }

  lemma {:induction false} InsertAscending<T(!new)>(less: (T, T) -> bool, c: T, sorted: seq<T>)
    requires Strict(less) && Ascending(less, sorted)
    requires forall d :: d in sorted ==> less(c, d) || less(d, c)
    ensures Ascending(less, Insert(less, c, sorted))
    ensures multiset(Insert(less, c, sorted)) == multiset(sorted) + multiset{c}
  {
    var r := Insert(less, c, sorted);
    if sorted != [] && !less(c, sorted[0]) {
      var rest := sorted[1..];
      assert sorted == [sorted[0]] + rest;
      InsertAscending(less, c, rest);
      forall j | 0 < j < |r| ensures less(r[0], r[j]) {
        assert r[j] in multiset(Insert(less, c, rest));
      }
      AscendingCons(less, r);
    } else {
      forall j | 0 < j < |r| ensures less(r[0], r[j]) {
        assert j > 1 ==> less(sorted[0], sorted[j - 1]);
      }
      AscendingCons(less, r);
    }
  }

  lemma {:induction false} AscendingCons<T>(less: (T, T) -> bool, s: seq<T>)
    requires s != [] && Ascending(less, s[1..])
    requires forall j :: 0 < j < |s| ==> less(s[0], s[j])
    ensures Ascending(less, s)
  {
    forall i, j | 0 <= i < j < |s| ensures less(s[i], s[j]) {
      if i > 0 {
        assert s[i] == s[1..][i - 1] && s[j] == s[1..][j - 1];
      }
    }
  }

  lemma {:induction false} SortAscending<T(!new)>(less: (T, T) -> bool, s: seq<T>)
    requires Strict(less) && Comparable(less, s)
    ensures Ascending(less, Sort(less, s))
    ensures multiset(Sort(less, s)) == multiset(s)
    ensures |Sort(less, s)| == |s|
  {
    if s != [] {
      var rest := s[1..];
      assert s == [s[0]] + rest;
      SortAscending(less, rest);
      forall d | d in Sort(less, rest) ensures less(s[0], d) || less(d, s[0]) {
        assert d in multiset(rest);
      }
      InsertAscending(less, s[0], Sort(less, rest));
      assert |multiset(Sort(less, s))| == |multiset(s)|;
    }
  }

  lemma {:induction false} AscendingHead<T>(less: (T, T) -> bool, s: seq<T>, c: T)
    requires Ascending(less, s) && c in s
    ensures s[0] == c || less(s[0], c)
  {
    var i :| 0 <= i < |s| && s[i] == c;
  }

  lemma {:induction false} TailMultiset<T>(s: seq<T>)
    requires s != []
    ensures multiset(s[1..]) == multiset(s) - multiset{s[0]}
  {
    assert s == [s[0]] + s[1..];
  }

  /** Two ascending lists of the same elements are the same list. */
  lemma {:induction false} AscendingUnique<T(!new)>(less: (T, T) -> bool, a: seq<T>, b: seq<T>)
    requires Strict(less) && Ascending(less, a) && Ascending(less, b) && multiset(a) == multiset(b)
    ensures a == b
  {
    assert |multiset(a)| == |multiset(b)|;
    if a != [] {
      assert a[0] in multiset(b) && b[0] in multiset(a);
      AscendingHead(less, b, a[0]);
      AscendingHead(less, a, b[0]);
      TailMultiset(a);
      TailMultiset(b);
      AscendingUnique(less, a[1..], b[1..]);
    }
  }

  lemma {:induction false} SortSameElements<T(!new)>(less: (T, T) -> bool, a: seq<T>, b: seq<T>)
    requires Strict(less) && Comparable(less, a) && Comparable(less, b) && multiset(a) == multiset(b)
    ensures Sort(less, a) == Sort(less, b)
  {
    SortAscending(less, a);
    SortAscending(less, b);
    AscendingUnique(less, Sort(less, a), Sort(less, b));
  }

  lemma {:induction false} AscendingPrefix<T>(less: (T, T) -> bool, s: seq<T>, n: nat)
    requires Ascending(less, s) && n <= |s|
    ensures Ascending(less, s[..n])
    ensures forall c, d :: c in s[..n] && d in s && d !in s[..n] ==> less(c, d)
  {
    forall c, d | c in s[..n] && d in s && d !in s[..n] ensures less(c, d) {
      assert s == s[..n] + s[n..];
      var i :| 0 <= i < n && s[..n][i] == c;
      var j :| 0 <= j < |s| - n && s[n..][j] == d;
      assert less(s[i], s[n + j]);
    }
  }

  lemma {:induction false} SameMultisetSameLength<T>(a: seq<T>, b: seq<T>)
    requires multiset(a) == multiset(b)
    ensures |a| == |b|
  {
    assert |multiset(a)| == |multiset(b)|;
  }

  lemma {:induction false} AscendingOnce<T(!new)>(less: (T, T) -> bool, s: seq<T>, c: T)
    requires Strict(less) && Ascending(less, s)
    ensures multiset(s)[c] == if c in s then 1 else 0
  {
    if s != [] {
      var init, last := s[..|s| - 1], s[|s| - 1];
      AscendingOnce(less, init, c);
      assert s == init + [last];
      forall i | 0 <= i < |init| ensures init[i] != last {
        assert less(s[i], s[|s| - 1]);
      }
    }
  }

  lemma {:induction false} FilterAscending<T(!new)>(less: (T, T) -> bool, keep: T -> bool, s: seq<T>)
    requires Ascending(less, s)
    ensures Ascending(less, Filter(keep, s))
  {
    if s != [] {
      var init, last := s[..|s| - 1], s[|s| - 1];
      FilterAscending(less, keep, init);
      var r := Filter(keep, init);
      forall i | 0 <= i < |r| ensures less(r[i], last) {
        assert r[i] in init;
        var j :| 0 <= j < |init| && init[j] == r[i];
        assert less(s[j], s[|s| - 1]);
      }
    }
  }

  /** An ascending list taken from an ascending one, with everything left out after
      it, is a prefix. */
  lemma {:induction false} LeastIsPrefix<T(!new)>(less: (T, T) -> bool, least: seq<T>, all: seq<T>)
    requires Strict(less) && Ascending(less, least) && Ascending(less, all)
    requires forall c :: c in least ==> c in all
    requires forall c, d :: c in least && d in all && d !in least ==> less(c, d)
    ensures least <= all
  {
    var out := (c: T) => c !in least;
    var rest := Filter(out, all);
    FilterAscending(less, out, all);
    forall i, j | 0 <= i < j < |least + rest| ensures less((least + rest)[i], (least + rest)[j]) {
      if i < |least| <= j {
        assert rest[j - |least|] in rest;
      }
    }
    forall c ensures multiset(least + rest)[c] == multiset(all)[c] {
      AscendingOnce(less, least, c);
      AscendingOnce(less, all, c);
      AscendingOnce(less, rest, c);
    }
    AscendingUnique(less, least + rest, all);
  }

  // ----------------------------------------------------------- collecting results

  /** Each element in turn, up to the first error. */
  function TryMap<T, R, E>(f: T -> Result<R, E>, s: seq<T>): Result<seq<R>, E> {
    if s == [] then Ok([])
    else
      var rest := TryMap(f, s[..|s| - 1]);
      if rest.Err? then rest
      else
        var last := f(s[|s| - 1]);
        if last.Err? then Err(last.error) else Ok(rest.value + [last.value])
  }

  /** It succeeds exactly if each element does. */
  lemma {:induction false} TryMapIff<T, R, E>(f: T -> Result<R, E>, s: seq<T>, r: seq<R>)
    ensures TryMap(f, s) == Ok(r) <==> |r| == |s| && forall k :: 0 <= k < |s| ==> f(s[k]) == Ok(r[k])
  {
    if s != [] && r != [] {
      var (n, m) := (|s| - 1, |r| - 1);
      TryMapIff(f, s[..n], r[..m]);
      assert r == r[..m] + [r[m]];
    }
  }

  lemma {:induction false} TryMapNext<T, R, E>(f: T -> Result<R, E>, s: seq<T>, i: nat)
    requires i < |s| && TryMap(f, s[..i]).Ok?
    ensures TryMap(f, s[..i + 1])
      == if f(s[i]).Err? then Err(f(s[i]).error) else Ok(TryMap(f, s[..i]).value + [f(s[i]).value])
  {
    assert s[..i + 1][..i] == s[..i];
  }

  lemma {:induction false} TryMapErrorStays<T, R, E>(f: T -> Result<R, E>, s: seq<T>, i: nat)
    requires i <= |s| && TryMap(f, s[..i]).Err?
    ensures TryMap(f, s) == TryMap(f, s[..i])
    decreases |s|
  {
    if i == |s| {
      assert s[..i] == s;
    } else {
      var n := |s| - 1;
      assert s[..n][..i] == s[..i];
      TryMapErrorStays(f, s[..n], i);
    }
  }

  /** A state taken along, up to the first error. */
  function TryFold<S, T, E>(step: (S, T) -> Result<S, E>, start: S, s: seq<T>): Result<S, E> {
    if s == [] then Ok(start)
    else
      var rest := TryFold(step, start, s[..|s| - 1]);
      if rest.Err? then rest else step(rest.value, s[|s| - 1])
  }

  lemma {:induction false} TryFoldNext<S, T, E>(step: (S, T) -> Result<S, E>, start: S, s: seq<T>, i: nat)
    requires i < |s| && TryFold(step, start, s[..i]).Ok?
    ensures TryFold(step, start, s[..i + 1]) == step(TryFold(step, start, s[..i]).value, s[i])
  {
    assert s[..i + 1][..i] == s[..i];
  }

  lemma {:induction false} TryFoldErrorStays<S, T, E>(step: (S, T) -> Result<S, E>, start: S, s: seq<T>, i: nat)
    requires i <= |s| && TryFold(step, start, s[..i]).Err?
    ensures TryFold(step, start, s) == TryFold(step, start, s[..i])
    decreases |s|
  {
    if i == |s| {
      assert s[..i] == s;
    } else {
      var n := |s| - 1;
      assert s[..n][..i] == s[..i];
      TryFoldErrorStays(step, start, s[..n], i);
    }
  }

  /** What each element yields, one after the other. */
  function FlatMap<T, R>(f: T -> seq<R>, s: seq<T>): seq<R> {
    if s == [] then [] else FlatMap(f, s[..|s| - 1]) + f(s[|s| - 1])
  }

  lemma {:induction false} FlatMapConcat<T, R>(f: T -> seq<R>, a: seq<T>, b: seq<T>)
    ensures FlatMap(f, a + b) == FlatMap(f, a) + FlatMap(f, b)
    decreases |b|
  {
    if b == [] {
      assert a + b == a;
    } else {
      var init, last := b[..|b| - 1], b[|b| - 1];
      FlatMapConcat(f, a, init);
      assert (a + b)[..|a + b| - 1] == a + init;
    }
  }

  // --------------------------------------------------------------- sorting by loop

  /** Where `c` belongs in `sorted`: after all that precede it. */
  method InsertionPoint<T(!new)>(less: (T, T) -> bool, sorted: seq<T>, c: T) returns (j: nat)
    ensures j <= |sorted| && (j < |sorted| ==> !less(sorted[j], c))
    ensures forall k :: 0 <= k < j ==> less(sorted[k], c)
  {
    j := 0;
    while j < |sorted| && less(sorted[j], c)
      invariant j <= |sorted|
      invariant forall k :: 0 <= k < j ==> less(sorted[k], c)
    {
      j := j + 1;
    }
  }

  /** Insertion of one element after the other: where `sort_unstable_by_key` puts
      them does not depend on how it gets there, see `AscendingUnique`. */
  method SortByInsertion<T(!new)>(less: (T, T) -> bool, s: seq<T>) returns (sorted: seq<T>)
    requires Strict(less) && Comparable(less, s)
    ensures Ascending(less, sorted) && multiset(sorted) == multiset(s)
  {
    sorted := [];
    for i := 0 to |s|
      invariant Ascending(less, sorted) && multiset(sorted) == multiset(s[..i])
    {
      var j := InsertionPoint(less, sorted, s[i]);
      InsertedAscending(less, s, i, sorted, j);
      InsertedElements(s, i, sorted, j);
      sorted := sorted[..j] + [s[i]] + sorted[j..];
    }
    assert s[..|s|] == s;
  }

  lemma {:induction false} InsertedElements<T>(s: seq<T>, i: nat, sorted: seq<T>, j: nat)
    requires i < |s| && multiset(sorted) == multiset(s[..i]) && j <= |sorted|
    ensures multiset(sorted[..j] + [s[i]] + sorted[j..]) == multiset(s[..i + 1])
  {
    assert s[..i + 1] == s[..i] + [s[i]];
    assert sorted == sorted[..j] + sorted[j..];
  }

  lemma {:induction false} InsertedAscending<T(!new)>(less: (T, T) -> bool, s: seq<T>, i: nat, sorted: seq<T>, j: nat)
    requires Strict(less) && Comparable(less, s) && i < |s|
    requires Ascending(less, sorted) && multiset(sorted) == multiset(s[..i]) && j <= |sorted|
    requires forall k :: 0 <= k < j ==> less(sorted[k], s[i])
    requires j < |sorted| ==> !less(sorted[j], s[i])
    ensures Ascending(less, sorted[..j] + [s[i]] + sorted[j..])
  {
    if j < |sorted| {
      assert sorted[j] in multiset(s[..i]);
      var k :| 0 <= k < i && s[..i][k] == sorted[j];
      assert less(s[k], s[i]) || less(s[i], s[k]);
      assert less(s[i], sorted[j]);
    }
    var r := sorted[..j] + [s[i]] + sorted[j..];
    forall a, b | 0 <= a < b < |r| ensures less(r[a], r[b]) {
      if a == j && b > j + 1 {
        assert less(sorted[j], sorted[b - 1]);
      }
    }
  }
}
