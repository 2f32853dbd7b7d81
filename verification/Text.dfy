/** Comma-separated texts: searching, splitting, joining and trimming. */
module Text {
  import opened Common

  predicate Contains(s: string, c: char) {
    exists i :: 0 <= i < |s| && s[i] == c
  }

  /** First occurrence, or the length when there is none. */
  function IndexOf(s: string, c: char): (i: nat)
    ensures i <= |s| && (forall j :: 0 <= j < i ==> s[j] != c) && (i < |s| ==> s[i] == c)
  {
    if s == "" || s[0] == c then 0 else 1 + IndexOf(s[1..], c)
  }

  lemma {:induction false} IndexOfIs(s: string, c: char, i: nat)
    requires i <= |s| && (forall j :: 0 <= j < i ==> s[j] != c) && (i < |s| ==> s[i] == c)
    ensures IndexOf(s, c) == i
  {
  }

  /** `split_once` on the first occurrence. */
  function SplitOnce(s: string, c: char): Option<(string, string)> {
    var i := IndexOf(s, c);
    if i == |s| then None else Some((s[..i], s[i + 1..]))
  }

  lemma {:induction false} SplitOnceOf(a: string, c: char, b: string)
    requires !Contains(a, c)
    ensures SplitOnce(a + [c] + b, c) == Some((a, b))
  {
    var s := a + [c] + b;
    IndexOfIs(s, c, |a|);
    assert s[..|a|] == a && s[|a| + 1..] == b;
  }

  /** `split(',')`: never empty, and no part holds a comma. */
  function Split(s: string): (parts: seq<string>)
    ensures parts != [] && forall k :: 0 <= k < |parts| ==> !Contains(parts[k], ',')
    decreases |s|
  {
    var i := IndexOf(s, ',');
    if i == |s| then [s] else [s[..i]] + Split(s[i + 1..])
  }

  function Join(parts: seq<string>): string
    requires parts != []
  {
    if |parts| == 1 then parts[0] else parts[0] + "," + Join(parts[1..])
  }

  predicate CommaFree(parts: seq<string>) {
    forall k :: 0 <= k < |parts| ==> !Contains(parts[k], ',')
  }

  lemma {:induction false} SplitFirst(first: string, rest: string)
    requires !Contains(first, ',')
    ensures Split(first + "," + rest) == [first] + Split(rest)
  {
    var s := first + "," + rest;
    IndexOfIs(s, ',', |first|);
    assert s[..|first|] == first && s[|first| + 1..] == rest;
  }

  /** Splitting a text at one of its commas splits both sides. */
  lemma {:induction false} SplitAround(a: string, b: string)
    ensures Split(a + "," + b) == Split(a) + Split(b)
    decreases |a|
  {
    var i := IndexOf(a, ',');
    if i == |a| {
      SplitFirst(a, b);
    } else {
      var (first, rest) := (a[..i], a[i + 1..]);
      assert a == first + "," + rest;
      assert a + "," + b == first + "," + (rest + "," + b);
      SplitFirst(first, rest + "," + b);
      SplitAround(rest, b);
      assert [first] + (Split(rest) + Split(b)) == ([first] + Split(rest)) + Split(b);
    }
  }

  lemma {:induction false} SplitJoin(parts: seq<string>)
    requires parts != [] && CommaFree(parts)
    ensures Split(Join(parts)) == parts
  {
    if |parts| == 1 {
      IndexOfIs(parts[0], ',', |parts[0]|);
    } else {
      SplitJoin(parts[1..]);
      SplitFirst(parts[0], Join(parts[1..]));
      assert parts == [parts[0]] + parts[1..];
    }
  }

  lemma {:induction false} JoinAppend(parts: seq<string>, last: string)
    requires parts != []
    ensures Join(parts + [last]) == Join(parts) + "," + last
  {
    if |parts| == 1 {
      assert (parts + [last])[1..] == [last];
    } else {
      assert (parts + [last])[1..] == parts[1..] + [last];
      JoinAppend(parts[1..], last);
    }
  }

  /** `isspace` in the C locale. */
  predicate IsSpace(c: char) {
    c as int == 32 || 9 <= c as int <= 13
  }

  function TrimStart(s: string): string {
    if s != "" && IsSpace(s[0]) then TrimStart(s[1..]) else s
  }

  function TrimEnd(s: string): string {
    if s != "" && IsSpace(s[|s| - 1]) then TrimEnd(s[..|s| - 1]) else s
  }

  function Trim(s: string): string {
    TrimEnd(TrimStart(s))
  }

  /** Not empty, and no space at either end. */
  predicate Tight(s: string) {
    s != "" && !IsSpace(s[0]) && !IsSpace(s[|s| - 1])
  }

  lemma {:induction false} TrimTight(s: string)
    requires s == "" || Tight(s)
    ensures Trim(s) == s
  {
  }

  lemma {:induction false} TrimStartLength(s: string)
    ensures |TrimStart(s)| <= |s|
    ensures |TrimStart(s)| == |s| ==> TrimStart(s) == s && (s == "" || !IsSpace(s[0]))
  {
    if s != "" && IsSpace(s[0]) {
      TrimStartLength(s[1..]);
    }
  }

  lemma {:induction false} TrimEndLength(s: string)
    ensures |TrimEnd(s)| <= |s|
    ensures |TrimEnd(s)| == |s| ==> TrimEnd(s) == s && (s == "" || !IsSpace(s[|s| - 1]))
  {
    if s != "" && IsSpace(s[|s| - 1]) {
      TrimEndLength(s[..|s| - 1]);
    }
  }

  /** Trimming changes exactly the texts that are not tight. */
  lemma {:induction false} TrimKeepsIff(s: string)
    requires s != ""
    ensures Trim(s) == s <==> Tight(s)
    ensures !Tight(s) ==> |Trim(s)| < |s|
  {
    TrimStartLength(s);
    TrimEndLength(TrimStart(s));
  }

  /** `trim_view`: shrinks a window of the text from both ends. */
  method TrimView(value: string) returns (r: string)
    ensures r == Trim(value)
  {
    r := value;
    while r != "" && IsSpace(r[0])
      invariant TrimStart(r) == TrimStart(value)
      decreases |r|
    {
      r := r[1..];
    }
    while r != "" && IsSpace(r[|r| - 1])
      invariant TrimEnd(r) == Trim(value)
      decreases |r|
    {
      r := r[..|r| - 1];
    }
  }

  /** `tolower` in the C locale. */
  function Lower(c: char): char {
    if 'A' <= c <= 'Z' then (c as int + 32) as char else c
  }

  predicate EqualsIgnoreCase(a: string, b: string) {
    |a| == |b| && forall i :: 0 <= i < |a| ==> Lower(a[i]) == Lower(b[i])
  }

  /** The characters that structure an assignment; no letter folds to one. */
  predicate IsMark(c: char) {
    c == '&' || c == ',' || c == '='
  }

  lemma {:induction false} MarksKeepCase(a: string, b: string, mark: char)
    requires EqualsIgnoreCase(a, b) && IsMark(mark)
    ensures Contains(b, mark) ==> Contains(a, mark)
  {
    if Contains(b, mark) {
      var i :| 0 <= i < |b| && b[i] == mark;
      assert Lower(a[i]) == Lower(b[i]);
      assert a[i] == mark;
    }
  }
}
