/** Byte-string operations: one `char` stands for one byte of a Go string. */
module Strings {

  function Join(parts: seq<string>, sep: string): string {
    if parts == [] then ""
    else if |parts| == 1 then parts[0]
    else parts[0] + sep + Join(parts[1..], sep)
  }

  predicate Lacks(s: string, c: char) {
    forall i :: 0 <= i < |s| ==> s[i] != c
  }

  /** Position of the first c, or the length when there is none. */
  function IndexByte(s: string, c: char): (i: nat)
    ensures i <= |s| && Lacks(s[..i], c)
    ensures i < |s| ==> s[i] == c
  {
    if s == "" || s[0] == c then 0
    else
      var i := 1 + IndexByte(s[1..], c);
      assert s[..i] == [s[0]] + s[1..][..i - 1];
      i
  }

  /** The part before the first c: all of s when there is none. */
  function Before(s: string, c: char): string {
    s[..IndexByte(s, c)]
  }

  /** The part after the first c: empty when there is none. */
  function After(s: string, c: char): string {
    var i := IndexByte(s, c);
    if i < |s| then s[i + 1..] else ""
  }

  function Split(s: string, c: char): (parts: seq<string>)
    ensures parts != []
    decreases |s|
  {
    var i := IndexByte(s, c);
    if i == |s| then [s] else [s[..i]] + Split(s[i + 1..], c)
  }

  lemma SplitFirst(s: string, c: char)
    ensures if IndexByte(s, c) < |s| then Split(s, c) == [Before(s, c)] + Split(After(s, c), c)
            else Split(s, c) == [Before(s, c)]
  {
    if IndexByte(s, c) == |s| {
      assert s[..|s|] == s;
    }
  }

  /** Cutting at the first c undoes inserting one after a part that has none. */
  lemma CutAt(a: string, c: char, b: string)
    requires Lacks(a, c)
    ensures Before(a + [c] + b, c) == a && After(a + [c] + b, c) == b
    ensures IndexByte(a + [c] + b, c) == |a|
  {
    var s := a + [c] + b;
    var i := IndexByte(s, c);
    assert s[|a|] == c && forall j :: 0 <= j < |a| ==> s[j] == a[j];
    assert s[..|a|] == a && s[|a| + 1..] == b;
  }

  lemma CutNone(a: string, c: char)
    requires Lacks(a, c)
    ensures Before(a, c) == a && After(a, c) == "" && IndexByte(a, c) == |a|
  {
    assert a[..|a|] == a;
  }

  lemma SplitStep(a: string, c: char, b: string)
    requires Lacks(a, c)
    ensures Split(a + [c] + b, c) == [a] + Split(b, c)
  {
    CutAt(a, c, b);
    assert (a + [c] + b)[..|a|] == a && (a + [c] + b)[|a| + 1..] == b;
  }

  lemma {:induction false} SplitJoin(parts: seq<string>, c: char)
    requires parts != [] && forall i :: 0 <= i < |parts| ==> Lacks(parts[i], c)
    ensures Split(Join(parts, [c]), c) == parts
  {
    if |parts| == 1 {
      CutNone(parts[0], c);
    } else {
      var rest := parts[1..];
      assert parts == [parts[0]] + rest && Join(parts, [c]) == parts[0] + [c] + Join(rest, [c]);
      SplitJoin(rest, c);
      SplitStep(parts[0], c, Join(rest, [c]));
    }
  }

  lemma {:induction false} JoinSplit(s: string, c: char)
    ensures Join(Split(s, c), [c]) == s
    ensures forall i :: 0 <= i < |Split(s, c)| ==> Lacks(Split(s, c)[i], c)
    decreases |s|
  {
    var i := IndexByte(s, c);
    if i < |s| {
      var rest := s[i + 1..];
      JoinSplit(rest, c);
      var tail := Split(rest, c);
      assert Split(s, c) == [s[..i]] + tail && ([s[..i]] + tail)[1..] == tail;
      assert s == s[..i] + [c] + rest;
    } else {
      assert s[..i] == s;
    }
  }

  /** Splitting brings in no new byte. */
  lemma {:induction false} SplitLacks(s: string, c: char, d: char)
    requires Lacks(s, d)
    ensures forall i :: 0 <= i < |Split(s, c)| ==> Lacks(Split(s, c)[i], d)
    decreases |s|
  {
    var i := IndexByte(s, c);
    if i < |s| {
      SplitLacks(s[i + 1..], c, d);
    }
  }
}
