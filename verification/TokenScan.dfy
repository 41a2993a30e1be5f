/** Scanning text for tokens that start with the any:// prefix, whatever a token is then taken to mean. */
module TokenScan {
  import opened Prelude
  import opened AnyUri

  /** A byte that may follow the prefix inside a token. */
  predicate IsTailByte(c: char) {
    IsAlnum(c) || c == '/' || c == '?' || c == '&' || c == '=' || c == '#' || c == '_' || c == '-' || c == '.'
  }

  /** A byte of a URI scheme: before the prefix it makes the match part of a longer scheme. */
  predicate IsSchemeByte(c: char) { IsAlnum(c) || c == '+' || c == '-' || c == '.' }

  /** A byte that neither a token nor the prefix can contain, and that ends no scheme. */
  predicate Delimiter(c: char) { !IsTailByte(c) && !IsSchemeByte(c) && c != ':' }

  // ---- one token ------------------------------------------------------------

  function TailEnd(text: string, i: nat): (end: nat)
    requires i <= |text|
    ensures i <= end <= |text|
    ensures forall j :: i <= j < end ==> IsTailByte(text[j])
    ensures end < |text| ==> !IsTailByte(text[end])
    decreases |text| - i
  {
    if i < |text| && IsTailByte(text[i]) then TailEnd(text, i + 1) else i
  }

  predicate IsPunctuation(c: char) { c == '.' || c == ',' || c == ';' || c == ':' || c == '!' || c == '?' }

  function TrimRight(s: string): string {
    if s != "" && IsPunctuation(s[|s| - 1]) then TrimRight(s[..|s| - 1]) else s
  }

  // ---- the whole text ---------------------------------------------------------

  predicate AtPrefix(text: string, k: nat) {
    k + |PREFIX| <= |text| && text[k..k + |PREFIX|] == PREFIX
  }

  predicate MidWord(text: string, k: nat)
    requires k <= |text|
  {
    k > 0 && IsSchemeByte(text[k - 1])
  }

  /** A token begins at position k. */
  predicate TokenAt(text: string, k: nat) { k <= |text| && AtPrefix(text, k) && !MidWord(text, k) }

  /** The token at a prefix: the longest tail, without trailing punctuation. */
  function Token(text: string, k: nat): string
    requires AtPrefix(text, k)
  {
    TrimRight(text[k..TailEnd(text, k + |PREFIX|)])
  }

  /** What a token starting at position k contributes. */
  function At<T>(accept: string -> seq<T>, text: string, k: nat): seq<T> {
    if TokenAt(text, k) then accept(Token(text, k)) else []
  }

  function AtIn<T>(accept: string -> seq<T>, text: string): nat -> seq<T> { (k: nat) => At(accept, text, k) }

  /** Everything found from position k on, position by position. */
  function Hits<T>(accept: string -> seq<T>, text: string, k: nat): seq<T> {
    Gather(AtIn(accept, text), k, |text|)
  }

  /** What the positions from k up to n contribute, in order. */
  function Gather<T>(f: nat -> seq<T>, k: nat, n: nat): seq<T>
    decreases n - k
  {
    if k >= n then [] else f(k) + Gather(f, k + 1, n)
  }

  lemma {:induction false} GatherSkips<T>(f: nat -> seq<T>, k: nat, p: nat, n: nat)
    requires k <= p <= n && forall j :: k <= j < p ==> f(j) == []
    ensures Gather(f, k, n) == Gather(f, p, n)
    decreases p - k
  {
    if k < p {
      GatherSkips(f, k + 1, p, n);
      assert [] + Gather(f, k + 1, n) == Gather(f, k + 1, n);
    }
  }

  lemma {:induction false} GatherSplits<T>(f: nat -> seq<T>, k: nat, m: nat, n: nat)
    requires k <= m <= n
    ensures Gather(f, k, n) == Gather(f, k, m) + Gather(f, m, n)
    decreases m - k
  {
    if k < m {
      GatherSplits(f, k + 1, m, n);
      Regroup(f(k), Gather(f, k + 1, m), Gather(f, m, n));
    }
  }

  /** From k up to n, positions of b contribute what positions of t do further on. */
  ghost predicate Agree<T>(accept: string -> seq<T>, t: string, b: string, off: nat, k: nat, n: nat) {
    forall i: nat, j: nat :: k <= j < n && i == off + j ==> At(accept, t, i) == At(accept, b, j)
  }

  lemma {:induction false} GatherShifts<T>(accept: string -> seq<T>, t: string, b: string, off: nat, k: nat, n: nat)
    requires Agree(accept, t, b, off, k, n)
    ensures Gather(AtIn(accept, t), off + k, off + n) == Gather(AtIn(accept, b), k, n)
    decreases n - k
  {
    if k < n {
      assert At(accept, t, off + k) == At(accept, b, k);
      GatherShifts(accept, t, b, off, k + 1, n);
      GatherStep(accept, t, off + k, off + n);
      GatherStep(accept, b, k, n);
      assert off + k + 1 == off + (k + 1);
    }
  }

  lemma GatherStep<T>(accept: string -> seq<T>, text: string, k: nat, n: nat)
    requires k < n
    ensures Gather(AtIn(accept, text), k, n) == At(accept, text, k) + Gather(AtIn(accept, text), k + 1, n)
  {
  }

  lemma {:induction false} GatherMembers<T>(f: nat -> seq<T>, k: nat, n: nat, x: T)
    ensures x in Gather(f, k, n) <==> exists j: nat :: k <= j < n && x in f(j)
    decreases n - k
  {
    if k < n {
      var rest := Gather(f, k + 1, n);
      GatherMembers(f, k + 1, n, x);
      assert x in f(k) + rest <==> x in f(k) || x in rest;
      assert x in rest <==> exists j: nat :: k + 1 <= j < n && x in f(j);
    }
  }

  /** The first position at or after i where the prefix stands, or the length of the text. */
  function NextPrefix(text: string, i: nat): (p: nat)
    requires i <= |text|
    ensures i <= p <= |text|
    ensures forall k :: i <= k < p ==> !AtPrefix(text, k)
    ensures p < |text| ==> AtPrefix(text, p)
    decreases |text| - i
  {
    if i == |text| || AtPrefix(text, i) then i else NextPrefix(text, i + 1)
  }

  lemma NoHitsBetween<T>(accept: string -> seq<T>, text: string, i: nat, p: nat)
    requires i <= p <= |text| && forall k :: i <= k < p ==> !TokenAt(text, k)
    ensures Hits(accept, text, i) == Hits(accept, text, p)
  {
    GatherSkips(AtIn(accept, text), i, p, |text|);
  }

  lemma SkipToPrefix<T>(accept: string -> seq<T>, text: string, i: nat)
    requires i <= |text|
    ensures Hits(accept, text, i) == Hits(accept, text, NextPrefix(text, i))
  {
    NoHitsBetween(accept, text, i, NextPrefix(text, i));
  }

  /** The prefix does not overlap itself. */
  lemma PrefixStandsAlone(text: string, p: nat, k: nat)
    requires AtPrefix(text, p) && p < k < p + |PREFIX|
    ensures !AtPrefix(text, k)
  {
    assert text[k] == text[p..p + |PREFIX|][k - p] == PREFIX[k - p];
  }

  lemma SkipPrefix<T>(accept: string -> seq<T>, text: string, start: nat)
    requires AtPrefix(text, start)
    ensures Hits(accept, text, start) == At(accept, text, start) + Hits(accept, text, start + |PREFIX|)
  {
    forall k | start < k < start + |PREFIX|
      ensures !TokenAt(text, k)
    {
      PrefixStandsAlone(text, start, k);
    }
    NoHitsBetween(accept, text, start + 1, start + |PREFIX|);
    assert Hits(accept, text, start) == AtIn(accept, text)(start) + Hits(accept, text, start + 1);
  }

  // ---- composition -----------------------------------------------------------

  lemma {:induction false} TailEndLeft(t: string, n: nat, i: nat)
    requires i <= n < |t| && Delimiter(t[n])
    ensures TailEnd(t, i) == TailEnd(t[..n], i)
    decreases n - i
  {
    if i < n {
      TailEndLeft(t, n, i + 1);
    }
  }

  lemma {:induction false} TailEndRight(t: string, off: nat, i: nat)
    requires off + i <= |t|
    ensures TailEnd(t, off + i) == off + TailEnd(t[off..], i)
    decreases |t| - off - i
  {
    if off + i < |t| {
      assert t[off..][i] == t[off + i];
      TailEndRight(t, off, i + 1);
      assert off + i + 1 == off + (i + 1);
    }
  }

  /** No prefix occurrence reaches over a delimiter. */
  lemma PrefixAvoids(text: string, p: nat, k: nat)
    requires p < |text| && Delimiter(text[p]) && k <= p < k + |PREFIX|
    ensures !AtPrefix(text, k)
  {
    assert !Delimiter(PREFIX[p - k]);
  }

  /** Two positions that see the same surroundings contribute the same. */
  lemma AtSame<T>(accept: string -> seq<T>, t: string, k: nat, b: string, m: nat)
    requires k <= |t| && m <= |b| && AtPrefix(t, k) == AtPrefix(b, m) && MidWord(t, k) == MidWord(b, m)
    requires AtPrefix(t, k) ==> Token(t, k) == Token(b, m)
    ensures At(accept, t, k) == At(accept, b, m)
  {
  }

  lemma AtLeft<T>(accept: string -> seq<T>, t: string, n: nat, k: nat)
    requires k < n < |t| && Delimiter(t[n])
    ensures At(accept, t, k) == At(accept, t[..n], k)
  {
    if k + |PREFIX| <= n {
      assert t[..n][k..k + |PREFIX|] == t[k..k + |PREFIX|];
      TailEndLeft(t, n, k + |PREFIX|);
      var end := TailEnd(t, k + |PREFIX|);
      assert t[..n][k..end] == t[k..end];
    } else {
      PrefixAvoids(t, n, k);
    }
    AtSame(accept, t, k, t[..n], k);
  }

  /** The surroundings of a position are the same seen from a delimiter before it. */
  lemma SurroundingsRight(t: string, off: nat, m: nat, b: string)
    requires 0 < off <= |t| && Delimiter(t[off - 1]) && off + m <= |t| && b == t[off..]
    ensures AtPrefix(t, off + m) == AtPrefix(b, m) && MidWord(t, off + m) == MidWord(b, m)
  {
    if off + m + |PREFIX| <= |t| {
      assert b[m..m + |PREFIX|] == t[off + m..off + m + |PREFIX|];
    }
    if m > 0 {
      assert b[m - 1] == t[off + m - 1];
    }
  }

  lemma TokenRight(t: string, off: nat, m: nat, b: string)
    requires off <= |t| && b == t[off..] && AtPrefix(b, m) && AtPrefix(t, off + m)
    ensures Token(t, off + m) == Token(b, m)
  {
    TailEndRight(t, off, m + |PREFIX|);
    var end := TailEnd(b, m + |PREFIX|);
    assert b[m..end] == t[off + m..off + end];
  }

  lemma AtRight<T>(accept: string -> seq<T>, t: string, off: nat, m: nat, b: string)
    requires 0 < off <= |t| && Delimiter(t[off - 1]) && off + m <= |t| && b == t[off..]
    ensures At(accept, t, off + m) == At(accept, b, m)
  {
    SurroundingsRight(t, off, m, b);
    if AtPrefix(b, m) {
      TokenRight(t, off, m, b);
    }
    AtSame(accept, t, off + m, b, m);
  }

  lemma AgreeRight<T>(accept: string -> seq<T>, t: string, off: nat, b: string)
    requires 0 < off <= |t| && Delimiter(t[off - 1]) && b == t[off..]
    ensures Agree(accept, t, b, off, 0, |b|)
  {
    forall i: nat, m: nat | 0 <= m < |b| && i == off + m
      ensures At(accept, t, i) == At(accept, b, m)
    {
      AtRight(accept, t, off, m, b);
    }
  }

  /** Where two texts agree from an offset on, they are hit alike. */
  lemma HitsAgree<T>(accept: string -> seq<T>, t: string, off: nat, b: string)
    requires Agree(accept, t, b, off, 0, |b|) && |t| == off + |b|
    ensures Hits(accept, t, off) == Hits(accept, b, 0)
  {
    GatherShifts(accept, t, b, off, 0, |b|);
    assert off + 0 == off;
  }

  lemma AgreeLeft<T>(accept: string -> seq<T>, t: string, n: nat, a: string)
    requires n < |t| && Delimiter(t[n]) && a == t[..n]
    ensures Agree(accept, t, a, 0, 0, n)
  {
    forall i: nat, k: nat | 0 <= k < n && i == 0 + k
      ensures At(accept, t, i) == At(accept, a, k)
    {
      AtLeft(accept, t, n, k);
    }
  }

  /** Where a text agrees with its beginning, it is hit as that is, and then on. */
  lemma HitsBegin<T>(accept: string -> seq<T>, t: string, a: string)
    requires |a| <= |t| && Agree(accept, t, a, 0, 0, |a|)
    ensures Hits(accept, t, 0) == Hits(accept, a, 0) + Hits(accept, t, |a|)
  {
    GatherShifts(accept, t, a, 0, 0, |a|);
    GatherSplits(AtIn(accept, t), 0, |a|, |t|);
  }

  lemma HitsAtDelimiter<T>(accept: string -> seq<T>, t: string, p: nat)
    requires p < |t| && Delimiter(t[p])
    ensures Hits(accept, t, p) == Hits(accept, t, p + 1)
  {
    PrefixAvoids(t, p, p);
    NoHitsBetween(accept, t, p, p + 1);
  }

  /** The hits around a delimiter are the hits of the two sides. */
  lemma HitsCompose<T>(accept: string -> seq<T>, a: string, d: char, b: string)
    requires Delimiter(d)
    ensures Hits(accept, a + [d] + b, 0) == Hits(accept, a, 0) + Hits(accept, b, 0)
  {
    var t, n := a + [d] + b, |a|;
    assert t[n] == d && t[..n] == a && t[n + 1..] == b;
    AgreeLeft(accept, t, n, a);
    HitsBegin(accept, t, a);
    HitsAtDelimiter(accept, t, n);
    AgreeRight(accept, t, n + 1, b);
    HitsAgree(accept, t, n + 1, b);
  }

  predicate Yields<T(==)>(accept: string -> seq<T>, text: string, k: nat, x: T) {
    TokenAt(text, k) && x in accept(Token(text, k))
  }

  /** What is hit is exactly what the tokens are accepted as. */
  lemma HitsMembers<T>(accept: string -> seq<T>, text: string, x: T)
    ensures x in Hits(accept, text, 0) <==> exists j: nat :: Yields(accept, text, j, x)
  {
    var f := AtIn(accept, text);
    GatherMembers(f, 0, |text|, x);
    forall j: nat
      ensures Yields(accept, text, j, x) <==> 0 <= j < |text| && x in f(j)
    {
      AtYields(accept, text, j, x);
    }
  }

  lemma AtYields<T>(accept: string -> seq<T>, text: string, k: nat, x: T)
    ensures Yields(accept, text, k, x) <==> k < |text| && x in At(accept, text, k)
  {
  }

  /** Everything hit is what some token is accepted as. */
  lemma HitHasToken<T>(accept: string -> seq<T>, text: string, x: T) returns (token: string)
    requires x in Hits(accept, text, 0)
    ensures x in accept(token)
  {
    HitsMembers(accept, text, x);
    var k: nat :| Yields(accept, text, k, x);
    token := Token(text, k);
  }

  predicate AllTail(s: string) {
    forall i :: 0 <= i < |s| ==> IsTailByte(s[i])
  }

  lemma {:induction false} TailEndAll(s: string, i: nat)
    requires i <= |s| && forall j :: i <= j < |s| ==> IsTailByte(s[j])
    ensures TailEnd(s, i) == |s|
    decreases |s| - i
  {
    if i < |s| {
      TailEndAll(s, i + 1);
    }
  }

  /** Tail bytes never spell the prefix: it has a colon. */
  lemma NoPrefixInTail(s: string, k: nat)
    requires forall j :: k <= j < |s| ==> IsTailByte(s[j])
    ensures !AtPrefix(s, k)
  {
    if k + |PREFIX| <= |s| {
      assert !IsTailByte(PREFIX[3]) && IsTailByte(s[k + 3]);
      assert s[k..k + |PREFIX|][3] == s[k + 3];
    }
  }

  /** A text that is one prefix and tail bytes only holds one token. */
  lemma OneToken<T>(accept: string -> seq<T>, s: string)
    requires PREFIX <= s && AllTail(s[|PREFIX|..])
    ensures Hits(accept, s, 0) == accept(TrimRight(s))
  {
    assert s[0..|PREFIX|] == PREFIX;
    assert forall j :: |PREFIX| <= j < |s| ==> s[j] == s[|PREFIX|..][j - |PREFIX|];
    TailEndAll(s, |PREFIX|);
    assert s[0..|s|] == s;
    SkipPrefix(accept, s, 0);
    forall k | |PREFIX| <= k < |s|
      ensures !TokenAt(s, k)
    {
      NoPrefixInTail(s, k);
    }
    NoHitsBetween(accept, s, |PREFIX|, |s|);
    assert At(accept, s, 0) + [] == At(accept, s, 0);
  }
}
