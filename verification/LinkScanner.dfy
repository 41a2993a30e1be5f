/** The substring scanner that finds any:// URIs in text, and what makes it dependable. */
module LinkScanner {
  import opened Prelude
  import opened Strings
  import opened Dedup
  import opened AnyUri
  import opened TokenScan

  /** The last id of a URI: the segment a glued sentence period can reach. */
  function LastId(u: URI): string {
    match u.kind
    case Object => if u.recordId != "" then u.recordId else u.objectId
    case Identity => u.identity
    case Mention => u.identity
    case Prop => u.propId
    case File => u.fileId
    case Space => ""
    case NoKind => ""
  }

  function WithLastId(u: URI, id: string): URI {
    match u.kind
    case Object => if u.recordId != "" then u.(recordId := id) else u.(objectId := id)
    case Identity => u.(identity := id)
    case Mention => u.(identity := id)
    case Prop => u.(propId := id)
    case File => u.(fileId := id)
    case Space => u
    case NoKind => u
  }

  predicate HasLastId(u: URI) { !u.kind.Space? && !u.kind.NoKind? }

  /** Cuts a glued period off the last id; nothing is left of a token whose last id it empties. */
  function ShedGluedPeriod(u: URI): seq<URI> {
    if !HasLastId(u) then [u]
    else if Before(LastId(u), '.') == "" then []
    else [WithLastId(u, Before(LastId(u), '.'))]
  }

  /** The URI a token stands for, if any. */
  function Accept(token: string): seq<URI> {
    match Parse(token)
    case Parsed(u) => ShedGluedPeriod(u)
    case Invalid => []
    case KindUnknown => []
  }

  /** The links of a text: first occurrences, by printed form, in order. */
  function Scan(text: string): seq<URI> {
    First(String, Hits(Accept, text, 0))
  }

  /** The token at a prefix that starts no longer scheme: its tail, trimmed, parsed and shed. */
  method ScanToken(text: string, start: nat) returns (found: seq<URI>)
    requires AtPrefix(text, start) && !MidWord(text, start)
    ensures found == At(Accept, text, start) && |found| <= 1
  {
    var i := start + |PREFIX|;
    var end := i;
    while end < |text| && IsTailByte(text[end])
      invariant i <= end <= |text| && TailEnd(text, end) == TailEnd(text, i)
    {
      end := end + 1;
    }
    found := Accept(TrimRight(text[start..end]));
  }

  /** Keeps what a token stands for unless the same printed form was kept before. */
  method Keep(out: seq<URI>, seen: set<string>, found: seq<URI>, ghost rest: seq<URI>, ghost all: seq<URI>)
      returns (out': seq<URI>, seen': set<string>)
    requires |found| <= 1 && out + Fresh(String, seen, found + rest) == all
    ensures out' + Fresh(String, seen', rest) == all
  {
    out', seen' := out, seen;
    FreshStep(String, seen, found, rest);
    if found != [] && String(found[0]) !in seen {
      seen' := seen + {String(found[0])};
      Regroup(out, found, Fresh(String, seen', rest));
      out' := out + found;
    }
  }

  /** What stands at a prefix: nothing when it ends a longer scheme, else what its token stands for. */
  method TakeToken(text: string, start: nat) returns (found: seq<URI>)
    requires AtPrefix(text, start)
    ensures found == At(Accept, text, start) && |found| <= 1
  {
    if start > 0 && IsSchemeByte(text[start - 1]) {
      return [];
    }
    found := ScanToken(text, start);
  }

  /** At a prefix: keep what stands there, and resume after it. */
  method TakeAt(text: string, start: nat, out: seq<URI>, seen: set<string>, ghost all: seq<URI>)
      returns (i: nat, out': seq<URI>, seen': set<string>)
    requires AtPrefix(text, start) && out + Fresh(String, seen, Hits(Accept, text, start)) == all
    ensures start < i <= |text| && out' + Fresh(String, seen', Hits(Accept, text, i)) == all
  {
    SkipPrefix(Accept, text, start);
    var found := TakeToken(text, start);
    i := start + |PREFIX|;
    out', seen' := Keep(out, seen, found, Hits(Accept, text, i), all);
  }

  /** One round: jump to the next prefix, take the token there, resume after the prefix. */
  method Advance(text: string, i: nat, out: seq<URI>, seen: set<string>, ghost all: seq<URI>)
      returns (i': nat, out': seq<URI>, seen': set<string>)
    requires i < |text| && out + Fresh(String, seen, Hits(Accept, text, i)) == all
    ensures i < i' <= |text| && out' + Fresh(String, seen', Hits(Accept, text, i')) == all
  {
    i', out', seen' := NextPrefix(text, i), out, seen;
    SkipToPrefix(Accept, text, i);
    if i' < |text| {
      i', out', seen' := TakeAt(text, i', out, seen, all);
    }
  }

  /** The scanning loop. */
  method ExtractLinks(text: string) returns (out: seq<URI>)
    ensures out == Scan(text)
  {
    out := [];
    var seen: set<string> := {};
    var i := 0;
    ghost var all := Scan(text);
    while i < |text|
      invariant i <= |text| && out + Fresh(String, seen, Hits(Accept, text, i)) == all
    {
      i, out, seen := Advance(text, i, out, seen, all);
    }
  }
}
