/** The event-stream parser: lines in, one frame per blank line, and a verdict on how the stream ended. */
module Sse {
  import opened Prelude
  import opened Strings

  datatype Frame = Frame(event: string, id: string, data: string)

  /** What has been read of the frame under way; `data` ends every line with a line feed. */
  datatype Partial = Partial(event: string, id: string, data: string)

  const NOTHING := Partial("", "", "")

  predicate Pending(p: Partial) { p.data != "" || p.event != "" || p.id != "" }

  /** Drops one trailing c. */
  function Chomp(s: string, c: char): string {
    if s != "" && s[|s| - 1] == c then s[..|s| - 1] else s
  }

  function FrameOf(p: Partial): Frame { Frame(p.event, p.id, Chomp(p.data, '\n')) }

  /** The field name, up to the first colon. */
  function FieldName(line: string): string { Before(line, ':') }

  /** What follows the first colon, without one leading space. */
  function FieldValue(line: string): string {
    var value := After(line, ':');
    if value != "" && value[0] == ' ' then value[1..] else value
  }

  /** A line that is not blank: a comment, a field, or something to ignore. */
  function Absorb(p: Partial, line: string): Partial
    requires line != ""
  {
    if line[0] == ':' then p
    else
      var name, value := FieldName(line), FieldValue(line);
      if name == "event" then p.(event := value)
      else if name == "id" then p.(id := value)
      else if name == "data" then p.(data := p.data + (value + "\n"))
      else p
  }

  /** What a line leaves under way. */
  function Next(p: Partial, line: string): Partial {
    var l := Chomp(line, '\r');
    if l == "" then NOTHING else Absorb(p, l)
  }

  /** What a line completes: a blank one the frame under way, if any. */
  function Completed(p: Partial, line: string): seq<Frame> {
    if Chomp(line, '\r') == "" && Pending(p) then [FrameOf(p)] else []
  }

  // ---- a whole stream ---------------------------------------------------------------

  /** The frames of the lines of s, with p under way before. */
  function Frames(p: Partial, s: string): seq<Frame>
    decreases |s|
  {
    var i := IndexByte(s, '\n');
    if i == |s| then [] else Completed(p, s[..i]) + Frames(Next(p, s[..i]), s[i + 1..])
  }

  /** What is under way after the last line of s. */
  function Left(p: Partial, s: string): Partial
    decreases |s|
  {
    var i := IndexByte(s, '\n');
    if i == |s| then p else Left(Next(p, s[..i]), s[i + 1..])
  }

  /** What follows the last line feed. */
  function Tail(s: string): string
    decreases |s|
  {
    var i := IndexByte(s, '\n');
    if i == |s| then s else Tail(s[i + 1..])
  }

  /** How reading ended: the end of the stream, or a failure of the connection. */
  datatype End = Eof | Broken

  datatype Outcome = Done | Cut | ReadFailed | Refused

  /** The frames delivered to a callback that takes everything; a failed read hands over its unfinished line. */
  function Delivered(s: string, end: End): seq<Frame> {
    Frames(NOTHING, s) + Extra(Left(NOTHING, s), Tail(s), end)
  }

  function Ending(s: string, end: End): Outcome {
    match end
    case Broken => ReadFailed
    case Eof => if Tail(s) != "" || Pending(Left(NOTHING, s)) then Cut else Done
  }

  /** The callback takes frame i, given all frames up to it. */
  predicate Takes(accepts: seq<Frame> -> bool, fs: seq<Frame>, i: nat) { i < |fs| && accepts(fs[..i + 1]) }

  /** The first frame at or after k that the callback refuses; the number of frames when there is none. */
  function FirstRefused(accepts: seq<Frame> -> bool, fs: seq<Frame>, k: nat): (n: nat)
    requires k <= |fs|
    ensures k <= n <= |fs| && (forall i :: k <= i < n ==> Takes(accepts, fs, i)) &&
      (n < |fs| ==> !Takes(accepts, fs, n))
    decreases |fs| - k
  {
    if k == |fs| || !Takes(accepts, fs, k) then k else FirstRefused(accepts, fs, k + 1)
  }

  /** All frames go out in order until one is refused; only a stream with none refused has an ending. */
  ghost predicate Parses(accepts: seq<Frame> -> bool, s: string, end: End, out: seq<Frame>, outcome: Outcome) {
    var fs := Delivered(s, end);
    var n := FirstRefused(accepts, fs, 0);
    if n < |fs| then out == fs[..n + 1] && outcome == Refused
    else out == fs && outcome == Ending(s, end)
  }

  lemma FramesStep(p: Partial, s: string, i: nat)
    requires i == IndexByte(s, '\n') < |s|
    ensures Frames(p, s) == Completed(p, s[..i]) + Frames(Next(p, s[..i]), s[i + 1..])
    ensures Left(p, s) == Left(Next(p, s[..i]), s[i + 1..]) && Tail(s) == Tail(s[i + 1..])
  {
  }

  /** Everything delivered so far was taken. */
  ghost predicate Taken(accepts: seq<Frame> -> bool, all: seq<Frame>, out: seq<Frame>) {
    out <= all && forall i :: 0 <= i < |out| ==> Takes(accepts, all, i)
  }

  lemma TakeOne(accepts: seq<Frame> -> bool, all: seq<Frame>, out: seq<Frame>, f: Frame)
    requires Taken(accepts, all, out) && out + [f] <= all
    ensures accepts(out + [f]) ==> Taken(accepts, all, out + [f])
    ensures !accepts(out + [f]) ==> FirstRefused(accepts, all, 0) == |out| && all[..|out| + 1] == out + [f]
  {
    assert all[..|out| + 1] == out + [f];
    var n := FirstRefused(accepts, all, 0);
    assert Takes(accepts, all, |out|) <==> accepts(out + [f]);
  }

  lemma AllTaken(accepts: seq<Frame> -> bool, all: seq<Frame>)
    requires Taken(accepts, all, all)
    ensures FirstRefused(accepts, all, 0) == |all|
  {
  }

  /** What an unfinished last line completes. */
  function Extra(p: Partial, tail: string, end: End): seq<Frame> {
    if end.Broken? && tail != "" then Completed(p, tail) else []
  }

  /** One line: a blank one delivers the frame under way, any other is absorbed. */
  method TakeLine(p: Partial, line: string, out: seq<Frame>, accepts: seq<Frame> -> bool, ghost all: seq<Frame>,
      ghost rest: seq<Frame>)
      returns (p': Partial, out': seq<Frame>, ok: bool)
    requires Taken(accepts, all, out) && out + (Completed(p, line) + rest) == all
    ensures ok ==> p' == Next(p, line) && out' + rest == all && Taken(accepts, all, out')
    ensures !ok ==> FirstRefused(accepts, all, 0) == |out'| - 1 < |all| && out' == all[..|out'|]
  {
    var l := Chomp(line, '\r');
    p', out', ok := p, out, true;
    Regroup(out, Completed(p, line), rest);
    if l == "" {
      if Pending(p) {
        TakeOne(accepts, all, out, FrameOf(p));
        p', out' := NOTHING, out + [FrameOf(p)];
        ok := accepts(out');
      } else {
        assert out + [] == out;
      }
    } else {
      assert out + [] == out;
      p' := Absorb(p, l);
    }
  }

  /** The reading loop: take a line, stop on refusal, on a cut or on a failed read. */
  method ParseStream(stream: string, end: End, accepts: seq<Frame> -> bool) returns (out: seq<Frame>, outcome: Outcome)
    ensures Parses(accepts, stream, end, out, outcome)
  {
    out := [];
    var p, s, ok := NOTHING, stream, true;
    ghost var all, extra := Delivered(stream, end), Extra(Left(NOTHING, stream), Tail(stream), end);
    while true
      invariant Left(p, s) == Left(NOTHING, stream) && Tail(s) == Tail(stream)
      invariant out + (Frames(p, s) + extra) == all && Taken(accepts, all, out)
      decreases |s|
    {
      var i := IndexByte(s, '\n');
      if i == |s| {
        break;
      }
      ghost var rest := Frames(Next(p, s[..i]), s[i + 1..]);
      FramesStep(p, s, i);
      Regroup(Completed(p, s[..i]), rest, extra);
      p, out, ok := TakeLine(p, s[..i], out, accepts, all, rest + extra);
      if !ok {
        return out, Refused;
      }
      s := s[i + 1..];
    }
    Unfinished(p, s, end, extra);
    if end.Broken? && s != "" {
      p, out, ok := TakeLine(p, s, out, accepts, all, []);
      if !ok {
        return out, Refused;
      }
    }
    AllTaken(accepts, all);
    return out, Ending(stream, end);
  }

  lemma Unfinished(p: Partial, s: string, end: End, extra: seq<Frame>)
    requires IndexByte(s, '\n') == |s| && extra == Extra(Left(p, s), Tail(s), end)
    ensures Left(p, s) == p && Tail(s) == s && Frames(p, s) + extra == extra
    ensures end.Broken? && s != "" ==> extra == Completed(p, s) + []
    ensures !(end.Broken? && s != "") ==> extra == []
  {
  }
}
