/** The parser undoes the encoder, grows with the stream, and says exactly when the stream was whole. */
module SseLaws {
  import opened Prelude
  import opened Strings
  import opened Sse

  // ---- reading on ------------------------------------------------------------------

  /** Reading a stream in two parts: the unfinished line of the first is read with the second. */
  lemma {:induction false} ReadsOn(p: Partial, a: string, b: string)
    ensures Frames(p, a + b) == Frames(p, a) + Frames(Left(p, a), Tail(a) + b)
    ensures Left(p, a + b) == Left(Left(p, a), Tail(a) + b) && Tail(a + b) == Tail(Tail(a) + b)
    decreases |a|
  {
    var i := IndexByte(a, '\n');
    if i < |a| {
      var line, rest := a[..i], a[i + 1..];
      assert a + b == line + ['\n'] + (rest + b);
      CutAt(line, '\n', rest + b);
      assert (a + b)[..i] == line && (a + b)[i + 1..] == rest + b;
      FramesStep(p, a, i);
      FramesStep(p, a + b, i);
      ReadsOn(Next(p, line), rest, b);
      Regroup(Completed(p, line), Frames(Next(p, line), rest), Frames(Left(p, a), Tail(a) + b));
    }
  }

  /** Frames already delivered stay delivered, in the same order, whatever follows. */
  lemma FramesGrow(s: string, n: nat)
    requires n <= |s|
    ensures Delivered(s[..n], Eof) <= Delivered(s, Eof)
  {
    assert s == s[..n] + s[n..];
    ReadsOn(NOTHING, s[..n], s[n..]);
  }

  /** A callback refuses the same frame of a longer list, if it refuses one of the shorter. */
  lemma RefusedEarly(accepts: seq<Frame> -> bool, fs: seq<Frame>, gs: seq<Frame>)
    requires fs <= gs
    ensures FirstRefused(accepts, fs, 0) < |fs| ==> FirstRefused(accepts, gs, 0) == FirstRefused(accepts, fs, 0)
    ensures FirstRefused(accepts, fs, 0) <= FirstRefused(accepts, gs, 0)
  {
    var n, m := FirstRefused(accepts, fs, 0), FirstRefused(accepts, gs, 0);
    forall i: nat | i < |fs|
      ensures Takes(accepts, fs, i) <==> Takes(accepts, gs, i)
    {
      assert fs[..i + 1] == gs[..i + 1];
    }
  }

  /** What the parser delivers for a prefix of a stream is a prefix of what it delivers for more of it. */
  lemma OutputGrows(accepts: seq<Frame> -> bool, s: string, n: nat, end: End,
                    out: seq<Frame>, outcome: Outcome, out': seq<Frame>, outcome': Outcome)
    requires n <= |s| && Parses(accepts, s[..n], Eof, out, outcome) && Parses(accepts, s, end, out', outcome')
    ensures out <= out' && (outcome == Refused ==> out' == out && outcome' == Refused)
  {
    FramesGrow(s, n);
    var fs, gs := Delivered(s[..n], Eof), Delivered(s, end);
    assert Delivered(s, Eof) + Extra(Left(NOTHING, s), Tail(s), end) == gs;
    assert fs <= gs;
    RefusedEarly(accepts, fs, gs);
  }

  /** A failed read adds a frame only when it cuts the stream right after a carriage return that opens a line. */
  lemma BrokenAdds(s: string)
    ensures Delivered(s, Broken) ==
      Delivered(s, Eof) + if Tail(s) == "\r" && Pending(Left(NOTHING, s)) then [FrameOf(Left(NOTHING, s))] else []
  {
    assert Chomp("\r", '\r') == "";
    assert Frames(NOTHING, s) + [] == Frames(NOTHING, s);
  }

  lemma LineFirst(p: Partial, line: string, rest: string)
    requires Lacks(line, '\n')
    ensures Frames(p, line + "\n" + rest) == Completed(p, line) + Frames(Next(p, line), rest)
    ensures Left(p, line + "\n" + rest) == Left(Next(p, line), rest) && Tail(line + "\n" + rest) == Tail(rest)
  {
    var s := line + ['\n'] + rest;
    CutAt(line, '\n', rest);
    assert s[..|line|] == line && s[|line| + 1..] == rest;
    FramesStep(p, s, |line|);
  }

  lemma OneLine(p: Partial, line: string)
    requires Lacks(line, '\n')
    ensures Frames(p, line + "\n") == Completed(p, line) && Left(p, line + "\n") == Next(p, line) &&
      Tail(line + "\n") == ""
  {
    LineFirst(p, line, "");
    assert line + "\n" + "" == line + "\n" && Completed(p, line) + [] == Completed(p, line);
  }

  /** A field line as the encoder writes it. */
  function FieldLine(name: string, value: string): string { name + ": " + value }

  predicate EndsInCr(s: string) { s != "" && s[|s| - 1] == '\r' }

  lemma FieldReads(name: string, value: string)
    requires name != "" && Lacks(name, ':') && !EndsInCr(value)
    ensures var line := FieldLine(name, value);
      line != "" && line[0] != ':' && Chomp(line, '\r') == line && FieldName(line) == name && FieldValue(line) == value
  {
    var line := FieldLine(name, value);
    assert line == name + [':'] + (" " + value);
    CutAt(name, ':', " " + value);
    assert (" " + value)[1..] == value;
    assert line[|line| - 1] == if value == "" then ' ' else value[|value| - 1];
  }

  // ---- the lines of the format, spelled out ---------------------------------------------

  lemma SpacedLine(p: Partial, line: string, name: string, value: string)
    requires name != "" && Lacks(name, ':') && !EndsInCr(value) && line == FieldLine(name, value)
    ensures Next(p, line) == WithField(p, name, value) && Completed(p, line) == []
  {
    FieldReads(name, value);
  }

  /** What a field is for. */
  function WithField(p: Partial, name: string, value: string): Partial {
    if name == "event" then Partial(value, p.id, p.data)
    else if name == "id" then Partial(p.event, value, p.data)
    else if name == "data" then Partial(p.event, p.id, p.data + (value + "\n"))
    else p
  }

  /** A field, a colon, a space and the value. */
  lemma SpacedLines(p: Partial, value: string)
    requires !EndsInCr(value)
    ensures Next(p, "event: " + value) == Partial(value, p.id, p.data)
    ensures Next(p, "id: " + value) == Partial(p.event, value, p.data)
    ensures Next(p, "data: " + value) == Partial(p.event, p.id, p.data + (value + "\n"))
  {
    assert "event: " == "event" + ": " && "id: " == "id" + ": " && "data: " == "data" + ": ";
    SpacedLine(p, "event: " + value, "event", value);
    SpacedLine(p, "id: " + value, "id", value);
    SpacedLine(p, "data: " + value, "data", value);
  }

  lemma BareReads(name: string, value: string)
    requires name != "" && Lacks(name, ':') && !EndsInCr(value) && (value != "" ==> value[0] != ' ')
    ensures var line := name + ":" + value;
      line != "" && line[0] != ':' && Chomp(line, '\r') == line && FieldName(line) == name && FieldValue(line) == value
  {
    var line := name + ":" + value;
    assert line == name + [':'] + value;
    CutAt(name, ':', value);
    assert line[|line| - 1] == if value == "" then ':' else value[|value| - 1];
  }

  /** The space may be missing. */
  lemma BareLines(p: Partial, value: string)
    requires !EndsInCr(value) && (value != "" ==> value[0] != ' ')
    ensures Next(p, "event" + ":" + value) == Partial(value, p.id, p.data)
    ensures Next(p, "id" + ":" + value) == Partial(p.event, value, p.data)
    ensures Next(p, "data" + ":" + value) == Partial(p.event, p.id, p.data + (value + "\n"))
  {
    BareReads("event", value);
    BareReads("id", value);
    BareReads("data", value);
  }

  /** A line without a colon is a field with an empty value. */
  lemma NameOnly(p: Partial, name: string)
    requires name != "" && Lacks(name, ':') && !EndsInCr(name)
    ensures Next(p, name) == WithField(p, name, "") && Completed(p, name) == []
  {
    CutNone(name, ':');
  }

  /** Any other field is ignored, with or without a value, and so is a comment. */
  lemma IgnoredLines(p: Partial, name: string, value: string, text: string)
    requires name != "" && Lacks(name, ':') && name != "event" && name != "id" && name != "data"
    requires !EndsInCr(value) && (value != "" ==> value[0] != ' ')
    ensures Next(p, name + ":" + value) == p && Next(p, name + ": " + value) == p && Next(p, ":" + text) == p
  {
    BareReads(name, value);
    FieldReads(name, value);
    assert (":" + text)[0] == ':';
  }

  /** A carriage return before the line feed is dropped. */
  lemma CarriageReturn(p: Partial, line: string)
    requires !EndsInCr(line)
    ensures Next(p, line + "\r") == Next(p, line) && Completed(p, line + "\r") == Completed(p, line)
  {
    assert (line + "\r")[..|line|] == line;
  }

  /** A blank line ends the frame: what there is of it goes out, without the last line feed of the data. */
  lemma BlankLine(p: Partial, data: string)
    ensures Next(p, "") == Partial("", "", "")
    ensures p == Partial("", "", "") ==> Completed(p, "") == []
    ensures p != Partial("", "", "") && p.data == "" ==> Completed(p, "") == [Frame(p.event, p.id, "")]
    ensures p.data == data + "\n" ==> Completed(p, "") == [Frame(p.event, p.id, data)]
  {
    assert (data + "\n")[..|data|] == data;
  }

  // A line the parser ignores, and one it adds to the data.
  lemma IgnoredAndData(p: Partial)
    ensures Next(p, "\rz") == p && Completed(p, "\rz") == []
    ensures Next(p, FieldLine("data", "y")) == p.(data := p.data + ("y" + "\n")) &&
      Completed(p, FieldLine("data", "y")) == []
  {
    CutNone("\rz", ':');
    FieldReads("data", "y");
  }

  /** The promise of growth holds for a failed read wherever no frame is made up, and nowhere else. */
  lemma BrokenGrowsIff(a: string)
    ensures (forall b: string :: Delivered(a, Broken) <= Delivered(a + b, Eof)) <==>
      !(Tail(a) == "\r" && Pending(Left(NOTHING, a)))
  {
    if Tail(a) == "\r" && Pending(Left(NOTHING, a)) {
      var b := MadeUp(a);
      assert !(Delivered(a, Broken) <= Delivered(a + b, Eof));
    } else {
      forall b: string
        ensures Delivered(a, Broken) <= Delivered(a + b, Eof)
      {
        BrokenAdds(a);
        assert (a + b)[..|a|] == a;
        FramesGrow(a + b, |a|);
      }
    }
  }

  /** A blank line after two others, the first ignored. */
  lemma ThreeLines(p: Partial, q: Partial, x: string, y: string)
    requires Lacks(x, '\n') && Lacks(y, '\n') && Next(p, x) == p && Completed(p, x) == [] && Next(p, y) == q &&
      Completed(p, y) == []
    requires Pending(q)
    ensures Frames(p, x + "\n" + (y + "\n" + ("" + "\n"))) == [FrameOf(q)]
  {
    LineFirst(p, x, y + "\n" + ("" + "\n"));
    LineFirst(p, y, "" + "\n");
    OneLine(q, "");
  }

  lemma NotPrefix(fs: seq<Frame>, x: Frame, y: Frame)
    requires x != y
    ensures !(fs + [x] <= fs + [y])
  {
    assert (fs + [x])[|fs|] == x && (fs + [y])[|fs|] == y;
  }

  /** More data makes another frame. */
  lemma MoreData(p: Partial, q: Partial)
    requires q == p.(data := p.data + ("y" + "\n"))
    ensures FrameOf(q) != FrameOf(p)
  {
    assert q.data[|q.data| - 1] == '\n' && |FrameOf(q).data| == |p.data| + 1;
  }

  lemma MadeUpBy(a: string, b: string, p: Partial, q: Partial)
    requires Tail(a) == "\r" && p == Left(NOTHING, a) && Pending(p)
    requires Frames(p, "\r" + b) == [FrameOf(q)] && FrameOf(p) != FrameOf(q)
    ensures !(Delivered(a, Broken) <= Delivered(a + b, Eof))
  {
    ReadsOn(NOTHING, a, b);
    BrokenAdds(a);
    var fs := Frames(NOTHING, a);
    NotPrefix(fs, FrameOf(p), FrameOf(q));
    assert Delivered(a + b, Eof) == fs + [FrameOf(q)] + [];
  }

  /** A continuation on which the frame made up by a failed read turns out to be another. */
  lemma MadeUp(a: string) returns (b: string)
    requires Tail(a) == "\r" && Pending(Left(NOTHING, a))
    ensures !(Delivered(a, Broken) <= Delivered(a + b, Eof))
  {
    var p, y := Left(NOTHING, a), FieldLine("data", "y");
    var q := p.(data := p.data + ("y" + "\n"));
    IgnoredAndData(p);
    ThreeLines(p, q, "\rz", y);
    MoreData(p, q);
    b := Continuation(y + "\n" + ("" + "\n"));
    MadeUpBy(a, b, p, q);
  }

  /** What follows the carriage return. */
  lemma Continuation(more: string) returns (b: string)
    ensures "\r" + b == "\rz" + "\n" + more
  {
    b := "z\n" + more;
  }

  // ---- the ending ------------------------------------------------------------------

  predicate EndsOnLine(s: string) { s == "" || s[|s| - 1] == '\n' }

  lemma {:induction false} TailEmptyIff(s: string)
    ensures Tail(s) == "" <==> EndsOnLine(s)
    decreases |s|
  {
    var i := IndexByte(s, '\n');
    if i < |s| {
      TailEmptyIff(s[i + 1..]);
    } else if s != "" {
      assert s[..i] == s;
    }
  }

  /** A call succeeds exactly when the stream ended on a line end, outside a frame, and every frame was taken. */
  lemma SucceedsIff(accepts: seq<Frame> -> bool, s: string, end: End, out: seq<Frame>, outcome: Outcome)
    requires Parses(accepts, s, end, out, outcome)
    ensures outcome == Done <==>
      end.Eof? && EndsOnLine(s) && !Pending(Left(NOTHING, s)) &&
        FirstRefused(accepts, Delivered(s, end), 0) == |Delivered(s, end)|
    ensures outcome == Refused <==> FirstRefused(accepts, Delivered(s, end), 0) < |Delivered(s, end)|
    ensures outcome == ReadFailed ==> end.Broken?
    ensures outcome == Cut ==> end.Eof? && (!EndsOnLine(s) || Left(NOTHING, s) != Partial("", "", ""))
    ensures out <= Delivered(s, end) && (outcome != Refused ==> out == Delivered(s, end))
  {
    TailEmptyIff(s);
  }

  // ---- round trip --------------------------------------------------------------------

  /** The data lines of a frame, each with its field name and line feed. */
  function DataLines(lines: seq<string>): string {
    if lines == [] then "" else FieldLine("data", lines[0]) + "\n" + DataLines(lines[1..])
  }

  /** An optional field: left out when empty. */
  function FieldOrNone(name: string, value: string): string {
    if value == "" then "" else FieldLine(name, value) + "\n"
  }

  /** One frame as the server writes it, with one data line per line of the data. */
  function Encode(f: Frame): string {
    FieldOrNone("event", f.event) + (FieldOrNone("id", f.id) + (DataLines(Split(f.data, '\n')) + "\n"))
  }

  function EncodeAll(fs: seq<Frame>): string {
    if fs == [] then "" else Encode(fs[0]) + EncodeAll(fs[1..])
  }

  /** No line end inside event or id, and no line that ends in a carriage return. */
  predicate Clean(f: Frame) {
    && Lacks(f.event, '\n') && !EndsInCr(f.event) && Lacks(f.id, '\n') && !EndsInCr(f.id)
    && forall i :: 0 <= i < |Split(f.data, '\n')| ==> !EndsInCr(Split(f.data, '\n')[i])
  }

  /** Reading whole lines and going on. */
  lemma Whole(p: Partial, a: string, b: string)
    requires Tail(a) == ""
    ensures Frames(p, a + b) == Frames(p, a) + Frames(Left(p, a), b)
    ensures Left(p, a + b) == Left(Left(p, a), b) && Tail(a + b) == Tail(b)
  {
    ReadsOn(p, a, b);
    assert "" + b == b;
  }

  /** What the encoder and the parser agree a text stands for. */
  ghost predicate Reads(p: Partial, s: string, q: Partial) {
    Frames(p, s) == [] && Left(p, s) == q && Tail(s) == ""
  }

  lemma ReadsThen(p: Partial, a: string, q: Partial, b: string, r: Partial)
    requires Reads(p, a, q) && Reads(q, b, r)
    ensures Reads(p, a + b, r)
  {
    Whole(p, a, b);
  }

  lemma EventReads(p: Partial, value: string)
    requires p.event == "" && Lacks(value, '\n') && !EndsInCr(value)
    ensures Reads(p, FieldOrNone("event", value), p.(event := value))
  {
    if value == "" {
      assert p.(event := value) == p;
    } else {
      FieldReads("event", value);
      OneLine(p, FieldLine("event", value));
    }
  }

  lemma IdReads(p: Partial, value: string)
    requires p.id == "" && Lacks(value, '\n') && !EndsInCr(value)
    ensures Reads(p, FieldOrNone("id", value), p.(id := value))
  {
    if value == "" {
      assert p.(id := value) == p;
    } else {
      FieldReads("id", value);
      OneLine(p, FieldLine("id", value));
    }
  }

  function Terminated(lines: seq<string>): string {
    if lines == [] then "" else lines[0] + "\n" + Terminated(lines[1..])
  }

  lemma DataLineReads(p: Partial, line: string)
    requires Lacks(line, '\n') && !EndsInCr(line)
    ensures Reads(p, FieldLine("data", line) + "\n", p.(data := p.data + (line + "\n")))
  {
    FieldReads("data", line);
    OneLine(p, FieldLine("data", line));
  }

  lemma DataStep(p: Partial, q: Partial, line: string, head: string, rest: string, more: string)
    requires q == p.(data := p.data + (line + "\n")) && Reads(p, head, q) && Reads(q, rest, q.(data := q.data + more))
    ensures Reads(p, head + rest, p.(data := p.data + (line + "\n" + more)))
  {
    Regroup(p.data, line + "\n", more);
    ReadsThen(p, head, q, rest, q.(data := q.data + more));
  }

  lemma {:induction false} DataReads(p: Partial, lines: seq<string>)
    requires forall i :: 0 <= i < |lines| ==> Lacks(lines[i], '\n') && !EndsInCr(lines[i])
    ensures Reads(p, DataLines(lines), p.(data := p.data + Terminated(lines)))
    decreases |lines|
  {
    if lines == [] {
      assert p.data + "" == p.data;
    } else {
      var q := p.(data := p.data + (lines[0] + "\n"));
      DataLineReads(p, lines[0]);
      DataReads(q, lines[1..]);
      DataStep(p, q, lines[0], FieldLine("data", lines[0]) + "\n", DataLines(lines[1..]), Terminated(lines[1..]));
    }
  }

  lemma {:induction false} TerminatedIsJoin(lines: seq<string>)
    requires lines != []
    ensures Terminated(lines) == Join(lines, "\n") + "\n"
  {
    if |lines| == 1 {
      assert lines[0] + "\n" + "" == lines[0] + "\n";
    } else {
      TerminatedIsJoin(lines[1..]);
      assert lines[0] + "\n" + (Join(lines[1..], "\n") + "\n") == lines[0] + "\n" + Join(lines[1..], "\n") + "\n";
    }
  }

  /** Three groups of lines and a blank one. */
  lemma BlockReads(a: string, b: string, c: string, p: Partial, q: Partial, r: Partial)
    requires Reads(NOTHING, a, p) && Reads(p, b, q) && Reads(q, c, r) && Pending(r)
    ensures var s := a + (b + (c + "\n"));
      Frames(NOTHING, s) == [FrameOf(r)] && Left(NOTHING, s) == NOTHING && Tail(s) == ""
  {
    OneLine(r, "");
    assert "" + "\n" == "\n";
    Whole(q, c, "\n");
    Whole(p, b, c + "\n");
    Whole(NOTHING, a, b + (c + "\n"));
  }

  lemma DataChomps(p: Partial, data: string)
    requires p.data == data + "\n"
    ensures Pending(p) && FrameOf(p) == Frame(p.event, p.id, data)
  {
    assert p.data[|p.data| - 1] == '\n' && p.data[..|p.data| - 1] == data;
  }

  lemma FrameReads(f: Frame)
    requires Clean(f)
    ensures Frames(NOTHING, Encode(f)) == [f] && Left(NOTHING, Encode(f)) == NOTHING && Tail(Encode(f)) == ""
  {
    var lines := Split(f.data, '\n');
    JoinSplit(f.data, '\n');
    TerminatedIsJoin(lines);
    var p, q := NOTHING.(event := f.event), Partial(f.event, f.id, "");
    var r := q.(data := "" + Terminated(lines));
    EventReads(NOTHING, f.event);
    IdReads(p, f.id);
    DataReads(q, lines);
    DataChomps(r, f.data);
    BlockReads(FieldOrNone("event", f.event), FieldOrNone("id", f.id), DataLines(lines), p, q, r);
  }

  /** Parsing what was written gives back the frames, and finds the stream whole. */
  lemma {:induction false} RoundTrip(fs: seq<Frame>)
    requires forall i :: 0 <= i < |fs| ==> Clean(fs[i])
    ensures Delivered(EncodeAll(fs), Eof) == fs && Ending(EncodeAll(fs), Eof) == Done
  {
    AllFramesRead(fs);
    assert fs + [] == fs;
  }

  lemma {:induction false} AllFramesRead(fs: seq<Frame>)
    requires forall i :: 0 <= i < |fs| ==> Clean(fs[i])
    ensures Frames(NOTHING, EncodeAll(fs)) == fs && Left(NOTHING, EncodeAll(fs)) == NOTHING && Tail(EncodeAll(fs)) == ""
  {
    if fs != [] {
      FrameReads(fs[0]);
      AllFramesRead(fs[1..]);
      Whole(NOTHING, Encode(fs[0]), EncodeAll(fs[1..]));
      assert [fs[0]] + fs[1..] == fs;
    }
  }
}
