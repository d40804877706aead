/** The MCP client's capped line reader: however the byte stream is cut into chunks,
    reading lines is splitting the whole stream at newlines. */
module CappedReader {

  type Byte = n: int | 0 <= n < 256
  const NEWLINE: Byte := 10

  datatype Outcome = Line(text: seq<Byte>) | TooLong | Eof | IoError

  // ---- Splitting the whole stream ----

  /** Position of the first newline, or the length when there is none. */
  function FirstNewline(s: seq<Byte>): (n: nat)
    ensures n <= |s|
  {
    if s == [] || s[0] == NEWLINE then 0 else 1 + FirstNewline(s[1..])
  }

  lemma {:induction false} FirstNewlineIsFirst(s: seq<Byte>)
    ensures NEWLINE !in s[..FirstNewline(s)]
    ensures FirstNewline(s) < |s| ==> s[FirstNewline(s)] == NEWLINE
  {
    if s != [] && s[0] != NEWLINE {
      FirstNewlineIsFirst(s[1..]);
      assert s[..FirstNewline(s)] == [s[0]] + s[1..][..FirstNewline(s[1..])];
    }
  }

  /** The pieces between newlines: one more than there are newlines. */
  function Split(s: seq<Byte>): (lines: seq<seq<Byte>>)
    ensures |lines| >= 1
    decreases |s|
  {
    var n := FirstNewline(s);
    if n == |s| then [s] else [s[..n]] + Split(s[n + 1..])
  }

  function Join(lines: seq<seq<Byte>>): seq<Byte>
    requires |lines| >= 1
  {
    if |lines| == 1 then lines[0] else lines[0] + [NEWLINE] + Join(lines[1..])
  }

  /** Splitting loses no byte, and no piece holds a newline. */
  lemma {:induction false} SplitKeepsBytes(s: seq<Byte>)
    ensures Join(Split(s)) == s
    ensures forall l :: l in Split(s) ==> 10 !in l
    decreases |s|
  {
    var n := FirstNewline(s);
    FirstNewlineIsFirst(s);
    if n < |s| {
      SplitKeepsBytes(s[n + 1..]);
      assert s == s[..n] + [NEWLINE] + s[n + 1..];
      assert Split(s)[1..] == Split(s[n + 1..]);
    } else {
      assert s[..n] == s;
    }
  }

  /** It is the only such cut: newline-free pieces are what splitting gives back. */
  lemma {:induction false} SplitUnique(lines: seq<seq<Byte>>)
    requires |lines| >= 1 && forall l :: l in lines ==> NEWLINE !in l
    ensures Split(Join(lines)) == lines
  {
    var head := lines[0];
    assert head in lines;
    FirstNewlineIsFirst(head);
    if |lines| == 1 {
      assert FirstNewline(head) == |head|;
    } else {
      var tail := Join(lines[1..]);
      SplitUnique(lines[1..]);
      FirstPiece(head, tail);
      assert Join(lines) == head + [NEWLINE] + tail;
      assert lines == [head] + lines[1..];
    }
  }

  lemma FirstPiece(head: seq<Byte>, tail: seq<Byte>)
    requires NEWLINE !in head
    ensures Split(head + [NEWLINE] + tail) == [head] + Split(tail)
  {
    var s := head + [NEWLINE] + tail;
    assert s == head + ([NEWLINE] + tail);
    FirstNewlineIsFirst(head);
    FirstNewlineAcross(head, [NEWLINE] + tail);
    assert FirstNewline(s) == |head|;
    assert s[..|head|] == head && s[|head| + 1..] == tail;
  }

  function Capped(line: seq<Byte>, cap: nat): Outcome {
    if |line| <= cap then Line(line) else TooLong
  }

  /** What one read should yield, and the stream it should leave. */
  function ReadSpec(s: seq<Byte>, cap: nat, broken: bool): (Outcome, seq<Byte>) {
    ReadCut(s, FirstNewline(s), cap, broken)
  }

  /** The same, for a stream whose first newline is at `n`. */
  function ReadCut(s: seq<Byte>, n: nat, cap: nat, broken: bool): (Outcome, seq<Byte>)
    requires n <= |s|
  {
    if n < |s| then (Capped(s[..n], cap), s[n + 1..])
    else if broken then (IoError, [])
    else if s == [] then (Eof, [])
    else (Capped(s, cap), [])
  }

  /** All outcomes of reading until the stream ends or breaks. */
  function ReadAllSpec(s: seq<Byte>, cap: nat, broken: bool): seq<Outcome>
    decreases |s|
  {
    var (o, rest) := ReadSpec(s, cap, broken);
    if o.Eof? || o.IoError? then [o] else [o] + ReadAllSpec(rest, cap, broken)
  }

  function CapEach(lines: seq<seq<Byte>>, cap: nat): seq<Outcome> {
    if lines == [] then [] else [Capped(lines[0], cap)] + CapEach(lines[1..], cap)
  }

  /** The outcomes that a list of pieces stands for: every terminated line in order,
      the tail if it is non-empty and the stream ended well, then the end. */
  function Expected(lines: seq<seq<Byte>>, cap: nat, broken: bool): seq<Outcome>
    requires |lines| >= 1
  {
    var last := |lines| - 1;
    CapEach(lines[..last], cap)
    + (if lines[last] == [] || broken then [] else [Capped(lines[last], cap)])
    + [if broken then IoError else Eof]
  }

  lemma {:induction false} CapEachAt(lines: seq<seq<Byte>>, cap: nat, i: nat)
    requires i < |lines|
    ensures |CapEach(lines, cap)| == |lines|
    ensures CapEach(lines, cap)[i] == if |lines[i]| <= cap then Line(lines[i]) else TooLong
  {
    if i > 0 {
      CapEachAt(lines[1..], cap, i - 1);
    } else if |lines| > 1 {
      CapEachAt(lines[1..], cap, 0);
    }
  }

  /** One outcome for each terminated piece, the piece itself within the cap and TooLong
      above it, one for a non-empty tail unless the stream broke, and then the end. */
  lemma ExpectedExact(lines: seq<seq<Byte>>, cap: nat, broken: bool)
    requires |lines| >= 1
    ensures
      var outcomes, last := Expected(lines, cap, broken), |lines| - 1;
      var tail := !broken && lines[last] != [];
      && |outcomes| == last + (if tail then 2 else 1)
      && (forall i :: 0 <= i < last || (i == last && tail) ==>
           outcomes[i] == if |lines[i]| <= cap then Line(lines[i]) else TooLong)
      && outcomes[|outcomes| - 1] == if broken then IoError else Eof
  {
    var last := |lines| - 1;
    if last > 0 {
      CapEachAt(lines[..last], cap, 0);
    }
    forall i | 0 <= i < last
      ensures CapEach(lines[..last], cap)[i] == if |lines[i]| <= cap then Line(lines[i]) else TooLong
    {
      CapEachAt(lines[..last], cap, i);
    }
  }

  lemma ExpectedCons(line: seq<Byte>, lines: seq<seq<Byte>>, cap: nat, broken: bool)
    requires |lines| >= 1
    ensures Expected([line] + lines, cap, broken) == [Capped(line, cap)] + Expected(lines, cap, broken)
  {
    var all, last := [line] + lines, |lines| - 1;
    assert all[..last + 1] == [line] + lines[..last];
    assert all[..last + 1][1..] == lines[..last];
  }

  /** Reading line by line is splitting the whole stream at its newlines. */
  lemma {:induction false} ReadAllIsSplit(s: seq<Byte>, cap: nat, broken: bool)
    ensures ReadAllSpec(s, cap, broken) == Expected(Split(s), cap, broken)
    decreases |s|
  {
    var n := FirstNewline(s);
    if n < |s| {
      ReadAllIsSplit(s[n + 1..], cap, broken);
      ExpectedCons(s[..n], Split(s[n + 1..]), cap, broken);
    } else if s != [] && !broken {
      assert ReadAllSpec([], cap, broken) == [Eof];
    }
  }

  // ---- The reader ----

  /** A buffered byte source. `chunks` are the buffers it will hand out, none empty;
      after the last one it reports end of stream, or an error when `broken`. */
  class Source {
    var chunks: seq<seq<Byte>>
    const broken: bool

    constructor (chunks: seq<seq<Byte>>, broken: bool)
      requires forall i :: 0 <= i < |chunks| ==> chunks[i] != []
      ensures Valid() && this.chunks == chunks && this.broken == broken
    {
      this.chunks := chunks;
      this.broken := broken;
    }

    ghost predicate Valid()
      reads this
    {
      forall i :: 0 <= i < |chunks| ==> chunks[i] != []
    }

    /** The bytes not consumed yet. */
    ghost function Rest(): seq<Byte>
      reads this
    {
      Flatten(chunks)
    }

    function FillBuf(): seq<Byte>
      reads this
    {
      if chunks == [] then [] else chunks[0]
    }

    /** Marks the first `n` bytes of the current buffer as read. */
    method Consume(n: nat)
      requires Valid() && n <= |FillBuf()|
      modifies this
      ensures Valid() && Rest() == old(Rest())[n..]
      ensures n > 0 ==> |Rest()| < |old(Rest())|
      ensures n == |old(FillBuf())| > 0 ==> chunks == old(chunks)[1..]
    {
      if chunks != [] {
        if n == |chunks[0]| {
          chunks := chunks[1..];
        } else {
          chunks := [chunks[0][n..]] + chunks[1..];
        }
      }
    }
  }

  ghost function Flatten(chunks: seq<seq<Byte>>): seq<Byte> {
    if chunks == [] then [] else chunks[0] + Flatten(chunks[1..])
  }

  lemma FirstNewlineAcross(a: seq<Byte>, b: seq<Byte>)
    ensures FirstNewline(a) < |a| ==> FirstNewline(a + b) == FirstNewline(a)
    ensures FirstNewline(a) == |a| ==> FirstNewline(a + b) == |a| + FirstNewline(b)
  {
    if a == [] {
      assert a + b == b;
    } else if a[0] != NEWLINE {
      FirstNewlineAcross(a[1..], b);
      assert (a + b)[1..] == a[1..] + b;
    }
  }

  lemma NewlineAcross(s: seq<Byte>, taken: seq<Byte>, chunk: seq<Byte>, tail: seq<Byte>)
    requires FirstNewline(taken) == |taken| && FirstNewline(chunk) < |chunk|
    requires s == taken + (chunk + tail)
    ensures FirstNewline(s) == |taken| + FirstNewline(chunk)
  {
    FirstNewlineAcross(chunk, tail);
    FirstNewlineAcross(taken, chunk + tail);
  }

  /** A newline at `pos` in the next chunk ends the line begun in `taken`. */
  lemma LineEnds(s: seq<Byte>, taken: seq<Byte>, chunk: seq<Byte>, tail: seq<Byte>, pos: nat, cap: nat, broken: bool)
    requires s == taken + (chunk + tail) && pos < |chunk|
    ensures
      ReadCut(s, |taken| + pos, cap, broken) == (Capped(taken + chunk[..pos], cap), (chunk + tail)[pos + 1..])
  {
    assert s[..|taken| + pos] == taken + chunk[..pos];
    assert s[|taken| + pos + 1..] == (chunk + tail)[pos + 1..];
  }

  /** The stream runs out inside a line. */
  lemma StreamEnds(taken: seq<Byte>, cap: nat, broken: bool)
    requires FirstNewline(taken) == |taken|
    ensures taken + [] == taken
    ensures
      ReadSpec(taken, cap, broken) ==
        (if broken then IoError else if taken == [] then Eof else Capped(taken, cap), [])
  {
  }

  /** A chunk without a newline leaves the line open. */
  lemma LineGoesOn(taken: seq<Byte>, chunk: seq<Byte>, tail: seq<Byte>)
    requires FirstNewline(taken) == |taken| && FirstNewline(chunk) == |chunk|
    ensures FirstNewline(taken + chunk) == |taken + chunk|
    ensures taken + (chunk + tail) == taken + chunk + tail
  {
    FirstNewlineAcross(taken, chunk);
  }

  /** One capped line. `peak` is the most bytes the line buffer ever held. */
  method ReadCappedLine(r: Source, maxBytes: nat) returns (o: Outcome, ghost peak: nat)
    requires r.Valid()
    modifies r
    ensures r.Valid()
    ensures (o, r.Rest()) == ReadSpec(old(r.Rest()), maxBytes, r.broken)
    ensures peak <= maxBytes
  {
    var buf: seq<Byte> := [];
    var tooLong := false;
    peak := 0;
    ghost var taken: seq<Byte> := [];
    while true
      invariant r.Valid()
      invariant old(r.Rest()) == taken + r.Rest()
      invariant FirstNewline(taken) == |taken|
      invariant tooLong <==> |taken| > maxBytes
      invariant !tooLong ==> buf == taken
      invariant |buf| <= peak <= maxBytes
      decreases |r.chunks|
    {
      var chunk := r.FillBuf();
      if chunk == [] {
        StreamEnds(taken, maxBytes, r.broken);
        if r.broken {
          return IoError, peak;
        }
        o := if tooLong then TooLong else if buf == [] then Eof else Line(buf);
        return;
      }
      ghost var tail := Flatten(r.chunks[1..]);
      var pos := FirstNewline(chunk);
      if pos < |chunk| {
        NewlineAcross(old(r.Rest()), taken, chunk, tail);
        LineEnds(old(r.Rest()), taken, chunk, tail, pos, maxBytes, r.broken);
        if !tooLong {
          if |buf| + pos > maxBytes {
            tooLong := true;
          } else {
            buf := buf + chunk[..pos];
            peak := if |buf| > peak then |buf| else peak;
          }
        }
        r.Consume(pos + 1);
        o := if tooLong then TooLong else Line(buf);
        return;
      }
      LineGoesOn(taken, chunk, tail);
      if !tooLong {
        if |buf| + |chunk| > maxBytes {
          tooLong := true;
        } else {
          buf := buf + chunk;
          peak := if |buf| > peak then |buf| else peak;
        }
      }
      r.Consume(|chunk|);
      taken := taken + chunk;
    }
  }

  /** Reading line after line until the stream is over, as the reader task does. */
  method ReadAll(r: Source, maxBytes: nat) returns (outcomes: seq<Outcome>)
    requires r.Valid()
    modifies r
    ensures r.Valid() && r.Rest() == []
    ensures outcomes == ReadAllSpec(old(r.Rest()), maxBytes, r.broken)
  {
    outcomes := [];
    while true
      invariant r.Valid()
      invariant ReadAllSpec(old(r.Rest()), maxBytes, r.broken) == outcomes + ReadAllSpec(r.Rest(), maxBytes, r.broken)
      decreases |r.Rest()|
    {
      ghost var before := r.Rest();
      ghost var peak;
      var o: Outcome;
      o, peak := ReadCappedLine(r, maxBytes);
      ReadAllStep(before, maxBytes, r.broken);
      if o.Eof? || o.IoError? {
        outcomes := outcomes + [o];
        return;
      }
      Reassociate(outcomes, o, ReadAllSpec(r.Rest(), maxBytes, r.broken));
      outcomes := outcomes + [o];
    }
  }

  lemma ReadAllStep(s: seq<Byte>, cap: nat, broken: bool)
    ensures
      var (o, rest) := ReadSpec(s, cap, broken);
      && (o.Eof? || o.IoError? ==> rest == [] && ReadAllSpec(s, cap, broken) == [o])
      && (!o.Eof? && !o.IoError? ==> |rest| < |s| && ReadAllSpec(s, cap, broken) == [o] + ReadAllSpec(rest, cap, broken))
  {
  }

  lemma Reassociate(a: seq<Outcome>, o: Outcome, b: seq<Outcome>)
    ensures a + ([o] + b) == a + [o] + b
  {
  }
}
