// The newline framing of an agent's stdout (rust/crates/oga-acp/src/transport.rs).
//
// The pipe is a list of non-empty reads followed by either end of file or a read
// error. `Frames` says what a plain "split on newline" owes for such a pipe, and
// `Reader.Next` is the in-place buffer machine, proved to hand out exactly that.
module FrameReader {
  import opened Basics

  const NEWLINE: byte := 10
  const CHUNK: nat := 8192

  datatype Frame = Line(bytes: seq<byte>) | Oversized(size: nat) {
    function Size(): nat {
      match this
      case Line(bytes) => |bytes|
      case Oversized(size) => size
    }
  }

  datatype Answer = Got(frame: Frame) | End | Broken

  // What the pipe delivers: `chunks`, then end of file or (if `fails`) an error.
  datatype Pipe = Pipe(chunks: seq<seq<byte>>, fails: bool) {
    ghost predicate Valid() {
      forall k :: 0 <= k < |chunks| ==> 0 < |chunks[k]| <= CHUNK
    }

    ghost function Bytes(): seq<byte> {
      Prefix(|chunks|)
    }

    ghost function Prefix(k: nat): (bytes: seq<byte>)
      requires k <= |chunks|
    {
      if k == 0 then [] else Prefix(k - 1) + chunks[k - 1]
    }

    // Where read number `k` ended.
    ghost function Cut(k: nat): nat
      requires k <= |chunks|
    {
      |Prefix(k)|
    }
  }

  ghost predicate NoNewline(bytes: seq<byte>, from: nat, to: nat)
    requires to <= |bytes|
  {
    forall k :: from <= k < to ==> bytes[k] != NEWLINE
  }

  // The position of the first newline at or after `from`, or the end of `bytes`.
  ghost function LineEnd(bytes: seq<byte>, from: nat): (end: nat)
    requires from <= |bytes|
    ensures from <= end <= |bytes|
    ensures NoNewline(bytes, from, end)
    ensures end < |bytes| ==> bytes[end] == 10
    decreases |bytes| - from
  {
    if from == |bytes| || bytes[from] == NEWLINE then from
    else LineEnd(bytes, from + 1)
  }

  // Some read ended more than `max` bytes into the line [from, to) and no later than its end.
  ghost predicate Overran(pipe: Pipe, max: nat, from: nat, to: nat) {
    exists k :: 0 <= k <= |pipe.chunks| && from + max < pipe.Cut(k) <= to
  }

  ghost function FrameFor(pipe: Pipe, max: nat, from: nat, to: nat): Frame
    requires from <= to <= |pipe.Bytes()|
  {
    if Overran(pipe, max, from, to) then Oversized(to - from) else Line(pipe.Bytes()[from..to])
  }

  // The frames owed for the bytes at and after `from`: one a line, in order. A
  // last line with no newline counts only at a clean end of file.
  ghost function Frames(pipe: Pipe, max: nat, from: nat): seq<Frame>
    requires from <= |pipe.Bytes()|
    decreases |pipe.Bytes()| - from
  {
    var end := LineEnd(pipe.Bytes(), from);
    if end < |pipe.Bytes()| then [FrameFor(pipe, max, from, end)] + Frames(pipe, max, end + 1)
    else if from == |pipe.Bytes()| || pipe.fails then []
    else [FrameFor(pipe, max, from, end)]
  }

  // The lines of a byte string by plain splitting; the unfinished one comes last if it counts.
  ghost function Split(bytes: seq<byte>, from: nat, unfinished: bool): (lines: seq<seq<byte>>)
    requires from <= |bytes|
    decreases |bytes| - from
  {
    var end := LineEnd(bytes, from);
    if end < |bytes| then [bytes[from..end]] + Split(bytes, end + 1, unfinished)
    else if from == |bytes| || !unfinished then []
    else [bytes[from..]]
  }

  lemma {:induction false} PrefixLengths(pipe: Pipe, j: nat, k: nat)
    requires pipe.Valid() && j <= k <= |pipe.chunks|
    ensures j < k ==> |pipe.Prefix(j)| < pipe.Cut(k)
    ensures pipe.Prefix(j) <= pipe.Prefix(k)
    decreases k
  {
    if j < k {
      PrefixLengths(pipe, j, k - 1);
    }
  }

  lemma {:induction false} LineEndIs(bytes: seq<byte>, from: nat, end: nat)
    requires from <= end <= |bytes| && NoNewline(bytes, from, end)
    requires end < |bytes| ==> bytes[end] == NEWLINE
    ensures LineEnd(bytes, from) == end
    decreases |bytes| - from
  {
    if from < end {
      LineEndIs(bytes, from + 1, end);
    }
  }

  // One frame a line, in order, with the line's exact size; the line itself unless
  // it is oversized, and never oversized when it has at most `max` bytes.
  ghost predicate OneEach(frames: seq<Frame>, lines: seq<seq<byte>>, max: nat) {
    && |frames| == |lines|
    && (forall i :: 0 <= i < |lines| ==> frames[i] == Line(lines[i]) || frames[i] == Oversized(|lines[i]|))
    && (forall i :: 0 <= i < |lines| && |lines[i]| <= max ==> frames[i] == Line(lines[i]))
  }

  lemma {:induction false} FrameIsTheLine(pipe: Pipe, max: nat, from: nat, end: nat)
    requires from <= end <= |pipe.Bytes()|
    ensures OneEach([FrameFor(pipe, max, from, end)], [pipe.Bytes()[from..end]], max)
  {
    var frame := FrameFor(pipe, max, from, end);
    assert [frame][0] == frame;
  }

  // Whatever the reads were, the frames are the lines of the bytes; of a pipe that fails,
  // the complete ones.
  lemma {:induction false} FramesAreTheLines(pipe: Pipe, max: nat, from: nat)
    requires from <= |pipe.Bytes()|
    ensures OneEach(Frames(pipe, max, from), Split(pipe.Bytes(), from, !pipe.fails), max)
    decreases |pipe.Bytes()| - from
  {
    hide OneEach, FrameFor;
    var bytes := pipe.Bytes();
    var end := LineEnd(bytes, from);
    var frame := FrameFor(pipe, max, from, end);
    FrameIsTheLine(pipe, max, from, end);
    if end == |bytes| && (from == end || pipe.fails) {
      NoneEach(max);
    } else if end < |bytes| {
      FramesAreTheLines(pipe, max, end + 1);
      OneEachPrepends(frame, Frames(pipe, max, end + 1), bytes[from..end], Split(bytes, end + 1, !pipe.fails), max);
    } else {
      assert bytes[from..end] == bytes[from..];
    }
  }

  lemma {:induction false} NoneEach(max: nat)
    ensures OneEach([], [], max)
  {
  }

  lemma {:induction false} OneEachPrepends(frame: Frame, frames: seq<Frame>, line: seq<byte>, lines: seq<seq<byte>>,
          max: nat)
    requires OneEach(frames, lines, max) && OneEach([frame], [line], max)
    ensures OneEach([frame] + frames, [line] + lines, max)
  {
    assert [frame][0] == frame && [line][0] == line;
  }

  lemma {:induction false} FrameIsBounded(pipe: Pipe, max: nat, from: nat, end: nat)
    requires pipe.Valid() && from <= end <= |pipe.Bytes()|
    ensures FrameFor(pipe, max, from, end).Line? ==> end - from < max + CHUNK
  {
    if from + max + CHUNK <= end {
      if end < |pipe.Bytes()| {
        LongLinesOverrun(pipe, max, from, end, |pipe.chunks|);
      } else {
        assert pipe.Cut(|pipe.chunks|) == end;
      }
    }
  }

  // A line handed out whole is shorter than `max` plus one read.
  lemma {:induction false} DeliveredLinesAreBounded(pipe: Pipe, max: nat, from: nat)
    requires pipe.Valid() && from <= |pipe.Bytes()|
    ensures forall f :: f in Frames(pipe, max, from) && f.Line? ==> |f.bytes| < max + 8192
    decreases |pipe.Bytes()| - from
  {
    hide Overran, LineEnd;
    var end := LineEnd(pipe.Bytes(), from);
    FrameIsBounded(pipe, max, from, end);
    if end < |pipe.Bytes()| {
      DeliveredLinesAreBounded(pipe, max, end + 1);
    }
  }

  lemma {:induction false} LongLinesOverrun(pipe: Pipe, max: nat, from: nat, end: nat, k: nat)
    requires pipe.Valid() && k <= |pipe.chunks| && from + max + CHUNK <= end < pipe.Cut(k)
    ensures Overran(pipe, max, from, end)
    decreases k
  {
    if pipe.Cut(k - 1) <= end {
      assert pipe.Cut(k) <= pipe.Cut(k - 1) + CHUNK;
    } else {
      LongLinesOverrun(pipe, max, from, end, k - 1);
    }
  }

  ghost function TotalSize(frames: seq<Frame>): nat {
    if frames == [] then 0 else frames[0].Size() + TotalSize(frames[1..])
  }

  ghost function Newlines(bytes: seq<byte>, from: nat): nat
    requires from <= |bytes|
    decreases |bytes| - from
  {
    if from == |bytes| then 0
    else (if bytes[from] == NEWLINE then 1 else 0) + Newlines(bytes, from + 1)
  }

  // Every byte is accounted for: in a frame's size, or as the newline ending one.
  lemma {:induction false} BytesAreConserved(pipe: Pipe, max: nat, from: nat)
    requires !pipe.fails && from <= |pipe.Bytes()|
    ensures TotalSize(Frames(pipe, max, from)) + Newlines(pipe.Bytes(), from) == |pipe.Bytes()| - from
    decreases |pipe.Bytes()| - from
  {
    var bytes := pipe.Bytes();
    var end := LineEnd(bytes, from);
    NewlinesSkip(bytes, from, end);
    if end < |bytes| {
      BytesAreConserved(pipe, max, end + 1);
      assert Frames(pipe, max, from)[1..] == Frames(pipe, max, end + 1);
    }
  }

  lemma {:induction false} NewlinesSkip(bytes: seq<byte>, from: nat, end: nat)
    requires from <= end <= |bytes| && NoNewline(bytes, from, end)
    ensures Newlines(bytes, from) == Newlines(bytes, end)
    decreases end - from
  {
    if from < end {
      NewlinesSkip(bytes, from + 1, end);
    }
  }

  // A newline found in the bytes taken so far closes the current line, and the
  // reads still to come cannot overrun it.
  lemma {:induction false} LineFound(pipe: Pipe, max: nat, taken: nat, from: nat, end: nat, discarded: bool)
    requires pipe.Valid() && taken <= |pipe.chunks| && from <= end < |pipe.Prefix(taken)|
    requires NoNewline(pipe.Prefix(taken), from, end) && pipe.Prefix(taken)[end] == NEWLINE
    requires discarded ==> exists k :: 0 <= k <= taken && from + max < pipe.Cut(k) <= end
    requires !discarded ==> forall k :: 0 <= k <= taken ==>
                              pipe.Cut(k) <= from + max || end < pipe.Cut(k)
    ensures end < |pipe.Bytes()|
    ensures Frames(pipe, max, from) ==
            [if discarded then Oversized(end - from) else Line(pipe.Prefix(taken)[from..end])]
            + Frames(pipe, max, end + 1)
  {
    PrefixLengths(pipe, taken, |pipe.chunks|);
    assert pipe.Bytes()[from..end] == pipe.Prefix(taken)[from..end];
    LineEndIs(pipe.Bytes(), from, end);
    forall k | taken < k <= |pipe.chunks|
      ensures end < pipe.Cut(k)
    {
      PrefixLengths(pipe, taken, k);
    }
  }

  lemma {:induction false} SliceOfSlice(bytes: seq<byte>, base: nat, from: nat, to: nat)
    requires base <= |bytes| && from <= to <= |bytes| - base
    ensures bytes[base..][from..to] == bytes[base + from..base + to]
  {
  }

  // What has been compared with a newline reaches to `end`.
  lemma {:induction false} UpTo(reader: Reader, end: nat)
    requires reader.Framed() && reader.scanned <= end <= |reader.buffer|
    requires NoNewline(reader.buffer, reader.scanned, end)
    ensures NoNewline(reader.pipe.Prefix(reader.taken), reader.Start(), reader.Base() + end)
  {
    var bytes := reader.pipe.Prefix(reader.taken);
    forall k | reader.Start() <= k < reader.Base() + end
      ensures bytes[k] != NEWLINE
    {
      if reader.Base() + reader.scanned <= k {
        assert bytes[k] == reader.buffer[k - reader.Base()];
      }
    }
  }

  lemma {:induction false} Inside(reader: Reader)
    requires reader.Framed()
    ensures reader.Start() <= |reader.pipe.Bytes()|
    ensures reader.Base() + |reader.buffer| <= |reader.pipe.Bytes()|
  {
    PrefixLengths(reader.pipe, reader.taken, |reader.pipe.chunks|);
  }

  class Reader {
    const pipe: Pipe
    const max: nat
    var taken: nat
    var buffer: seq<byte>
    // Bytes at the front of `buffer` already handed out as frames.
    var consumed: nat
    // How far into `buffer` is known to hold no newline.
    var scanned: nat
    var discarded: nat
    // How many bytes were ever compared with a newline.
    ghost var compared: nat

    // Where `buffer[0]` and the current line stand in the whole stream.
    ghost function Base(): int
      reads this
      requires taken <= |pipe.chunks|
    {
      |pipe.Prefix(taken)| - |buffer|
    }

    ghost function Start(): int
      reads this
      requires taken <= |pipe.chunks|
    {
      Base() + consumed - discarded
    }

    ghost predicate Valid()
      reads this
    {
      && Framed()
      // Each byte taken off the pipe is compared with a newline at most once.
      && compared == Base() + scanned
    }

    ghost predicate Framed()
      reads this
    {
      && pipe.Valid()
      && taken <= |pipe.chunks|
      && consumed <= scanned <= |buffer| <= max + CHUNK
      && 0 <= Start()
      && 0 <= Base()
      && buffer == pipe.Prefix(taken)[Base()..]
      && NoNewline(pipe.Prefix(taken), Start(), Base() + scanned)
      // Only the last read can hold bytes not looked at yet.
      && (forall k :: 0 <= k < taken ==> pipe.Cut(k) <= Base() + scanned)
      && (discarded > 0 ==>
            && consumed == 0
            && exists k :: 0 <= k <= taken && Start() + max < pipe.Cut(k) <= Base())
      && (discarded == 0 ==>
            forall k :: 0 <= k <= taken ==>
              pipe.Cut(k) <= Start() + max || Base() + scanned < pipe.Cut(k))
    }

    constructor (pipe: Pipe, max: nat)
      requires pipe.Valid()
      ensures Valid() && this.pipe == pipe && this.max == max && Start() == 0
    {
      this.pipe := pipe;
      this.max := max;
      taken, buffer, consumed, scanned, discarded, compared := 0, [], 0, 0, 0, 0;
    }

    // Looks for a newline past `scanned`.
    method Scan() returns (found: bool, end: nat)
      requires Valid()
      modifies `compared
      ensures scanned <= end <= |buffer| && found == (end < |buffer|)
      ensures NoNewline(buffer, scanned, end) && (found ==> buffer[end] == NEWLINE)
      ensures compared == Base() + end + if found then 1 else 0
    {
      end := scanned;
      while end < |buffer|
        invariant scanned <= end <= |buffer|
        invariant NoNewline(buffer, scanned, end)
        invariant compared == Base() + end
      {
        compared := compared + 1;
        if buffer[end] == NEWLINE {
          return true, end;
        }
        end := end + 1;
      }
      found := false;
    }

    // Hands out the line a newline at `end` closes.
    method TakeLine(end: nat) returns (frame: Frame)
      requires Framed() && scanned <= end < |buffer| && compared == Base() + end + 1
      requires NoNewline(buffer, scanned, end) && buffer[end] == NEWLINE
      modifies `consumed, `scanned, `discarded
      ensures Valid() && Start() == Base() + end + 1
      ensures frame == if old(discarded) > 0 then Oversized(Base() + end - old(Start()))
                       else Line(pipe.Prefix(taken)[old(Start())..Base() + end])
    {
      var line := buffer[consumed..end];
      SliceOfSlice(pipe.Prefix(taken), Base(), consumed, end);
      ghost var start, was := Start(), Base() + scanned;
      frame := if discarded > 0 then Oversized(discarded + |line|) else Line(line);
      consumed, scanned, discarded := end + 1, end + 1, 0;
      assert Start() == Base() + scanned >= was;
    }

    // Drops what was handed out and, past `max`, what cannot be a frame any more.
    method SetAside()
      requires Framed() && NoNewline(buffer, scanned, |buffer|) && compared == Base() + |buffer|
      modifies `buffer, `consumed, `scanned, `discarded
      ensures Valid() && Start() == old(Start())
      ensures consumed == 0 && scanned == |buffer| <= max
    {
      UpTo(this, |buffer|);
      ghost var start := Start();
      buffer := buffer[consumed..];
      consumed := 0;
      scanned := |buffer|;
      if |buffer| > max {
        assert start + max < pipe.Cut(taken);
        discarded := discarded + |buffer|;
        buffer := [];
        scanned := 0;
      }
    }

    // Hands out the line found, and says that it is the next one owed.
    method Emit(end: nat) returns (frame: Frame)
      requires Framed() && scanned <= end < |buffer| && compared == Base() + end + 1
      requires NoNewline(buffer, scanned, end) && buffer[end] == NEWLINE
      modifies `consumed, `scanned, `discarded
      ensures Valid() && old(Start()) < Start() <= |pipe.Bytes()|
      ensures Frames(pipe, max, old(Start())) == [frame] + Frames(pipe, max, Start())
    {
      hide Frames;
      UpTo(this, end);
      LineFound(pipe, max, taken, Start(), Base() + end, discarded > 0);
      frame := TakeLine(end);
    }

    // Answers a pipe that has nothing more.
    method Finish() returns (answer: Answer)
      requires Valid() && consumed == 0 && scanned == |buffer|
      requires taken == |pipe.chunks|
      modifies `buffer, `scanned, `discarded
      ensures Valid() && old(Start()) <= Start() <= |pipe.Bytes()|
      ensures Answers(answer, old(Start()), Start())
    {
      LineEndIs(pipe.Bytes(), Start(), |pipe.Bytes()|);
      LineEndIs(pipe.Bytes(), |pipe.Bytes()|, |pipe.Bytes()|);
      if pipe.fails {
        return Broken;
      }
      ghost var start := Start();
      scanned := 0;
      if discarded > 0 {
        var dropped := discarded + |buffer|;
        discarded := 0;
        buffer := [];
        return Got(Oversized(dropped));
      }
      if buffer == [] {
        return End;
      }
      var line := buffer;
      buffer := [];
      assert line == pipe.Bytes()[start..|pipe.Bytes()|];
      return Got(Line(line));
    }

    // What an answer says about the frames owed before and after it.
    ghost predicate Answers(answer: Answer, before: nat, after: nat)
      requires before <= |pipe.Bytes()| && after <= |pipe.Bytes()|
    {
      match answer
      case Got(frame) => before < after && Frames(pipe, max, before) == [frame] + Frames(pipe, max, after)
      case End => !pipe.fails && Frames(pipe, max, before) == [] && after == |pipe.Bytes()|
      case Broken => pipe.fails && Frames(pipe, max, before) == [] && after == before
    }

    method Fill()
      requires Valid() && consumed == 0 && scanned == |buffer| <= max
      requires taken < |pipe.chunks|
      modifies `buffer, `taken
      ensures Valid() && Start() == old(Start())
      ensures taken == old(taken) + 1
    {
      buffer := buffer + pipe.chunks[taken];
      taken := taken + 1;
    }

    // Takes one more read off the pipe, or answers its end.
    method More() returns (over: bool, answer: Answer)
      requires Framed() && NoNewline(buffer, scanned, |buffer|) && compared == Base() + |buffer|
      requires Start() <= |pipe.Bytes()|
      modifies `taken, `buffer, `consumed, `scanned, `discarded
      ensures Valid() && Start() <= |pipe.Bytes()|
      ensures !over ==> Start() == old(Start()) && old(taken) < taken
      ensures over ==> old(Start()) <= Start() && Answers(answer, old(Start()), Start())
    {
      SetAside();
      over, answer := taken == |pipe.chunks|, End;
      if over {
        answer := Finish();
      } else {
        Fill();
      }
    }

    // Hands out the next frame: the first of those owed from where the reader stood.
    method Next() returns (answer: Answer)
      requires Valid()
      modifies this
      ensures Valid()
      ensures old(Start()) <= Start() <= |pipe.Bytes()|
      ensures Answers(answer, old(Start()), Start())
      ensures compared <= |pipe.Bytes()|
    {
      Inside(this);
      while true
        invariant Valid() && Start() == old(Start()) <= |pipe.Bytes()|
        invariant compared <= |pipe.Bytes()|
        decreases |pipe.chunks| - taken
      {
        Inside(this);
        var found, end := Scan();
        if found {
          var frame := Emit(end);
          return Got(frame);
        }
        var over;
        over, answer := More();
        if over {
          return;
        }
      }
    }
  }

  // The read loop of a connection, with what it counts about the frames it drops.
  method ReadFrames(pipe: Pipe, max: nat) returns (frames: seq<Frame>, oversized: nat, dropped: nat)
    requires pipe.Valid()
    ensures frames == Frames(pipe, max, 0)
    ensures oversized == OversizedCount(frames)
    ensures dropped == OversizedSize(frames)
  {
    var reader := new Reader(pipe, max);
    frames, oversized, dropped := [], 0, 0;
    while true
      invariant reader.Valid() && reader.pipe == pipe && reader.max == max
      invariant reader.Start() <= |pipe.Bytes()|
      invariant frames + Frames(pipe, max, reader.Start()) == Frames(pipe, max, 0)
      invariant oversized == OversizedCount(frames) && dropped == OversizedSize(frames)
      decreases |pipe.Bytes()| - reader.Start()
    {
      ghost var before := reader.Start();
      var answer := reader.Next();
      match answer {
        case Got(frame) =>
          DropsAppend(frames, frame);
          SplitsOff(frames, frame, Frames(pipe, max, before), Frames(pipe, max, reader.Start()));
          frames := frames + [frame];
          if frame.Oversized? {
            oversized := oversized + 1;
            dropped := dropped + frame.size;
          }
        case End => return;
        case Broken => return;
      }
    }
  }

  lemma {:induction false} SplitsOff(done: seq<Frame>, frame: Frame, owed: seq<Frame>, rest: seq<Frame>)
    requires owed == [frame] + rest
    ensures done + owed == done + [frame] + rest
  {
  }

  ghost function OversizedSize(frames: seq<Frame>): nat {
    if frames == [] then 0
    else (if frames[0].Oversized? then frames[0].size else 0) + OversizedSize(frames[1..])
  }

  ghost function OversizedCount(frames: seq<Frame>): nat {
    if frames == [] then 0
    else (if frames[0].Oversized? then 1 else 0) + OversizedCount(frames[1..])
  }

  lemma {:induction false} DropsAppend(frames: seq<Frame>, last: Frame)
    ensures OversizedCount(frames + [last]) == OversizedCount(frames) + if last.Oversized? then 1 else 0
    ensures OversizedSize(frames + [last]) == OversizedSize(frames) + if last.Oversized? then last.size else 0
  {
    if frames != [] {
      DropsAppend(frames[1..], last);
      assert (frames + [last])[1..] == frames[1..] + [last];
    }
  }
}
