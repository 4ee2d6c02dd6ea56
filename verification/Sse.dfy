// Server-sent event framing on the client (rust/crates/oga-client/src/loopback.rs):
// cutting a byte stream into blocks and reading a block, for any chunking of the
// stream. Section 9.2 of the WHATWG HTML standard. A byte is a char below 256.
module Sse {
  import opened Basics
  import opened Lists
  import opened Texts

  type Bytes = string

  // --- Block boundaries ---

  predicate LineFeeds(s: Bytes, i: nat) {
    i + 2 <= |s| && s[i] == '\n' && s[i + 1] == '\n'
  }

  predicate CarriageReturns(s: Bytes, i: nat) {
    i + 4 <= |s| && s[i] == '\r' && s[i + 1] == '\n' && s[i + 2] == '\r' && s[i + 3] == '\n'
  }

  predicate EndsAt(s: Bytes, i: nat) {
    LineFeeds(s, i) || CarriageReturns(s, i)
  }

  function DelimiterLength(s: Bytes, i: nat): nat
    requires EndsAt(s, i)
  {
    if LineFeeds(s, i) then 2 else 4
  }

  // A block ends at two line feeds, or at two pairs of a carriage return and a line feed.
  lemma {:induction false} EndsAre(s: Bytes, i: nat)
    requires i <= |s|
    ensures EndsAt(s, i) <==> "\n\n" <= s[i..] || "\r\n\r\n" <= s[i..]
    ensures EndsAt(s, i) ==> DelimiterLength(s, i) == if "\n\n" <= s[i..] then 2 else 4
  {
    var rest := s[i..];
    assert "\n\n" <= rest <==> |rest| >= 2 && rest[0] == '\n' && rest[1] == '\n' by {
      if |rest| >= 2 {
        assert rest[..2] == [rest[0], rest[1]];
      }
    }
    assert "\r\n\r\n" <= rest <==>
      |rest| >= 4 && rest[0] == '\r' && rest[1] == '\n' && rest[2] == '\r' && rest[3] == '\n' by {
      if |rest| >= 4 {
        assert rest[..4] == [rest[0], rest[1], rest[2], rest[3]];
      }
    }
  }

  // Where the first block of `s` ends, looking from `from` on.
  function BlockEnd(s: Bytes, from: nat): (end: Option<nat>)
    requires from <= |s|
    ensures end.Some? ==> from <= end.value < |s| && EndsAt(s, end.value)
    ensures end.Some? ==> forall i :: from <= i < end.value ==> !EndsAt(s, i)
    ensures end.None? ==> forall i :: from <= i ==> !EndsAt(s, i)
    decreases |s| - from
  {
    if from == |s| then None
    else if EndsAt(s, from) then Some(from)
    else BlockEnd(s, from + 1)
  }

  lemma {:induction false} BlockEndIs(s: Bytes, end: nat)
    requires EndsAt(s, end) && forall i :: 0 <= i < end ==> !EndsAt(s, i)
    ensures BlockEnd(s, 0) == Some(end)
  {
  }

  // More bytes never reveal an earlier boundary.
  lemma {:induction false} BoundariesStay(s: Bytes, more: Bytes)
    requires BlockEnd(s, 0).Some?
    ensures BlockEnd(s + more, 0) == BlockEnd(s, 0)
  {
    var end := BlockEnd(s, 0).value;
    assert EndsAt(s + more, end);
    forall i | 0 <= i < end
      ensures !EndsAt(s + more, i)
    {
      assert !EndsAt(s, i);
    }
    BlockEndIs(s + more, end);
  }

  // The blocks of a whole byte string, and what is left after the last of them.
  function Blocks(s: Bytes): seq<Bytes>
    decreases |s|
  {
    match BlockEnd(s, 0)
    case None => []
    case Some(end) => [s[..end]] + Blocks(s[end + DelimiterLength(s, end)..])
  }

  function Rest(s: Bytes): Bytes
    decreases |s|
  {
    match BlockEnd(s, 0)
    case None => s
    case Some(end) => Rest(s[end + DelimiterLength(s, end)..])
  }

  lemma {:induction false} NoBlock(s: Bytes)
    requires forall i :: 0 <= i < |s| ==> !EndsAt(s, i)
    ensures Blocks(s) == [] && Rest(s) == s
  {
  }

  lemma {:induction false} FirstBlock(s: Bytes, end: nat)
    requires EndsAt(s, end) && forall i :: 0 <= i < end ==> !EndsAt(s, i)
    ensures Blocks(s) == [s[..end]] + Blocks(s[end + DelimiterLength(s, end)..])
    ensures Rest(s) == Rest(s[end + DelimiterLength(s, end)..])
  {
    BlockEndIs(s, end);
  }

  // Taking blocks off early and going on with the rest misses and invents none.
  lemma {:induction false} BlocksContinue(s: Bytes, more: Bytes)
    ensures Blocks(s + more) == Blocks(s) + Blocks(Rest(s) + more)
    ensures Rest(s + more) == Rest(Rest(s) + more)
    decreases |s|
  {
    hide Blocks, Rest, DelimiterLength;
    match BlockEnd(s, 0) {
      case None =>
        NoBlock(s);
      case Some(end) =>
        BoundariesStay(s, more);
        FirstBlock(s, end);
        FirstBlock(s + more, end);
        SameDelimiter(s, more, end);
        var after := end + DelimiterLength(s, end);
        BlocksContinue(s[after..], more);
        assert (s + more)[..end] == s[..end] && (s + more)[after..] == s[after..] + more;
    }
  }

  lemma {:induction false} SameDelimiter(s: Bytes, more: Bytes, end: nat)
    requires EndsAt(s, end)
    ensures EndsAt(s + more, end) && DelimiterLength(s + more, end) == DelimiterLength(s, end)
    ensures end + DelimiterLength(s, end) <= |s|
  {
  }

  // A stream cut off at any byte has delivered a prefix of its blocks.
  lemma {:induction false} CutStreamsDeliverAPrefix(s: Bytes, at: nat)
    requires at <= |s|
    ensures Blocks(s[..at]) <= Blocks(s)
  {
    hide Blocks, Rest;
    BlocksContinue(s[..at], s[at..]);
    assert s[..at] + s[at..] == s;
  }

  // The first place where `matches` holds.
  method Position(s: Bytes, matches: (Bytes, nat) -> bool) returns (at: Option<nat>)
    ensures at.Some? ==> at.value < |s| && matches(s, at.value) && forall i :: 0 <= i < at.value ==> !matches(s, i)
    ensures at.None? ==> forall i :: 0 <= i < |s| ==> !matches(s, i)
  {
    for i := 0 to |s|
      invariant forall j :: 0 <= j < i ==> !matches(s, j)
    {
      if matches(s, i) {
        return Some(i);
      }
    }
    return None;
  }

  class Decoder {
    var buffer: Bytes

    constructor ()
      ensures buffer == ""
    {
      buffer := "";
    }

    // Takes the first whole block out of the buffer.
    method TakeBlock() returns (block: Option<Bytes>)
      modifies this
      ensures block.None? ==> Blocks(buffer) == [] && Rest(buffer) == buffer && buffer == old(buffer)
      ensures block.Some? ==> Blocks(old(buffer)) == [block.value] + Blocks(buffer)
      ensures Rest(buffer) == Rest(old(buffer))
      ensures block.Some? ==> |buffer| < |old(buffer)|
    {
      hide Blocks, Rest, BlockEnd;
      var lineFeeds := Position(buffer, LineFeeds);
      var carriageReturns := Position(buffer, CarriageReturns);
      var end: nat, length: nat;
      match (lineFeeds, carriageReturns) {
        case (None, None) =>
          NoBlock(buffer);
          return None;
        case (Some(at), None) => end, length := at, 2;
        case (None, Some(at)) => end, length := at, 4;
        case (Some(lf), Some(cr)) =>
          if lf < cr {
            end, length := lf, 2;
          } else {
            end, length := cr, 4;
          }
      }
      FirstBlock(buffer, end);
      block := Some(buffer[..end]);
      buffer := buffer[end + length..];
    }

    // Reads a stream as it arrives: after each chunk, every block it completes.
    method Read(chunks: seq<Bytes>) returns (blocks: seq<Bytes>)
      requires buffer == ""
      modifies this
      ensures blocks == Blocks(Concat(chunks)) && buffer == Rest(Concat(chunks))
    {
      blocks := [];
      for i := 0 to |chunks|
        invariant blocks == Blocks(Concat(chunks[..i])) && buffer == Rest(Concat(chunks[..i]))
      {
        assert chunks[..i + 1][..i] == chunks[..i];
        BlocksContinue(Concat(chunks[..i]), chunks[i]);
        buffer := buffer + chunks[i];
        while true
          invariant blocks + Blocks(buffer) == Blocks(Concat(chunks[..i + 1]))
          invariant Rest(buffer) == Rest(Concat(chunks[..i + 1]))
          decreases |buffer|
        {
          var block := TakeBlock();
          if block.None? {
            break;
          }
          blocks := blocks + [block.value];
        }
      }
      assert chunks[..|chunks|] == chunks;
    }
  }

  // --- One block ---

  datatype Event = Event(name: Bytes, data: Bytes)

  // ASCII whitespace, as bytes.
  predicate IsBlank(c: char) {
    '\t' <= c <= '\r' || c == ' '
  }

  // Tab, line feed, vertical tab, form feed, carriage return and space.
  lemma {:induction false} BlanksAre(c: char)
    ensures IsBlank(c) <==> c as int in {9, 10, 11, 12, 13, 32}
  {
  }

  function StripReturn(line: Bytes): Bytes {
    if line != "" && line[|line| - 1] == '\r' then line[..|line| - 1] else line
  }

  // The lines of a text; the last needs no line feed, and each loses one carriage return
  // before it.
  function Lines(s: Bytes): seq<Bytes>
    decreases |s|
  {
    var end := LineEnd(s, 0);
    if end < |s| then [StripReturn(s[..end])] + Lines(s[end + 1..])
    else if s == "" then []
    else [s]
  }

  function LineEnd(s: Bytes, from: nat): (end: nat)
    requires from <= |s|
    ensures from <= end <= |s|
    decreases |s| - from
  {
    if from == |s| || s[from] == '\n' then from else LineEnd(s, from + 1)
  }

  datatype Field = EventField(value: Bytes) | DataField(value: Bytes) | OtherField

  function FieldOf(line: Bytes): Field {
    var line := StripReturn(line);
    if "event:" <= line then EventField(TrimEnd(TrimStart(line[6..], IsBlank), IsBlank))
    else if "data:" <= line then DataField(TrimStart(line[5..], IsBlank))
    else OtherField
  }

  // The last event name among the lines.
  function NameOf(lines: seq<Bytes>): Option<Bytes> {
    if lines == [] then None
    else
      var field := FieldOf(lines[|lines| - 1]);
      if field.EventField? then Some(field.value) else NameOf(lines[..|lines| - 1])
  }

  function ValuesOf(lines: seq<Bytes>): seq<Bytes> {
    if lines == [] then []
    else
      var field := FieldOf(lines[|lines| - 1]);
      ValuesOf(lines[..|lines| - 1]) + if field.DataField? then [field.value] else []
  }

  function JoinLines(values: seq<Bytes>): Bytes {
    if values == [] then ""
    else if |values| == 1 then values[0]
    else JoinLines(values[..|values| - 1]) + "\n" + values[|values| - 1]
  }

  function DropEmpty(values: seq<Bytes>): seq<Bytes> {
    if values != [] && values[0] == "" then DropEmpty(values[1..]) else values
  }

  // The data a block carries: its data lines joined by line feeds, without the empty ones
  // before the first that is not.
  function DataOf(lines: seq<Bytes>): Bytes {
    JoinLines(DropEmpty(ValuesOf(lines)))
  }

  function EventOf(lines: seq<Bytes>): Option<Event> {
    var name := NameOf(lines);
    if name.None? || name.value == "" || DataOf(lines) == "" then None else Some(Event(name.value, DataOf(lines)))
  }

  lemma {:induction false} DropEmptyAppends(values: seq<Bytes>, last: Bytes)
    ensures DropEmpty(values + [last]) ==
            if DropEmpty(values) == [] then if last == "" then [] else [last] else DropEmpty(values) + [last]
  {
    if values == [] {
      assert values + [last] == [last];
    } else {
      assert (values + [last])[1..] == values[1..] + [last];
      if values[0] == "" {
        DropEmptyAppends(values[1..], last);
      }
    }
  }

  lemma {:induction false} FirstIsNotEmpty(values: seq<Bytes>)
    ensures DropEmpty(values) != [] ==> DropEmpty(values)[0] != ""
    ensures JoinLines(DropEmpty(values)) == "" <==> DropEmpty(values) == []
  {
    if values != [] && values[0] == "" {
      FirstIsNotEmpty(values[1..]);
    } else {
      JoinKeepsFirst(values);
    }
  }

  lemma {:induction false} JoinKeepsFirst(values: seq<Bytes>)
    ensures values != [] ==> values[0] <= JoinLines(values)
  {
    if |values| > 1 {
      JoinKeepsFirst(values[..|values| - 1]);
    }
  }

  lemma {:induction false} DataGrows(lines: seq<Bytes>, line: Bytes)
    ensures DataOf(lines + [line]) ==
            match FieldOf(line)
            case DataField(value) => if DataOf(lines) != "" then DataOf(lines) + "\n" + value else value
            case EventField(_) => DataOf(lines)
            case OtherField => DataOf(lines)
  {
    var values := ValuesOf(lines);
    assert (lines + [line])[..|lines|] == lines;
    FirstIsNotEmpty(values);
    match FieldOf(line) {
      case DataField(value) =>
        DropEmptyAppends(values, value);
        if DropEmpty(values) != [] {
          JoinGrows(DropEmpty(values), value);
        }
      case EventField(_) =>
        assert ValuesOf(lines + [line]) == values;
      case OtherField =>
        assert ValuesOf(lines + [line]) == values;
    }
  }

  lemma {:induction false} JoinGrows(values: seq<Bytes>, value: Bytes)
    requires values != []
    ensures JoinLines(values + [value]) == JoinLines(values) + "\n" + value
  {
    assert (values + [value])[..|values|] == values;
  }

  // Reads one block, line by line.
  method ParseBlock(block: Bytes) returns (event: Option<Event>)
    ensures event == EventOf(Lines(block))
  {
    var lines := Lines(block);
    var name: Option<Bytes> := None;
    var data := "";
    for i := 0 to |lines|
      invariant name == NameOf(lines[..i])
      invariant data == DataOf(lines[..i])
    {
      assert lines[..i + 1] == lines[..i] + [lines[i]];
      assert lines[..i + 1][..i] == lines[..i];
      DataGrows(lines[..i], lines[i]);
      hide DataOf, TrimStart, TrimEnd;
      var line := StripReturn(lines[i]);
      if "event:" <= line {
        name := Some(TrimEnd(TrimStart(line[6..], IsBlank), IsBlank));
      } else if "data:" <= line {
        if data != "" {
          data := data + "\n";
        }
        data := data + TrimStart(line[5..], IsBlank);
      }
    }
    assert lines[..|lines|] == lines;
    if name.None? || name.value == "" || data == "" {
      return None;
    }
    return Some(Event(name.value, data));
  }

  // --- Round trip ---

  // An event as a server writes it: a name, the lines of its data, and whether a carriage return
  // comes before each line feed.
  datatype Message = Message(name: Bytes, values: seq<Bytes>, crlf: bool)

  predicate Clean(s: Bytes) {
    forall c :: c in s ==> c != '\n' && c != '\r'
  }

  ghost predicate Sendable(m: Message) {
    && m.name != "" && Clean(m.name) && !IsBlank(m.name[0]) && !IsBlank(m.name[|m.name| - 1])
    && m.values != [] && m.values[0] != ""
    && forall v :: v in m.values ==> Clean(v) && (v != "" ==> !IsBlank(v[0]))
  }

  function LinesFor(m: Message): seq<Bytes> {
    ["event: " + m.name] + DataLines(m.values)
  }

  function DataLines(values: seq<Bytes>): seq<Bytes> {
    seq(|values|, i requires 0 <= i < |values| => "data: " + values[i])
  }

  function LineEnding(crlf: bool): (eol: Bytes)
    ensures IsLineEnding(eol)
  {
    if crlf then "\r\n" else "\n"
  }

  predicate IsLineEnding(eol: Bytes) {
    eol == "\n" || eol == "\r\n"
  }

  // Every line with its line ending.
  function Unlines(lines: seq<Bytes>, eol: Bytes): Bytes {
    if lines == [] then "" else lines[0] + eol + Unlines(lines[1..], eol)
  }

  function Encode(m: Message): Bytes {
    Unlines(LinesFor(m), LineEnding(m.crlf)) + LineEnding(m.crlf)
  }

  function EncodeAll(messages: seq<Message>): Bytes {
    if messages == [] then "" else Encode(messages[0]) + EncodeAll(messages[1..])
  }

  ghost predicate Printable(lines: seq<Bytes>) {
    lines != [] && forall line :: line in lines ==> line != "" && Clean(line)
  }

  lemma {:induction false} CleanUntil(line: Bytes, eol: Bytes, more: Bytes, from: nat)
    requires Clean(line) && IsLineEnding(eol) && from < |line| + |eol|
    ensures LineEnd(line + eol + more, from) == |line| + |eol| - 1
    decreases |line| + |eol| - from
  {
    var s := line + eol + more;
    if from < |line| {
      assert s[from] == line[from] && line[from] in line;
      CleanUntil(line, eol, more, from + 1);
    } else {
      assert s[from] == eol[from - |line|];
      if from < |line| + |eol| - 1 {
        CleanUntil(line, eol, more, from + 1);
      }
    }
  }

  lemma {:induction false} CleanToTheEnd(line: Bytes, from: nat)
    requires Clean(line) && from <= |line|
    ensures LineEnd(line, from) == |line|
    decreases |line| - from
  {
    if from < |line| {
      assert line[from] in line;
      CleanToTheEnd(line, from + 1);
    }
  }

  predicate FirstEnd(s: Bytes, end: nat, length: nat) {
    && EndsAt(s, end) && DelimiterLength(s, end) == length
    && forall i :: 0 <= i < end ==> !EndsAt(s, i)
  }

  lemma {:induction false} NothingEndsInALine(line: Bytes, more: Bytes)
    requires Clean(line)
    ensures forall i :: 0 <= i < |line| ==> !EndsAt(line + more, i)
  {
    forall i | 0 <= i < |line|
      ensures !EndsAt(line + more, i)
    {
      assert (line + more)[i] == line[i] && line[i] in line;
    }
  }

  lemma {:induction false} LastLineEnds(line: Bytes, eol: Bytes, more: Bytes)
    requires Clean(line) && IsLineEnding(eol)
    ensures FirstEnd(line + eol + eol + more, |line|, 2 * |eol|)
  {
    NothingEndsInALine(line, eol + eol + more);
    var s := line + (eol + eol + more);
    assert s == line + eol + eol + more;
    EndsLater(s, |line|, |line|);
    assert s[|line|..] == eol + eol + more;
  }

  lemma {:induction false} EndsLater(s: Bytes, after: nat, i: nat)
    requires after <= i <= |s|
    ensures EndsAt(s, i) <==> EndsAt(s[after..], i - after)
    ensures EndsAt(s, i) ==> DelimiterLength(s, i) == DelimiterLength(s[after..], i - after)
  {
  }

  // One line ending before more text is no boundary.
  lemma {:induction false} NoEarlierEnd(line: Bytes, eol: Bytes, tail: Bytes)
    requires IsLineEnding(eol) && tail != "" && tail[0] != '\n' && tail[0] != '\r'
    ensures forall i :: |line| <= i < |line| + |eol| ==> !EndsAt(line + eol + tail, i)
  {
    var s := line + eol + tail;
    assert s[|line| + |eol|] == tail[0];
    forall i | |line| <= i < |line| + |eol|
      ensures !EndsAt(s, i)
    {
      assert s[i] == eol[i - |line|];
    }
  }

  lemma {:induction false} EarlierLineEnds(line: Bytes, eol: Bytes, tail: Bytes, end: nat)
    requires Clean(line) && IsLineEnding(eol) && tail != "" && tail[0] != '\n' && tail[0] != '\r'
    requires FirstEnd(tail, end, 2 * |eol|)
    ensures FirstEnd(line + eol + tail, |line| + |eol| + end, 2 * |eol|)
  {
    var s, after := line + eol + tail, |line| + |eol|;
    assert s == line + (eol + tail) && s[after..] == tail;
    NothingEndsInALine(line, eol + tail);
    NoEarlierEnd(line, eol, tail);
    hide EndsAt;
    EndsLater(s, after, after + end);
    forall i | after <= i < after + end
      ensures !EndsAt(s, i)
    {
      EndsLater(s, after, i);
    }
  }

  // A blank line is the first boundary after lines that are not blank.
  lemma {:induction false} BlankLineEndsBlock(lines: seq<Bytes>, eol: Bytes, more: Bytes)
    requires Printable(lines) && IsLineEnding(eol)
    ensures |Unlines(lines, eol)| > |eol|
    ensures FirstEnd(Unlines(lines, eol) + eol + more, |Unlines(lines, eol)| - |eol|, 2 * |eol|)
  {
    hide FirstEnd;
    var line, rest := lines[0], lines[1..];
    assert line in lines;
    if rest == [] {
      assert Unlines(lines, eol) == line + eol;
      LastLineEnds(line, eol, more);
    } else {
      assert forall other :: other in rest ==> other in lines;
      BlankLineEndsBlock(rest, eol, more);
      var tail := Unlines(rest, eol) + eol + more;
      assert Unlines(lines, eol) + eol + more == line + eol + tail;
      assert rest[0] in lines && tail[0] == rest[0][0] && rest[0][0] in rest[0];
      EarlierLineEnds(line, eol, tail, |Unlines(rest, eol)| - |eol|);
    }
  }

  lemma {:induction false} LineAndMore(line: Bytes, eol: Bytes, more: Bytes)
    requires Clean(line) && line != "" && IsLineEnding(eol)
    ensures Lines(line + eol + more) == [line] + Lines(more)
  {
    var s := line + eol + more;
    var end := |line| + |eol| - 1;
    CleanUntil(line, eol, more, 0);
    assert s[end + 1..] == more;
    assert s[..end] == line + eol[..|eol| - 1];
    assert line[|line| - 1] in line;
    assert StripReturn(s[..end]) == line;
  }

  lemma {:induction false} LastLine(line: Bytes)
    requires Clean(line) && line != ""
    ensures Lines(line) == [line]
  {
    CleanToTheEnd(line, 0);
  }

  lemma {:induction false} LinesOfUnlines(lines: seq<Bytes>, eol: Bytes)
    requires Printable(lines) && IsLineEnding(eol)
    ensures |Unlines(lines, eol)| >= |eol|
    ensures Lines(Unlines(lines, eol)[..|Unlines(lines, eol)| - |eol|]) == lines
  {
    hide Lines, Clean, IsLineEnding;
    var line, rest := lines[0], lines[1..];
    assert line in lines && lines == [line] + rest;
    if rest == [] {
      assert Unlines(lines, eol) == line + eol;
      assert Unlines(lines, eol)[..|Unlines(lines, eol)| - |eol|] == line;
      LastLine(line);
    } else {
      assert forall other :: other in rest ==> other in lines;
      LinesOfUnlines(rest, eol);
      var tail := Unlines(rest, eol)[..|Unlines(rest, eol)| - |eol|];
      assert Unlines(lines, eol)[..|Unlines(lines, eol)| - |eol|] == line + eol + tail;
      LineAndMore(line, eol, tail);
    }
  }

  // Lines that are all data hold exactly their values.
  lemma {:induction false} ValuesAre(lines: seq<Bytes>, values: seq<Bytes>)
    requires |lines| == |values|
    requires forall i :: 0 <= i < |lines| ==> FieldOf(lines[i]) == DataField(values[i])
    ensures ValuesOf(lines) == values
  {
    hide FieldOf;
    if lines != [] {
      ValuesAre(lines[..|lines| - 1], values[..|values| - 1]);
      assert values == values[..|values| - 1] + [values[|values| - 1]];
    }
  }

  lemma {:induction false} CleanJoins(a: Bytes, b: Bytes)
    requires Clean(a) && Clean(b)
    ensures Clean(a + b)
  {
  }

  lemma {:induction false} DataFieldIs(value: Bytes)
    requires Clean(value) && (value != "" ==> !IsBlank(value[0]))
    ensures FieldOf("data: " + value) == DataField(value) && Clean("data: " + value)
  {
    var line := "data: " + value;
    CleanJoins("data: ", value);
    assert line[|line| - 1] in line;
    assert line[..5] == "data:" && line[0] == 'd';
    assert StripReturn(line) == line && "data:" <= line && !("event:" <= line);
    assert line[5..] == " " + value && (" " + value)[1..] == value;
    assert TrimStart(value, IsBlank) == value;
    assert TrimStart(" " + value, IsBlank) == value;
  }

  lemma {:induction false} EventFieldIs(name: Bytes)
    requires name != "" && Clean(name) && !IsBlank(name[0]) && !IsBlank(name[|name| - 1])
    ensures FieldOf("event: " + name) == EventField(name) && Clean("event: " + name)
  {
    var line := "event: " + name;
    CleanJoins("event: ", name);
    assert line[|line| - 1] in line;
    assert line[..6] == "event:";
    assert StripReturn(line) == line && "event:" <= line;
    assert line[6..] == " " + name && (" " + name)[1..] == name;
    assert TrimStart(name, IsBlank) == name;
    assert TrimStart(" " + name, IsBlank) == name;
  }

  lemma {:induction false} DataLinesKeepTheName(first: Bytes, lines: seq<Bytes>)
    requires forall i :: 0 <= i < |lines| ==> FieldOf(lines[i]).DataField?
    requires FieldOf(first).EventField?
    ensures NameOf([first] + lines) == Some(FieldOf(first).value)
    ensures ValuesOf([first] + lines) == ValuesOf(lines)
  {
    hide FieldOf;
    if lines == [] {
      assert ([first] + lines)[..0] == [];
    } else {
      var init, last := lines[..|lines| - 1], lines[|lines| - 1];
      assert ([first] + lines)[..|lines|] == [first] + init;
      DataLinesKeepTheName(first, init);
    }
  }

  // What an encoded event reads back as.
  function Decoded(m: Message): Event {
    Event(m.name, JoinLines(m.values))
  }

  lemma {:induction false} MessageFields(m: Message)
    requires Sendable(m)
    ensures Printable(LinesFor(m))
    ensures NameOf(LinesFor(m)) == Some(m.name) && ValuesOf(LinesFor(m)) == m.values
  {
    hide FieldOf, Clean, IsBlank, NameOf, ValuesOf;
    var lines := DataLines(m.values);
    forall i | 0 <= i < |lines|
      ensures FieldOf(lines[i]) == DataField(m.values[i]) && Clean(lines[i])
    {
      assert m.values[i] in m.values;
      DataFieldIs(m.values[i]);
    }
    EventFieldIs(m.name);
    ValuesAre(lines, m.values);
    DataLinesKeepTheName("event: " + m.name, lines);
  }

  lemma {:induction false} MessageReadsBack(m: Message)
    requires Sendable(m)
    ensures Printable(LinesFor(m)) && EventOf(LinesFor(m)) == Some(Decoded(m))
  {
    hide LinesFor, NameOf, ValuesOf, Printable;
    MessageFields(m);
    assert DropEmpty(m.values) == m.values;
    FirstIsNotEmpty(m.values);
  }

  // The events among a list of blocks.
  function EventsOf(blocks: seq<Bytes>): seq<Event> {
    if blocks == [] then []
    else
      var event := EventOf(Lines(blocks[|blocks| - 1]));
      EventsOf(blocks[..|blocks| - 1]) + if event.Some? then [event.value] else []
  }

  lemma {:induction false} EventsPrepend(block: Bytes, blocks: seq<Bytes>)
    ensures EventsOf([block] + blocks) ==
            (if EventOf(Lines(block)).Some? then [EventOf(Lines(block)).value] else []) + EventsOf(blocks)
  {
    hide EventOf, Lines;
    if blocks == [] {
      assert ([block] + blocks)[..0] == [];
    } else {
      EventsPrepend(block, blocks[..|blocks| - 1]);
      assert ([block] + blocks)[..|blocks|] == [block] + blocks[..|blocks| - 1];
    }
  }

  // Reads a whole stream of events as it arrives.
  method ReadEvents(chunks: seq<Bytes>) returns (events: seq<Event>)
    ensures events == EventsOf(Blocks(Concat(chunks)))
    // However an encoded stream was cut, its events come back.
    ensures forall messages :: (forall m :: m in messages ==> Sendable(m)) && EncodeAll(messages) == Concat(chunks) ==>
              events == DecodedAll(messages)
  {
    var decoder := new Decoder();
    var blocks := decoder.Read(chunks);
    events := [];
    for i := 0 to |blocks|
      invariant events == EventsOf(blocks[..i])
    {
      assert blocks[..i + 1][..i] == blocks[..i];
      var event := ParseBlock(blocks[i]);
      if event.Some? {
        events := events + [event.value];
      }
    }
    assert blocks[..|blocks|] == blocks;
    forall messages: seq<Message> | (forall m :: m in messages ==> Sendable(m)) && EncodeAll(messages) == Concat(chunks)
      ensures events == DecodedAll(messages)
    {
      EncodedStreamsReadBack(messages);
    }
  }

  // The first encoded event is the first block, and reads back as itself.
  lemma {:induction false} FirstMessage(m: Message, more: Bytes) returns (block: Bytes)
    requires Sendable(m)
    ensures Blocks(Encode(m) + more) == [block] + Blocks(more) && Rest(Encode(m) + more) == Rest(more)
    ensures EventOf(Lines(block)) == Some(Decoded(m))
  {
    hide EventOf, Lines, LinesFor, Unlines, Printable, Blocks, Rest, BlockEnd, Decoded, Sendable;
    MessageReadsBack(m);
    var eol := LineEnding(m.crlf);
    var text := Unlines(LinesFor(m), eol);
    BlankLineEndsBlock(LinesFor(m), eol, more);
    LinesOfUnlines(LinesFor(m), eol);
    var end := |text| - |eol|;
    block := text[..end];
    var all := Encode(m) + more;
    assert all == text + eol + more;
    FirstBlock(all, end);
    assert all[..end] == block && all[end + 2 * |eol|..] == more;
  }

  function DecodedAll(messages: seq<Message>): seq<Event> {
    if messages == [] then [] else [Decoded(messages[0])] + DecodedAll(messages[1..])
  }

  // The round trip: whatever was encoded reads back as itself, with nothing left over.
  lemma {:induction false} EncodedStreamsReadBack(messages: seq<Message>)
    requires forall m :: m in messages ==> Sendable(m)
    ensures EventsOf(Blocks(EncodeAll(messages))) == DecodedAll(messages)
    ensures Rest(EncodeAll(messages)) == ""
  {
    if messages != [] {
      var m, more := messages[0], EncodeAll(messages[1..]);
      assert m in messages;
      EncodedStreamsReadBack(messages[1..]);
      var block := FirstMessage(m, more);
      EventsPrepend(block, Blocks(more));
    }
  }
}
