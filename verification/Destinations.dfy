// `worker:model:effort` destinations, written and read back (rust/crates/oga-config/src/lib.rs).
module Destinations {
  import opened Basics
  import opened Texts

  datatype Destination = Destination(profile: Option<string>, model: Option<string>, effort: Option<string>)

  datatype Refusal = NoDestination | NoWorker | NoModelOrEffort | NoModel | NotAnEffort | TooManyParts

  datatype Result = Ok(destination: Destination) | Refused(why: Refusal)

  const EFFORT_LEVELS: seq<string> := ["minimal", "low", "medium", "high", "xhigh", "max"]

  // Unicode's White_Space.
  predicate IsSpace(c: char) {
    || c == ' ' || '\t' <= c <= '\r' || '\U{2000}' <= c <= '\U{200A}'
    || c in {'\U{85}', '\U{A0}', '\U{1680}', '\U{2028}', '\U{2029}', '\U{202F}', '\U{205F}', '\U{3000}'}
  }

  function Trim(s: string): string {
    TrimEnd(TrimStart(s, IsSpace), IsSpace)
  }

  function Split(s: string): (parts: seq<string>)
    ensures parts != []
  {
    if s == "" then [""]
    else
      var rest := Split(s[1..]);
      if s[0] == ':' then [""] + rest else [[s[0]] + rest[0]] + rest[1..]
  }

  function TrimAll(parts: seq<string>): seq<string> {
    seq(|parts|, i requires 0 <= i < |parts| => Trim(parts[i]))
  }

  function Parse(value: string): Result {
    var trimmed := Trim(value);
    if trimmed == "" then Refused(NoDestination)
    else
      var parts := TrimAll(Split(trimmed));
      var worker := Some(parts[0]);
      if parts[0] == "" then Refused(NoWorker)
      else if |parts| == 1 then Ok(Destination(worker, None, None))
      else if |parts| == 2 then
        if parts[1] == "" then Refused(NoModelOrEffort)
        else if parts[1] in EFFORT_LEVELS then Ok(Destination(worker, None, Some(parts[1])))
        else Ok(Destination(worker, Some(parts[1]), None))
      else if |parts| == 3 then
        if parts[1] == "" then Refused(NoModel)
        else if parts[2] !in EFFORT_LEVELS then Refused(NotAnEffort)
        else Ok(Destination(worker, Some(parts[1]), Some(parts[2])))
      else Refused(TooManyParts)
  }

  function Suffix(part: Option<string>): string {
    if part.Some? then ":" + part.value else ""
  }

  function Triple(d: Destination): string {
    if d.profile.Some? then d.profile.value + Suffix(d.model) + Suffix(d.effort)
    else (if d.model.Some? then d.model.value else "") + Suffix(d.effort)
  }

  // --- What reading can give ---

  predicate IsTrimmed(s: string) {
    s != "" ==> !IsSpace(s[0]) && !IsSpace(s[|s| - 1])
  }

  predicate IsPart(s: string) {
    s != "" && IsTrimmed(s) && ':' !in s
  }

  // A worker, then a model unless it is left out, then an effort unless it is left out; a
  // model that is spelled like an effort never stands without one.
  predicate Canonical(d: Destination) {
    && d.profile.Some? && IsPart(d.profile.value)
    && (d.model.Some? ==> IsPart(d.model.value))
    && (d.effort.Some? ==> d.effort.value in EFFORT_LEVELS)
    && (d.model.Some? && d.effort.None? ==> d.model.value !in EFFORT_LEVELS)
  }

  lemma {:induction false} StartKeeps(s: string)
    ensures forall c :: c in TrimStart(s, IsSpace) ==> c in s
  {
    if s != "" && IsSpace(s[0]) {
      StartKeeps(s[1..]);
    }
  }

  lemma {:induction false} EndKeeps(s: string)
    ensures TrimEnd(s, IsSpace) != "" ==> TrimEnd(s, IsSpace)[0] == s[0]
    ensures |TrimEnd(s, IsSpace)| <= |s| && forall c :: c in TrimEnd(s, IsSpace) ==> c in s
  {
    if s != "" && IsSpace(s[|s| - 1]) {
      EndKeeps(s[..|s| - 1]);
    }
  }

  lemma {:induction false} TrimTrims(s: string)
    ensures IsTrimmed(Trim(s)) && forall c :: c in Trim(s) ==> c in s
    ensures IsTrimmed(s) ==> Trim(s) == s
  {
    StartKeeps(s);
    EndKeeps(TrimStart(s, IsSpace));
  }

  lemma {:induction false} SplitLeavesNoColon(s: string)
    ensures forall part :: part in Split(s) ==> ':' !in part
  {
    if s != "" {
      SplitLeavesNoColon(s[1..]);
    }
  }

  lemma {:induction false} SplitAt(part: string, rest: string)
    requires ':' !in part
    ensures Split(part + ":" + rest) == [part] + Split(rest)
  {
    var s := part + ":" + rest;
    if part == "" {
      assert s[1..] == rest;
    } else {
      assert s[1..] == part[1..] + ":" + rest;
      SplitAt(part[1..], rest);
      assert part[0] in part && s[0] == part[0];
      assert part == [part[0]] + part[1..];
    }
  }

  lemma {:induction false} SplitOne(part: string)
    requires ':' !in part
    ensures Split(part) == [part]
  {
    if part != "" {
      SplitOne(part[1..]);
      assert part[0] in part;
      assert part == [part[0]] + part[1..];
    }
  }

  lemma {:induction false} ReadingIsCanonical(value: string)
    requires Parse(value).Ok?
    ensures Canonical(Parse(value).destination)
  {
    var pieces := Split(Trim(value));
    SplitLeavesNoColon(Trim(value));
    var parts := TrimAll(pieces);
    hide Split, Trim, IsTrimmed, IsSpace;
    forall i | 0 <= i < |parts|
      ensures IsTrimmed(parts[i]) && ':' !in parts[i]
    {
      TrimTrims(pieces[i]);
      assert pieces[i] in pieces;
    }
  }

  lemma {:induction false} EffortsAreParts(effort: string)
    requires effort in EFFORT_LEVELS
    ensures IsPart(effort)
  {
  }

  lemma {:induction false} CanonicalReadsBack(d: Destination)
    requires Canonical(d)
    ensures Parse(Triple(d)) == Ok(d)
  {
    hide IsSpace, Split, TrimStart, TrimEnd;
    var text, worker := Triple(d), d.profile.value;
    if d.effort.Some? {
      EffortsAreParts(d.effort.value);
    }
    var model, effort := if d.model.Some? then [d.model.value] else [], if d.effort.Some? then [d.effort.value] else [];
    var parts := [worker] + model + effort;
    assert Split(text) == parts by {
      SplitsIntoParts(d);
    }
    assert text[0] == worker[0];
    assert text[|text| - 1] == parts[|parts| - 1][|parts[|parts| - 1]| - 1];
    TrimTrims(text);
    hide Split, Trim;
    forall i | 0 <= i < |parts|
      ensures Trim(parts[i]) == parts[i]
    {
      TrimTrims(parts[i]);
    }
    assert TrimAll(parts) == parts;
  }

  lemma {:induction false} SplitsIntoParts(d: Destination)
    requires Canonical(d) && (d.effort.Some? ==> IsPart(d.effort.value))
    ensures Split(Triple(d))
         == [d.profile.value] + (if d.model.Some? then [d.model.value] else [])
          + if d.effort.Some? then [d.effort.value] else []
  {
    hide Split;
    var worker := d.profile.value;
    SplitOne(worker);
    if d.effort.Some? {
      SplitOne(d.effort.value);
      SplitAt(worker, d.effort.value);
    }
    if d.model.Some? {
      SplitOne(d.model.value);
      SplitAt(worker, d.model.value);
      if d.effort.Some? {
        SplitAt(d.model.value, d.effort.value);
        SplitAt(worker, d.model.value + ":" + d.effort.value);
        assert Triple(d) == worker + ":" + (d.model.value + ":" + d.effort.value);
      } else {
        assert Triple(d) == worker + ":" + d.model.value;
      }
    } else if d.effort.Some? {
      assert Triple(d) == worker + ":" + d.effort.value;
    } else {
      assert Triple(d) == worker;
    }
  }

  // Whatever reads as a destination, written out and read again, is that destination.
  lemma {:induction false} WrittenAsItWasRead(value: string)
    requires Parse(value).Ok?
    ensures Parse(Triple(Parse(value).destination)) == Parse(value)
  {
    ReadingIsCanonical(value);
    CanonicalReadsBack(Parse(value).destination);
  }

  // A destination survives being written exactly when it could have been read.
  lemma {:induction false} SurvivesWritingIff(d: Destination)
    ensures Parse(Triple(d)) == Ok(d) <==> Canonical(d)
  {
    if Canonical(d) {
      CanonicalReadsBack(d);
    } else if Parse(Triple(d)) == Ok(d) {
      ReadingIsCanonical(Triple(d));
    }
  }

  // --- How a text is read ---

  lemma {:induction false} SpacesAre(c: char)
    ensures IsSpace(c) <==>
              || 9 <= c as int <= 13 || 0x2000 <= c as int <= 0x200A
              || c as int in {0x20, 0x85, 0xA0, 0x1680, 0x2028, 0x2029, 0x202F, 0x205F, 0x3000}
  {
  }

  ghost predicate OnlySpaces(s: string) {
    forall i :: 0 <= i < |s| ==> IsSpace(s[i])
  }

  // Trimming takes white space off both ends, as much as there is, and nothing else.
  lemma {:induction false} TrimIs(s: string) returns (before: string, after: string)
    ensures s == before + Trim(s) + after && OnlySpaces(before) && OnlySpaces(after)
    ensures IsTrimmed(Trim(s))
  {
    TrimTrims(s);
    before := StartIs(s);
    after := EndIs(TrimStart(s, IsSpace));
  }

  lemma {:induction false} StartIs(s: string) returns (before: string)
    ensures s == before + TrimStart(s, IsSpace) && OnlySpaces(before)
  {
    if s != "" && IsSpace(s[0]) {
      var rest := StartIs(s[1..]);
      before := [s[0]] + rest;
    } else {
      before := "";
    }
  }

  lemma {:induction false} EndIs(s: string) returns (after: string)
    ensures s == TrimEnd(s, IsSpace) + after && OnlySpaces(after)
  {
    if s != "" && IsSpace(s[|s| - 1]) {
      var rest := EndIs(s[..|s| - 1]);
      after := rest + [s[|s| - 1]];
    } else {
      after := "";
    }
  }

  lemma {:induction false} TrimSkipsStart(c: char, s: string)
    requires IsSpace(c)
    ensures Trim([c] + s) == Trim(s)
  {
    assert ([c] + s)[1..] == s;
  }

  lemma {:induction false} StartAppends(s: string, c: char)
    requires IsSpace(c)
    ensures TrimStart(s + [c], IsSpace) == if TrimStart(s, IsSpace) == "" then "" else TrimStart(s, IsSpace) + [c]
  {
    if s == "" {
      assert s + [c] == [c] && [c][1..] == "";
    } else {
      assert (s + [c])[1..] == s[1..] + [c] && (s + [c])[0] == s[0];
      if IsSpace(s[0]) {
        StartAppends(s[1..], c);
      }
    }
  }

  lemma {:induction false} TrimSkipsEnd(s: string, c: char)
    requires IsSpace(c)
    ensures Trim(s + [c]) == Trim(s)
  {
    StartAppends(s, c);
    var t := TrimStart(s, IsSpace);
    assert (t + [c])[..|t|] == t;
  }

  lemma {:induction false} SplitStarts(c: char, s: string)
    ensures Split([c] + s) == if c == ':' then [""] + Split(s) else [[c] + Split(s)[0]] + Split(s)[1..]
  {
    assert ([c] + s)[1..] == s;
  }

  // The first part may grow in front and the last behind, be they one or two.
  lemma {:induction false} LastGrows(front: string, parts: seq<string>, end: string)
    requires parts != []
    ensures var grown := parts[..|parts| - 1] + [parts[|parts| - 1] + end];
            var both := [front + parts[0]] + parts[1..];
            && [front + grown[0]] + grown[1..] == both[..|parts| - 1] + [both[|parts| - 1] + end]
            && [""] + grown == ([""] + parts)[..|parts|] + [([""] + parts)[|parts|] + end]
  {
    if |parts| == 1 {
      assert front + (parts[0] + end) == front + parts[0] + end;
    }
  }

  lemma {:induction false} SplitAppends(s: string, c: char)
    requires c != ':'
    ensures var parts := Split(s);
            Split(s + [c]) == parts[..|parts| - 1] + [parts[|parts| - 1] + [c]]
  {
    hide Split;
    if s == "" {
      SplitOne(s);
      SplitOne(s + [c]);
    } else {
      var first, rest := s[0], s[1..];
      SplitAppends(rest, c);
      SplitStarts(first, rest);
      SplitStarts(first, rest + [c]);
      assert s == [first] + rest && s + [c] == [first] + (rest + [c]);
      LastGrows([first], Split(rest), [c]);
    }
  }

  // Trimming the whole text first changes nothing about its trimmed parts.
  lemma {:induction false} StartLeavesParts(s: string)
    ensures TrimAll(Split(TrimStart(s, IsSpace))) == TrimAll(Split(s))
  {
    hide Split, Trim;
    if s != "" && IsSpace(s[0]) {
      assert s == [s[0]] + s[1..];
      StartLeavesParts(s[1..]);
      SplitStarts(s[0], s[1..]);
      TrimSkipsStart(s[0], Split(s[1..])[0]);
    }
  }

  lemma {:induction false} EndLeavesParts(s: string)
    ensures TrimAll(Split(TrimEnd(s, IsSpace))) == TrimAll(Split(s))
  {
    hide Split, Trim;
    if s != "" && IsSpace(s[|s| - 1]) {
      var init, last := s[..|s| - 1], s[|s| - 1];
      assert s == init + [last];
      EndLeavesParts(init);
      SplitAppends(init, last);
      var parts := Split(init);
      TrimSkipsEnd(parts[|parts| - 1], last);
    }
  }

  lemma {:induction false} TrimmedParts(s: string)
    ensures TrimAll(Split(Trim(s))) == TrimAll(Split(s))
  {
    hide Split, TrimStart, TrimEnd, TrimAll;
    EndLeavesParts(TrimStart(s, IsSpace));
    StartLeavesParts(s);
  }

  lemma {:induction false} ColonStays(a: string, b: string)
    ensures Trim(a + ":" + b) != ""
  {
    var s := a + ":" + b;
    var before, after := TrimIs(s);
    assert s[|a|] == ':' && OnlySpaces(before + after);
    assert before + "" + after == before + after;
  }

  // How every text is read, by its parts between colons, whatever white space is around them.
  lemma {:induction false} DestinationsAreRead(first: string, second: string, third: string, more: string)
    requires ':' !in first && ':' !in second && ':' !in third
    ensures Parse(first) == if Trim(first) == "" then Refused(NoDestination)
                            else Ok(Destination(Some(Trim(first)), None, None))
    ensures Parse(first + ":" + second) ==
            if Trim(first) == "" then Refused(NoWorker)
            else if Trim(second) == "" then Refused(NoModelOrEffort)
            else if Trim(second) in {"minimal", "low", "medium", "high", "xhigh", "max"}
            then Ok(Destination(Some(Trim(first)), None, Some(Trim(second))))
            else Ok(Destination(Some(Trim(first)), Some(Trim(second)), None))
    ensures Parse(first + ":" + second + ":" + third) ==
            if Trim(first) == "" then Refused(NoWorker)
            else if Trim(second) == "" then Refused(NoModel)
            else if Trim(third) in {"minimal", "low", "medium", "high", "xhigh", "max"}
            then Ok(Destination(Some(Trim(first)), Some(Trim(second)), Some(Trim(third))))
            else Refused(NotAnEffort)
    ensures Parse(first + ":" + second + ":" + third + ":" + more) ==
            Refused(if Trim(first) == "" then NoWorker else TooManyParts)
  {
    hide Split, Trim, IsSpace;
    SplitOne(first);
    SplitOne(second);
    SplitOne(third);
    TrimmedParts(first);
    var two := second + ":" + third;
    SplitAt(first, second);
    SplitAt(second, third);
    SplitAt(first, two);
    TrimmedParts(first + ":" + second);
    ColonStays(first, second);
    assert first + ":" + second + ":" + third == first + ":" + two;
    TrimmedParts(first + ":" + two);
    ColonStays(first, two);
    var three := third + ":" + more;
    SplitAt(third, more);
    SplitAt(second, three);
    SplitAt(first, second + ":" + three);
    assert first + ":" + second + ":" + third + ":" + more == first + ":" + (second + ":" + three);
    TrimmedParts(first + ":" + (second + ":" + three));
    ColonStays(first, second + ":" + three);
  }
}
