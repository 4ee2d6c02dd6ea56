// Editing a config file's love rules (rust/apps/oga-cli/src/main.rs) so that the reader
// (rust/crates/oga-config/src/lib.rs) still takes them. Files are given as read from YAML.
module LoveEditor {
  import opened Basics
  import opened Destinations
  import opened Lists
  import opened LoveRules

  // A word under `when`: a kind of work, or nothing the reader knows.
  datatype Word = Known(kind: Kind) | Unknown

  datatype Body = Legacy(model: string, effort: Option<string>) | Chain(models: seq<string>) | Malformed

  datatype Entry = Entry(body: Body, when: Option<seq<Word>>)

  // --- Reading ---

  function Colon(s: string): (i: nat)
    ensures i <= |s| && ':' !in s[..i]
    ensures i < |s| ==> s[i] == ':'
  {
    if s == "" || s[0] == ':' then 0
    else
      var rest := Colon(s[1..]);
      assert s[..rest + 1] == [s[0]] + s[1..][..rest];
      1 + rest
  }

  function ReadTarget(model: string, effort: Option<string>): Option<Destination> {
    var target := Trim(model);
    var at := Colon(target);
    if target == "" || (effort.Some? && effort.value !in EFFORT_LEVELS) then None
    else if at == |target| then Some(Destination(None, Some(target), effort))
    else if at == 0 || at == |target| - 1 then None
    else Some(Destination(Some(target[..at]), Some(target[at + 1..]), effort))
  }

  function ReadChain(models: seq<string>): Option<seq<Destination>> {
    if models == [] then Some([])
    else
      var rest, read := ReadChain(models[..|models| - 1]), Parse(Trim(models[|models| - 1]));
      if rest.None? || !read.Ok? || read.destination in rest.value then None
      else Some(rest.value + [read.destination])
  }

  function ReadBody(body: Body): Option<seq<Destination>> {
    match body
    case Legacy(model, effort) =>
      var target := ReadTarget(model, effort);
      if target.None? then None else Some([target.value])
    case Chain(models) => if models == [] then None else ReadChain(models)
    case Malformed => None
  }

  function ReadWords(words: seq<Word>): Option<seq<Kind>> {
    if words == [] then Some([])
    else
      var rest, last := ReadWords(words[..|words| - 1]), words[|words| - 1];
      if rest.None? || last.Unknown? then None else Some(rest.value + [last.kind])
  }

  function ReadWhen(when: Option<seq<Word>>): Option<seq<Kind>> {
    if when.None? then Some([]) else ReadWords(when.value)
  }

  // Why the reader will not have one rule beside those before it.
  predicate Clashes(rules: seq<Rule>, when: seq<Kind>) {
    || (when == [] && exists rule :: rule in rules && rule.when == [])
    || (exists kind :: kind in when && exists rule :: rule in rules && kind in rule.when)
  }

  function ReadList(entries: seq<Entry>): Option<seq<Rule>> {
    if entries == [] then Some([])
    else
      var rest, last := ReadList(entries[..|entries| - 1]), entries[|entries| - 1];
      var body, when := ReadBody(last.body), ReadWhen(last.when);
      if rest.None? || body.None? || when.None? || Clashes(rest.value, when.value) then None
      else Some(rest.value + [Rule(body.value, when.value)])
  }

  method ReadLoveList(entries: seq<Entry>) returns (rules: Option<seq<Rule>>)
    ensures rules == ReadList(entries)
  {
    var read: seq<Rule> := [];
    for i := 0 to |entries|
      invariant ReadList(entries[..i]) == Some(read)
    {
      var body, when := ReadBody(entries[i].body), ReadWhen(entries[i].when);
      assert entries[..i + 1][..i] == entries[..i];
      if body.None? || when.None? || Clashes(read, when.value) {
        RefusedStays(entries, i + 1, |entries|);
        assert entries[..|entries|] == entries;
        return None;
      }
      read := read + [Rule(body.value, when.value)];
    }
    assert entries[..|entries|] == entries;
    return Some(read);
  }

  lemma {:induction false} RefusedStays(entries: seq<Entry>, i: nat, j: nat)
    requires i <= j <= |entries| && ReadList(entries[..i]).None?
    ensures ReadList(entries[..j]).None?
  {
    hide ReadBody, ReadWhen, Clashes;
    if i < j {
      RefusedStays(entries, i, j - 1);
      assert entries[..j][..j - 1] == entries[..j - 1];
    }
  }

  // --- What the rules say ---

  // Where a kind of work goes: the destinations of the rule that names it.
  function Owner(rules: seq<Rule>, kind: Kind): Option<seq<Destination>> {
    if rules == [] then None
    else
      var rest, last := Owner(rules[..|rules| - 1], kind), rules[|rules| - 1];
      if rest.Some? then rest else if kind in last.when then Some(last.destinations) else None
  }

  // Where work goes that no rule names.
  function CatchAllOwner(rules: seq<Rule>): Option<seq<Destination>> {
    if rules == [] then None
    else
      var rest, last := CatchAllOwner(rules[..|rules| - 1]), rules[|rules| - 1];
      if rest.Some? then rest else if last.when == [] then Some(last.destinations) else None
  }

  // --- Editing ---

  predicate Stays(word: Word, when: seq<Kind>) {
    word.Unknown? || word.kind !in when
  }

  function Staying(when: seq<Kind>): Word -> bool {
    (word: Word) => Stays(word, when)
  }

  function Kept(words: seq<Word>, when: seq<Kind>): seq<Word> {
    Filter(words, Staying(when))
  }

  // An entry once these kinds are taken from it; nothing if it has none left.
  function ReleasedEntry(entry: Entry, when: seq<Kind>): seq<Entry> {
    if when == [] then if entry.when.Some? then [entry] else []
    else if entry.when.None? then [entry]
    else
      var kept := Kept(entry.when.value, when);
      if kept == [] then [] else [entry.(when := Some(kept))]
  }

  function Released(entries: seq<Entry>, when: seq<Kind>): seq<Entry> {
    if entries == [] then []
    else Released(entries[..|entries| - 1], when) + ReleasedEntry(entries[|entries| - 1], when)
  }

  // The two passes over the rules: cut down each rule's kinds, then drop the rules that
  // are left with none.
  method ReleaseKinds(rules: seq<Entry>, when: seq<Kind>) returns (left: seq<Entry>)
    ensures left == Released(rules, when)
  {
    left := [];
    if when == [] {
      for i := 0 to |rules|
        invariant left == Released(rules[..i], when)
      {
        assert rules[..i + 1][..i] == rules[..i];
        if rules[i].when.Some? {
          left := left + [rules[i]];
        }
      }
      assert rules[..|rules|] == rules;
      return;
    }
    var cut := rules;
    for i := 0 to |cut|
      invariant |cut| == |rules|
      invariant forall k :: 0 <= k < i ==> cut[k] == Cut(rules[k], when)
      invariant forall k :: i <= k < |cut| ==> cut[k] == rules[k]
    {
      if cut[i].when.Some? {
        cut := cut[i := cut[i].(when := Some(Kept(cut[i].when.value, when)))];
      }
    }
    for i := 0 to |cut|
      invariant left == Released(rules[..i], when)
    {
      assert rules[..i + 1][..i] == rules[..i];
      if cut[i].when != Some([]) {
        left := left + [cut[i]];
      }
    }
    assert rules[..|rules|] == rules;
  }

  function Cut(entry: Entry, when: seq<Kind>): Entry {
    if entry.when.Some? then entry.(when := Some(Kept(entry.when.value, when))) else entry
  }

  // The catch-all has two spellings: no `when`, or one with nothing in it.
  predicate HasEmptyWhen(entries: seq<Entry>) {
    exists entry :: entry in entries && entry.when == Some([])
  }

  function WordsOf(when: seq<Kind>): Option<seq<Word>> {
    if when == [] then None else Some(seq(|when|, i requires 0 <= i < |when| => Known(when[i])))
  }

  function Written(destinations: seq<Destination>, when: seq<Kind>): Entry {
    var body :=
      if |destinations| == 1 && destinations[0].model.Some? then
        var d := destinations[0];
        Legacy(if d.profile.Some? then d.profile.value + ":" + d.model.value else d.model.value, d.effort)
      else Chain(seq(|destinations|, i requires 0 <= i < |destinations| => Triple(destinations[i])));
    Entry(body, WordsOf(when))
  }

  datatype Edit = Set(destinations: seq<Destination>, when: seq<Kind>) | Clear(when: seq<Kind>)

  function Edited(entries: seq<Entry>, edit: Edit): seq<Entry> {
    match edit
    case Set(destinations, when) => Released(entries, when) + [Written(destinations, when)]
    case Clear(when) => if when == [] then [] else Released(entries, when)
  }

  // --- What is written reads back ---

  lemma {:induction false} ColonAt(head: string, tail: string)
    requires ':' !in head
    ensures Colon(head + ":" + tail) == |head|
  {
    var s := head + ":" + tail;
    if head != "" {
      assert s[1..] == head[1..] + ":" + tail && s[0] == head[0] && head[0] in head;
      ColonAt(head[1..], tail);
    }
  }

  lemma {:induction false} NoColon(s: string)
    requires ':' !in s
    ensures Colon(s) == |s|
  {
    if s != "" {
      assert s[0] in s;
      NoColon(s[1..]);
    }
  }

  lemma {:induction false} ParseTrimmed(value: string)
    ensures Parse(Trim(value)) == Parse(value)
  {
    TrimTrims(value);
    TrimTrims(Trim(value));
    hide Trim, Split;
  }

  lemma {:induction false} TargetReadsBack(d: Destination)
    requires Canonical(d) && d.model.Some?
    ensures ReadTarget(d.profile.value + ":" + d.model.value, d.effort) == Some(d)
  {
    var worker, model := d.profile.value, d.model.value;
    var text := worker + ":" + model;
    assert text[0] == worker[0] && text[|text| - 1] == model[|model| - 1];
    TrimTrims(text);
    ColonAt(worker, model);
    assert text[..|worker|] == worker && text[|worker| + 1..] == model;
  }

  lemma {:induction false} ChainReadsBack(destinations: seq<Destination>)
    requires forall d :: d in destinations ==> Canonical(d)
    requires Distinct(destinations)
    ensures ReadChain(seq(|destinations|, i requires 0 <= i < |destinations| => Triple(destinations[i]))) ==
        Some(destinations)
  {
    hide Parse, Triple, Trim, Canonical;
    var models := seq(|destinations|, i requires 0 <= i < |destinations| => Triple(destinations[i]));
    if destinations != [] {
      var rest, last := destinations[..|destinations| - 1], destinations[|destinations| - 1];
      ChainReadsBack(rest);
      assert models[..|models| - 1] == seq(|rest|, i requires 0 <= i < |rest| => Triple(rest[i]));
      CanonicalReadsBack(last);
      ParseTrimmed(Triple(last));
      assert destinations == rest + [last];
    }
  }

  lemma {:induction false} WordsReadBack(when: seq<Kind>)
    ensures ReadWhen(WordsOf(when)) == Some(when)
  {
    if when != [] {
      KnownWords(when);
    }
  }

  lemma {:induction false} KnownWords(when: seq<Kind>)
    ensures ReadWords(seq(|when|, i requires 0 <= i < |when| => Known(when[i]))) == Some(when)
  {
    if when != [] {
      var rest := when[..|when| - 1];
      var words := seq(|when|, i requires 0 <= i < |when| => Known(when[i]));
      KnownWords(rest);
      assert words[..|words| - 1] == seq(|rest|, i requires 0 <= i < |rest| => Known(rest[i]));
      assert when == rest + [when[|when| - 1]];
    }
  }

  // What the command is given: destinations as they are read, none twice.
  ghost predicate Given(destinations: seq<Destination>) {
    destinations != [] && Distinct(destinations) && forall d :: d in destinations ==> Canonical(d)
  }

  // In either shape, the rule written is the rule read.
  lemma {:induction false} WrittenReadsBack(destinations: seq<Destination>, when: seq<Kind>)
    requires Given(destinations)
    ensures ReadBody(Written(destinations, when).body) == Some(destinations)
    ensures ReadWhen(Written(destinations, when).when) == Some(when)
  {
    hide ReadTarget, ReadChain, Triple, Canonical, ReadWords;
    WordsReadBack(when);
    if |destinations| == 1 && destinations[0].model.Some? {
      assert destinations[0] in destinations;
      HasWorker(destinations[0]);
      TargetReadsBack(destinations[0]);
      assert destinations == [destinations[0]];
    } else {
      ChainReadsBack(destinations);
    }
  }

  lemma {:induction false} HasWorker(d: Destination)
    requires Canonical(d)
    ensures d.profile.Some?
  {
  }

  // --- What taking kinds away does ---

  lemma {:induction false} WordAdds(words: seq<Word>, last: Word)
    ensures ReadWords(words + [last])
         == if ReadWords(words).None? || last.Unknown? then None else Some(ReadWords(words).value + [last.kind])
  {
    assert (words + [last])[..|words|] == words;
  }

  lemma {:induction false} NoneKept(when: seq<Kind>)
    ensures Kept([], when) == []
  {
  }

  lemma {:induction false} KeptAdds(words: seq<Word>, last: Word, when: seq<Kind>)
    ensures Kept(words + [last], when) == Kept(words, when) + if Stays(last, when) then [last] else []
  {
    FilterAdds(words, last, Staying(when));
  }

  lemma {:induction false} KeptReads(words: seq<Word>, when: seq<Kind>)
    requires ReadWords(words).Some?
    ensures ReadWords(Kept(words, when)).Some?
    ensures forall kind :: kind in ReadWords(Kept(words, when)).value <==>
        kind in ReadWords(words).value && kind !in when
    ensures |ReadWords(words).value| == |words| && |ReadWords(Kept(words, when)).value| == |Kept(words, when)|
  {
    hide Kept;
    if words == [] {
      NoneKept(when);
    } else {
      var rest, last := words[..|words| - 1], words[|words| - 1];
      assert words == rest + [last];
      KeptReads(rest, when);
      KeptAdds(rest, last, when);
      WordAdds(Kept(rest, when), last);
      assert Kept(words, when) == if Stays(last, when) then Kept(rest, when) + [last] else Kept(rest, when);
    }
  }

  // The rules left are the rules there were, with fewer kinds, and a catch-all only where
  // there was one.
  ghost predicate Lesser(fewer: seq<Rule>, rules: seq<Rule>, when: seq<Kind>) {
    forall rule :: rule in fewer ==>
      && (forall kind :: kind in rule.when ==> kind !in when && exists other :: other in rules && kind in other.when)
      && (rule.when == [] ==> exists other :: other in rules && other.when == [])
  }

  // The rules with one entry more, if the reader takes it.
  function Joined(rules: Option<seq<Rule>>, entry: Entry): Option<seq<Rule>> {
    var body, when := ReadBody(entry.body), ReadWhen(entry.when);
    if rules.None? || body.None? || when.None? || Clashes(rules.value, when.value) then None
    else Some(rules.value + [Rule(body.value, when.value)])
  }

  lemma {:induction false} AppendReads(entries: seq<Entry>, entry: Entry)
    ensures ReadList(entries + [entry]) == Joined(ReadList(entries), entry)
  {
    assert (entries + [entry])[..|entries|] == entries;
  }

  lemma {:induction false} LesserDoesNotClash(fewer: seq<Rule>, rules: seq<Rule>, when: seq<Kind>, kinds: seq<Kind>,
          less: seq<Kind>)
    requires Lesser(fewer, rules, when) && !Clashes(rules, kinds)
    requires forall kind :: kind in less ==> kind in kinds
    requires less == [] ==> kinds == []
    ensures !Clashes(fewer, less)
  {
  }

  lemma {:induction false} LesserGrows(fewer: seq<Rule>, rules: seq<Rule>, when: seq<Kind>, rule: Rule, less: seq<Kind>)
    requires Lesser(fewer, rules, when)
    requires forall kind :: kind in less ==> kind in rule.when && kind !in when
    requires less == [] ==> rule.when == []
    ensures Lesser(fewer + [Rule(rule.destinations, less)], rules + [rule], when)
  {
    var all := rules + [rule];
    assert all[|rules|] == rule;
    forall other | other in rules
      ensures other in all
    {
    }
  }

  lemma {:induction false} LesserStays(fewer: seq<Rule>, rules: seq<Rule>, when: seq<Kind>, rule: Rule)
    requires Lesser(fewer, rules, when)
    ensures Lesser(fewer, rules + [rule], when)
  {
    assert forall other :: other in rules ==> other in rules + [rule];
  }

  // What is left of the last entry: its kinds but for those taken away.
  lemma {:induction false} LeftOf(entry: Entry, when: seq<Kind>)
    requires ReadWhen(entry.when).Some?
    ensures var left := ReleasedEntry(entry, when);
            && |left| <= 1
            && (left != [] ==>
                  var less, kinds := ReadWhen(left[0].when), ReadWhen(entry.when).value;
                  && left[0].body == entry.body && less.Some?
                  && (forall kind :: kind in less.value <==> kind in kinds && kind !in when)
                  && (less.value == [] ==> kinds == [] && (entry.when.None? <==> when != [])))
            && (left == [] && when != [] ==> forall kind :: kind in ReadWhen(entry.when).value ==> kind in when)
            && (left == [] <==> if when == [] then entry.when.None?
                                else entry.when.Some? && Kept(entry.when.value, when) == [])
  {
    if entry.when.Some? {
      KeptReads(entry.when.value, when);
    }
  }

  lemma {:induction false} ReleasedReads(entries: seq<Entry>, when: seq<Kind>)
    requires ReadList(entries).Some?
    ensures ReadList(Released(entries, when)).Some?
    ensures Lesser(ReadList(Released(entries, when)).value, ReadList(entries).value, when)
  {
    hide ReadBody, ReadWords, Kept, Lesser, Clashes;
    if entries == [] {
      NothingIsLesser(when);
    } else {
      var rest, last := entries[..|entries| - 1], entries[|entries| - 1];
      ReleasedReads(rest, when);
      LeftOf(last, when);
      var rules, fewer := ReadList(rest).value, Released(rest, when);
      var rule, left := Rule(ReadBody(last.body).value, ReadWhen(last.when).value), ReleasedEntry(last, when);
      if left == [] {
        LesserStays(ReadList(fewer).value, rules, when, rule);
        assert fewer + left == fewer;
      } else {
        var less := ReadWhen(left[0].when).value;
        AppendReads(fewer, left[0]);
        LesserDoesNotClash(ReadList(fewer).value, rules, when, rule.when, less);
        LesserGrows(ReadList(fewer).value, rules, when, rule, less);
        assert left == [left[0]];
      }
    }
  }

  lemma {:induction false} NothingIsLesser(when: seq<Kind>)
    ensures Lesser([], [], when)
  {
  }

  // --- Who owns what after an edit ---

  lemma {:induction false} OwnerAdds(rules: seq<Rule>, rule: Rule, kind: Kind)
    ensures Owner(rules + [rule], kind)
         == if Owner(rules, kind).Some? then Owner(rules, kind)
              else if kind in rule.when then Some(rule.destinations) else None
  {
    assert (rules + [rule])[..|rules|] == rules;
  }

  lemma {:induction false} CatchAllAdds(rules: seq<Rule>, rule: Rule)
    ensures CatchAllOwner(rules + [rule])
         == if CatchAllOwner(rules).Some? then CatchAllOwner(rules)
              else if rule.when == [] then Some(rule.destinations) else None
  {
    assert (rules + [rule])[..|rules|] == rules;
  }

  lemma {:induction false} OwnersFollow(rules: seq<Rule>)
    ensures forall kind :: Owner(rules, kind).Some? <==> exists rule :: rule in rules && kind in rule.when
    ensures CatchAllOwner(rules).Some? <==> exists rule :: rule in rules && rule.when == []
  {
    if rules != [] {
      var rest, last := rules[..|rules| - 1], rules[|rules| - 1];
      OwnersFollow(rest);
      assert rules == rest + [last];
    }
  }

  // Taking kinds away leaves every other kind with its owner.
  lemma {:induction false} OwnersAfterRelease(entries: seq<Entry>, when: seq<Kind>, kind: Kind)
    requires ReadList(entries).Some?
    ensures ReadList(Released(entries, when)).Some?
    ensures Owner(ReadList(Released(entries, when)).value, kind)
         == if kind in when then None else Owner(ReadList(entries).value, kind)
  {
    hide ReadBody, ReadWords, Kept, Clashes, Lesser, Owner;
    ReleasedReads(entries, when);
    if entries == [] {
      OwnersFollow([]);
    } else {
      var rest, last := entries[..|entries| - 1], entries[|entries| - 1];
      ReleasedReads(rest, when);
      OwnersAfterRelease(rest, when, kind);
      LeftOf(last, when);
      var rules, fewer := ReadList(rest).value, Released(rest, when);
      var rule, left := Rule(ReadBody(last.body).value, ReadWhen(last.when).value), ReleasedEntry(last, when);
      OwnerAdds(rules, rule, kind);
      if left == [] {
        assert fewer + left == fewer;
      } else {
        AppendReads(fewer, left[0]);
        assert left == [left[0]];
        OwnerAdds(ReadList(fewer).value, Rule(rule.destinations, ReadWhen(left[0].when).value), kind);
      }
    }
  }

  lemma {:induction false} EmptyWhenAdds(entries: seq<Entry>, last: Entry)
    ensures HasEmptyWhen(entries + [last]) <==> HasEmptyWhen(entries) || last.when == Some([])
  {
    assert forall entry :: entry in entries + [last] <==> entry in entries || entry == last;
  }

  // The same for one more rule, given what holds of those before it.
  lemma {:induction false} CatchAllStep(before: Option<seq<Destination>>, fewer: Option<seq<Destination>>, empty: bool,
                                        rule: Rule, entry: Entry, when: seq<Kind>)
    requires ReadWhen(entry.when) == Some(rule.when)
    requires fewer == if empty <==> when == [] then before else None
    requires empty ==> before.Some?
    requires rule.when == [] ==> before.None?
    ensures var left := ReleasedEntry(entry, when);
            var after := if before.Some? then before else if rule.when == [] then Some(rule.destinations) else None;
            var less := if fewer.Some? || left == [] then fewer
                        else if ReadWhen(left[0].when) == Some([]) then Some(rule.destinations) else None;
            && less == (if (empty || entry.when == Some([])) <==> when == [] then after else None)
            && (empty || entry.when == Some([]) ==> after.Some?)
  {
    LeftOf(entry, when);
    EmptyWords(entry);
    hide ReadWords, Kept;
  }

  // The catch-all gives way to a new one and otherwise stays, if it is spelled by leaving
  // `when` out; spelled as an empty list it is the other way about.
  lemma {:induction false} CatchAllAfterRelease(entries: seq<Entry>, when: seq<Kind>)
    requires ReadList(entries).Some?
    ensures ReadList(Released(entries, when)).Some?
    ensures CatchAllOwner(ReadList(Released(entries, when)).value)
         == if HasEmptyWhen(entries) <==> when == [] then CatchAllOwner(ReadList(entries).value) else None
    ensures HasEmptyWhen(entries) ==> CatchAllOwner(ReadList(entries).value).Some?
  {
    hide ReadBody, ReadWhen, Kept, Clashes, Lesser, CatchAllOwner, HasEmptyWhen, ReleasedEntry;
    ReleasedReads(entries, when);
    if entries == [] {
      OwnersFollow([]);
      NoEmptyWhen();
    } else {
      var rest, last := entries[..|entries| - 1], entries[|entries| - 1];
      assert entries == rest + [last];
      ReleasedReads(rest, when);
      CatchAllAfterRelease(rest, when);
      LeftOf(last, when);
      var rules, fewer := ReadList(rest).value, Released(rest, when);
      var rule, left := Rule(ReadBody(last.body).value, ReadWhen(last.when).value), ReleasedEntry(last, when);
      CatchAllAdds(rules, rule);
      OneCatchAll(rules, rule.when);
      EmptyWhenAdds(rest, last);
      CatchAllStep(CatchAllOwner(rules), CatchAllOwner(ReadList(fewer).value), HasEmptyWhen(rest), rule, last, when);
      if left == [] {
        assert fewer + left == fewer;
      } else {
        AppendReads(fewer, left[0]);
        assert left == [left[0]];
        CatchAllAdds(ReadList(fewer).value, Rule(rule.destinations, ReadWhen(left[0].when).value));
      }
    }
  }

  lemma {:induction false} NoEmptyWhen()
    ensures !HasEmptyWhen([])
  {
  }

  lemma {:induction false} OneCatchAll(rules: seq<Rule>, when: seq<Kind>)
    requires !Clashes(rules, when)
    ensures when == [] ==> CatchAllOwner(rules).None?
  {
    OwnersFollow(rules);
  }

  lemma {:induction false} EmptyWords(entry: Entry)
    requires ReadWhen(entry.when).Some?
    ensures ReadWhen(entry.when).value == [] <==> entry.when.None? || entry.when == Some([])
  {
    if entry.when.Some? {
      KeptReads(entry.when.value, []);
    }
  }

  // --- The promises of the command ---

  // Setting a rule leaves a file the reader takes, unless the file already spells its
  // catch-all as an empty list and another is set. The new rule then owns exactly its
  // kinds, and every other kind stays where it was; but a catch-all spelled as an empty
  // list is lost.
  lemma {:induction false} SetKeepsTheReaderIff(entries: seq<Entry>, destinations: seq<Destination>, when: seq<Kind>)
    requires ReadList(entries).Some? && Given(destinations)
    ensures var before, after := ReadList(entries).value, ReadList(Edited(entries, Set(destinations, when)));
            && (after.Some? <==> !(when == [] && HasEmptyWhen(entries)))
            && (after.Some? ==>
                  && (forall kind :: Owner(after.value, kind)
                                  == if kind in when then Some(destinations) else Owner(before, kind))
                  && CatchAllOwner(after.value)
                  == if when == [] then Some(destinations) else if HasEmptyWhen(entries) then None
                       else CatchAllOwner(before))
  {
    hide HasEmptyWhen, ReadList, ReadBody, ReadWhen, Released, Owner, CatchAllOwner, Written, Given;
    ReleasedReads(entries, when);
    CatchAllAfterRelease(entries, when);
    WrittenReadsBack(destinations, when);
    var fewer := Released(entries, when);
    var rules, rule := ReadList(fewer).value, Rule(destinations, when);
    AppendReads(fewer, Written(destinations, when));
    OwnersFollow(rules);
    forall kind
      ensures Owner(rules, kind) == if kind in when then None else Owner(ReadList(entries).value, kind)
      ensures Owner(rules + [rule], kind) == if Owner(rules, kind).Some? then Owner(rules, kind)
                                             else if kind in when then Some(destinations) else None
    {
      OwnersAfterRelease(entries, when, kind);
      OwnerAdds(rules, rule, kind);
    }
    CatchAllAdds(rules, rule);
  }

  // Clearing unowns exactly the kinds named, or everything when none is named.
  lemma {:induction false} ClearUnownsExactly(entries: seq<Entry>, when: seq<Kind>)
    requires ReadList(entries).Some?
    ensures var before, after := ReadList(entries).value, ReadList(Edited(entries, Clear(when)));
            && after.Some?
            && (forall kind :: Owner(after.value, kind)
                            == if when == [] || kind in when then None else Owner(before, kind))
            && CatchAllOwner(after.value) == if when == [] || HasEmptyWhen(entries) then None else CatchAllOwner(before)
  {
    if when == [] {
      OwnersFollow([]);
    } else {
      CatchAllAfterRelease(entries, when);
      forall kind
        ensures Owner(ReadList(Released(entries, when)).value, kind)
             == if kind in when then None else Owner(ReadList(entries).value, kind)
      {
        OwnersAfterRelease(entries, when, kind);
      }
    }
  }

  // --- Where a piece of work goes ---

  function Chosen(rules: seq<Rule>, work: Class, topic: Option<Topic>): Option<seq<Destination>> {
    var i := ForTask(rules, work, topic);
    if i < |rules| then Some(rules[i].destinations) else None
  }

  function KindOfClass(work: Class): (kind: Kind)
    ensures forall other :: AsClass(other) == Some(work) <==> other == kind
  {
    match work
    case MechanicalWork => Mechanical
    case ContextWork => Context
    case BuildWork => Build
    case ReasoningWork => Reasoning
    case GeneralWork => General
  }

  function KindOfTopic(topic: Topic): (kind: Kind)
    ensures forall other :: AsTopic(other) == Some(topic) <==> other == kind
  {
    match topic
    case UiTopic => Ui
    case UxTopic => Ux
    case BackendTopic => Backend
    case DatabaseTopic => Database
    case DocsTopic => Docs
    case TestsTopic => Tests
    case ReviewTopic => Review
    case ResearchTopic => Research
    case RefactorTopic => Refactor
  }

  lemma {:induction false} OwnerIsFirst(rules: seq<Rule>, kind: Kind, wanted: Rule -> bool)
    requires forall rule :: wanted(rule) <==> kind in rule.when
    ensures Owner(rules, kind)
         == if Find(rules, wanted) < |rules| then Some(rules[Find(rules, wanted)].destinations) else None
  {
    var i := Find(rules, wanted);
    if rules != [] {
      var rest, last := rules[..|rules| - 1], rules[|rules| - 1];
      OwnerIsFirst(rest, kind, wanted);
      assert Find(rest, wanted) < |rest| ==> rules[Find(rest, wanted)] == rest[Find(rest, wanted)];
      assert i < |rest| ==> rest[i] == rules[i];
    }
  }

  lemma {:induction false} CatchAllIsFirst(rules: seq<Rule>)
    ensures CatchAllOwner(rules)
         == if Find(rules, ByNothing()) < |rules| then Some(rules[Find(rules, ByNothing())].destinations) else None
  {
    var i := Find(rules, ByNothing());
    if rules != [] {
      var rest, last := rules[..|rules| - 1], rules[|rules| - 1];
      CatchAllIsFirst(rest);
      var j := Find(rest, ByNothing());
      assert j < |rest| ==> rules[j] == rest[j];
      assert i < |rest| ==> rest[i] == rules[i];
    }
  }

  // Work goes to the owner of its topic, else of its class, else of general work, else to
  // the catch-all.
  lemma {:induction false} WorkGoesToItsOwner(rules: seq<Rule>, work: Class, topic: Option<Topic>)
    ensures Chosen(rules, work, topic)
         == if topic.Some? && Owner(rules, KindOfTopic(topic.value)).Some? then Owner(rules, KindOfTopic(topic.value))
            else if Owner(rules, KindOfClass(work)).Some? then Owner(rules, KindOfClass(work))
            else if Owner(rules, General).Some? then Owner(rules, General)
            else CatchAllOwner(rules)
  {
    hide Find, Owner, CatchAllOwner;
    if topic.Some? {
      NamesByTopic(topic.value);
      OwnerIsFirst(rules, KindOfTopic(topic.value), ByTopic(topic.value));
    }
    NamesByClass(work);
    OwnerIsFirst(rules, KindOfClass(work), ByClass(work));
    OwnerIsFirst(rules, General, ByGeneral());
    CatchAllIsFirst(rules);
  }

  lemma {:induction false} NamesByTopic(topic: Topic)
    ensures forall rule :: ByTopic(topic)(rule) <==> KindOfTopic(topic) in rule.when
  {
    hide AsTopic, KindOfTopic, Find;
    assert forall kind: Kind :: OfTopic(topic)(kind) <==> kind == KindOfTopic(topic);
  }

  lemma {:induction false} NamesByClass(work: Class)
    ensures forall rule :: ByClass(work)(rule) <==> KindOfClass(work) in rule.when
  {
    hide AsClass, KindOfClass, Find;
    assert forall kind: Kind :: OfClass(work)(kind) <==> kind == KindOfClass(work);
  }

  // So an edit leaves alone all work that none of its kinds describes.
  lemma {:induction false} OtherWorkIsUndisturbed(entries: seq<Entry>, edit: Edit, work: Class, topic: Option<Topic>)
    requires ReadList(entries).Some? && !HasEmptyWhen(entries)
    requires edit.when != [] && (edit.Set? ==> Given(edit.destinations))
    requires KindOfClass(work) !in edit.when && General !in edit.when
    requires topic.Some? ==> KindOfTopic(topic.value) !in edit.when
    ensures ReadList(Edited(entries, edit)).Some?
    ensures Chosen(ReadList(Edited(entries, edit)).value, work, topic) == Chosen(ReadList(entries).value, work, topic)
  {
    if edit.Set? {
      SetKeepsTheReaderIff(entries, edit.destinations, edit.when);
    } else {
      ClearUnownsExactly(entries, edit.when);
    }
    hide Edited, ReadList, Chosen, Owner, CatchAllOwner;
    WorkGoesToItsOwner(ReadList(entries).value, work, topic);
    WorkGoesToItsOwner(ReadList(Edited(entries, edit)).value, work, topic);
  }
}
