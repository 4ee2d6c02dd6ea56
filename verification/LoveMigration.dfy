// The old way to name a loved model was a flag under `models`; the first edit of the rules
// turns it into one (rust/apps/oga-cli/src/main.rs, rust/crates/oga-config/src/lib.rs).
module LoveMigration {
  import opened Basics
  import opened Destinations
  import opened LoveEditor
  import opened LoveRules

  // One model's settings; `other` is whether it has any that the rules have no part in.
  datatype Leaf = Leaf(loved: bool, effort: Option<string>, other: bool)

  // Under `models`, a model's settings or a worker's models.
  datatype Setting = Shared(leaf: Leaf) | Profile(models: seq<(string, Leaf)>)

  datatype File = File(love: Option<seq<Entry>>, models: seq<(string, Setting)>)

  datatype Mark = Mark(profile: Option<string>, model: string, effort: Option<string>)

  // --- The reader ---

  function LeafMark(profile: Option<string>, model: string, leaf: Leaf): seq<Mark> {
    if leaf.loved then [Mark(profile, model, leaf.effort)] else []
  }

  function ModelMarks(profile: string, models: seq<(string, Leaf)>): seq<Mark> {
    if models == [] then []
    else
      var last := models[|models| - 1];
      ModelMarks(profile, models[..|models| - 1]) + LeafMark(Some(profile), last.0, last.1)
  }

  function SettingMarks(key: string, setting: Setting): seq<Mark> {
    match setting
    case Shared(leaf) => LeafMark(None, key, leaf)
    case Profile(models) => ModelMarks(key, models)
  }

  function Marks(models: seq<(string, Setting)>): seq<Mark> {
    if models == [] then []
    else
      var last := models[|models| - 1];
      Marks(models[..|models| - 1]) + SettingMarks(last.0, last.1)
  }

  predicate EffortIsKnown(leaf: Leaf) {
    leaf.effort.Some? ==> leaf.effort.value in EFFORT_LEVELS
  }

  predicate SettingReads(setting: Setting) {
    match setting
    case Shared(leaf) => EffortIsKnown(leaf)
    case Profile(models) => forall i :: 0 <= i < |models| ==> EffortIsKnown(models[i].1)
  }

  function Marked(mark: Mark): Destination {
    Destination(mark.profile, Some(mark.model), mark.effort)
  }

  // The rules of one file: its list or its flag, never both, and one flag at most.
  function ReadFile(file: File): Option<seq<Rule>> {
    var marks := Marks(file.models);
    if (exists i :: 0 <= i < |file.models| && !SettingReads(file.models[i].1)) || |marks| > 1 then None
    else if file.love.Some? then if marks == [] then ReadList(file.love.value) else None
    else if marks == [] then Some([])
    else Some([Rule([Marked(marks[0])], [])])
  }

  // --- The editor ---

  function Text(mark: Mark): string {
    if mark.profile.Some? then mark.profile.value + ":" + mark.model else mark.model
  }

  function Migrated(mark: Mark): Entry {
    Entry(Legacy(Text(mark), mark.effort), None)
  }

  function Unmarked(leaf: Leaf): Leaf {
    if leaf.loved then leaf.(loved := false, effort := None) else leaf
  }

  predicate IsEmpty(leaf: Leaf) {
    !leaf.loved && leaf.effort.None? && !leaf.other
  }

  // The models with the flags taken out, and with them whatever was left empty.
  function CleanedModels(models: seq<(string, Leaf)>): seq<(string, Leaf)> {
    if models == [] then []
    else
      var last := models[|models| - 1];
      CleanedModels(models[..|models| - 1]) + if IsEmpty(Unmarked(last.1)) then [] else [(last.0, Unmarked(last.1))]
  }

  function CleanedSetting(key: string, setting: Setting): seq<(string, Setting)> {
    match setting
    case Shared(leaf) => if IsEmpty(Unmarked(leaf)) then [] else [(key, Shared(Unmarked(leaf)))]
    case Profile(models) => if CleanedModels(models) == [] then [] else [(key, Profile(CleanedModels(models)))]
  }

  function Cleaned(models: seq<(string, Setting)>): seq<(string, Setting)> {
    if models == [] then []
    else
      var last := models[|models| - 1];
      Cleaned(models[..|models| - 1]) + CleanedSetting(last.0, last.1)
  }

  function MigratedAll(marks: seq<Mark>): seq<Entry> {
    seq(|marks|, i requires 0 <= i < |marks| => Migrated(marks[i]))
  }

  function TakenRules(file: File): seq<Entry> {
    (if file.love.Some? then file.love.value else []) + MigratedAll(Marks(file.models))
  }

  // What one edit makes of a file; an empty list of rules is left out altogether.
  function Updated(file: File, edit: Edit): File {
    var rules := Edited(TakenRules(file), edit);
    File(if rules == [] then None else Some(rules), Cleaned(file.models))
  }

  method TakeModels(profile: string, models: seq<(string, Leaf)>) returns (marks: seq<Mark>, left: seq<(string, Leaf)>)
    ensures marks == ModelMarks(profile, models) && left == CleanedModels(models)
  {
    marks, left := [], [];
    for i := 0 to |models|
      invariant marks == ModelMarks(profile, models[..i])
      invariant left == CleanedModels(models[..i])
    {
      assert models[..i + 1][..i] == models[..i];
      var (model, leaf) := models[i];
      if leaf.loved {
        marks := marks + [Mark(Some(profile), model, leaf.effort)];
      }
      if !IsEmpty(Unmarked(leaf)) {
        left := left + [(model, Unmarked(leaf))];
      }
    }
    assert models[..|models|] == models;
  }

  method TakeSetting(key: string, setting: Setting) returns (marks: seq<Mark>, left: seq<(string, Setting)>)
    ensures marks == SettingMarks(key, setting) && left == CleanedSetting(key, setting)
  {
    match setting {
      case Shared(leaf) =>
        marks := if leaf.loved then [Mark(None, key, leaf.effort)] else [];
        left := if IsEmpty(Unmarked(leaf)) then [] else [(key, Shared(Unmarked(leaf)))];
      case Profile(models) =>
        var leftModels;
        marks, leftModels := TakeModels(key, models);
        left := if leftModels == [] then [] else [(key, Profile(leftModels))];
    }
  }

  method TakeLoveRules(file: File) returns (rules: seq<Entry>, models: seq<(string, Setting)>)
    ensures rules == TakenRules(file) && models == Cleaned(file.models)
  {
    hide Marks, Cleaned, SettingMarks, CleanedSetting, Text;
    rules := if file.love.Some? then file.love.value else [];
    models := [];
    var migrated: seq<Mark> := [];
    NothingTaken();
    assert file.models[..0] == [];
    for i := 0 to |file.models|
      invariant migrated == Marks(file.models[..i])
      invariant models == Cleaned(file.models[..i])
    {
      var (key, setting) := file.models[i];
      assert file.models[..i + 1] == file.models[..i] + [(key, setting)];
      MarksAdd(file.models[..i], key, setting);
      CleanedAdds(file.models[..i], key, setting);
      var marks, left := TakeSetting(key, setting);
      migrated := migrated + marks;
      models := models + left;
    }
    assert file.models[..|file.models|] == file.models;
    ghost var listed := rules;
    for i := 0 to |migrated|
      invariant rules == listed + MigratedAll(migrated[..i])
    {
      rules := rules + [Entry(Legacy(Text(migrated[i]), migrated[i].effort), None)];
      assert MigratedAll(migrated[..i + 1]) == MigratedAll(migrated[..i]) + [Migrated(migrated[i])];
    }
    assert migrated[..|migrated|] == migrated;
  }

  lemma {:induction false} NothingTaken()
    ensures Marks([]) == [] && Cleaned([]) == []
  {
  }

  // What a file reads as: refused for an effort that is none, for two flags, or for a flag beside
  // a list; otherwise its one flag as the catch-all rule, or its list.
  lemma {:induction false} WhatAFileReads(file: File)
    ensures var marks := Marks(file.models);
            var known := forall i :: 0 <= i < |file.models| ==> SettingReads(file.models[i].1);
            ReadFile(file) ==
            if !known || |marks| >= 2 || (|marks| == 1 && file.love != None) then None
            else if |marks| == 1 then
              Some([Rule([Destination(marks[0].profile, Some(marks[0].model), marks[0].effort)], [])])
            else if file.love == None then Some([])
            else ReadList(file.love.value)
  {
    hide Marks, SettingReads, ReadList;
  }

  // The models with a flag, each with its name, its worker's and its effort.
  lemma {:induction false} MarksAre(models: seq<(string, Setting)>, mark: Mark)
    ensures mark in Marks(models) <==>
              exists i :: 0 <= i < |models| && IsMarked(models[i].0, models[i].1, mark)
  {
    if models != [] {
      var rest, last := models[..|models| - 1], models[|models| - 1];
      MarksAre(rest, mark);
      SettingMarksAre(last.0, last.1, mark);
      assert models == rest + [last];
      hide IsMarked, SettingMarks;
      assert forall i :: 0 <= i < |rest| ==> models[i] == rest[i];
      assert models[|rest|] == last;
    }
  }

  predicate IsMarked(key: string, setting: Setting, mark: Mark) {
    match setting
    case Shared(leaf) => leaf.loved && mark == Mark(None, key, leaf.effort)
    case Profile(models) =>
      exists i :: 0 <= i < |models| && models[i].1.loved && mark == Mark(Some(key), models[i].0, models[i].1.effort)
  }

  lemma {:induction false} SettingMarksAre(key: string, setting: Setting, mark: Mark)
    ensures mark in SettingMarks(key, setting) <==> IsMarked(key, setting, mark)
  {
    if setting.Profile? {
      ModelMarksAre(key, setting.models, mark);
    }
  }

  lemma {:induction false} ModelMarksAre(key: string, models: seq<(string, Leaf)>, mark: Mark)
    ensures mark in ModelMarks(key, models) <==>
              exists i :: 0 <= i < |models| && models[i].1.loved &&
                          mark == Mark(Some(key), models[i].0, models[i].1.effort)
  {
    if models != [] {
      var rest, last := models[..|models| - 1], models[|models| - 1];
      ModelMarksAre(key, rest, mark);
      assert models == rest + [last];
      assert forall i :: 0 <= i < |rest| ==> models[i] == rest[i];
      assert models[|rest|] == last;
    }
  }

  // What is left of a model: one with a flag loses that and its effort, and what is left with
  // nothing goes.
  lemma {:induction false} WhatIsLeft(models: seq<(string, Leaf)>, name: string, left: Leaf)
    ensures (name, left) in CleanedModels(models) <==>
              && left != Leaf(false, None, false)
              && exists leaf :: (name, leaf) in models &&
                                left == if leaf.loved then Leaf(false, None, leaf.other) else leaf
  {
    if models != [] {
      var rest, last := models[..|models| - 1], models[|models| - 1];
      WhatIsLeft(rest, name, left);
      assert models == rest + [last];
      if last.0 == name {
        assert last == (name, last.1);
      }
    }
  }

  // --- What a migration keeps ---

  // A name that a rule can spell: nothing in it that the rule's one colon would split, and
  // nothing at its ends that reading would trim.
  predicate CanBeSpelled(mark: Mark) {
    if mark.profile.None? then mark.model != "" && IsTrimmed(mark.model) && ':' !in mark.model
    else
      var profile := mark.profile.value;
      && profile != "" && ':' !in profile && !IsSpace(profile[0])
      && mark.model != "" && !IsSpace(mark.model[|mark.model| - 1])
  }

  lemma {:induction false} SpelledReadsBack(mark: Mark)
    requires CanBeSpelled(mark) && (mark.effort.Some? ==> mark.effort.value in EFFORT_LEVELS)
    ensures ReadTarget(Text(mark), mark.effort) == Some(Marked(mark))
  {
    var text := Text(mark);
    TrimTrims(text);
    if mark.profile.Some? {
      var profile := mark.profile.value;
      assert text[0] == profile[0] && text[|text| - 1] == mark.model[|mark.model| - 1];
      ColonAt(profile, mark.model);
      assert text[..|profile|] == profile && text[|profile| + 1..] == mark.model;
    } else {
      NoColon(text);
    }
  }

  // The rule a flag turns into means what the flag meant exactly when its name can be
  // spelled; a shared model with a colon in its id, say, becomes a worker's model.
  lemma {:induction false} FlagKeepsItsMeaningIff(mark: Mark)
    requires mark.effort.Some? ==> mark.effort.value in EFFORT_LEVELS
    ensures ReadBody(Migrated(mark).body) == Some([Marked(mark)]) <==> CanBeSpelled(mark)
  {
    if CanBeSpelled(mark) {
      SpelledReadsBack(mark);
    }
    if ReadTarget(Text(mark), mark.effort) == Some(Marked(mark)) {
      ReadIsSpelled(mark);
    }
  }

  lemma {:induction false} ReadIsSpelled(mark: Mark)
    requires ReadTarget(Text(mark), mark.effort) == Some(Marked(mark))
    ensures CanBeSpelled(mark)
  {
    var target := Trim(Text(mark));
    TrimTrims(Text(mark));
    var at := Colon(target);
    if mark.profile.Some? {
      assert target == target[..at] + ":" + target[at + 1..];
      assert target == Text(mark);
    } else {
      assert target[..at] == target;
    }
  }

  lemma {:induction false} MarksAdd(models: seq<(string, Setting)>, key: string, setting: Setting)
    ensures Marks(models + [(key, setting)]) == Marks(models) + SettingMarks(key, setting)
  {
    hide SettingMarks;
    assert (models + [(key, setting)])[..|models|] == models;
  }

  lemma {:induction false} CleanedAdds(models: seq<(string, Setting)>, key: string, setting: Setting)
    ensures Cleaned(models + [(key, setting)]) == Cleaned(models) + CleanedSetting(key, setting)
  {
    hide CleanedSetting;
    assert (models + [(key, setting)])[..|models|] == models;
  }

  lemma {:induction false} ModelMarksAdd(profile: string, models: seq<(string, Leaf)>, last: (string, Leaf))
    ensures ModelMarks(profile, models + [last])
         == ModelMarks(profile, models) + LeafMark(Some(profile), last.0, last.1)
  {
    assert (models + [last])[..|models|] == models;
  }

  lemma {:induction false} CleanedModelsAreUnmarked(profile: string, models: seq<(string, Leaf)>)
    ensures ModelMarks(profile, CleanedModels(models)) == []
    ensures SettingReads(Profile(models)) ==> SettingReads(Profile(CleanedModels(models)))
  {
    hide ModelMarks;
    if models == [] {
      NoModels(profile);
    } else {
      var rest, last := models[..|models| - 1], models[|models| - 1];
      CleanedModelsAreUnmarked(profile, rest);
      var cleaned, kept := CleanedModels(rest), (last.0, Unmarked(last.1));
      assert CleanedModels(models) == if IsEmpty(kept.1) then cleaned else cleaned + [kept];
      hide CleanedModels, IsEmpty;
      ModelMarksAdd(profile, cleaned, kept);
    }
  }

  lemma {:induction false} NoModels(profile: string)
    ensures ModelMarks(profile, []) == []
  {
  }

  lemma {:induction false} CleanedSettingIsUnmarked(key: string, setting: Setting)
    ensures |CleanedSetting(key, setting)| <= 1
    ensures forall i :: 0 <= i < |CleanedSetting(key, setting)| ==>
      var left := CleanedSetting(key, setting)[i];
      SettingMarks(left.0, left.1) == [] && (SettingReads(setting) ==> SettingReads(left.1))
  {
    if setting.Profile? {
      CleanedModelsAreUnmarked(key, setting.models);
    }
  }

  // An edit leaves no flag behind, and nothing the reader could object to under `models`.
  lemma {:induction false} CleanedIsUnmarked(models: seq<(string, Setting)>)
    ensures Marks(Cleaned(models)) == []
    ensures (forall i :: 0 <= i < |models| ==> SettingReads(models[i].1))
        ==> forall i :: 0 <= i < |Cleaned(models)| ==> SettingReads(Cleaned(models)[i].1)
  {
    hide CleanedSetting, SettingMarks, SettingReads;
    if models != [] {
      var rest, last := models[..|models| - 1], models[|models| - 1];
      CleanedIsUnmarked(rest);
      CleanedSettingIsUnmarked(last.0, last.1);
      var more := CleanedSetting(last.0, last.1);
      if more == [] {
        assert Cleaned(models) == Cleaned(rest);
      } else {
        assert more == [(more[0].0, more[0].1)];
        MarksAdd(Cleaned(rest), more[0].0, more[0].1);
      }
    }
  }

  // A file's rules, taken out to be edited, are the rules the reader sees in it exactly when
  // a flag's name can be spelled.
  lemma {:induction false} TakenRulesMeanTheSameIff(file: File)
    requires ReadFile(file).Some?
    ensures ReadList(TakenRules(file)) == ReadFile(file)
       <==> forall mark :: mark in Marks(file.models) ==> CanBeSpelled(mark)
    ensures HasEmptyWhen(TakenRules(file)) <==> file.love.Some? && HasEmptyWhen(file.love.value)
  {
    hide ReadBody, CanBeSpelled;
    var marks := Marks(file.models);
    if marks == [] {
      assert TakenRules(file) == if file.love.Some? then file.love.value else [];
    } else {
      assert marks == [marks[0]] && marks[0] in marks;
      MarkedEffort(file.models, marks[0]);
      FlagKeepsItsMeaningIff(marks[0]);
      OneFlag(file, marks[0]);
    }
  }

  // What is taken from a file with a flag.
  lemma {:induction false} OneFlag(file: File, mark: Mark)
    requires ReadFile(file).Some? && Marks(file.models) == [mark]
    ensures file.love.None? && TakenRules(file) == [Migrated(mark)]
    ensures var body := ReadBody(Migrated(mark).body);
            ReadList([Migrated(mark)]) == if body.None? then None else Some([Rule(body.value, [])])
  {
    hide ReadBody;
    var entry := Migrated(mark);
    assert TakenRules(file) == [] + [entry] == [entry];
    AppendReads([], entry);
    assert ReadList([]) == Some([]);
    var body := ReadBody(entry.body);
    assert body.Some? ==> [] + [Rule(body.value, [])] == [Rule(body.value, [])];
  }

  lemma {:induction false} ModelEffort(profile: string, models: seq<(string, Leaf)>, mark: Mark)
    requires mark in ModelMarks(profile, models) && SettingReads(Profile(models))
    ensures mark.effort.Some? ==> mark.effort.value in EFFORT_LEVELS
  {
    var rest, last := models[..|models| - 1], models[|models| - 1];
    if mark in ModelMarks(profile, rest) {
      ModelEffort(profile, rest, mark);
    }
  }

  lemma {:induction false} MarkedEffort(models: seq<(string, Setting)>, mark: Mark)
    requires mark in Marks(models) && forall i :: 0 <= i < |models| ==> SettingReads(models[i].1)
    ensures mark.effort.Some? ==> mark.effort.value in EFFORT_LEVELS
  {
    var rest, last := models[..|models| - 1], models[|models| - 1];
    if mark in Marks(rest) {
      MarkedEffort(rest, mark);
    } else if last.1.Profile? {
      ModelEffort(last.0, last.1.models, mark);
    }
  }

  lemma {:induction false} OneFlagAtMost(file: File)
    requires ReadFile(file).Some?
    ensures |Marks(file.models)| <= 1
  {
  }

  // Only the rule made of a flag may turn out unreadable.
  lemma {:induction false} TheFlag(file: File) returns (entry: Entry)
    requires ReadFile(file).Some? && ReadList(TakenRules(file)).None?
    ensures TakenRules(file) == [entry] && entry.when.None? && ReadList([entry]).None?
  {
    hide ReadFile, ReadList, ReadBody, CanBeSpelled, TakenRules, Marks;
    TakenRulesMeanTheSameIff(file);
    OneFlagAtMost(file);
    var marks := Marks(file.models);
    assert marks == [marks[0]];
    OneFlag(file, marks[0]);
    entry := Migrated(marks[0]);
  }

  lemma {:induction false} ReleasesOne(entry: Entry, when: seq<Kind>)
    requires entry.when.None?
    ensures Released([entry], when) == if when == [] then [] else [entry]
  {
    assert [entry][..0] == [];
  }

  // When the rule a flag turned into cannot be read, an edit that names kinds leaves it where
  // it is, and the reader refuses the file; one that names none replaces it.
  lemma {:induction false} UnreadableFlag(file: File, edit: Edit)
    requires ReadFile(file).Some? && ReadList(TakenRules(file)).None? && (edit.Set? ==> Given(edit.destinations))
    ensures ReadList(Edited(TakenRules(file), edit)) ==
            if edit.when != [] then None else if edit.Set? then Some([Rule(edit.destinations, [])]) else Some([])
  {
    hide ReadBody, Given, ReadWhen, Written, ReadFile, TakenRules, Marks, ReadTarget, Text;
    var entry := TheFlag(file);
    ReleasesOne(entry, edit.when);
    assert ReadList([]) == Some([]);
    if edit.Set? {
      WrittenReadsBack(edit.destinations, edit.when);
      var written := Written(edit.destinations, edit.when);
      AppendReads(Released([entry], edit.when), written);
      assert [] + [Rule(edit.destinations, [])] == [Rule(edit.destinations, [])];
    }
  }

  lemma {:induction false} UpdatedReads(file: File, edit: Edit)
    requires ReadFile(file).Some?
    ensures Marks(Updated(file, edit).models) == []
    ensures ReadFile(Updated(file, edit)) == ReadList(Edited(TakenRules(file), edit))
  {
    hide Edited, TakenRules, Cleaned, Marks;
    CleanedIsUnmarked(file.models);
    assert ReadList([]) == Some([]);
  }

  ghost predicate SetOwns(before: seq<Rule>, after: seq<Rule>, destinations: seq<Destination>, when: seq<Kind>,
                          empty: bool) {
    && (forall kind :: Owner(after, kind) == if kind in when then Some(destinations) else Owner(before, kind))
    && CatchAllOwner(after) ==
       if when == [] then Some(destinations) else if empty then None else CatchAllOwner(before)
  }

  ghost predicate ClearOwns(before: seq<Rule>, after: seq<Rule>, when: seq<Kind>, empty: bool) {
    && (forall kind :: Owner(after, kind) == if when == [] || kind in when then None else Owner(before, kind))
    && CatchAllOwner(after) == if when == [] || empty then None else CatchAllOwner(before)
  }

  // The whole edit, from file to file, of any file the reader takes: no flag is left. If the
  // rule a flag turned into can be read, the reader takes the result, unless it would have
  // two catch-alls one of which is spelled as an empty list; the new rule owns exactly its
  // kinds (or the kinds named are unowned), and everything else goes where the rules taken
  // say, but for a catch-all so spelled.
  lemma {:induction false} EditKeepsTheFile(file: File, edit: Edit)
    requires ReadFile(file).Some? && (edit.Set? ==> Given(edit.destinations))
    ensures Marks(Updated(file, edit).models) == []
    ensures var taken, after := ReadList(TakenRules(file)), ReadFile(Updated(file, edit));
            var empty := file.love.Some? && HasEmptyWhen(file.love.value);
            if taken.None? then
              after == if edit.when != [] then None
                       else if edit.Set? then Some([Rule(edit.destinations, [])]) else Some([])
            else if edit.Set? then
              && (after.Some? <==> !(edit.when == [] && empty))
              && (after.Some? ==> SetOwns(taken.value, after.value, edit.destinations, edit.when, empty))
            else after.Some? && ClearOwns(taken.value, after.value, edit.when, empty)
  {
    hide ReadFile, Updated, Edited, TakenRules, Marks, Given, ReadList, Owner, CatchAllOwner;
    hide CanBeSpelled, HasEmptyWhen;
    var rules := TakenRules(file);
    TakenRulesMeanTheSameIff(file);
    UpdatedReads(file, edit);
    if ReadList(rules).None? {
      UnreadableFlag(file, edit);
    } else if edit.Set? {
      SetKeepsTheReaderIff(rules, edit.destinations, edit.when);
    } else {
      ClearUnownsExactly(rules, edit.when);
    }
  }
}
