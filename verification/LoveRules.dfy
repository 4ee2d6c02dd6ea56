// Which standing rule takes a piece of work (rust/crates/oga-config/src/lib.rs).
module LoveRules {
  import opened Basics
  import opened Destinations

  datatype Class = MechanicalWork | ContextWork | BuildWork | ReasoningWork | GeneralWork

  datatype Topic = UiTopic | UxTopic | BackendTopic | DatabaseTopic | DocsTopic | TestsTopic
                 | ReviewTopic | ResearchTopic | RefactorTopic

  datatype Kind = Mechanical | Context | Build | Reasoning | General
                | Ui | Ux | Backend | Database | Docs | Tests | Review | Research | Refactor

  datatype Rule = Rule(destinations: seq<Destination>, when: seq<Kind>)

  datatype Match = Claimed(kind: Kind) | Fallback | CatchAll

  function AsClass(kind: Kind): Option<Class> {
    match kind
    case Mechanical => Some(MechanicalWork)
    case Context => Some(ContextWork)
    case Build => Some(BuildWork)
    case Reasoning => Some(ReasoningWork)
    case General => Some(GeneralWork)
    case _ => None
  }

  function AsTopic(kind: Kind): Option<Topic> {
    match kind
    case Ui => Some(UiTopic)
    case Ux => Some(UxTopic)
    case Backend => Some(BackendTopic)
    case Database => Some(DatabaseTopic)
    case Docs => Some(DocsTopic)
    case Tests => Some(TestsTopic)
    case Review => Some(ReviewTopic)
    case Research => Some(ResearchTopic)
    case Refactor => Some(RefactorTopic)
    case _ => None
  }

  // The first element that will do, or the length.
  function Find<T(!new)>(s: seq<T>, wanted: T -> bool): (i: nat)
    ensures i <= |s|
    ensures i < |s| ==> wanted(s[i])
    ensures forall j :: 0 <= j < i ==> !wanted(s[j])
  {
    if s == [] then 0
    else if wanted(s[0]) then 0
    else
      var rest := Find(s[1..], wanted);
      assert forall j :: 0 < j < rest + 1 ==> s[j] == s[1..][j - 1];
      1 + rest
  }

  function OfTopic(topic: Topic): Kind -> bool {
    kind => AsTopic(kind) == Some(topic)
  }

  function OfClass(work: Class): Kind -> bool {
    kind => AsClass(kind) == Some(work)
  }

  predicate NamesTopic(rule: Rule, topic: Topic) {
    Find(rule.when, OfTopic(topic)) < |rule.when|
  }

  predicate NamesClass(rule: Rule, work: Class) {
    Find(rule.when, OfClass(work)) < |rule.when|
  }

  function ByTopic(topic: Topic): Rule -> bool {
    rule => NamesTopic(rule, topic)
  }

  function ByClass(work: Class): Rule -> bool {
    rule => NamesClass(rule, work)
  }

  function ByGeneral(): Rule -> bool {
    (rule: Rule) => General in rule.when
  }

  function ByNothing(): Rule -> bool {
    (rule: Rule) => rule.when == []
  }

  // The rule that takes the work: its place in the list, or the length for none.
  function ForTask(rules: seq<Rule>, work: Class, topic: Option<Topic>): (i: nat)
    ensures i <= |rules|
  {
    var topical := if topic.Some? then Find(rules, ByTopic(topic.value)) else |rules|;
    var classy, general := Find(rules, ByClass(work)), Find(rules, ByGeneral());
    if topical < |rules| then topical
    else if classy < |rules| then classy
    else if general < |rules| then general
    else Find(rules, ByNothing())
  }

  // Why the rule takes it.
  function MatchFor(rule: Rule, work: Class, topic: Option<Topic>): Match {
    var topical := if topic.Some? then Find(rule.when, OfTopic(topic.value)) else |rule.when|;
    var classy := Find(rule.when, OfClass(work));
    if topical < |rule.when| then Claimed(rule.when[topical])
    else if classy < |rule.when| then Claimed(rule.when[classy])
    else if General in rule.when then Fallback
    else CatchAll
  }

  // How close a rule comes to the work: by its topic, its class, as the general rule, as
  // the catch-all, or not at all.
  function Tier(rule: Rule, work: Class, topic: Option<Topic>): nat {
    if topic.Some? && NamesTopic(rule, topic.value) then 0
    else if NamesClass(rule, work) then 1
    else if General in rule.when then 2
    else if rule.when == [] then 3
    else 4
  }

  // Why a rule takes the work says how close it comes.
  lemma {:induction false} TheReasonIsTheTier(rule: Rule, work: Class, topic: Option<Topic>)
    requires Tier(rule, work, topic) < 4
    ensures var tier, why := Tier(rule, work, topic), MatchFor(rule, work, topic);
            && (tier == 0 <==> why.Claimed? && topic.Some? && AsTopic(why.kind) == topic)
            && (tier == 1 <==> why.Claimed? && AsClass(why.kind) == Some(work))
            && (tier == 2 <==> why == Fallback)
            && (tier == 3 <==> why == CatchAll)
            && (why.Claimed? ==> why.kind in rule.when)
  {
  }

  // The first of the rules that come closest.
  lemma {:induction false} TheClosestIsChosen(rules: seq<Rule>, work: Class, topic: Option<Topic>)
    ensures var chosen := ForTask(rules, work, topic);
            && (chosen == |rules| ==> forall i :: 0 <= i < |rules| ==> Tier(rules[i], work, topic) == 4)
            && (chosen < |rules| ==>
                  var tier := Tier(rules[chosen], work, topic);
                  && tier < 4
                  && (forall i :: 0 <= i < |rules| ==> Tier(rules[i], work, topic) >= tier)
                  && (forall i :: 0 <= i < chosen ==> Tier(rules[i], work, topic) > tier))
  {
    hide Find, Tier, ByTopic, ByClass, ByGeneral, ByNothing;
    var chosen := ForTask(rules, work, topic);
    forall i | 0 <= i < |rules|
      ensures chosen == |rules| ==> Tier(rules[i], work, topic) == 4
      ensures chosen < |rules| ==> Tier(rules[i], work, topic) >= Tier(rules[chosen], work, topic)
      ensures i < chosen < |rules| ==> Tier(rules[i], work, topic) > Tier(rules[chosen], work, topic)
    {
      TierIs(rules[i], work, topic);
      if chosen < |rules| {
        TierIs(rules[chosen], work, topic);
      }
    }
    if chosen < |rules| {
      TierIs(rules[chosen], work, topic);
    }
  }

  lemma {:induction false} TierIs(rule: Rule, work: Class, topic: Option<Topic>)
    ensures Tier(rule, work, topic)
         == if topic.Some? && ByTopic(topic.value)(rule) then 0
            else if ByClass(work)(rule) then 1
            else if ByGeneral()(rule) then 2
            else if ByNothing()(rule) then 3
            else 4
  {
  }
}
