/** The page state of App.tsx: the active unit, the topic, the current step and the
    visual state, together with what every control on the page does to them.

    The effect that runs after a topic change (`useEffect(..., [topic])`) is applied
    together with the change itself; React skips it when the topic is set to the value
    it already has. The lookups are parameterised by the catalogue (`units`,
    `content`) so that their fallbacks are reachable; lemmas then specialise them to
    `UNITS` and `TOPIC_CONTENT`. */
module Navigation {
  import opened Wrappers
  import opened Types
  import opened Js
  import opened Catalogue
  import opened Derivation
  import Visual

  datatype NavState = NavState(
    activeUnitId: string,
    topic: Topic,
    currentStepId: string,
    visual: VisualState)

  // ---- Per-topic plot configuration ----

  datatype Config = Config(fn: string, x0: real, order: int, p1: real, p2: real)

  /** The configuration used for every topic the switch does not name. */
  const DEFAULT_CONFIG: Config := Config("x^2", 1.0, 0, 0.5, 0.3)

  /** The topics the switch gives a configuration of their own. */
  const CONFIGURED_TOPICS: set<Topic> := {
    LimitOneSided, LimitInfinite, SqueezeTheorem, LinearApprox, ChainRule,
    MvtRolle, MvtLagrange, LhopitalRule, ConcavityCurve, Optimization,
    IntegralBasic, Ftc, IntegrationSubstitution, VolumeRotation, DeLogistic,
    TaylorSeries, PowerSeries, LagrangeMultiplier }

  /** The switch of the topic effect. Exactly the configured topics depart from the
      default; every order is a valid expansion order of the order control. */
  function TopicConfig(t: Topic): (c: Config)
    ensures c == DEFAULT_CONFIG <==> t !in CONFIGURED_TOPICS
    ensures 0 <= c.order <= 20
  {
    match t
    case LimitOneSided => Config("x / abs(x)", 0.0, 0, 0.5, 0.5)
    case LimitInfinite => Config("1/x", 0.0, 0, 0.5, 0.5)
    case SqueezeTheorem => Config("x^2 * sin(1/x)", 0.0, 1, 1.0, 1.0)
    case LinearApprox => Config("sqrt(x)", 4.0, 1, 1.0, 1.0)
    case ChainRule => Config("sin(x^2)", 1.0, 1, 1.0, 1.0)
    case MvtRolle => Config("cos(x)", 0.0, 0, 0.5, 0.5)
    case MvtLagrange => Config("x^2 - 2x", 1.5, 0, 0.5, 0.5)
    case LhopitalRule => Config("sin(x)/x", 0.0, 1, 1.0, 1.0)
    case ConcavityCurve => Config("x^3 - 3x", 0.0, 2, 1.0, 1.0)
    case Optimization => Config("-x^2 + 4x", 2.0, 1, 1.0, 1.0)
    case IntegralBasic => Config("x^2", 1.0, 1, 10.0, 1.0)
    case Ftc => Config("0.5x + 1", 2.0, 1, 1.0, 1.0)
    case IntegrationSubstitution => Config("2x * e^(x^2)", 1.0, 1, 1.0, 1.0)
    case VolumeRotation => Config("sqrt(x)", 1.0, 1, 10.0, 1.0)
    case DeLogistic => Config("1 / (1 + e^(-x))", 0.0, 0, 1.0, 1.0)
    case TaylorSeries => Config("sin(x)", 0.0, 3, 1.0, 1.0)
    case PowerSeries => Config("1 / (1 - x)", 0.0, 5, 1.0, 1.0)
    case LagrangeMultiplier => Config("x^2 + y^2", 1.0, 1, 1.0, 1.0)
    case _ => DEFAULT_CONFIG
  }

  /** The configuration fields of a visual state. */
  function ConfigOf(v: VisualState): Config {
    Config(v.functionString, v.x0, v.order, v.param1, v.param2)
  }

  // ---- The topic effect ----

  /** The effect run after the topic changes: the first step of the topic's storyline
      becomes current when there is one (otherwise the previous id stays); the plot
      takes the topic and its configuration and keeps its zoom; the unit is untouched. */
  function TopicEffect(content: map<Topic, seq<Step>>, s: NavState): (r: NavState)
    ensures r.activeUnitId == s.activeUnitId && r.topic == s.topic
    ensures StepsOf(content, s.topic) != [] ==> r.currentStepId == StepsOf(content, s.topic)[0].id
    ensures StepsOf(content, s.topic) == [] ==> r.currentStepId == s.currentStepId
    ensures r.visual.topic == s.topic && r.visual.zoom == s.visual.zoom
    ensures ConfigOf(r.visual) == TopicConfig(s.topic)
  {
    var steps := StepsOf(content, s.topic);
    var c := TopicConfig(s.topic);
    NavState(
      s.activeUnitId,
      s.topic,
      if steps != [] then steps[0].id else s.currentStepId,
      s.visual.(topic := s.topic, functionString := c.fn, x0 := c.x0, order := c.order, param1 := c.p1, param2 := c.p2))
  }

  /** Running the effect a second time changes nothing. */
  lemma TopicEffectIdempotent(content: map<Topic, seq<Step>>, s: NavState)
    ensures TopicEffect(content, TopicEffect(content, s)) == TopicEffect(content, s)
  {
  }

  /** `setTopic(t)` followed by the effect; setting the current topic again does nothing. */
  function SetTopic(content: map<Topic, seq<Step>>, s: NavState, t: Topic): (r: NavState)
    ensures t == s.topic ==> r == s
    ensures t != s.topic ==> r == TopicEffect(content, s.(topic := t))
  {
    if t == s.topic then s else TopicEffect(content, s.(topic := t))
  }

  // ---- Initial state ----

  /** The state before the first effect: the first unit, the limit-definition topic
      with its first step, and the default plot. */
  function InitialState(): (s: NavState)
    ensures s.activeUnitId == "u1" && s.topic == LimitDefinition && s.currentStepId == "ed-0"
    ensures ConfigOf(s.visual) == DEFAULT_CONFIG && s.visual.topic == LimitDefinition && s.visual.zoom == 1.0
  {
    NavState(
      UNITS[0].id,
      LimitDefinition,
      TOPIC_CONTENT[LimitDefinition][0].id,
      VisualState(LimitDefinition, "x^2", 1.0, 0, 0.5, 0.3, 1.0))
  }

  /** The effect run on mount leaves the initial state as it is. */
  lemma MountKeepsInitialState()
    ensures TopicEffect(TOPIC_CONTENT, InitialState()) == InitialState()
  {
    assert StepsOf(TOPIC_CONTENT, LimitDefinition) == LIMIT_DEFINITION_STEPS;
  }

  // ---- Units ----

  /** `UNITS.find(u => u.id === activeUnitId) || UNITS[0]`. */
  function ActiveUnit(units: seq<Unit>, id: string): (u: Unit)
    requires units != []
    ensures u in units
    ensures (exists i :: 0 <= i < |units| && units[i].id == id) ==> u.id == id
    ensures (forall i :: 0 <= i < |units| ==> units[i].id != id) ==> u == units[0]
  {
    Find(units, (v: Unit) => v.id == id).GetOr(units[0])
  }

  /** With distinct unit ids, the unit found for an id is the one carrying it. */
  lemma ActiveUnitOfId(units: seq<Unit>, i: nat)
    requires NoDuplicates(UnitIds(units)) && i < |units|
    ensures ActiveUnit(units, units[i].id) == units[i]
  {
    var u := ActiveUnit(units, units[i].id);
    var j :| 0 <= j < |units| && units[j] == u;
    assert UnitIds(units)[i] == units[i].id && UnitIds(units)[j] == units[j].id;
  }

  /** `UNITS.find(u => u.chapters.some(c => c.topics.some(t => t.id === topic)))`. */
  function TargetUnit(units: seq<Unit>, t: Topic): (r: Option<Unit>)
    ensures r.Some? ==> r.value in units && UnitHas(r.value, t)
    ensures r.None? <==> forall i :: 0 <= i < |units| ==> !UnitHas(units[i], t)
    ensures r.Some? ==>
      exists i :: 0 <= i < |units| && units[i] == r.value && forall j :: 0 <= j < i ==> !UnitHas(units[j], t)
  {
    Find(units, (u: Unit) => UnitHas(u, t))
  }

  /** `handleTopicJump(t)`: the first unit listing the topic becomes active (a topic
      no unit lists leaves the unit as it is), then the topic is set. */
  function HandleTopicJump(units: seq<Unit>, content: map<Topic, seq<Step>>, s: NavState, t: Topic): (r: NavState)
    ensures r.topic == t
    ensures TargetUnit(units, t).Some? ==> r.activeUnitId == TargetUnit(units, t).value.id
    ensures TargetUnit(units, t).None? ==> r.activeUnitId == s.activeUnitId
    ensures r == SetTopic(content, s.(activeUnitId := r.activeUnitId), t)
  {
    var s1 := match TargetUnit(units, t)
      case Some(u) => s.(activeUnitId := u.id)
      case None => s;
    SetTopic(content, s1, t)
  }

  /** With the shipped catalogue, after a jump the sidebar shows the unit that lists
      the topic, whatever the topic and the previous state. */
  lemma JumpShowsHomeUnit(s: NavState, t: Topic)
    ensures var r := HandleTopicJump(UNITS, TOPIC_CONTENT, s, t);
      r.topic == t && UnitHas(ActiveUnit(UNITS, r.activeUnitId), t) &&
      ActiveUnit(UNITS, r.activeUnitId).id == r.activeUnitId
  {
    EveryTopicListedOnce();
    UnitIdsDistinct();
    ListedTopicHasHome(UNITS, t);
    JumpToListedTopic(UNITS, TOPIC_CONTENT, s, t);
  }

  /** A topic in the catalogue's id list is listed by some unit. */
  lemma ListedTopicHasHome(units: seq<Unit>, t: Topic)
    requires t in TopicIds(units)
    ensures TargetUnit(units, t).Some?
  {
    FlattenHas(CatalogueTopicLists(units), t);
    var i :| 0 <= i < |units| && t in CatalogueTopicLists(units)[i];
    UnitHasIffListed(units[i], t);
  }

  lemma JumpToListedTopic(units: seq<Unit>, content: map<Topic, seq<Step>>, s: NavState, t: Topic)
    requires NoDuplicates(UnitIds(units)) && TargetUnit(units, t).Some?
    ensures var r := HandleTopicJump(units, content, s, t);
      UnitHas(ActiveUnit(units, r.activeUnitId), t) && ActiveUnit(units, r.activeUnitId).id == r.activeUnitId
  {
    var u := TargetUnit(units, t).value;
    var i :| 0 <= i < |units| && units[i] == u;
    ActiveUnitOfId(units, i);
  }

  // ---- Current step ----

  /** The header's fallback when the current id names no step of the topic: titled
      "未命名", with empty explanation, goal and expression (the fields it lacks are
      empty here). */
  const PLACEHOLDER: Step := Step("", "未命名", "", "", "", "", false, None)

  /** `TOPIC_CONTENT[topic]?.find(s => s.id === currentStepId) || placeholder`. */
  function CurrentStep(content: map<Topic, seq<Step>>, s: NavState): (r: Step)
    ensures (exists k :: 0 <= k < |StepsOf(content, s.topic)| && StepsOf(content, s.topic)[k].id == s.currentStepId) ==>
      r in StepsOf(content, s.topic) && r.id == s.currentStepId
    ensures (forall k :: 0 <= k < |StepsOf(content, s.topic)| ==> StepsOf(content, s.topic)[k].id != s.currentStepId) ==>
      r == PLACEHOLDER
  {
    Find(StepsOf(content, s.topic), (st: Step) => st.id == s.currentStepId).GetOr(PLACEHOLDER)
  }

  /** A step id that is among the topic's step ids selects that step. */
  lemma CurrentStepOfListedId(content: map<Topic, seq<Step>>, s: NavState)
    requires s.currentStepId in StepIds(StepsOf(content, s.topic))
    ensures CurrentStep(content, s) in StepsOf(content, s.topic)
    ensures CurrentStep(content, s).id == s.currentStepId
  {
    var ids := StepIds(StepsOf(content, s.topic));
    var k :| 0 <= k < |ids| && ids[k] == s.currentStepId;
    assert StepsOf(content, s.topic)[k].id == s.currentStepId;
  }

  // ---- Events ----

  /** The controls of the page. Unit buttons and step cards are addressed by their
      position among those rendered; the panel's prerequisite buttons jump, since the
      page passes `handleTopicJump`. */
  datatype Event =
    | LogoClick                        // the Σ logo: `handleTopicJump(LIMIT_DEFINITION)`
    | UnitButton(index: nat)           // `setActiveUnitId(unit.id)`
    | TopicButton(topic: Topic)        // `setTopic(t.id)` in the sidebar
    | CardClick(index: nat)            // a step card of the storyline panel
    | PrerequisiteClick(card: nat, k: nat)  // prerequisite `k` of a card, shown only on the highlighted card
    | PlotEdit(edit: Visual.Edit)      // a control of the plot panel

  /** The page's response to a panel event. */
  function Dispatch(units: seq<Unit>, content: map<Topic, seq<Step>>, s: NavState, e: PanelEvent): (r: NavState)
    ensures e.SelectStep? ==> r == s.(currentStepId := e.id)
    ensures e.JumpTopic? ==> r == HandleTopicJump(units, content, s, e.topic)
    ensures e.NoEvent? ==> r == s
  {
    match e
    case SelectStep(id) => s.(currentStepId := id)
    case JumpTopic(t) => HandleTopicJump(units, content, s, t)
    case NoEvent => s
  }

  /** The prerequisite button `k` of card `i`, when the panel shows one: the card is
      highlighted and its step has at least `k + 1` prerequisites. */
  function ShownPrerequisite(content: map<Topic, seq<Step>>, s: NavState, i: nat, k: nat): (r: Option<Prerequisite>)
    ensures var steps := StepsOf(content, s.topic);
      r.Some? <==> i < |steps| && IsActive(steps[i], s.currentStepId) &&
                   steps[i].prerequisites.Some? && k < |steps[i].prerequisites.value|
    ensures r.Some? ==> r.value == StepsOf(content, s.topic)[i].prerequisites.value[k]
  {
    var cards := Render(StepsOf(content, s.topic), s.currentStepId);
    if i < |cards| && cards[i].prerequisites.Some? && k < |cards[i].prerequisites.value| then
      Some(cards[i].prerequisites.value[k])
    else None
  }

  function Handle(units: seq<Unit>, content: map<Topic, seq<Step>>, s: NavState, e: Event): (r: NavState)
    ensures e.UnitButton? && e.index < |units| ==> r == s.(activeUnitId := units[e.index].id)
    ensures e.UnitButton? && e.index >= |units| ==> r == s
    ensures e.CardClick? && e.index < |StepsOf(content, s.topic)| ==>
      r == s.(currentStepId := StepsOf(content, s.topic)[e.index].id)
    ensures e.CardClick? && e.index >= |StepsOf(content, s.topic)| ==> r == s
    ensures e.PrerequisiteClick? ==>
      var p := ShownPrerequisite(content, s, e.card, e.k);
      r == (if p.Some? && p.value.topicId.Some? then HandleTopicJump(units, content, s, p.value.topicId.value) else s)
    ensures e.PlotEdit? ==> r == s.(visual := Visual.ApplyEdit(s.visual, e.edit))
    ensures e.TopicButton? ==> r == SetTopic(content, s, e.topic)
    ensures e.LogoClick? ==> r == HandleTopicJump(units, content, s, LimitDefinition)
  {
    match e
    case LogoClick => HandleTopicJump(units, content, s, LimitDefinition)
    case UnitButton(i) => if i < |units| then s.(activeUnitId := units[i].id) else s
    case TopicButton(t) => SetTopic(content, s, t)
    case CardClick(i) =>
      var cards := Render(StepsOf(content, s.topic), s.currentStepId);
      if i < |cards| then Dispatch(units, content, s, ClickStep(cards, i)) else s
    case PrerequisiteClick(i, k) =>
      var p := ShownPrerequisite(content, s, i, k);
      if p.Some? then Dispatch(units, content, s, ClickPrerequisite(p.value, true)) else s
    case PlotEdit(edit) => s.(visual := Visual.ApplyEdit(s.visual, edit))
  }

  /** The state after a sequence of events. */
  function Run(units: seq<Unit>, content: map<Topic, seq<Step>>, s: NavState, es: seq<Event>): NavState
    decreases |es|
  {
    if es == [] then s else Run(units, content, Handle(units, content, s, es[0]), es[1..])
  }

  // ---- The page invariant ----

  /** The active unit is one of the catalogue's, the plot shows the page's topic, and,
      when the topic has a storyline, the current id is one of its steps. */
  predicate Valid(units: seq<Unit>, content: map<Topic, seq<Step>>, s: NavState) {
    s.activeUnitId in UnitIds(units) &&
    s.visual.topic == s.topic &&
    (StepsOf(content, s.topic) != [] ==> s.currentStepId in StepIds(StepsOf(content, s.topic)))
  }

  lemma InitialStateValid()
    ensures Valid(UNITS, TOPIC_CONTENT, InitialState())
  {
    UnitIdsDistinct();
    assert StepsOf(TOPIC_CONTENT, LimitDefinition) == LIMIT_DEFINITION_STEPS;
    assert StepIds(LIMIT_DEFINITION_STEPS)[0] == "ed-0";
  }

  lemma SetTopicKeepsValid(units: seq<Unit>, content: map<Topic, seq<Step>>, s: NavState, t: Topic)
    requires Valid(units, content, s)
    ensures Valid(units, content, SetTopic(content, s, t))
  {
    var r := SetTopic(content, s, t);
    var steps := StepsOf(content, t);
    if t != s.topic && steps != [] {
      assert StepIds(steps)[0] == steps[0].id;
    }
  }

  lemma JumpKeepsValid(units: seq<Unit>, content: map<Topic, seq<Step>>, s: NavState, t: Topic)
    requires Valid(units, content, s)
    ensures Valid(units, content, HandleTopicJump(units, content, s, t))
  {
    var r := HandleTopicJump(units, content, s, t);
    var s1 := s.(activeUnitId := r.activeUnitId);
    if TargetUnit(units, t).Some? {
      var u := TargetUnit(units, t).value;
      var i :| 0 <= i < |units| && units[i] == u;
      assert UnitIds(units)[i] == u.id;
    }
    SetTopicKeepsValid(units, content, s1, t);
  }

  /** Every control of the page keeps the invariant. */
  lemma HandleKeepsValid(units: seq<Unit>, content: map<Topic, seq<Step>>, s: NavState, e: Event)
    requires Valid(units, content, s)
    ensures Valid(units, content, Handle(units, content, s, e))
  {
    match e
    case LogoClick => JumpKeepsValid(units, content, s, LimitDefinition);
    case UnitButton(i) =>
      if i < |units| {
        assert UnitIds(units)[i] == units[i].id;
      }
    case TopicButton(t) => SetTopicKeepsValid(units, content, s, t);
    case CardClick(i) =>
      var steps := StepsOf(content, s.topic);
      if i < |steps| {
        assert StepIds(steps)[i] == steps[i].id;
      }
    case PrerequisiteClick(i, k) =>
      var p := ShownPrerequisite(content, s, i, k);
      if p.Some? && p.value.topicId.Some? {
        JumpKeepsValid(units, content, s, p.value.topicId.value);
      }
    case PlotEdit(edit) =>
  }

  lemma {:induction false} RunKeepsValid(units: seq<Unit>, content: map<Topic, seq<Step>>, s: NavState, es: seq<Event>)
    requires Valid(units, content, s)
    ensures Valid(units, content, Run(units, content, s, es))
    decreases |es|
  {
    if es != [] {
      HandleKeepsValid(units, content, s, es[0]);
      RunKeepsValid(units, content, Handle(units, content, s, es[0]), es[1..]);
    }
  }

  /** Whatever the user does, the sidebar shows a unit of the catalogue under its own
      id, the plot shows the page's topic, and for a topic with a storyline the header
      names one of its steps. */
  lemma ReachableStates(es: seq<Event>)
    ensures var s := Run(UNITS, TOPIC_CONTENT, InitialState(), es);
      ActiveUnit(UNITS, s.activeUnitId).id == s.activeUnitId &&
      s.visual.topic == s.topic &&
      (HasStoryline(s.topic) ==>
         CurrentStep(TOPIC_CONTENT, s) in StepsOf(TOPIC_CONTENT, s.topic) &&
         CurrentStep(TOPIC_CONTENT, s).id == s.currentStepId)
  {
    InitialStateValid();
    RunKeepsValid(UNITS, TOPIC_CONTENT, InitialState(), es);
    var s := Run(UNITS, TOPIC_CONTENT, InitialState(), es);
    UnitIdsDistinct();
    var i :| 0 <= i < |UnitIds(UNITS)| && UnitIds(UNITS)[i] == s.activeUnitId;
    ActiveUnitOfId(UNITS, i);
    CatalogueStepsOf(s.topic);
    if HasStoryline(s.topic) {
      CurrentStepOfListedId(TOPIC_CONTENT, s);
    }
  }

  /** No step of the shipped storylines lists prerequisites, so the panel shows no
      prerequisite button and a prerequisite click cannot happen. */
  lemma PrerequisiteClickIsInert(s: NavState, i: nat, k: nat)
    ensures ShownPrerequisite(TOPIC_CONTENT, s, i, k).None?
    ensures Handle(UNITS, TOPIC_CONTENT, s, PrerequisiteClick(i, k)) == s
  {
    CatalogueStepsOf(s.topic);
    ContentLookup(s.topic);
    StorylinesWithoutPrerequisites(s.topic);
  }

  /** A card click makes that card's step current, and the header then shows it. */
  lemma CardClickSelectsStep(units: seq<Unit>, content: map<Topic, seq<Step>>, s: NavState, i: nat)
    requires NoDuplicates(StepIds(StepsOf(content, s.topic)))
    requires i < |StepsOf(content, s.topic)|
    ensures var r := Handle(units, content, s, CardClick(i));
      r == s.(currentStepId := StepsOf(content, s.topic)[i].id) &&
      CurrentStep(content, r) == StepsOf(content, s.topic)[i]
  {
    var steps := StepsOf(content, s.topic);
    var r := Handle(units, content, s, CardClick(i));
    assert r == s.(currentStepId := steps[i].id);
    assert StepIds(steps)[i] == steps[i].id;
    CurrentStepOfListedId(content, r);
    var k :| 0 <= k < |steps| && steps[k] == CurrentStep(content, r);
    assert StepIds(steps)[k] == steps[k].id;
    assert k == i;
  }

  /** Moving to a topic without a storyline keeps the previous step id, so the header
      falls back to the placeholder. */
  lemma EmptyStorylineKeepsStaleStep(content: map<Topic, seq<Step>>, s: NavState, t: Topic)
    requires t != s.topic && StepsOf(content, t) == []
    ensures SetTopic(content, s, t).currentStepId == s.currentStepId
    ensures CurrentStep(content, SetTopic(content, s, t)) == PLACEHOLDER
  {
  }

  /** From the initial page, picking the product-rule topic (no storyline) keeps the
      id "ed-0" of the limit storyline and shows the placeholder. */
  lemma StaleStepExample()
    ensures var r := Handle(UNITS, TOPIC_CONTENT, InitialState(), TopicButton(DerivativeRules));
      r.topic == DerivativeRules && r.currentStepId == "ed-0" && CurrentStep(TOPIC_CONTENT, r) == PLACEHOLDER
  {
    var s0 := InitialState();
    assert s0.topic == LimitDefinition && s0.currentStepId == "ed-0";
    CatalogueStepsOf(DerivativeRules);
    assert StepsOf(TOPIC_CONTENT, DerivativeRules) == [];
    EmptyStorylineKeepsStaleStep(TOPIC_CONTENT, s0, DerivativeRules);
  }
}
