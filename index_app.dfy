/** The single-file version of the app in index.tsx: its own five-topic registry, the
    page state (active topic, active step, visual state) with the topic-reset effect
    and the step-click hint merge, and the tutor chat's send handler.

    This version does not share the catalogue of constants.ts: its topic ids, visual
    state (no zoom) and steps (with an optional partial visual hint) are its own. */
module IndexApp {
  import opened Wrappers
  import opened Js
  import Types
  import Catalogue

  datatype Topic = LimitDefinition | SqueezeTheorem | DerivativeBasic | Ftc | TaylorSeries

  datatype VisualState = VisualState(
    topic: Topic,
    functionString: string,
    x0: real,
    order: int,
    param1: real,
    param2: real)

  /** `Partial<VisualState>`: every field may be absent. */
  datatype Hint = Hint(
    topic: Option<Topic>,
    functionString: Option<string>,
    x0: Option<real>,
    order: Option<int>,
    param1: Option<real>,
    param2: Option<real>)

  const EMPTY_HINT: Hint := Hint(None, None, None, None, None, None)

  datatype Step = Step(
    id: string,
    title: string,
    goal: string,
    expression: string,
    explanation: string,
    visualHint: Option<Hint>)

  datatype Manifest = Manifest(id: Topic, name: string, initialVisualState: VisualState, steps: seq<Step>)

  // ---- The registry ----

  const LIMIT_DEFINITION_MANIFEST: Manifest :=
    Manifest(LimitDefinition, "ε-δ Definition of Limit",
      VisualState(LimitDefinition, "x^2", 2.0, 0, 0.8, 0.5), [
        Step("l1", "Targeting a Point", "Observe x approaching c", "x → 2, f(x) → 4",
          "We want to formalize what it means to \"infinitely approach\" a value.",
          Some(EMPTY_HINT.(param1 := Some(0.8), param2 := Some(0.6)))),
        Step("l2", "The Epsilon Challenge", "Define vertical error", "|f(x) - L| < ε",
          "Imagine a skeptic sets a tolerance window ε around the limit L.",
          Some(EMPTY_HINT.(param1 := Some(0.3)))),
        Step("l3", "The Delta Response", "Find horizontal range", "0 < |x - c| < δ",
          "Can we find a range δ such that every x inside it maps to a value inside the ε-window?",
          Some(EMPTY_HINT.(param1 := Some(0.3), param2 := Some(0.15))))])

  const DERIVATIVE_BASIC_MANIFEST: Manifest :=
    Manifest(DerivativeBasic, "The Derivative: Instantaneous Change",
      VisualState(DerivativeBasic, "0.5*x^2", 1.0, 0, 2.0, 0.0), [
        Step("d1", "Average Velocity", "Secant line slope", "Δy / Δx",
          "The slope between two points is the average rate of change.",
          Some(EMPTY_HINT.(param1 := Some(1.5)))),
        Step("d2", "Shrinking the Gap", "h → 0", "lim h→0",
          "Bring the second point closer and closer to the first point.",
          Some(EMPTY_HINT.(param1 := Some(0.2)))),
        Step("d3", "Tangency", "The Instantaneous Rate", "f'(x)",
          "At the limit, the secant becomes the tangent line, representing the rate at exactly one point.",
          Some(EMPTY_HINT.(param1 := Some(0.01))))])

  const TAYLOR_SERIES_MANIFEST: Manifest :=
    Manifest(TaylorSeries, "Taylor Series: Function Cloning",
      VisualState(TaylorSeries, "exp(x)", 0.0, 1, 0.0, 0.0), [
        Step("t1", "Linear Approximation", "Match value & slope", "f(a) + f'(a)(x-a)",
          "Start with a tangent line. It matches the value and first derivative.",
          Some(EMPTY_HINT.(order := Some(1)))),
        Step("t2", "Curvature Matching", "Add quadratic term", "...+ f''(a)/2 * (x-a)^2",
          "Add the second derivative to match how the function curves.",
          Some(EMPTY_HINT.(order := Some(2)))),
        Step("t3", "Infinite Detail", "Higher order terms", "Σ f^(n)(a)/n! * (x-a)^n",
          "As we add terms, the polynomial \"clones\" the original function over a wider range.",
          Some(EMPTY_HINT.(order := Some(8))))])

  const SQUEEZE_THEOREM_MANIFEST: Manifest :=
    Manifest(SqueezeTheorem, "Squeeze Theorem",
      VisualState(SqueezeTheorem, "x^2 * sin(1/x)", 0.0, 0, 1.0, 0.0), [
        Step("s1", "The Oscillating Function", "Analyze complexity", "f(x) = x²sin(1/x)",
          "This function oscillates wildly near 0, making direct limits hard.",
          Some(EMPTY_HINT.(param1 := Some(1.0)))),
        Step("s2", "The Enclosure", "Bounding functions", "-x² ≤ f(x) ≤ x²",
          "We find two simpler functions that always stay above and below the target.",
          Some(EMPTY_HINT.(param1 := Some(1.0)))),
        Step("s3", "The Pinch", "Convergence at 0", "lim g(x) = lim h(x) = 0",
          "As both bounds approach 0, the oscillating function has nowhere else to go.",
          Some(EMPTY_HINT.(param1 := Some(0.1))))])

  const FTC_MANIFEST: Manifest :=
    Manifest(Ftc, "Fundamental Theorem of Calculus",
      VisualState(Ftc, "0.1*x^2 + 1", 0.0, 0, 3.0, 0.0), [
        Step("f1", "The Area Accumulator", "Define A(x)", "∫ f(t) dt",
          "Consider the area from a fixed point to a variable point x.",
          Some(EMPTY_HINT.(param1 := Some(2.0)))),
        Step("f2", "The Micro-Slice", "Add Δx", "ΔA ≈ f(x)Δx",
          "A tiny increase in x adds a tiny slice of area, roughly a rectangle of height f(x).",
          Some(EMPTY_HINT.(param1 := Some(3.0), param2 := Some(0.1)))),
        Step("f3", "The Grand Connection", "A'(x) = f(x)", "d/dx ∫ f(t)dt = f(x)",
          "The derivative of the area function IS the original function.",
          Some(EMPTY_HINT.(param1 := Some(3.0), param2 := Some(0.01))))])

  /** `TOPIC_REGISTRY[t]`: a record with an entry for every topic. */
  function Registry(t: Topic): Manifest {
    match t
    case LimitDefinition => LIMIT_DEFINITION_MANIFEST
    case SqueezeTheorem => SQUEEZE_THEOREM_MANIFEST
    case DerivativeBasic => DERIVATIVE_BASIC_MANIFEST
    case Ftc => FTC_MANIFEST
    case TaylorSeries => TAYLOR_SERIES_MANIFEST
  }

  function StepIds(steps: seq<Step>): seq<string> {
    Map(steps, (st: Step) => st.id)
  }

  /** The registry's entries are keyed consistently: each manifest and its initial
      plot carry their own key, the step list is non-empty with distinct ids, and no
      hint names a topic, so a hint can never move the plot to another topic. */
  predicate WellFormed(t: Topic, m: Manifest) {
    m.id == t && m.initialVisualState.topic == t && m.steps != [] &&
    Catalogue.NoDuplicates(StepIds(m.steps)) &&
    forall i :: 0 <= i < |m.steps| ==> m.steps[i].visualHint.None? || m.steps[i].visualHint.value.topic.None?
  }

  lemma RegistryWellFormed(t: Topic)
    ensures WellFormed(t, Registry(t))
  {
    var m := Registry(t);
    assert StepIds(m.steps) == [m.steps[0].id, m.steps[1].id, m.steps[2].id];
  }

  // ---- The hint merge ----

  /** `{ ...prev, ...hint }`: each field present in the hint overwrites the state's,
      every absent one keeps its value. */
  function Merge(v: VisualState, h: Hint): (r: VisualState)
    ensures r.topic == (if h.topic.Some? then h.topic.value else v.topic)
    ensures r.functionString == (if h.functionString.Some? then h.functionString.value else v.functionString)
    ensures r.x0 == (if h.x0.Some? then h.x0.value else v.x0)
    ensures r.order == (if h.order.Some? then h.order.value else v.order)
    ensures r.param1 == (if h.param1.Some? then h.param1.value else v.param1)
    ensures r.param2 == (if h.param2.Some? then h.param2.value else v.param2)
  {
    VisualState(
      h.topic.GetOr(v.topic),
      h.functionString.GetOr(v.functionString),
      h.x0.GetOr(v.x0),
      h.order.GetOr(v.order),
      h.param1.GetOr(v.param1),
      h.param2.GetOr(v.param2))
  }

  /** The spread of two hints, the second winning: `{ ...a, ...b }`. */
  function Combine(a: Hint, b: Hint): Hint {
    Hint(
      if b.topic.Some? then b.topic else a.topic,
      if b.functionString.Some? then b.functionString else a.functionString,
      if b.x0.Some? then b.x0 else a.x0,
      if b.order.Some? then b.order else a.order,
      if b.param1.Some? then b.param1 else a.param1,
      if b.param2.Some? then b.param2 else a.param2)
  }

  /** An empty hint changes nothing; merging the same hint twice is merging it once;
      merging two hints in turn is merging their spread. */
  lemma MergeLaws(v: VisualState, a: Hint, b: Hint)
    ensures Merge(v, EMPTY_HINT) == v
    ensures Merge(Merge(v, a), a) == Merge(v, a)
    ensures Merge(Merge(v, a), b) == Merge(v, Combine(a, b))
  {
  }

  // ---- The page state ----

  datatype AppState = AppState(activeTopic: Topic, activeStepId: string, visual: VisualState)

  /** Before the first effect: the limit topic, no step id, and its initial plot. */
  function InitialState(): (s: AppState)
    ensures s.activeTopic == LimitDefinition && s.activeStepId == ""
    ensures s.visual == Registry(LimitDefinition).initialVisualState
  {
    AppState(LimitDefinition, "", Registry(LimitDefinition).initialVisualState)
  }

  /** The effect on `activeTopic`: the plot is reset to the topic's initial state and
      the topic's first step becomes active. */
  function TopicEffect(s: AppState): (r: AppState)
    ensures r.activeTopic == s.activeTopic
    ensures r.visual == Registry(s.activeTopic).initialVisualState
    ensures r.activeStepId == Registry(s.activeTopic).steps[0].id
  {
    RegistryWellFormed(s.activeTopic);
    var m := Registry(s.activeTopic);
    AppState(s.activeTopic, m.steps[0].id, m.initialVisualState)
  }

  /** `setActiveTopic(t)` followed by the effect; the same topic again does nothing. */
  function SelectTopic(s: AppState, t: Topic): (r: AppState)
    ensures t == s.activeTopic ==> r == s
    ensures t != s.activeTopic ==> r == TopicEffect(s.(activeTopic := t))
  {
    if t == s.activeTopic then s else TopicEffect(s.(activeTopic := t))
  }

  /** `handleStepClick(step)`: the clicked step becomes active; its hint, when it has
      one, is merged over the plot, which otherwise is left alone. */
  function StepClick(s: AppState, step: Step): (r: AppState)
    ensures r.activeStepId == step.id && r.activeTopic == s.activeTopic
    ensures step.visualHint.None? ==> r.visual == s.visual
    ensures step.visualHint.Some? ==> r.visual == Merge(s.visual, step.visualHint.value)
  {
    match step.visualHint
    case None => s.(activeStepId := step.id)
    case Some(h) => s.(activeStepId := step.id, visual := Merge(s.visual, h))
  }

  /** `steps.find(s => s.id === activeStepId) || steps[0]`: always one of the topic's
      steps, the one with the active id when there is one, and otherwise the first. */
  function CurrentStep(s: AppState): (r: Step)
    ensures r in Registry(s.activeTopic).steps
    ensures (exists k :: 0 <= k < |Registry(s.activeTopic).steps| && Registry(s.activeTopic).steps[k].id == s.activeStepId) ==>
      r.id == s.activeStepId
    ensures (forall k :: 0 <= k < |Registry(s.activeTopic).steps| ==> Registry(s.activeTopic).steps[k].id != s.activeStepId) ==>
      r == Registry(s.activeTopic).steps[0]
  {
    RegistryWellFormed(s.activeTopic);
    var steps := Registry(s.activeTopic).steps;
    Find(steps, (st: Step) => st.id == s.activeStepId).GetOr(steps[0])
  }

  /** On the first render the empty step id names no step, so the first one is shown. */
  lemma InitialCurrentStep()
    ensures CurrentStep(InitialState()).id == "l1"
  {
    var steps := Registry(LimitDefinition).steps;
    assert forall k :: 0 <= k < |steps| ==> steps[k].id != "";
  }

  /** What a control of the plot panel reports: the text of the function box, or the
      number in the x0 box. */
  datatype PlotEdit = FunctionText(text: string) | X0Value(x0: real)

  /** The page's controls. A step is addressed by its position in the active topic's
      list; a step outside the list cannot be clicked and changes nothing. */
  datatype Event = TopicButton(topic: Topic) | StepButton(index: nat) | Plot(edit: PlotEdit)

  function Handle(s: AppState, e: Event): (r: AppState)
    ensures e.TopicButton? ==> r == SelectTopic(s, e.topic)
    ensures e.StepButton? && e.index < |Registry(s.activeTopic).steps| ==>
      r == StepClick(s, Registry(s.activeTopic).steps[e.index])
    ensures e.Plot? ==> r.activeTopic == s.activeTopic && r.activeStepId == s.activeStepId && r.visual.topic == s.visual.topic
    ensures e.Plot? && e.edit.FunctionText? ==> r == s.(visual := s.visual.(functionString := e.edit.text))
    ensures e.Plot? && e.edit.X0Value? ==> r == s.(visual := s.visual.(x0 := e.edit.x0))
  {
    match e
    case TopicButton(t) => SelectTopic(s, t)
    case StepButton(i) =>
      var steps := Registry(s.activeTopic).steps;
      if i < |steps| then StepClick(s, steps[i]) else s
    case Plot(FunctionText(text)) => s.(visual := s.visual.(functionString := text))
    case Plot(X0Value(x0)) => s.(visual := s.visual.(x0 := x0))
  }

  function Run(s: AppState, es: seq<Event>): AppState
    decreases |es|
  {
    if es == [] then s else Run(Handle(s, es[0]), es[1..])
  }

  /** The plot shows the active topic, and the active id is one of its steps. */
  predicate Valid(s: AppState) {
    s.visual.topic == s.activeTopic && s.activeStepId in StepIds(Registry(s.activeTopic).steps)
  }

  /** The mount effect makes the initial page valid. */
  lemma MountValid()
    ensures Valid(TopicEffect(InitialState()))
    ensures TopicEffect(InitialState()).activeStepId == "l1"
  {
    RegistryWellFormed(LimitDefinition);
    assert StepIds(Registry(LimitDefinition).steps)[0] == "l1";
  }

  lemma HandleKeepsValid(s: AppState, e: Event)
    requires Valid(s)
    ensures Valid(Handle(s, e))
  {
    match e
    case TopicButton(t) =>
      if t != s.activeTopic {
        RegistryWellFormed(t);
        var steps := Registry(t).steps;
        assert StepIds(steps)[0] == steps[0].id;
      }
    case StepButton(i) =>
      RegistryWellFormed(s.activeTopic);
      var steps := Registry(s.activeTopic).steps;
      if i < |steps| {
        assert StepIds(steps)[i] == steps[i].id;
      }
    case Plot(_) =>
  }

  lemma {:induction false} RunKeepsValid(s: AppState, es: seq<Event>)
    requires Valid(s)
    ensures Valid(Run(s, es))
    decreases |es|
  {
    if es != [] {
      HandleKeepsValid(s, es[0]);
      RunKeepsValid(Handle(s, es[0]), es[1..]);
    }
  }

  /** After mounting, whatever the user does, the plot shows the active topic and the
      shown step is exactly the active one. */
  lemma ReachableStates(es: seq<Event>)
    ensures var s := Run(TopicEffect(InitialState()), es);
      s.visual.topic == s.activeTopic && CurrentStep(s).id == s.activeStepId
  {
    MountValid();
    RunKeepsValid(TopicEffect(InitialState()), es);
    var s := Run(TopicEffect(InitialState()), es);
    var steps := Registry(s.activeTopic).steps;
    var k :| 0 <= k < |StepIds(steps)| && StepIds(steps)[k] == s.activeStepId;
    assert steps[k].id == s.activeStepId;
  }

  /** Clicking a step of the active topic shows that step and applies its hint. */
  lemma StepButtonShowsStep(s: AppState, i: nat)
    requires i < |Registry(s.activeTopic).steps|
    ensures var r := Handle(s, StepButton(i));
      CurrentStep(r) == Registry(s.activeTopic).steps[i] &&
      r.visual.topic == s.visual.topic
  {
    var m := Registry(s.activeTopic);
    RegistryWellFormed(s.activeTopic);
    var r := Handle(s, StepButton(i));
    assert r == StepClick(s, m.steps[i]);
    assert r.activeTopic == s.activeTopic && r.activeStepId == m.steps[i].id;
    StepOfId(m.steps, CurrentStep(r), i);
    HintKeepsTopic(s.visual, m, i);
  }

  /** With distinct ids, a step of the list that carries the id of position `i` is
      the step at position `i`. */
  lemma StepOfId(steps: seq<Step>, x: Step, i: nat)
    requires Catalogue.NoDuplicates(StepIds(steps))
    requires i < |steps| && x in steps && x.id == steps[i].id
    ensures x == steps[i]
  {
    var k :| 0 <= k < |steps| && steps[k] == x;
    assert StepIds(steps)[k] == steps[k].id && StepIds(steps)[i] == steps[i].id;
  }

  /** Applying a step's hint, when it has one, leaves the plot's topic alone in a
      well-formed manifest. */
  lemma HintKeepsTopic(v: VisualState, m: Manifest, i: nat)
    requires WellFormed(m.id, m) && i < |m.steps|
    ensures m.steps[i].visualHint.Some? ==> Merge(v, m.steps[i].visualHint.value).topic == v.topic
  {
  }

  // ---- The tutor chat ----

  datatype Message = Message(role: Types.Role, content: string)

  /** The outcome of the completion call: it threw, or it returned a response whose
      `text` may be missing. */
  datatype Reply = Failed | Replied(text: Option<string>)

  const NO_RESPONSE: string := "I couldn't generate a response."
  const CONNECTION_ERROR: string := "Error connecting to the math intuition engine."

  /** The content of the model message: the reply text when there is some, the
      fixed "couldn't generate" text for a missing or empty text, the fixed error text
      when the call threw. It is never empty. */
  function ReplyContent(reply: Reply): (c: string)
    ensures c != ""
    ensures c == CONNECTION_ERROR || c == NO_RESPONSE || (reply.Replied? && reply.text == Some(c))
    ensures reply.Failed? ==> c == CONNECTION_ERROR
    ensures reply.Replied? && reply.text.Some? && reply.text.value != "" ==> c == reply.text.value
    ensures reply.Replied? && (reply.text.None? || reply.text == Some("")) ==> c == NO_RESPONSE
  {
    match reply
    case Failed => CONNECTION_ERROR
    case Replied(text) => if text.Some? && text.value != "" then text.value else NO_RESPONSE
  }

  class TutorChat {
    var messages: seq<Message>
    var input: string
    var loading: bool

    constructor ()
      ensures messages == [] && input == "" && !loading
    {
      messages := [];
      input := "";
      loading := false;
    }

    method SetInput(text: string)
      modifies this
      ensures input == text && messages == old(messages) && loading == old(loading)
    {
      input := text;
    }

    /** `handleSend`. A blank input or a send in progress is ignored. Otherwise the
        user message is appended and the input cleared, then exactly one model message
        follows, and loading is off again at the end. */
    method HandleSend(reply: Reply)
      modifies this
      ensures old(Trim(input) == "" || loading) ==>
        messages == old(messages) && input == old(input) && loading == old(loading)
      ensures !old(Trim(input) == "" || loading) ==>
        messages == old(messages) + [Message(Types.User, old(input)), Message(Types.Model, ReplyContent(reply))] &&
        input == "" && !loading
    {
      if Trim(input) == "" || loading {
        return;
      }
      Send(reply);
    }

    /** The part of `handleSend` past its guard: the user message, the cleared input,
        the one model message the reply yields, and loading off in `finally`. */
    method Send(reply: Reply)
      modifies this
      ensures messages == old(messages) + [Message(Types.User, old(input)), Message(Types.Model, ReplyContent(reply))]
      ensures input == "" && !loading
    {
      ghost var start := messages;
      var userMsg := input;
      messages := messages + [Message(Types.User, userMsg)];
      input := "";
      loading := true;
      var content: string;
      match reply {
        case Failed =>
          content := CONNECTION_ERROR;
        case Replied(text) =>
          content := if text.Some? && text.value != "" then text.value else NO_RESPONSE;
      }
      assert content == ReplyContent(reply);
      messages := messages + [Message(Types.Model, content)];
      assert messages == start + [Message(Types.User, userMsg), Message(Types.Model, content)];
      loading := false;
    }
  }
}
