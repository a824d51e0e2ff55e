/** The storyline panel of components/DerivationPanel.tsx: which steps it lists,
    which one is highlighted, what each card shows, and what a click reports back
    to the page. The panel keeps no state of its own; a click only produces an event. */
module Derivation {
  import opened Wrappers
  import opened Types
  import opened Catalogue

  /** `TOPIC_CONTENT[topic] || []`: the storyline of a topic, or no steps when the
      content table has no entry for it. */
  function StepsOf(content: map<Topic, seq<Step>>, t: Topic): (r: seq<Step>)
    ensures t in content ==> r == content[t]
    ensures t !in content ==> r == []
  {
    if t in content then content[t] else []
  }

  /** With the shipped content table, the panel lists the storyline of the eight
      topics that have one, and nothing for every other topic. */
  lemma CatalogueStepsOf(t: Topic)
    ensures StepsOf(TOPIC_CONTENT, t) == TOPIC_CONTENT[t]
    ensures StepsOf(TOPIC_CONTENT, t) == [] <==> !HasStoryline(t)
  {
    ContentStoryline(t);
  }

  /** A card is highlighted when its step id is the page's current step id. */
  predicate IsActive(step: Step, currentStepId: string) {
    currentStepId == step.id
  }

  /** With distinct step ids, at most one card is highlighted. */
  lemma AtMostOneActive(steps: seq<Step>, currentStepId: string, i: nat, j: nat)
    requires NoDuplicates(StepIds(steps))
    requires i < |steps| && j < |steps|
    ensures IsActive(steps[i], currentStepId) && IsActive(steps[j], currentStepId) ==> i == j
  {
    assert StepIds(steps)[i] == steps[i].id && StepIds(steps)[j] == steps[j].id;
  }

  /** What one card shows: the title, goal and expression always; the explanation
      and the prerequisite buttons only on the highlighted card. */
  datatype Card = Card(
    id: string,
    title: string,
    goal: string,
    expression: string,
    active: bool,
    explanation: Option<string>,
    prerequisites: Option<seq<Prerequisite>>)

  function RenderCard(step: Step, currentStepId: string): (c: Card)
    ensures c.id == step.id && c.title == step.title && c.goal == step.goal && c.expression == step.expression
    ensures c.active <==> IsActive(step, currentStepId)
    ensures c.explanation.Some? <==> c.active
    ensures c.explanation.Some? ==> c.explanation.value == step.explanation
    ensures c.prerequisites.Some? <==> c.active && step.prerequisites.Some?
    ensures c.prerequisites.Some? ==> c.prerequisites == step.prerequisites
  {
    var active := IsActive(step, currentStepId);
    Card(step.id, step.title, step.goal, step.expression, active,
         if active then Some(step.explanation) else None,
         if active then step.prerequisites else None)
  }

  /** `steps.map(...)`: one card per step, in storyline order. */
  function Render(steps: seq<Step>, currentStepId: string): (cards: seq<Card>)
    ensures |cards| == |steps|
    ensures forall i :: 0 <= i < |cards| ==> cards[i] == RenderCard(steps[i], currentStepId)
  {
    if steps == [] then [] else [RenderCard(steps[0], currentStepId)] + Render(steps[1..], currentStepId)
  }

  /** With distinct step ids at most one card shows its explanation, and when the
      current id is not among the steps none does. */
  lemma {:induction false} ExplanationOnlyOnActiveCard(steps: seq<Step>, currentStepId: string)
    requires NoDuplicates(StepIds(steps))
    ensures forall i, j :: 0 <= i < j < |steps| ==>
      !(Render(steps, currentStepId)[i].explanation.Some? && Render(steps, currentStepId)[j].explanation.Some?)
    ensures currentStepId !in StepIds(steps) ==>
      forall i :: 0 <= i < |steps| ==> Render(steps, currentStepId)[i].explanation.None?
  {
    var cards := Render(steps, currentStepId);
    forall i, j | 0 <= i < j < |steps| && cards[i].explanation.Some?
      ensures cards[j].explanation.None?
    {
      AtMostOneActive(steps, currentStepId, i, j);
    }
    if currentStepId !in StepIds(steps) {
      forall i | 0 <= i < |steps| ensures cards[i].explanation.None? {
        assert StepIds(steps)[i] == steps[i].id;
      }
    }
  }

  /** What a click inside the panel reports to the page. */
  datatype PanelEvent =
    | SelectStep(id: string)     // `onStepSelect(step.id)`
    | JumpTopic(topic: Topic)    // `onTopicJump(p.topicId)`
    | NoEvent

  /** A click on the card at position `i`. */
  function ClickStep(cards: seq<Card>, i: nat): (e: PanelEvent)
    requires i < |cards|
    ensures e.SelectStep? && e.id == cards[i].id
  {
    SelectStep(cards[i].id)
  }

  /** Clicking a card reports exactly that step's id, and once the page adopts it
      the clicked card, and with distinct ids no other, is highlighted. */
  lemma ClickedCardBecomesActive(steps: seq<Step>, currentStepId: string, i: nat)
    requires i < |steps|
    requires NoDuplicates(StepIds(steps))
    ensures ClickStep(Render(steps, currentStepId), i) == SelectStep(steps[i].id)
    ensures Render(steps, steps[i].id)[i].active
    ensures forall j :: 0 <= j < |steps| && j != i ==> !Render(steps, steps[i].id)[j].active
  {
    forall j | 0 <= j < |steps| && j != i ensures !Render(steps, steps[i].id)[j].active {
      AtMostOneActive(steps, steps[i].id, i, j);
    }
  }

  /** A click on a prerequisite button. Propagation is stopped, so it never selects
      the enclosing step; it jumps only when the prerequisite names a topic and the
      page passed a jump callback. */
  function ClickPrerequisite(p: Prerequisite, hasJumpCallback: bool): (e: PanelEvent)
    ensures !e.SelectStep?
    ensures e.JumpTopic? <==> p.topicId.Some? && hasJumpCallback
    ensures e.JumpTopic? ==> p.topicId == Some(e.topic)
  {
    if p.topicId.Some? && hasJumpCallback then JumpTopic(p.topicId.value) else NoEvent
  }
}
