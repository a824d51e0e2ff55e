/** The shapes shared by App.tsx and the components: topic ids, derivation steps,
    the visual state that drives the plot, and chat messages. */
module Types {
  import opened Wrappers

  /** Topic ids: exactly the ids that the catalogue of App.tsx/constants.ts uses.
      (The MathTopic enumeration of types.ts lists only 25 of them and lacks, among
      others, MVT_ROLLE, MVT_CAUCHY, CONCAVITY_CURVE and POWER_SERIES, which the
      catalogue and App.tsx's topic configuration rely on.) */
  datatype Topic =
    | LimitDefinition | LimitOneSided | LimitInfinite
    | SqueezeTheorem | IvtTheorems | InfintesimalCompare
    | DerivativeBasic | DerivativeRules | ChainRule
    | ImplicitDiff | RelatedRates | LinearApprox
    | MvtRolle | MvtLagrange | MvtCauchy | LhopitalRule
    | ConcavityCurve | Optimization
    | IntegralBasic | Ftc
    | IntegrationSubstitution | IntegrationParts | IntegrationTrig | ImproperIntegral
    | AreaBetweenCurves | VolumeRotation | ArcLength
    | DeSeparable | DeLogistic
    | SeriesConvergence | SeriesTests
    | PowerSeries | TaylorSeries | FourierSeries
    | MultivariablePartial | GradientVector | LagrangeMultiplier | DoubleIntegral

  /** A prerequisite reference shown under a step; `topicId` is optional. */
  datatype Prerequisite = Prerequisite(name: string, topicId: Option<Topic>)

  /** One card of a topic's derivation storyline. */
  datatype Step = Step(
    id: string,
    title: string,
    goal: string,
    assumption: string,
    expression: string,
    explanation: string,
    isCompleted: bool,
    prerequisites: Option<seq<Prerequisite>>)

  /** The parameters of the plot. Numbers are idealised as reals; `order` is the
      integer expansion order. */
  datatype VisualState = VisualState(
    topic: Topic,
    functionString: string,
    x0: real,
    order: int,
    param1: real,
    param2: real,
    zoom: real)

  datatype Role = User | Model

  /** A chat message; the timestamp is whatever the clock returned. */
  datatype ChatMessage = ChatMessage(role: Role, content: string, timestamp: int)
}
