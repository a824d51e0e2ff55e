/** The static catalogue of constants.ts: the units, their chapters and topics
    (`UNITS`), and each topic's derivation steps (`TOPIC_CONTENT`), with the
    invariants the lookups of App.tsx and DerivationPanel.tsx rely on. */
module Catalogue {
  import opened Wrappers
  import opened Types
  import opened Js

  datatype TopicEntry = TopicEntry(id: Topic, name: string)
  datatype Chapter = Chapter(id: string, name: string, topics: seq<TopicEntry>)
  datatype Unit = Unit(id: string, name: string, shortName: string, chapters: seq<Chapter>)

  const UNIT_1: Unit :=
    Unit("u1", "Unit 1 极限与连续", "LIM", [
        Chapter("ch1_1", "极限基础", [
          TopicEntry(LimitDefinition, "ε-δ 语言"),
          TopicEntry(LimitOneSided, "单侧极限"),
          TopicEntry(LimitInfinite, "无穷与渐近线")]),
        Chapter("ch1_2", "计算与性质", [
          TopicEntry(SqueezeTheorem, "夹逼准则"),
          TopicEntry(IvtTheorems, "介值定理 (IVT)"),
          TopicEntry(InfintesimalCompare, "无穷小阶数")])])

  const UNIT_2: Unit :=
    Unit("u2", "Unit 2 导数：微观世界", "DIFF", [
        Chapter("ch2_1", "导数定义与法则", [
          TopicEntry(DerivativeBasic, "切线与变化率"),
          TopicEntry(DerivativeRules, "乘积与商法则"),
          TopicEntry(ChainRule, "链式法则")]),
        Chapter("ch2_2", "进阶微分", [
          TopicEntry(ImplicitDiff, "隐函数求导"),
          TopicEntry(RelatedRates, "相关变化率"),
          TopicEntry(LinearApprox, "线性近似与微分")])])

  const UNIT_3: Unit :=
    Unit("u3", "Unit 3 导数的应用", "APP", [
        Chapter("ch3_1", "中值定理家族", [
          TopicEntry(MvtRolle, "罗尔定理"),
          TopicEntry(MvtLagrange, "拉格朗日中值定理"),
          TopicEntry(MvtCauchy, "柯西中值定理"),
          TopicEntry(LhopitalRule, "洛必达法则")]),
        Chapter("ch3_2", "函数形态分析", [
          TopicEntry(ConcavityCurve, "凹凸性与拐点"),
          TopicEntry(Optimization, "最优化问题")])])

  const UNIT_4: Unit :=
    Unit("u4", "Unit 4 积分：累积的力量", "INT", [
        Chapter("ch4_1", "积分定义", [
          TopicEntry(IntegralBasic, "黎曼和"),
          TopicEntry(Ftc, "微积分基本定理")]),
        Chapter("ch4_2", "积分技法", [
          TopicEntry(IntegrationSubstitution, "换元法 (U-Sub)"),
          TopicEntry(IntegrationParts, "分部积分"),
          TopicEntry(IntegrationTrig, "三角换元与分式"),
          TopicEntry(ImproperIntegral, "反常积分")])])

  const UNIT_5: Unit :=
    Unit("u5", "Unit 5 积分的几何应用", "GEO", [
        Chapter("ch5_1", "空间度量", [
          TopicEntry(AreaBetweenCurves, "曲线间面积"),
          TopicEntry(VolumeRotation, "旋转体体积"),
          TopicEntry(ArcLength, "弧长")])])

  const UNIT_6: Unit :=
    Unit("u6", "Unit 6 微分方程入门", "DE", [
        Chapter("ch6_1", "一阶方程", [
          TopicEntry(DeSeparable, "分离变量法"),
          TopicEntry(DeLogistic, "阻滞增长模型")])])

  const UNIT_7: Unit :=
    Unit("u7", "Unit 7 级数：无限之美", "SER", [
        Chapter("ch7_1", "收敛性测试", [
          TopicEntry(SeriesConvergence, "级数定义"),
          TopicEntry(SeriesTests, "比值与根值判别")]),
        Chapter("ch7_2", "幂级数与展开", [
          TopicEntry(PowerSeries, "幂级数"),
          TopicEntry(TaylorSeries, "泰勒/麦克劳林级数"),
          TopicEntry(FourierSeries, "傅里叶级数")])])

  const UNIT_8: Unit :=
    Unit("u8", "Unit 8 多元微积分预览", "MULTI", [
        Chapter("ch8_1", "多维变化", [
          TopicEntry(MultivariablePartial, "偏导数"),
          TopicEntry(GradientVector, "梯度场"),
          TopicEntry(LagrangeMultiplier, "拉格朗日乘数"),
          TopicEntry(DoubleIntegral, "二重积分")])])

  const UNITS: seq<Unit> := [UNIT_1, UNIT_2, UNIT_3, UNIT_4, UNIT_5, UNIT_6, UNIT_7, UNIT_8]

  /** Every step in the catalogue is marked completed and has no prerequisites. */
  function Done(id: string, title: string, goal: string, assumption: string, expression: string, explanation: string): Step {
    Step(id, title, goal, assumption, expression, explanation, true, None)
  }

  const LIMIT_DEFINITION_STEPS: seq<Step> := [
      Done("ed-0", "Step 1: 怀疑者的挑战 (ε)", "设定高度容差", "ε > 0", "|f(x) - L| < ε", "怀疑者不相信极限是 L，于是画出两条高度为 ε 的黄线。"),
      Done("ed-1", "Step 2: 你的回应 (δ)", "寻找 x 轴安全区", "δ > 0", "0 < |x - x₀| < δ", "你需要在 x 轴找一个范围，只要 x 在这，y 就不出黄线。"),
      Done("ed-2", "Step 3: 无限博弈", "验证任意性", "∀ ε", "L = lim f(x)", "无论 ε 多小，你总能找到 δ。这就是极限。")]

  const LIMIT_ONE_SIDED_STEPS: seq<Step> := [Done("lo-1", "左与右", "处理跳跃点", "x → a⁻ vs x → a⁺", "lim⁻ ≠ lim⁺", "左右高度必须一致，极限才存在。")]

  const LIMIT_INFINITE_STEPS: seq<Step> := [Done("li-1", "垂直渐近线", "描述爆炸增长", "1/x, x→0", "f(x) → ∞", "分母变小，整体变大。")]

  const SQUEEZE_THEOREM_STEPS: seq<Step> := [Done("sq-1", "夹逼准则", "通过边界锁定核心", "g ≤ f ≤ h", "L ≤ lim f ≤ L", "两个保镖夹着你走向同一扇门。")]

  const IVT_THEOREMS_STEPS: seq<Step> := [Done("ivt-1", "介值定理", "连续性的保证", "f 连续", "f(a) < N < f(b)", "过马路必须经过路中间。")]

  const INFINTESIMAL_COMPARE_STEPS: seq<Step> := [Done("inf-1", "无穷小比较", "消失的速度", "x → 0", "o(x)", "有的零比别的零“消失得更快”。")]

  const DERIVATIVE_BASIC_STEPS: seq<Step> := [
      Done("db-0", "Step 1: 割线斜率 (平均速度)", "计算两点间的连线", "Δx = h", "m = [f(x+h) - f(x)] / h", "想象你在开车，这是你过去 1 小时的平均速度。"),
      Done("db-1", "Step 2: 缩短间隔 (h → 0)", "让第二个点靠近第一个点", "h 越来越小", "lim_{h→0}", "如果把观测时间从 1 小时缩短到 0.0001 秒，平均速度就变成了“瞬时速度”。"),
      Done("db-2", "Step 3: 诞生切线", "得到该点的确切斜率", "割线消失", "f'(x)", "这就是导数：它描述了曲线在“这一瞬间”向哪个方向倾斜。")]

  const TAYLOR_SERIES_STEPS: seq<Step> := [
      Done("ts-0", "Step 1: 零阶匹配 (高度一致)", "让多项式经过那个点", "P(a) = f(a)", "P₀(x) = f(a)", "如果你想“克隆”一个函数，最起码在起始点 a，你们的高度得是一样的。"),
      Done("ts-1", "Step 2: 一阶匹配 (斜率一致)", "让多项式的方向也一致", "P'(a) = f'(a)", "P₁(x) = f(a) + f'(a)(x-a)", "这不就是切线吗？现在你的克隆函数不仅高度对，出门的方向也跟原版一模一样。"),
      Done("ts-2", "Step 3: 二阶匹配 (弯曲度一致)", "让弯曲的趋势也一致", "P''(a) = f''(a)", "P₂(x) = P₁(x) + [f''(a)/2!](x-a)²", "为什么要除以 2？因为对 x² 求两次导会多出个 2。除掉它，才能让“二阶变化率”完美对接。"),
      Done("ts-3", "Step 4: 无限匹配 (阶乘之谜)", "匹配任意阶导数", "P⁽ⁿ⁾(a) = f⁽ⁿ⁾(a)", "Σ [f⁽ⁿ⁾(a)/n!] (x-a)ⁿ", "阶乘 n! 是为了抵消求导产生的“系数累积”。只要阶数够高，多项式就能在更大范围内“吞掉”原函数。")]

  const TOPIC_CONTENT: map<Topic, seq<Step>> := map[
    LimitDefinition := LIMIT_DEFINITION_STEPS,
    LimitOneSided := LIMIT_ONE_SIDED_STEPS,
    LimitInfinite := LIMIT_INFINITE_STEPS,
    SqueezeTheorem := SQUEEZE_THEOREM_STEPS,
    IvtTheorems := IVT_THEOREMS_STEPS,
    InfintesimalCompare := INFINTESIMAL_COMPARE_STEPS,
    DerivativeBasic := DERIVATIVE_BASIC_STEPS,
    DerivativeRules := [], ChainRule := [], ImplicitDiff := [], RelatedRates := [], LinearApprox := [],
    MvtRolle := [], MvtLagrange := [], MvtCauchy := [], LhopitalRule := [], ConcavityCurve := [], Optimization := [],
    IntegralBasic := [], Ftc := [], IntegrationSubstitution := [], IntegrationParts := [], IntegrationTrig := [], ImproperIntegral := [],
    AreaBetweenCurves := [], VolumeRotation := [], ArcLength := [],
    DeSeparable := [], DeLogistic := [],
    TaylorSeries := TAYLOR_SERIES_STEPS,
    SeriesConvergence := [], SeriesTests := [], PowerSeries := [], FourierSeries := [],
    MultivariablePartial := [], GradientVector := [], LagrangeMultiplier := [], DoubleIntegral := []
  ]

  // ---- Flattening the nested catalogue ----

  predicate NoDuplicates<T(==)>(s: seq<T>) {
    forall i, j :: 0 <= i < j < |s| ==> s[i] != s[j]
  }

  function Flatten<T>(ss: seq<seq<T>>): seq<T> {
    if ss == [] then [] else ss[0] + Flatten(ss[1..])
  }

  /** Whatever occurs in one of the lists occurs in their concatenation, and conversely. */
  lemma {:induction false} FlattenHas<T>(ss: seq<seq<T>>, x: T)
    ensures x in Flatten(ss) <==> exists i :: 0 <= i < |ss| && x in ss[i]
  {
    if ss != [] {
      FlattenHas(ss[1..], x);
      if x in Flatten(ss[1..]) {
        var i :| 0 <= i < |ss[1..]| && x in ss[1..][i];
        assert x in ss[i + 1];
      }
      if exists i :: 0 <= i < |ss| && x in ss[i] {
        var i :| 0 <= i < |ss| && x in ss[i];
        if i > 0 {
          assert x in ss[1..][i - 1];
        }
      }
    }
  }

  /** A duplicate-free concatenation has duplicate-free, disjoint halves. */
  lemma NoDuplicatesAppend<T>(a: seq<T>, b: seq<T>)
    requires NoDuplicates(a + b)
    ensures NoDuplicates(a) && NoDuplicates(b)
    ensures forall y :: y in a ==> y !in b
  {
    forall p, q | 0 <= p < q < |a| ensures a[p] != a[q] {
      assert a[p] == (a + b)[p] && a[q] == (a + b)[q];
    }
    forall p, q | 0 <= p < q < |b| ensures b[p] != b[q] {
      assert b[p] == (a + b)[|a| + p] && b[q] == (a + b)[|a| + q];
    }
    forall y | y in a ensures y !in b {
      var p :| 0 <= p < |a| && a[p] == y;
      forall q | 0 <= q < |b| ensures b[q] != y {
        assert b[q] == (a + b)[|a| + q] && y == (a + b)[p];
      }
    }
  }

  /** Without duplicates in the concatenation, an element lies in at most one of the lists. */
  lemma {:induction false} FlattenUnique<T>(ss: seq<seq<T>>, x: T, i: nat, j: nat)
    requires NoDuplicates(Flatten(ss))
    requires i < |ss| && j < |ss| && x in ss[i] && x in ss[j]
    ensures i == j
  {
    var head, tail := ss[0], Flatten(ss[1..]);
    assert Flatten(ss) == head + tail;
    NoDuplicatesAppend(head, tail);
    FlattenHas(ss[1..], x);
    assert i > 0 ==> x in ss[1..][i - 1];
    assert j > 0 ==> x in ss[1..][j - 1];
    if i > 0 && j > 0 {
      FlattenUnique(ss[1..], x, i - 1, j - 1);
    }
  }

  /** Without duplicates in the concatenation, each list has none either. */
  lemma {:induction false} FlattenNoDuplicatesPart<T>(ss: seq<seq<T>>, i: nat)
    requires NoDuplicates(Flatten(ss)) && i < |ss|
    ensures NoDuplicates(ss[i])
  {
    assert Flatten(ss) == ss[0] + Flatten(ss[1..]);
    NoDuplicatesAppend(ss[0], Flatten(ss[1..]));
    if i > 0 {
      FlattenNoDuplicatesPart(ss[1..], i - 1);
    }
  }

  // ---- Membership as App.tsx tests it: `c.topics.some(t => t.id === topic)` ----

  predicate ChapterHas(c: Chapter, t: Topic) {
    exists k :: 0 <= k < |c.topics| && c.topics[k].id == t
  }

  predicate UnitHas(u: Unit, t: Topic) {
    exists k :: 0 <= k < |u.chapters| && ChapterHas(u.chapters[k], t)
  }

  /** The ids of a list of topic entries, in order. */
  function EntryIds(es: seq<TopicEntry>): (r: seq<Topic>)
    ensures |r| == |es| && forall k :: 0 <= k < |r| ==> r[k] == es[k].id
  {
    if es == [] then [] else [es[0].id] + EntryIds(es[1..])
  }

  /** One id list per chapter. */
  function ChapterLists(cs: seq<Chapter>): (r: seq<seq<Topic>>)
    ensures |r| == |cs| && forall k :: 0 <= k < |r| ==> r[k] == EntryIds(cs[k].topics)
  {
    if cs == [] then [] else [EntryIds(cs[0].topics)] + ChapterLists(cs[1..])
  }

  function UnitTopicIds(u: Unit): seq<Topic> {
    Flatten(ChapterLists(u.chapters))
  }

  /** One id list per unit. */
  function CatalogueTopicLists(units: seq<Unit>): (r: seq<seq<Topic>>)
    ensures |r| == |units| && forall i :: 0 <= i < |r| ==> r[i] == UnitTopicIds(units[i])
  {
    if units == [] then [] else [UnitTopicIds(units[0])] + CatalogueTopicLists(units[1..])
  }

  /** All topic ids of the catalogue, in display order. */
  function TopicIds(units: seq<Unit>): seq<Topic> {
    Flatten(CatalogueTopicLists(units))
  }

  /** `UnitHas` agrees with membership in the unit's flattened topic list. */
  lemma UnitHasIffListed(u: Unit, t: Topic)
    ensures UnitHas(u, t) <==> t in UnitTopicIds(u)
  {
    FlattenHas(ChapterLists(u.chapters), t);
    if UnitHas(u, t) {
      var k :| 0 <= k < |u.chapters| && ChapterHas(u.chapters[k], t);
      var p :| 0 <= p < |u.chapters[k].topics| && u.chapters[k].topics[p].id == t;
      assert t == ChapterLists(u.chapters)[k][p];
    }
    if t in UnitTopicIds(u) {
      var k :| 0 <= k < |ChapterLists(u.chapters)| && t in ChapterLists(u.chapters)[k];
      var p :| 0 <= p < |EntryIds(u.chapters[k].topics)| && EntryIds(u.chapters[k].topics)[p] == t;
      assert ChapterHas(u.chapters[k], t);
    }
  }

  /** When no topic id repeats in the catalogue, a topic belongs to at most one
      chapter of at most one unit, so App.tsx's search for a topic's unit is
      unambiguous. */
  lemma HomeUnique(units: seq<Unit>, t: Topic, i: nat, k: nat, i2: nat, k2: nat)
    requires NoDuplicates(TopicIds(units))
    requires i < |units| && k < |units[i].chapters| && ChapterHas(units[i].chapters[k], t)
    requires i2 < |units| && k2 < |units[i2].chapters| && ChapterHas(units[i2].chapters[k2], t)
    ensures i == i2 && k == k2
  {
    var lists := CatalogueTopicLists(units);
    UnitHasIffListed(units[i], t);
    UnitHasIffListed(units[i2], t);
    FlattenUnique(lists, t, i, i2);
    FlattenNoDuplicatesPart(lists, i);
    ChapterHomeUnique(units[i], t, k, k2);
  }

  /** Within a unit whose topic ids do not repeat, a topic belongs to at most one chapter. */
  lemma ChapterHomeUnique(u: Unit, t: Topic, k: nat, k2: nat)
    requires NoDuplicates(UnitTopicIds(u))
    requires k < |u.chapters| && ChapterHas(u.chapters[k], t)
    requires k2 < |u.chapters| && ChapterHas(u.chapters[k2], t)
    ensures k == k2
  {
    var chapterLists := ChapterLists(u.chapters);
    var p :| 0 <= p < |u.chapters[k].topics| && u.chapters[k].topics[p].id == t;
    assert t == chapterLists[k][p];
    var p2 :| 0 <= p2 < |u.chapters[k2].topics| && u.chapters[k2].topics[p2].id == t;
    assert t == chapterLists[k2][p2];
    FlattenUnique(chapterLists, t, k, k2);
  }

  // ---- Invariants of the concrete catalogue ----

  /** The unit ids, in order. */
  function UnitIds(units: seq<Unit>): seq<string> {
    Map(units, (u: Unit) => u.id)
  }

  /** The chapter ids of one unit, in order. */
  function UnitChapterIds(u: Unit): seq<string> {
    Map(u.chapters, (c: Chapter) => c.id)
  }

  /** All chapter ids of the catalogue, unit after unit. */
  function ChapterIds(units: seq<Unit>): seq<string> {
    Flatten(seq(|units|, i requires 0 <= i < |units| => UnitChapterIds(units[i])))
  }

  /** The step ids of a storyline, in order. */
  function StepIds(steps: seq<Step>): seq<string> {
    Map(steps, (st: Step) => st.id)
  }

  /** Unit ids u1..u8 are pairwise distinct. */
  lemma UnitIdsDistinct()
    ensures UnitIds(UNITS) == ["u1", "u2", "u3", "u4", "u5", "u6", "u7", "u8"]
    ensures NoDuplicates(UnitIds(UNITS))
  {
  }

  /** The chapter ids of eight units are the units' own lists, one after another. */
  lemma {:induction false} ChapterIdsOfEight(u1: Unit, u2: Unit, u3: Unit, u4: Unit, u5: Unit, u6: Unit, u7: Unit, u8: Unit)
    ensures ChapterIds([u1, u2, u3, u4, u5, u6, u7, u8]) ==
      UnitChapterIds(u1) + UnitChapterIds(u2) + UnitChapterIds(u3) + UnitChapterIds(u4) +
      UnitChapterIds(u5) + UnitChapterIds(u6) + UnitChapterIds(u7) + UnitChapterIds(u8)
  {
    var us := [u1, u2, u3, u4, u5, u6, u7, u8];
    var lists := seq(|us|, i requires 0 <= i < |us| => UnitChapterIds(us[i]));
    var l := [UnitChapterIds(u1), UnitChapterIds(u2), UnitChapterIds(u3), UnitChapterIds(u4),
              UnitChapterIds(u5), UnitChapterIds(u6), UnitChapterIds(u7), UnitChapterIds(u8)];
    assert lists[0] == l[0] && lists[1] == l[1] && lists[2] == l[2] && lists[3] == l[3];
    assert lists[4] == l[4] && lists[5] == l[5] && lists[6] == l[6] && lists[7] == l[7];
    assert lists == l;
    FlattenEight(UnitChapterIds(u1), UnitChapterIds(u2), UnitChapterIds(u3), UnitChapterIds(u4),
                 UnitChapterIds(u5), UnitChapterIds(u6), UnitChapterIds(u7), UnitChapterIds(u8));
  }

  lemma ChapterIdsOfUnits1To4()
    ensures UnitChapterIds(UNIT_1) == ["ch1_1", "ch1_2"]
    ensures UnitChapterIds(UNIT_2) == ["ch2_1", "ch2_2"]
    ensures UnitChapterIds(UNIT_3) == ["ch3_1", "ch3_2"]
    ensures UnitChapterIds(UNIT_4) == ["ch4_1", "ch4_2"]
  {
  }

  lemma ChapterIdsOfUnits5To8()
    ensures UnitChapterIds(UNIT_5) == ["ch5_1"]
    ensures UnitChapterIds(UNIT_6) == ["ch6_1"]
    ensures UnitChapterIds(UNIT_7) == ["ch7_1", "ch7_2"]
    ensures UnitChapterIds(UNIT_8) == ["ch8_1"]
  {
  }

  /** The chapter ids of the catalogue, in order. */
  lemma CatalogueChapterIds()
    ensures ChapterIds(UNITS) == ["ch1_1", "ch1_2", "ch2_1", "ch2_2", "ch3_1", "ch3_2", "ch4_1", "ch4_2",
                                  "ch5_1", "ch6_1", "ch7_1", "ch7_2", "ch8_1"]
  {
    ChapterIdsOfEight(UNIT_1, UNIT_2, UNIT_3, UNIT_4, UNIT_5, UNIT_6, UNIT_7, UNIT_8);
    ChapterIdsOfUnits1To4();
    ChapterIdsOfUnits5To8();
  }

  /** Chapter ids are pairwise distinct across the whole catalogue. */
  lemma ChapterIdsDistinct()
    ensures NoDuplicates(ChapterIds(UNITS))
  {
    CatalogueChapterIds();
  }

  // The topics of each unit, in display order.
  lemma TopicsOfUnit1()
    ensures UnitTopicIds(UNIT_1) == [LimitDefinition, LimitOneSided, LimitInfinite, SqueezeTheorem, IvtTheorems, InfintesimalCompare]
  {
  }

  lemma TopicsOfUnit2()
    ensures UnitTopicIds(UNIT_2) == [DerivativeBasic, DerivativeRules, ChainRule, ImplicitDiff, RelatedRates, LinearApprox]
  {
  }

  lemma TopicsOfUnit3()
    ensures UnitTopicIds(UNIT_3) == [MvtRolle, MvtLagrange, MvtCauchy, LhopitalRule, ConcavityCurve, Optimization]
  {
  }

  lemma TopicsOfUnit4()
    ensures UnitTopicIds(UNIT_4) == [IntegralBasic, Ftc, IntegrationSubstitution, IntegrationParts, IntegrationTrig, ImproperIntegral]
  {
  }

  lemma TopicsOfUnit5()
    ensures UnitTopicIds(UNIT_5) == [AreaBetweenCurves, VolumeRotation, ArcLength]
  {
  }

  lemma TopicsOfUnit6()
    ensures UnitTopicIds(UNIT_6) == [DeSeparable, DeLogistic]
  {
  }

  lemma TopicsOfUnit7()
    ensures UnitTopicIds(UNIT_7) == [SeriesConvergence, SeriesTests, PowerSeries, TaylorSeries, FourierSeries]
  {
  }

  lemma TopicsOfUnit8()
    ensures UnitTopicIds(UNIT_8) == [MultivariablePartial, GradientVector, LagrangeMultiplier, DoubleIntegral]
  {
  }

  lemma {:induction false} FlattenCons<T>(ss: seq<seq<T>>)
    requires ss != []
    ensures Flatten(ss) == ss[0] + Flatten(ss[1..])
  {
  }

  lemma FlattenEight<T>(a: seq<T>, b: seq<T>, c: seq<T>, d: seq<T>, e: seq<T>, f: seq<T>, g: seq<T>, h: seq<T>)
    ensures Flatten([a, b, c, d, e, f, g, h]) == a + b + c + d + e + f + g + h
  {
    var ss := [a, b, c, d, e, f, g, h];
    assert ss[1..] == [b, c, d, e, f, g, h];
    assert ss[2..] == [c, d, e, f, g, h];
    assert ss[3..] == [d, e, f, g, h];
    assert ss[4..] == [e, f, g, h];
    assert ss[5..] == [f, g, h];
    assert ss[6..] == [g, h];
    assert ss[7..] == [h];
    assert ss[8..] == [];
    FlattenCons(ss[7..]);
    FlattenCons(ss[6..]);
    FlattenCons(ss[5..]);
    FlattenCons(ss[4..]);
    FlattenCons(ss[3..]);
    FlattenCons(ss[2..]);
    FlattenCons(ss[1..]);
    FlattenCons(ss);
  }

  /** The topic ids of eight units are the units' own lists, one after another. */
  lemma {:induction false} TopicIdsOfEight(u1: Unit, u2: Unit, u3: Unit, u4: Unit, u5: Unit, u6: Unit, u7: Unit, u8: Unit)
    ensures TopicIds([u1, u2, u3, u4, u5, u6, u7, u8]) ==
      UnitTopicIds(u1) + UnitTopicIds(u2) + UnitTopicIds(u3) + UnitTopicIds(u4) +
      UnitTopicIds(u5) + UnitTopicIds(u6) + UnitTopicIds(u7) + UnitTopicIds(u8)
  {
    TopicListsOfEight(u1, u2, u3, u4, u5, u6, u7, u8);
    FlattenEight(UnitTopicIds(u1), UnitTopicIds(u2), UnitTopicIds(u3), UnitTopicIds(u4),
                 UnitTopicIds(u5), UnitTopicIds(u6), UnitTopicIds(u7), UnitTopicIds(u8));
  }

  lemma {:induction false} TopicListsOfEight(u1: Unit, u2: Unit, u3: Unit, u4: Unit, u5: Unit, u6: Unit, u7: Unit, u8: Unit)
    ensures CatalogueTopicLists([u1, u2, u3, u4, u5, u6, u7, u8]) ==
      [UnitTopicIds(u1), UnitTopicIds(u2), UnitTopicIds(u3), UnitTopicIds(u4),
       UnitTopicIds(u5), UnitTopicIds(u6), UnitTopicIds(u7), UnitTopicIds(u8)]
  {
    var r := CatalogueTopicLists([u1, u2, u3, u4, u5, u6, u7, u8]);
    var l := [UnitTopicIds(u1), UnitTopicIds(u2), UnitTopicIds(u3), UnitTopicIds(u4),
              UnitTopicIds(u5), UnitTopicIds(u6), UnitTopicIds(u7), UnitTopicIds(u8)];
    assert r[0] == l[0] && r[1] == l[1] && r[2] == l[2] && r[3] == l[3];
    assert r[4] == l[4] && r[5] == l[5] && r[6] == l[6] && r[7] == l[7];
    assert r == l;
  }

  /** The position of a topic in the catalogue's display order. */
  function Ordinal(t: Topic): (r: nat)
    ensures r < 38
  {
    match t
    case LimitDefinition => 0
    case LimitOneSided => 1
    case LimitInfinite => 2
    case SqueezeTheorem => 3
    case IvtTheorems => 4
    case InfintesimalCompare => 5
    case DerivativeBasic => 6
    case DerivativeRules => 7
    case ChainRule => 8
    case ImplicitDiff => 9
    case RelatedRates => 10
    case LinearApprox => 11
    case MvtRolle => 12
    case MvtLagrange => 13
    case MvtCauchy => 14
    case LhopitalRule => 15
    case ConcavityCurve => 16
    case Optimization => 17
    case IntegralBasic => 18
    case Ftc => 19
    case IntegrationSubstitution => 20
    case IntegrationParts => 21
    case IntegrationTrig => 22
    case ImproperIntegral => 23
    case AreaBetweenCurves => 24
    case VolumeRotation => 25
    case ArcLength => 26
    case DeSeparable => 27
    case DeLogistic => 28
    case SeriesConvergence => 29
    case SeriesTests => 30
    case PowerSeries => 31
    case TaylorSeries => 32
    case FourierSeries => 33
    case MultivariablePartial => 34
    case GradientVector => 35
    case LagrangeMultiplier => 36
    case DoubleIntegral => 37
  }

  /** The topic at a position of the display order. */
  function TopicAt(n: nat): Topic {
    if n == 0 then LimitDefinition
    else if n == 1 then LimitOneSided
    else if n == 2 then LimitInfinite
    else if n == 3 then SqueezeTheorem
    else if n == 4 then IvtTheorems
    else if n == 5 then InfintesimalCompare
    else if n == 6 then DerivativeBasic
    else if n == 7 then DerivativeRules
    else if n == 8 then ChainRule
    else if n == 9 then ImplicitDiff
    else if n == 10 then RelatedRates
    else if n == 11 then LinearApprox
    else if n == 12 then MvtRolle
    else if n == 13 then MvtLagrange
    else if n == 14 then MvtCauchy
    else if n == 15 then LhopitalRule
    else if n == 16 then ConcavityCurve
    else if n == 17 then Optimization
    else if n == 18 then IntegralBasic
    else if n == 19 then Ftc
    else if n == 20 then IntegrationSubstitution
    else if n == 21 then IntegrationParts
    else if n == 22 then IntegrationTrig
    else if n == 23 then ImproperIntegral
    else if n == 24 then AreaBetweenCurves
    else if n == 25 then VolumeRotation
    else if n == 26 then ArcLength
    else if n == 27 then DeSeparable
    else if n == 28 then DeLogistic
    else if n == 29 then SeriesConvergence
    else if n == 30 then SeriesTests
    else if n == 31 then PowerSeries
    else if n == 32 then TaylorSeries
    else if n == 33 then FourierSeries
    else if n == 34 then MultivariablePartial
    else if n == 35 then GradientVector
    else if n == 36 then LagrangeMultiplier
    else DoubleIntegral
  }

  /** `TopicAt` inverts `Ordinal`, so distinct topics have distinct positions. */
  lemma OrdinalInverse(t: Topic)
    ensures TopicAt(Ordinal(t)) == t
  {
  }

  /** Each element of `s` sits at the position its ordinal names, counting from `from`. */
  predicate InOrdinalOrder(s: seq<Topic>, from: nat) {
    s == [] || (Ordinal(s[0]) == from && InOrdinalOrder(s[1..], from + 1))
  }

  lemma {:induction false} InOrdinalOrderAt(s: seq<Topic>, from: nat, i: nat)
    requires InOrdinalOrder(s, from) && i < |s|
    ensures Ordinal(s[i]) == from + i
  {
    if i > 0 {
      InOrdinalOrderAt(s[1..], from + 1, i - 1);
    }
  }

  lemma {:induction false} InOrdinalOrderAppend(a: seq<Topic>, b: seq<Topic>, from: nat)
    requires InOrdinalOrder(a, from) && InOrdinalOrder(b, from + |a|)
    ensures InOrdinalOrder(a + b, from)
  {
    if a != [] {
      assert (a + b)[1..] == a[1..] + b;
      InOrdinalOrderAppend(a[1..], b, from + 1);
    } else {
      assert a + b == b;
    }
  }

  // Each unit lists its topics in display order, the units one after another.
  lemma Unit1InOrdinalOrder()
    ensures |UnitTopicIds(UNIT_1)| == 6 && InOrdinalOrder(UnitTopicIds(UNIT_1), 0)
  {
    TopicsOfUnit1();
    ListInOrdinalOrder1();
  }

  lemma ListInOrdinalOrder1()
    ensures InOrdinalOrder([LimitDefinition, LimitOneSided, LimitInfinite, SqueezeTheorem, IvtTheorems, InfintesimalCompare], 0)
  {
  }

  lemma Unit2InOrdinalOrder()
    ensures |UnitTopicIds(UNIT_2)| == 6 && InOrdinalOrder(UnitTopicIds(UNIT_2), 6)
  {
    TopicsOfUnit2();
    ListInOrdinalOrder2();
  }

  lemma ListInOrdinalOrder2()
    ensures InOrdinalOrder([DerivativeBasic, DerivativeRules, ChainRule, ImplicitDiff, RelatedRates, LinearApprox], 6)
  {
  }

  lemma Unit3InOrdinalOrder()
    ensures |UnitTopicIds(UNIT_3)| == 6 && InOrdinalOrder(UnitTopicIds(UNIT_3), 12)
  {
    TopicsOfUnit3();
    ListInOrdinalOrder3();
  }

  lemma ListInOrdinalOrder3()
    ensures InOrdinalOrder([MvtRolle, MvtLagrange, MvtCauchy, LhopitalRule, ConcavityCurve, Optimization], 12)
  {
  }

  lemma Unit4InOrdinalOrder()
    ensures |UnitTopicIds(UNIT_4)| == 6 && InOrdinalOrder(UnitTopicIds(UNIT_4), 18)
  {
    TopicsOfUnit4();
    ListInOrdinalOrder4();
  }

  lemma ListInOrdinalOrder4()
    ensures InOrdinalOrder([IntegralBasic, Ftc, IntegrationSubstitution, IntegrationParts, IntegrationTrig, ImproperIntegral], 18)
  {
  }

  lemma Unit5InOrdinalOrder()
    ensures |UnitTopicIds(UNIT_5)| == 3 && InOrdinalOrder(UnitTopicIds(UNIT_5), 24)
  {
    TopicsOfUnit5();
    ListInOrdinalOrder5();
  }

  lemma ListInOrdinalOrder5()
    ensures InOrdinalOrder([AreaBetweenCurves, VolumeRotation, ArcLength], 24)
  {
  }

  lemma Unit6InOrdinalOrder()
    ensures |UnitTopicIds(UNIT_6)| == 2 && InOrdinalOrder(UnitTopicIds(UNIT_6), 27)
  {
    TopicsOfUnit6();
    ListInOrdinalOrder6();
  }

  lemma ListInOrdinalOrder6()
    ensures InOrdinalOrder([DeSeparable, DeLogistic], 27)
  {
  }

  lemma Unit7InOrdinalOrder()
    ensures |UnitTopicIds(UNIT_7)| == 5 && InOrdinalOrder(UnitTopicIds(UNIT_7), 29)
  {
    TopicsOfUnit7();
    ListInOrdinalOrder7();
  }

  lemma ListInOrdinalOrder7()
    ensures InOrdinalOrder([SeriesConvergence, SeriesTests, PowerSeries, TaylorSeries, FourierSeries], 29)
  {
  }

  lemma Unit8InOrdinalOrder()
    ensures |UnitTopicIds(UNIT_8)| == 4 && InOrdinalOrder(UnitTopicIds(UNIT_8), 34)
  {
    TopicsOfUnit8();
    ListInOrdinalOrder8();
  }

  lemma ListInOrdinalOrder8()
    ensures InOrdinalOrder([MultivariablePartial, GradientVector, LagrangeMultiplier, DoubleIntegral], 34)
  {
  }

  /** A list holding every ordinal exactly once, in order, lists every topic exactly once. */
  lemma OrdinalOrderedIsComplete(ids: seq<Topic>)
    requires |ids| == 38 && InOrdinalOrder(ids, 0)
    ensures NoDuplicates(ids)
    ensures forall t: Topic :: t in ids
  {
    forall i, j | 0 <= i < j < |ids| ensures ids[i] != ids[j] {
      InOrdinalOrderAt(ids, 0, i);
      InOrdinalOrderAt(ids, 0, j);
    }
    forall t: Topic ensures t in ids {
      InOrdinalOrderAt(ids, 0, Ordinal(t));
      OrdinalInverse(t);
      OrdinalInverse(ids[Ordinal(t)]);
    }
  }

  /** Eight lists in ordinal order, each starting where the previous ended, concatenate to one. */
  lemma OrdinalOrderedEight(a1: seq<Topic>, a2: seq<Topic>, a3: seq<Topic>, a4: seq<Topic>,
                            a5: seq<Topic>, a6: seq<Topic>, a7: seq<Topic>, a8: seq<Topic>)
    requires |a1| == 6 && InOrdinalOrder(a1, 0)
    requires |a2| == 6 && InOrdinalOrder(a2, 6)
    requires |a3| == 6 && InOrdinalOrder(a3, 12)
    requires |a4| == 6 && InOrdinalOrder(a4, 18)
    requires |a5| == 3 && InOrdinalOrder(a5, 24)
    requires |a6| == 2 && InOrdinalOrder(a6, 27)
    requires |a7| == 5 && InOrdinalOrder(a7, 29)
    requires |a8| == 4 && InOrdinalOrder(a8, 34)
    ensures |a1 + a2 + a3 + a4 + a5 + a6 + a7 + a8| == 38
    ensures InOrdinalOrder(a1 + a2 + a3 + a4 + a5 + a6 + a7 + a8, 0)
  {
    InOrdinalOrderAppend(a7, a8, 29);
    InOrdinalOrderAppend(a6, a7 + a8, 27);
    InOrdinalOrderAppend(a5, a6 + (a7 + a8), 24);
    InOrdinalOrderAppend(a4, a5 + (a6 + (a7 + a8)), 18);
    InOrdinalOrderAppend(a3, a4 + (a5 + (a6 + (a7 + a8))), 12);
    InOrdinalOrderAppend(a2, a3 + (a4 + (a5 + (a6 + (a7 + a8)))), 6);
    InOrdinalOrderAppend(a1, a2 + (a3 + (a4 + (a5 + (a6 + (a7 + a8))))), 0);
    assert a1 + a2 + a3 + a4 + a5 + a6 + a7 + a8 == a1 + (a2 + (a3 + (a4 + (a5 + (a6 + (a7 + a8))))));
  }

  /** Every topic id occurs exactly once in the catalogue: it is listed, and no id repeats. */
  lemma EveryTopicListedOnce()
    ensures NoDuplicates(TopicIds(UNITS))
    ensures forall t: Topic :: t in TopicIds(UNITS)
  {
    TopicIdsOfEight(UNIT_1, UNIT_2, UNIT_3, UNIT_4, UNIT_5, UNIT_6, UNIT_7, UNIT_8);
    Unit1InOrdinalOrder(); Unit2InOrdinalOrder(); Unit3InOrdinalOrder(); Unit4InOrdinalOrder();
    Unit5InOrdinalOrder(); Unit6InOrdinalOrder(); Unit7InOrdinalOrder(); Unit8InOrdinalOrder();
    OrdinalOrderedEight(UnitTopicIds(UNIT_1), UnitTopicIds(UNIT_2), UnitTopicIds(UNIT_3), UnitTopicIds(UNIT_4),
                        UnitTopicIds(UNIT_5), UnitTopicIds(UNIT_6), UnitTopicIds(UNIT_7), UnitTopicIds(UNIT_8));
    OrdinalOrderedIsComplete(TopicIds(UNITS));
  }

  /** Only eight topics have a storyline. */
  predicate HasStoryline(t: Topic) {
    t in {LimitDefinition, LimitOneSided, LimitInfinite, SqueezeTheorem, IvtTheorems,
          InfintesimalCompare, DerivativeBasic, TaylorSeries}
  }

  /** The step list `TOPIC_CONTENT` gives each topic, by cases. */
  function StorylineOf(t: Topic): seq<Step> {
    match t
    case LimitDefinition => LIMIT_DEFINITION_STEPS
    case LimitOneSided => LIMIT_ONE_SIDED_STEPS
    case LimitInfinite => LIMIT_INFINITE_STEPS
    case SqueezeTheorem => SQUEEZE_THEOREM_STEPS
    case IvtTheorems => IVT_THEOREMS_STEPS
    case InfintesimalCompare => INFINTESIMAL_COMPARE_STEPS
    case DerivativeBasic => DERIVATIVE_BASIC_STEPS
    case TaylorSeries => TAYLOR_SERIES_STEPS
    case _ => []
  }

  // The entries of `TOPIC_CONTENT`, a few at a time.
  lemma ContentEntriesUnit1a()
    ensures LimitDefinition in TOPIC_CONTENT && TOPIC_CONTENT[LimitDefinition] == StorylineOf(LimitDefinition)
    ensures LimitOneSided in TOPIC_CONTENT && TOPIC_CONTENT[LimitOneSided] == StorylineOf(LimitOneSided)
  {
  }

  lemma ContentEntriesUnit1b()
    ensures LimitInfinite in TOPIC_CONTENT && TOPIC_CONTENT[LimitInfinite] == StorylineOf(LimitInfinite)
    ensures SqueezeTheorem in TOPIC_CONTENT && TOPIC_CONTENT[SqueezeTheorem] == StorylineOf(SqueezeTheorem)
  {
  }

  lemma ContentEntriesUnit1c()
    ensures IvtTheorems in TOPIC_CONTENT && TOPIC_CONTENT[IvtTheorems] == StorylineOf(IvtTheorems)
    ensures InfintesimalCompare in TOPIC_CONTENT && TOPIC_CONTENT[InfintesimalCompare] == StorylineOf(InfintesimalCompare)
  {
  }

  lemma ContentEntriesUnit2a()
    ensures DerivativeBasic in TOPIC_CONTENT && TOPIC_CONTENT[DerivativeBasic] == StorylineOf(DerivativeBasic)
    ensures DerivativeRules in TOPIC_CONTENT && TOPIC_CONTENT[DerivativeRules] == StorylineOf(DerivativeRules)
  {
  }

  lemma ContentEntriesUnit2b()
    ensures ChainRule in TOPIC_CONTENT && TOPIC_CONTENT[ChainRule] == StorylineOf(ChainRule)
    ensures ImplicitDiff in TOPIC_CONTENT && TOPIC_CONTENT[ImplicitDiff] == StorylineOf(ImplicitDiff)
  {
  }

  lemma ContentEntriesUnit2c()
    ensures RelatedRates in TOPIC_CONTENT && TOPIC_CONTENT[RelatedRates] == StorylineOf(RelatedRates)
    ensures LinearApprox in TOPIC_CONTENT && TOPIC_CONTENT[LinearApprox] == StorylineOf(LinearApprox)
  {
  }

  lemma ContentEntriesUnit3a()
    ensures MvtRolle in TOPIC_CONTENT && TOPIC_CONTENT[MvtRolle] == StorylineOf(MvtRolle)
    ensures MvtLagrange in TOPIC_CONTENT && TOPIC_CONTENT[MvtLagrange] == StorylineOf(MvtLagrange)
    ensures MvtCauchy in TOPIC_CONTENT && TOPIC_CONTENT[MvtCauchy] == StorylineOf(MvtCauchy)
  {
  }

  lemma ContentEntriesUnit3b()
    ensures LhopitalRule in TOPIC_CONTENT && TOPIC_CONTENT[LhopitalRule] == StorylineOf(LhopitalRule)
    ensures ConcavityCurve in TOPIC_CONTENT && TOPIC_CONTENT[ConcavityCurve] == StorylineOf(ConcavityCurve)
    ensures Optimization in TOPIC_CONTENT && TOPIC_CONTENT[Optimization] == StorylineOf(Optimization)
  {
  }

  lemma ContentEntriesUnit4a()
    ensures IntegralBasic in TOPIC_CONTENT && TOPIC_CONTENT[IntegralBasic] == StorylineOf(IntegralBasic)
    ensures Ftc in TOPIC_CONTENT && TOPIC_CONTENT[Ftc] == StorylineOf(Ftc)
    ensures IntegrationSubstitution in TOPIC_CONTENT && TOPIC_CONTENT[IntegrationSubstitution] == StorylineOf(IntegrationSubstitution)
  {
  }

  lemma ContentEntriesUnit4b()
    ensures IntegrationParts in TOPIC_CONTENT && TOPIC_CONTENT[IntegrationParts] == StorylineOf(IntegrationParts)
    ensures IntegrationTrig in TOPIC_CONTENT && TOPIC_CONTENT[IntegrationTrig] == StorylineOf(IntegrationTrig)
    ensures ImproperIntegral in TOPIC_CONTENT && TOPIC_CONTENT[ImproperIntegral] == StorylineOf(ImproperIntegral)
  {
  }

  lemma ContentEntriesUnit5()
    ensures AreaBetweenCurves in TOPIC_CONTENT && TOPIC_CONTENT[AreaBetweenCurves] == StorylineOf(AreaBetweenCurves)
    ensures VolumeRotation in TOPIC_CONTENT && TOPIC_CONTENT[VolumeRotation] == StorylineOf(VolumeRotation)
    ensures ArcLength in TOPIC_CONTENT && TOPIC_CONTENT[ArcLength] == StorylineOf(ArcLength)
  {
  }

  lemma ContentEntriesUnit6()
    ensures DeSeparable in TOPIC_CONTENT && TOPIC_CONTENT[DeSeparable] == StorylineOf(DeSeparable)
    ensures DeLogistic in TOPIC_CONTENT && TOPIC_CONTENT[DeLogistic] == StorylineOf(DeLogistic)
  {
  }

  lemma ContentEntriesUnit7()
    ensures SeriesConvergence in TOPIC_CONTENT && TOPIC_CONTENT[SeriesConvergence] == StorylineOf(SeriesConvergence)
    ensures SeriesTests in TOPIC_CONTENT && TOPIC_CONTENT[SeriesTests] == StorylineOf(SeriesTests)
    ensures PowerSeries in TOPIC_CONTENT && TOPIC_CONTENT[PowerSeries] == StorylineOf(PowerSeries)
    ensures TaylorSeries in TOPIC_CONTENT && TOPIC_CONTENT[TaylorSeries] == StorylineOf(TaylorSeries)
    ensures FourierSeries in TOPIC_CONTENT && TOPIC_CONTENT[FourierSeries] == StorylineOf(FourierSeries)
  {
  }

  lemma ContentEntriesUnit8()
    ensures MultivariablePartial in TOPIC_CONTENT && TOPIC_CONTENT[MultivariablePartial] == StorylineOf(MultivariablePartial)
    ensures GradientVector in TOPIC_CONTENT && TOPIC_CONTENT[GradientVector] == StorylineOf(GradientVector)
    ensures LagrangeMultiplier in TOPIC_CONTENT && TOPIC_CONTENT[LagrangeMultiplier] == StorylineOf(LagrangeMultiplier)
    ensures DoubleIntegral in TOPIC_CONTENT && TOPIC_CONTENT[DoubleIntegral] == StorylineOf(DoubleIntegral)
  {
  }

  /** Every topic has an entry in `TOPIC_CONTENT`, and it is the topic's storyline. */
  lemma ContentLookup(t: Topic)
    ensures t in TOPIC_CONTENT && TOPIC_CONTENT[t] == StorylineOf(t)
  {
    ContentEntriesUnit1a();
    ContentEntriesUnit1b();
    ContentEntriesUnit1c();
    ContentEntriesUnit2a();
    ContentEntriesUnit2b();
    ContentEntriesUnit2c();
    ContentEntriesUnit3a();
    ContentEntriesUnit3b();
    ContentEntriesUnit4a();
    ContentEntriesUnit4b();
    ContentEntriesUnit5();
    ContentEntriesUnit6();
    ContentEntriesUnit7();
    ContentEntriesUnit8();
  }

  /** The storyline of a topic is non-empty exactly when the topic is one of the eight. */
  lemma ContentStoryline(t: Topic)
    ensures t in TOPIC_CONTENT && (TOPIC_CONTENT[t] != [] <==> HasStoryline(t))
  {
    ContentLookup(t);
  }

  /** Step ids never repeat within a storyline. */
  lemma StorylineStepIdsDistinct()
    ensures NoDuplicates(StepIds(LIMIT_DEFINITION_STEPS))
    ensures NoDuplicates(StepIds(LIMIT_ONE_SIDED_STEPS))
    ensures NoDuplicates(StepIds(LIMIT_INFINITE_STEPS))
    ensures NoDuplicates(StepIds(SQUEEZE_THEOREM_STEPS))
    ensures NoDuplicates(StepIds(IVT_THEOREMS_STEPS))
    ensures NoDuplicates(StepIds(INFINTESIMAL_COMPARE_STEPS))
    ensures NoDuplicates(StepIds(DERIVATIVE_BASIC_STEPS))
    ensures NoDuplicates(StepIds(TAYLOR_SERIES_STEPS))
  {
    LongStorylineStepIds();
  }

  lemma LongStorylineStepIds()
    ensures StepIds(LIMIT_DEFINITION_STEPS) == ["ed-0", "ed-1", "ed-2"]
    ensures StepIds(DERIVATIVE_BASIC_STEPS) == ["db-0", "db-1", "db-2"]
    ensures StepIds(TAYLOR_SERIES_STEPS) == ["ts-0", "ts-1", "ts-2", "ts-3"]
  {
  }

  /** Every shipped step is built by `Done`, so none lists prerequisites. */
  lemma StorylinesWithoutPrerequisites(t: Topic)
    ensures forall j :: 0 <= j < |StorylineOf(t)| ==> StorylineOf(t)[j].prerequisites.None?
  {
  }

  /** `TOPIC_CONTENT` covers every topic, and step ids never repeat within a topic. */
  lemma ContentCoversTopics()
    ensures forall t: Topic :: t in TOPIC_CONTENT && NoDuplicates(StepIds(TOPIC_CONTENT[t]))
  {
    StorylineStepIdsDistinct();
    forall t: Topic ensures t in TOPIC_CONTENT && NoDuplicates(StepIds(TOPIC_CONTENT[t])) {
      ContentLookup(t);
    }
  }
}
