/** The computational part of components/VisualPanel.tsx: the Taylor coefficients
    memoised from the visual state, the Taylor polynomial the plot draws, the order
    and x0 controls, and the Riemann partition drawn for the basic integral topic.

    mathjs is not modelled: its parser, compiler, evaluator and symbolic derivative are
    the partial oracles of `MathLib`, over an expression-tree type `N` of which nothing
    is known. A thrown exception is `None`. Numbers are exact reals. */
module Visual {
  import opened Wrappers
  import opened Types

  /** `math.parse`, `node.compile`, `expr.evaluate({ x })` and `math.derivative(expr, 'x')`. */
  datatype MathLib<!N> = MathLib(
    parse: string -> Option<N>,
    compiles: N -> bool,
    evaluate: (N, real) -> Option<real>,
    derivative: N -> Option<N>)

  /** The message shown when parsing, compiling or evaluating throws. */
  const SYNTAX_ERROR: string := "语法错误"

  /** `math.factorial` on the loop index. */
  function Factorial(n: nat): (r: nat)
    ensures r >= 1
  {
    if n == 0 then 1 else n * Factorial(n - 1)
  }

  /** The `k`-th derivative of `e`, when every one of the `k` differentiations succeeds. */
  function NthDerivative<N>(lib: MathLib<N>, e: N, k: nat): Option<N> {
    if k == 0 then Some(e)
    else match lib.derivative(e)
      case None => None
      case Some(d) => NthDerivative(lib, d, k - 1)
  }

  /** The derivative of order `k` exists but cannot be evaluated at `x0`. */
  predicate EvaluationFailsAt<N>(lib: MathLib<N>, e: N, x0: real, k: nat) {
    NthDerivative(lib, e, k).Some? && lib.evaluate(NthDerivative(lib, e, k).value, x0).None?
  }

  /** `c` is the `k`-th derivative of `e` at `x0` divided by `n!`. */
  predicate IsQuotientAt<N>(lib: MathLib<N>, e: N, x0: real, k: nat, n: nat, c: real) {
    NthDerivative(lib, e, k).Some? &&
    lib.evaluate(NthDerivative(lib, e, k).value, x0).Some? &&
    c == lib.evaluate(NthDerivative(lib, e, k).value, x0).value / (Factorial(n) as real)
  }

  // ---- The coefficient loop ----

  /** The coefficients the loop still pushes once it reaches index `i` with current
      expression `e`: `e(x0) / i!`, then, unless differentiation fails, those of the
      derivative from `i + 1`; a failing evaluation aborts the whole computation. */
  function CoeffsFrom<N>(lib: MathLib<N>, e: N, x0: real, i: nat, order: int): Option<seq<real>>
    decreases order - i
  {
    if i > order then Some([])
    else match lib.evaluate(e, x0)
      case None => None
      case Some(v) =>
        var c := v / (Factorial(i) as real);
        match lib.derivative(e)
        case None => Some([c])
        case Some(d) =>
          match CoeffsFrom(lib, d, x0, i + 1, order)
          case None => None
          case Some(rest) => Some([c] + rest)
  }

  /** The memoised result: the coefficients (empty unless the topic is the Taylor
      series) and the parsed expression, or nothing when mathjs throws. */
  datatype Analysis<N> = Analysis(coeffs: seq<real>, node: N)

  function Analyse<N>(lib: MathLib<N>, s: VisualState): Option<Analysis<N>> {
    match lib.parse(s.functionString)
    case None => None
    case Some(node) =>
      if !lib.compiles(node) then None
      else if s.topic != TaylorSeries then Some(Analysis([], node))
      else match CoeffsFrom(lib, node, s.x0, 0, s.order)
        case None => None
        case Some(cs) => Some(Analysis(cs, node))
  }

  /** A successful run from index `i` pushes at most `order - i + 1` coefficients, the
      `k`-th being the `k`-th derivative at `x0` over `(i + k)!`; it stops short only
      because the next derivative does not exist. */
  lemma {:induction false} CoeffsFromSome<N>(lib: MathLib<N>, e: N, x0: real, i: nat, order: int, cs: seq<real>)
    requires CoeffsFrom(lib, e, x0, i, order) == Some(cs)
    ensures i > order ==> cs == []
    ensures i <= order ==> 1 <= |cs| <= order - i + 1
    ensures forall k :: 0 <= k < |cs| ==> IsQuotientAt(lib, e, x0, k, i + k, cs[k])
    ensures 0 < |cs| < order - i + 1 ==> NthDerivative(lib, e, |cs|).None?
    decreases order - i
  {
    if i <= order {
      var v := lib.evaluate(e, x0).value;
      match lib.derivative(e)
      case None =>
      case Some(d) =>
        var rest := CoeffsFrom(lib, d, x0, i + 1, order).value;
        CoeffsFromSome(lib, d, x0, i + 1, order, rest);
        assert cs == [v / (Factorial(i) as real)] + rest;
        forall k | 1 <= k < |cs| ensures IsQuotientAt(lib, e, x0, k, i + k, cs[k]) {
          assert NthDerivative(lib, e, k) == NthDerivative(lib, d, k - 1);
          assert IsQuotientAt(lib, d, x0, k - 1, i + 1 + (k - 1), rest[k - 1]);
        }
        if 0 < |cs| < order - i + 1 {
          assert NthDerivative(lib, e, |cs|) == NthDerivative(lib, d, |rest|);
        }
    }
  }

  /** The run from index `i` fails exactly when some derivative of order at most
      `order - i` exists but cannot be evaluated at `x0`. */
  lemma {:induction false} CoeffsFromNone<N>(lib: MathLib<N>, e: N, x0: real, i: nat, order: int)
    ensures CoeffsFrom(lib, e, x0, i, order).None? <==>
      exists k: nat :: i + k <= order && EvaluationFailsAt(lib, e, x0, k)
    decreases order - i
  {
    if i <= order {
      if lib.evaluate(e, x0).None? {
        assert EvaluationFailsAt(lib, e, x0, 0);
      } else {
        match lib.derivative(e)
        case None =>
          forall k: nat | i + k <= order ensures !EvaluationFailsAt(lib, e, x0, k) {
          }
        case Some(d) =>
          CoeffsFromNone(lib, d, x0, i + 1, order);
          forall k: nat | 1 <= k ensures EvaluationFailsAt(lib, e, x0, k) == EvaluationFailsAt(lib, d, x0, k - 1) {
            assert NthDerivative(lib, e, k) == NthDerivative(lib, d, k - 1);
          }
          if CoeffsFrom(lib, d, x0, i + 1, order).None? {
            var k: nat :| i + 1 + k <= order && EvaluationFailsAt(lib, d, x0, k);
            assert EvaluationFailsAt(lib, e, x0, k + 1);
          }
      }
    }
  }

  /** The coefficient list is empty unless the topic is the Taylor series; the `i`-th
      coefficient is the `i`-th derivative at `x0` over `i!`; at most `order + 1` are
      computed, fewer only when a derivative is missing. */
  lemma AnalyseCoefficients<N>(lib: MathLib<N>, s: VisualState)
    requires Analyse(lib, s).Some?
    ensures s.topic != TaylorSeries ==> Analyse(lib, s).value.coeffs == []
    ensures Analyse(lib, s).value.node == lib.parse(s.functionString).value
    ensures var cs := Analyse(lib, s).value.coeffs;
      var node := Analyse(lib, s).value.node;
      |cs| <= (if s.order < 0 then 0 else s.order + 1) &&
      (s.topic == TaylorSeries && s.order >= 0 ==> |cs| >= 1) &&
      (forall k :: 0 <= k < |cs| ==> IsQuotientAt(lib, node, s.x0, k, k, cs[k])) &&
      (0 < |cs| < s.order + 1 ==> NthDerivative(lib, node, |cs|).None?)
  {
    var node := lib.parse(s.functionString).value;
    if s.topic == TaylorSeries {
      var cs := CoeffsFrom(lib, node, s.x0, 0, s.order).value;
      CoeffsFromSome(lib, node, s.x0, 0, s.order, cs);
    }
  }

  /** The memo yields nothing exactly when the text does not parse or compile, or,
      for the Taylor topic, some derivative of order at most `order` cannot be
      evaluated at `x0`. */
  lemma AnalyseFails<N>(lib: MathLib<N>, s: VisualState)
    ensures Analyse(lib, s).None? <==>
      lib.parse(s.functionString).None? ||
      !lib.compiles(lib.parse(s.functionString).value) ||
      (s.topic == TaylorSeries &&
       exists k: nat :: k <= s.order && EvaluationFailsAt(lib, lib.parse(s.functionString).value, s.x0, k))
  {
    if lib.parse(s.functionString).Some? {
      CoeffsFromNone(lib, lib.parse(s.functionString).value, s.x0, 0, s.order);
    }
  }

  /** `Some(prefix + rest)`, or nothing when the remaining run fails. */
  function Prepend(prefix: seq<real>, rest: Option<seq<real>>): Option<seq<real>> {
    match rest
    case None => None
    case Some(r) => Some(prefix + r)
  }

  /** The `useMemo` body: the loop pushes into `coeffs` and moves `currentExpr` to its
      derivative until `order` is passed or differentiation fails. The error text is
      cleared first and set to the syntax error when anything throws. */
  method ComputeCoefficients<N>(lib: MathLib<N>, s: VisualState) returns (r: Option<Analysis<N>>, error: Option<string>)
    ensures r == Analyse(lib, s)
    ensures error == (if r.None? then Some(SYNTAX_ERROR) else None)
  {
    error := None;
    var parsed := lib.parse(s.functionString);
    if parsed.None? || !lib.compiles(parsed.value) {
      return None, Some(SYNTAX_ERROR);
    }
    var node := parsed.value;
    var coeffs: seq<real> := [];
    var current := node;
    assert Prepend(coeffs, CoeffsFrom(lib, current, s.x0, 0, s.order)) == CoeffsFrom(lib, node, s.x0, 0, s.order) by {
      if CoeffsFrom(lib, node, s.x0, 0, s.order).Some? {
        assert [] + CoeffsFrom(lib, node, s.x0, 0, s.order).value == CoeffsFrom(lib, node, s.x0, 0, s.order).value;
      }
    }
    if s.topic == TaylorSeries {
      var i: nat := 0;
      while i <= s.order
        invariant Prepend(coeffs, CoeffsFrom(lib, current, s.x0, i, s.order)) == CoeffsFrom(lib, node, s.x0, 0, s.order)
        decreases s.order - i
      {
        var val := lib.evaluate(current, s.x0);
        if val.None? {
          return None, Some(SYNTAX_ERROR);
        }
        var c := val.value / (Factorial(i) as real);
        ghost var before := coeffs;
        coeffs := coeffs + [c];
        var next := lib.derivative(current);
        if next.None? {
          assert CoeffsFrom(lib, current, s.x0, i, s.order) == Some([c]);
          break;
        }
        assert Prepend(coeffs, CoeffsFrom(lib, next.value, s.x0, i + 1, s.order))
            == Prepend(before, CoeffsFrom(lib, current, s.x0, i, s.order)) by {
          if CoeffsFrom(lib, next.value, s.x0, i + 1, s.order).Some? {
            var rest := CoeffsFrom(lib, next.value, s.x0, i + 1, s.order).value;
            assert coeffs + rest == before + ([c] + rest);
          }
        }
        current := next.value;
        i := i + 1;
      }
    }
    assert coeffs + [] == coeffs;
    return Some(Analysis(coeffs, node)), None;
  }

  // ---- The Taylor polynomial ----

  function Pow(b: real, n: nat): real {
    if n == 0 then 1.0 else b * Pow(b, n - 1)
  }

  /** `coeffs.reduce((acc, c, i) => acc + c * Math.pow(h, i), 0)`: the terms are added
      from the lowest degree up. */
  function TaylorSum(cs: seq<real>, h: real): real {
    if cs == [] then 0.0 else TaylorSum(cs[..|cs| - 1], h) + cs[|cs| - 1] * Pow(h, |cs| - 1)
  }

  /** The same polynomial in Horner form, the reference it is checked against. */
  function Horner(cs: seq<real>, h: real): real {
    if cs == [] then 0.0 else cs[0] + h * Horner(cs[1..], h)
  }

  /** Appending a coefficient adds its term at the next degree to the Horner form. */
  lemma {:induction false} HornerSnoc(cs: seq<real>, x: real, h: real)
    ensures Horner(cs + [x], h) == Horner(cs, h) + x * Pow(h, |cs|)
    decreases |cs|
  {
    if cs == [] {
      assert ([] + [x])[1..] == [];
    } else {
      var rest := cs[1..];
      assert (cs + [x])[1..] == rest + [x];
      HornerSnoc(rest, x, h);
      Distribute(cs[0], h, Horner(rest, h), x, Pow(h, |rest|));
    }
  }

  lemma Distribute(c0: real, h: real, a: real, c: real, p: real)
    ensures c0 + h * (a + c * p) == c0 + h * a + c * (h * p)
  {
  }

  /** The lowest-degree-first sum equals the Horner form. */
  lemma {:induction false} TaylorSumIsHorner(cs: seq<real>, h: real)
    ensures TaylorSum(cs, h) == Horner(cs, h)
    decreases |cs|
  {
    if cs != [] {
      var init := cs[..|cs| - 1];
      TaylorSumIsHorner(init, h);
      HornerSnoc(init, cs[|cs| - 1], h);
      assert init + [cs[|cs| - 1]] == cs;
    }
  }

  /** `getTaylorY(x)`: 0 without a memoised result, otherwise the sum of
      `c_i (x - x0)^i`. */
  function TaylorY<N>(a: Option<Analysis<N>>, x0: real, x: real): real {
    match a
    case None => 0.0
    case Some(an) => TaylorSum(an.coeffs, x - x0)
  }

  /** At `x = x0` the polynomial takes the value of its constant coefficient, and 0
      when there are no coefficients or no result. */
  lemma TaylorAtCenter<N>(a: Option<Analysis<N>>, x0: real)
    ensures a.None? || a.value.coeffs == [] ==> TaylorY(a, x0, x0) == 0.0
    ensures a.Some? && a.value.coeffs != [] ==> TaylorY(a, x0, x0) == a.value.coeffs[0]
  {
    if a.Some? && a.value.coeffs != [] {
      TaylorSumIsHorner(a.value.coeffs, 0.0);
    }
  }

  // ---- The order and x0 controls ----

  /** `Math.max(0, Math.min(20, v))`. */
  function Clamp(v: int): (r: int)
    ensures 0 <= r <= 20
    ensures 0 <= v <= 20 ==> r == v
    ensures v < 0 ==> r == 0
    ensures v > 20 ==> r == 20
  {
    if v < 0 then 0 else if v > 20 then 20 else v
  }

  /** `updateOrder(v)`: only the order changes, and it is clamped to [0, 20]. */
  function UpdateOrder(s: VisualState, v: int): (r: VisualState)
    ensures r.order == Clamp(v)
    ensures 0 <= r.order <= 20
    ensures 0 <= v <= 20 ==> r.order == v
    ensures r == s.(order := r.order)
  {
    s.(order := Clamp(v))
  }

  /** Clamping twice is clamping once, and storing the current order again changes nothing. */
  lemma UpdateOrderIdempotent(s: VisualState, v: int)
    ensures Clamp(Clamp(v)) == Clamp(v)
    ensures UpdateOrder(UpdateOrder(s, v), UpdateOrder(s, v).order) == UpdateOrder(s, v)
  {
  }

  /** `handleX0Change(text)`, given what `parseFloat(text)` returns (`None` for NaN):
      non-numeric input leaves the state alone; otherwise only `x0` changes. */
  function HandleX0Change(s: VisualState, parsed: Option<real>): (r: VisualState)
    ensures parsed.None? ==> r == s
    ensures parsed.Some? ==> r.x0 == parsed.value && r == s.(x0 := r.x0)
  {
    match parsed
    case None => s
    case Some(v) => s.(x0 := v)
  }

  /** What the panel's controls report through `onStateChange`. The order buttons are
      shown only for the Taylor topic and the segment slider only for the basic
      integral, so on any other topic they cannot be used and change nothing. */
  datatype Edit =
    | FunctionText(text: string)      // the f(x) text box
    | X0Text(parsed: Option<real>)    // the x0 box, after `parseFloat`
    | OrderDown                       // `updateOrder(state.order - 1)`
    | OrderUp                         // `updateOrder(state.order + 1)`
    | Segments(n: int)                // the slider, after `parseInt`

  /** The state a control reports. No control changes the topic or the zoom, the
      order controls change only the order and keep it within [0, 20], and every
      other control leaves the order alone. */
  function ApplyEdit(s: VisualState, e: Edit): (r: VisualState)
    ensures r.topic == s.topic && r.zoom == s.zoom
    ensures e.OrderDown? || e.OrderUp? ==> r == s.(order := r.order)
    ensures (e.OrderDown? || e.OrderUp?) && s.topic == TaylorSeries ==> 0 <= r.order <= 20
    ensures !(e.OrderDown? || e.OrderUp?) ==> r.order == s.order
    ensures (e.OrderDown? || e.OrderUp?) && s.topic != TaylorSeries ==> r == s
    ensures e.Segments? && s.topic != IntegralBasic ==> r == s
    ensures e.FunctionText? ==> r.functionString == e.text && r == s.(functionString := e.text)
    ensures e.X0Text? ==> r == HandleX0Change(s, e.parsed)
    ensures e.OrderDown? && s.topic == TaylorSeries ==> r == UpdateOrder(s, s.order - 1) && r.order == Clamp(s.order - 1)
    ensures e.OrderUp? && s.topic == TaylorSeries ==> r == UpdateOrder(s, s.order + 1) && r.order == Clamp(s.order + 1)
    ensures e.Segments? && s.topic == IntegralBasic ==> r == s.(param1 := e.n as real)
  {
    match e
    case FunctionText(text) => s.(functionString := text)
    case X0Text(parsed) => HandleX0Change(s, parsed)
    case OrderDown => if s.topic == TaylorSeries then UpdateOrder(s, s.order - 1) else s
    case OrderUp => if s.topic == TaylorSeries then UpdateOrder(s, s.order + 1) else s
    case Segments(n) => if s.topic == IntegralBasic then s.(param1 := n as real) else s
  }

  /** Pressing "+" then "-" from an order in [0, 19] restores the state. */
  lemma OrderUpDownCancel(s: VisualState)
    requires s.topic == TaylorSeries && 0 <= s.order < 20
    ensures ApplyEdit(ApplyEdit(s, OrderUp), OrderDown) == s
  {
  }

  // ---- The Riemann partition ----

  /** `Math.floor(param1 || 10)`: a zero slider value means ten cells. */
  function SegmentCount(param1: real): (n: int)
    ensures param1 == 0.0 ==> n == 10
    ensures param1 != 0.0 ==> n as real <= param1 < n as real + 1.0
  {
    if param1 == 0.0 then 10 else param1.Floor
  }

  /** One rectangle: its left and right edge and the sampled height at its left edge
      (`None` when the evaluation throws). */
  datatype Cell = Cell(left: real, right: real, height: Option<real>)

  /** Cell `i` of `n` over [a, b], of width `(b - a) / n`. */
  function RiemannCell<N>(lib: MathLib<N>, node: N, a: real, b: real, n: nat, i: nat): Cell
    requires n > 0
  {
    var dx := (b - a) / (n as real);
    var x := a + (i as real) * dx;
    Cell(x, x + dx, lib.evaluate(node, x))
  }

  /** The cells drawn for `n` segments: none when `n <= 0`. */
  function Partition<N>(lib: MathLib<N>, node: N, x0: real, n: int): (cells: seq<Cell>)
    ensures |cells| == (if n <= 0 then 0 else n)
  {
    if n <= 0 then []
    else seq(n, i requires 0 <= i < n => RiemannCell(lib, node, x0, x0 + 5.0, n, i))
  }

  /** The cells have width `5 / n`, sit side by side, start at `x0` and end at `x0 + 5`;
      each height is the function sampled at the cell's left edge. */
  lemma PartitionCovers<N>(lib: MathLib<N>, node: N, x0: real, n: int)
    requires n > 0
    ensures var cells := Partition(lib, node, x0, n);
      cells[0].left == x0 &&
      cells[n - 1].right == x0 + 5.0 &&
      (forall i :: 0 <= i < n ==> cells[i].right - cells[i].left == 5.0 / (n as real) > 0.0) &&
      (forall i :: 0 <= i < n - 1 ==> cells[i].right == cells[i + 1].left) &&
      (forall i :: 0 <= i < n ==> cells[i].height == lib.evaluate(node, cells[i].left))
  {
    var cells := Partition(lib, node, x0, n);
    var dx := (x0 + 5.0 - x0) / (n as real);
    assert dx * (n as real) == 5.0;
    forall i | 0 <= i < n - 1 ensures cells[i].right == cells[i + 1].left {
      assert x0 + (i as real) * dx + dx == x0 + ((i + 1) as real) * dx;
    }
    assert cells[n - 1].right == x0 + ((n - 1) as real) * dx + dx;
  }

  /** The number of leading cells whose evaluation succeeds: the index of the first
      cell whose height is `None`, or the length when there is none. */
  function FirstThrow(cells: seq<Cell>): (k: nat)
    ensures k <= |cells|
    ensures forall j :: 0 <= j < k ==> cells[j].height.Some?
    ensures k < |cells| ==> cells[k].height.None?
  {
    if cells == [] || cells[0].height.None? then 0 else 1 + FirstThrow(cells[1..])
  }

  /** The rectangle loop, run when the topic is the basic integral and the memo
      succeeded: `n = floor(param1 || 10)` cells over [x0, x0 + 5]. The evaluation
      inside the loop is not guarded, so the first one that throws ends the loop and
      the effect: the cells before it are drawn and `thrown` reports the exception. */
  method RiemannCells<N>(lib: MathLib<N>, s: VisualState, a: Option<Analysis<N>>) returns (cells: seq<Cell>, thrown: bool)
    ensures s.topic != IntegralBasic || a.None? ==> cells == [] && !thrown
    ensures s.topic == IntegralBasic && a.Some? ==>
      var all := Partition(lib, a.value.node, s.x0, SegmentCount(s.param1));
      cells == all[..FirstThrow(all)] && (thrown <==> FirstThrow(all) < |all|)
    ensures forall j :: 0 <= j < |cells| ==> cells[j].height.Some?
  {
    cells := [];
    thrown := false;
    if s.topic == IntegralBasic && a.Some? {
      cells, thrown := DrawCells(lib, a.value.node, s.x0, SegmentCount(s.param1));
    }
  }

  /** The `for` loop over the `n` cells of [x0, x0 + 5]. */
  method DrawCells<N>(lib: MathLib<N>, node: N, x0: real, n: int) returns (cells: seq<Cell>, thrown: bool)
    ensures var all := Partition(lib, node, x0, n);
      cells == all[..FirstThrow(all)] && (thrown <==> FirstThrow(all) < |all|)
    ensures forall j :: 0 <= j < |cells| ==> cells[j].height.Some?
  {
    cells := [];
    thrown := false;
    if n > 0 {
      var hi := x0 + 5.0;
      var i := 0;
      while i < n
        invariant 0 <= i <= n && |cells| == i
        invariant forall k :: 0 <= k < i ==> cells[k] == RiemannCell(lib, node, x0, hi, n, k) && cells[k].height.Some?
        invariant !thrown
      {
        var cell := RiemannCell(lib, node, x0, hi, n, i);
        if cell.height.None? {
          thrown := true;
          break;
        } else {
          cells := cells + [cell];
          i := i + 1;
        }
      }
      RiemannPrefix(lib, node, x0, n, cells, i);
    }
  }

  /** When the function cannot be evaluated at `x0`, the first cell already throws and
      no rectangle is drawn. */
  lemma FirstCellThrows<N>(lib: MathLib<N>, node: N, x0: real, n: int)
    requires n > 0 && lib.evaluate(node, x0).None?
    ensures FirstThrow(Partition(lib, node, x0, n)) == 0
  {
    assert Partition(lib, node, x0, n)[0] == RiemannCell(lib, node, x0, x0 + 5.0, n, 0);
  }

  /** Cells that match the partition up to `i` and succeed, followed by a failure or
      by the end, are the part of the partition before its first failure. */
  lemma RiemannPrefix<N>(lib: MathLib<N>, node: N, x0: real, n: int, cells: seq<Cell>, i: nat)
    requires 0 < n && i <= n && |cells| == i
    requires forall k :: 0 <= k < i ==> cells[k] == RiemannCell(lib, node, x0, x0 + 5.0, n, k) && cells[k].height.Some?
    requires i < n ==> RiemannCell(lib, node, x0, x0 + 5.0, n, i).height.None?
    ensures var all := Partition(lib, node, x0, n);
      cells == all[..FirstThrow(all)] && (FirstThrow(all) < |all| <==> i < n)
  {
    var all := Partition(lib, node, x0, n);
    forall k | 0 <= k < i ensures all[k] == cells[k] && all[k].height.Some? {
      assert all[k] == RiemannCell(lib, node, x0, x0 + 5.0, n, k);
    }
    if i < n {
      assert all[i] == RiemannCell(lib, node, x0, x0 + 5.0, n, i);
    }
    FirstThrowAt(all, i);
    assert cells == all[..i];
  }

  /** A prefix of successful cells ending at a failure, or at the end, is the prefix
      `FirstThrow` measures. */
  lemma {:induction false} FirstThrowAt(cells: seq<Cell>, i: nat)
    requires i <= |cells|
    requires forall k :: 0 <= k < i ==> cells[k].height.Some?
    requires i < |cells| ==> cells[i].height.None?
    ensures FirstThrow(cells) == i
  {
    if i > 0 {
      assert cells[0].height.Some?;
      FirstThrowAt(cells[1..], i - 1);
    }
  }
}
