/**
 What the fixed-point step means in integers: where saturation and truncation cannot act, how
 large results get, where they can act after all, and which weights a step leaves alone.
 */
module Exactness {
  import opened Machine
  import opened Q16
  import opened Network

  ghost predicate VecInBox(v: Vec) { forall i :: 0 <= i < |v| ==> InBox(v[i]) }

  ghost predicate NetInBox(m: Net) {
    && VecInBox(m.w1) && VecInBox(m.b1) && VecInBox(m.w2)
    && VecInBox(m.b2) && VecInBox(m.w3) && VecInBox(m.b3)
  }

  /** Inputs as `sample_to_q` makes them. */
  ghost predicate Pixels(x: Vec) { forall i :: 0 <= i < |x| ==> 0 <= x[i] <= ONE }

  // ---------- the update ----------

  /** For every rate a job can carry, a weight moves by exactly floor(lr * grad / 2^16), then is boxed. */
  lemma NudgeIsDescent(w: i32, lr: i32, grad: i32)
    requires 0 <= lr <= 0x8000
    ensures Nudge(w, lr, grad) == Clamp(w - (lr * grad) / 0x1_0000, -BOX, BOX)
  {
    QMulExact(lr, grad, 0x8000, 0x8000_0000, 0x4000_0000);
  }

  /** Whatever the weights were, one step puts all of them in the box. */
  lemma StepEndsInBox(m: Net, x: Vec, y: byte, lr: i32)
    requires |x| == INPUT
    ensures NetInBox(Step(m, x, y, lr))
  {
    hide Forward, BackwardPass, Outer, QMul;
  }

  // ---------- layer one ----------

  function Floored(a: int, b: int): int { (a * b) / 0x1_0000 }

  function ExactDot(s: int, w: Vec, row: nat, x: Vec, k: nat): int
    requires row + k <= |w| && k <= |x|
  {
    if k == 0 then s else ExactDot(s, w, row, x, k - 1) + Floored(w[row + k - 1], x[k - 1])
  }

  lemma PixelProduct(w: i32, x: i32)
    requires InBox(w) && 0 <= x <= ONE
    ensures QMul(w, x) == Floored(w, x) && InBox(QMul(w, x))
  {
    QMulExact(w, x, 8 * 0x1_0000, 0x1_0000, 8 * 0x1_0000);
  }

  /** First-layer sums neither saturate nor truncate at any point of the accumulation. */
  lemma {:induction false} LayerOneExact(s: i32, w: Vec, row: nat, x: Vec, k: nat)
    requires row + k <= |w| && k <= |x| && k <= INPUT
    requires VecInBox(w) && Pixels(x) && InBox(s)
    ensures Dot(s, w, row, x, k) == ExactDot(s, w, row, x, k)
    ensures Abs(Dot(s, w, row, x, k)) <= (k + 1) * 0x8_0000
  {
    hide QMul, Floored;
    if k > 0 {
      LayerOneExact(s, w, row, x, k - 1);
      PixelProduct(w[row + k - 1], x[k - 1]);
    }
  }

  /** Any order in which saturating additions may be bracketed and arranged. */
  datatype Reduction = Leaf(v: i32) | Plus(left: Reduction, right: Reduction)

  function Reduce(t: Reduction): i32 {
    match t
    case Leaf(v) => v
    case Plus(l, r) => QAdd(Reduce(l), Reduce(r))
  }

  function Leaves(t: Reduction): seq<i32> {
    match t
    case Leaf(v) => [v]
    case Plus(l, r) => Leaves(l) + Leaves(r)
  }

  function Sum(s: seq<i32>): int {
    if s == [] then 0 else s[0] + Sum(s[1..])
  }

  lemma {:induction false} SumAppend(s: seq<i32>, t: seq<i32>)
    ensures Sum(s + t) == Sum(s) + Sum(t)
  {
    if s == [] {
      assert s + t == t;
    } else {
      SumAppend(s[1..], t);
      assert (s + t)[1..] == s[1..] + t;
    }
  }

  lemma {:induction false} SumOfPermutation(s: seq<i32>, t: seq<i32>)
    requires multiset(s) == multiset(t)
    ensures Sum(s) == Sum(t)
  {
    hide Sum;
    if s == [] {
      assert t == [] by { assert |multiset(t)| == |t|; }
    } else {
      var i := Occurrence(s[0], s, t);
      RestPermutes(s, t, i);
      SumWithout(t, i);
      SumCons(s[0], s[1..]);
      assert s == [s[0]] + s[1..];
      SumOfPermutation(s[1..], t[..i] + t[i + 1..]);
    }
  }

  lemma Occurrence(v: i32, s: seq<i32>, t: seq<i32>) returns (i: nat)
    requires v in s && multiset(s) == multiset(t)
    ensures i < |t| && t[i] == v
  {
    assert v in multiset(t);
    i :| 0 <= i < |t| && t[i] == v;
  }

  /** Take the same element out of both, and they still hold the same. */
  lemma RestPermutes(s: seq<i32>, t: seq<i32>, i: nat)
    requires s != [] && i < |t| && multiset(s) == multiset(t) && t[i] == s[0]
    ensures multiset(s[1..]) == multiset(t[..i] + t[i + 1..])
  {
    var front, back := t[..i], t[i + 1..];
    assert t == front + ([t[i]] + back);
    BagWithout(front, t[i], back);
    assert s == [] + ([s[0]] + s[1..]) && s[1..] == [] + s[1..];
    BagWithout([], s[0], s[1..]);
  }

  lemma SumWithout(t: seq<i32>, i: nat)
    requires i < |t|
    ensures Sum(t) == t[i] + Sum(t[..i] + t[i + 1..])
  {
    hide Sum;
    var front, back := t[..i], t[i + 1..];
    assert t == front + ([t[i]] + back);
    SumAppend(front, [t[i]] + back);
    SumAppend(front, back);
    SumCons(t[i], back);
  }

  lemma SumCons(v: i32, s: seq<i32>)
    ensures Sum([v] + s) == v + Sum(s)
  {
    assert ([v] + s)[1..] == s;
  }

  lemma BagWithout(front: seq<i32>, v: i32, back: seq<i32>)
    ensures multiset(front + back) == multiset(front + ([v] + back)) - multiset{v}
  {
  }

  lemma BoxParts(s: Vec, t: Vec)
    ensures VecInBox(s + t) <==> VecInBox(s) && VecInBox(t)
  {
    if VecInBox(s + t) {
      forall i | 0 <= i < |s| ensures InBox(s[i]) { assert (s + t)[i] == s[i]; }
      forall i | 0 <= i < |t| ensures InBox(t[i]) { assert (s + t)[|s| + i] == t[i]; }
    }
  }

  lemma {:induction false} ReduceExact(t: Reduction)
    requires VecInBox(Leaves(t)) && |Leaves(t)| <= INPUT + 1
    ensures Reduce(t) == Sum(Leaves(t))
    ensures Abs(Reduce(t)) <= |Leaves(t)| * 0x8_0000
  {
    match t
    case Leaf(v) => assert Leaves(t)[0] == v;
    case Plus(l, r) =>
      BoxParts(Leaves(l), Leaves(r));
      SumAppend(Leaves(l), Leaves(r));
      ReduceExact(l);
      ReduceExact(r);
  }

  function Terms(w: Vec, row: nat, x: Vec, k: nat): seq<i32>
    requires row + k <= |w| && k <= |x|
  {
    seq(k, i requires 0 <= i < k => QMul(w[row + i], x[i]))
  }

  lemma {:induction false} ExactDotIsSum(s: i32, w: Vec, row: nat, x: Vec, k: nat)
    requires row + k <= |w| && k <= |x|
    requires VecInBox(w) && Pixels(x)
    ensures ExactDot(s, w, row, x, k) == Sum([s] + Terms(w, row, x, k))
  {
    hide QMul, Floored;
    if k == 0 {
      assert [s] + Terms(w, row, x, 0) == [s];
    } else {
      ExactDotIsSum(s, w, row, x, k - 1);
      PixelProduct(w[row + k - 1], x[k - 1]);
      var last := QMul(w[row + k - 1], x[k - 1]);
      assert [s] + Terms(w, row, x, k) == ([s] + Terms(w, row, x, k - 1)) + [last];
      SumAppend([s] + Terms(w, row, x, k - 1), [last]);
    }
  }

  /** A first-layer unit comes out the same however its 785 addends are ordered and bracketed. */
  lemma LayerOneAnyOrder(s: i32, w: Vec, row: nat, x: Vec, t: Reduction)
    requires |x| == INPUT && row + INPUT <= |w|
    requires VecInBox(w) && Pixels(x) && InBox(s)
    requires multiset(Leaves(t)) == multiset([s] + Terms(w, row, x, INPUT))
    ensures Reduce(t) == Dot(s, w, row, x, INPUT)
  {
    hide QMul, Floored, VecInBox, Terms, Dot, ExactDot, Reduce, Leaves, Sum;
    var addends := [s] + Terms(w, row, x, INPUT);
    AddendsInBox(s, w, row, x, INPUT);
    PermutationInBox(Leaves(t), addends);
    ReduceExact(t);
    SumOfPermutation(Leaves(t), addends);
    ExactDotIsSum(s, w, row, x, INPUT);
    LayerOneExact(s, w, row, x, INPUT);
  }

  lemma AddendsInBox(s: i32, w: Vec, row: nat, x: Vec, k: nat)
    requires row + k <= |w| && k <= |x|
    requires VecInBox(w) && Pixels(x) && InBox(s)
    ensures VecInBox([s] + Terms(w, row, x, k)) && |[s] + Terms(w, row, x, k)| == k + 1
  {
    hide QMul, Floored;
    var addends := [s] + Terms(w, row, x, k);
    forall i | 0 <= i < |addends| ensures InBox(addends[i]) {
      if i > 0 { PixelProduct(w[row + i - 1], x[i - 1]); }
    }
  }

  lemma PermutationInBox(s: seq<i32>, t: seq<i32>)
    requires multiset(s) == multiset(t) && VecInBox(t)
    ensures VecInBox(s) && |s| == |t|
  {
    forall i | 0 <= i < |s| ensures InBox(s[i]) {
      assert s[i] in multiset(t);
    }
    assert |s| == |multiset(s)| == |t|;
  }

  /** Every first-layer pre-activation of a boxed network is the exact integer sum. */
  lemma ForwardLayerOneExact(m: Net, x: Vec, j: nat)
    requires |x| == INPUT && NetInBox(m) && Pixels(x) && j < H1
    ensures j * INPUT + INPUT <= N_W1
    ensures Forward(m, x).pre1[j] == ExactDot(m.b1[j], m.w1, j * INPUT, x, INPUT)
  {
    hide QMul, Floored;
    RowFits(j, H1, INPUT);
    LayerOneExact(m.b1[j], m.w1, j * INPUT, x, INPUT);
  }

  // ---------- loss ----------

  function ExactLoss(d: Vec, k: nat): int
    requires k <= |d|
  {
    if k == 0 then 0 else ExactLoss(d, k - 1) + Floored(d[k - 1], d[k - 1])
  }

  /** How many of the first k classes are the labelled one: 0 or 1. */
  function Hits(y: byte, k: nat): nat { if y < k then 1 else 0 }

  lemma ErrorSize(out: Vec, y: byte, c: nat)
    requires c < |out|
    ensures OutputError(out, y)[c] == ClampQ(out[c]) - Target(c, y)
    ensures Abs(OutputError(out, y)[c]) <= if c == y then 9 * 0x1_0000 else 8 * 0x1_0000
  {
  }

  lemma SquareSize(e: i32, n: nat)
    requires Abs(e) <= n * 0x1_0000 && n <= 9
    ensures QMul(e, e) == Floored(e, e) && 0 <= QMul(e, e) <= n * n * 0x1_0000
  {
    var bound := n * 0x1_0000;
    assert bound * bound == (n * n * 0x1_0000) * 0x1_0000;
    assert n * n <= 9 * n;
    QMulExact(e, e, bound, bound, n * n * 0x1_0000);
    assert e * e >= 0;
  }

  /** The loss is the exact sum of floored squares, never negative, at most 657 (640 if no class is labelled). */
  lemma {:induction false} LossExact(out: Vec, y: byte, k: nat)
    requires k <= |out| && k <= OUT
    ensures var d := OutputError(out, y);
      && SquaredLoss(d, k) == ExactLoss(d, k)
      && 0 <= SquaredLoss(d, k) <= (64 * k + 17 * Hits(y, k)) * 0x1_0000
  {
    hide QMul, Floored, OutputError;
    var d := OutputError(out, y);
    if k > 0 {
      LossExact(out, y, k - 1);
      ErrorSize(out, y, k - 1);
      SquareSize(d[k - 1], if k - 1 == y then 9 else 8);
    }
  }

  lemma StepLossBound(m: Net, x: Vec, y: byte)
    requires |x| == INPUT
    ensures 0 <= StepLoss(m, x, y) <= (if y < OUT then 657 else 640) * ONE
    ensures StepLoss(m, x, y) == ExactLoss(OutputError(Forward(m, x).out, y), OUT)
  {
    hide Forward, OutputError;
    LossExact(Forward(m, x).out, y, OUT);
  }

  // ---------- backward ----------

  function ExactColumn(w: Vec, cols: nat, g: Vec, i: nat, k: nat): int
    requires |w| == |g| * cols && i < cols && k <= |g|
  {
    if k == 0 then 0
    else
      RowFits(k - 1, |g|, cols);
      ExactColumn(w, cols, g, i, k - 1) + Floored(g[k - 1], w[(k - 1) * cols + i])
  }

  lemma ErrorTimesWeight(g: i32, w: i32, n: nat)
    requires Abs(g) <= n * 0x1_0000 && n <= 9 && InBox(w)
    ensures QMul(g, w) == Floored(g, w) && Abs(QMul(g, w)) <= 8 * n * 0x1_0000
  {
    QMulExact(g, w, n * 0x1_0000, 0x8_0000, 8 * n * 0x1_0000);
  }

  /** The error reaching the second hidden layer never saturates: an exact sum of at most 648. */
  lemma {:induction false} HiddenTwoErrorExact(w: Vec, cols: nat, out: Vec, y: byte, i: nat, k: nat)
    requires |w| == |out| * cols && i < cols && k <= |out| <= OUT && VecInBox(w)
    ensures var g := OutputError(out, y);
      && ColumnDot(w, cols, g, i, k) == ExactColumn(w, cols, g, i, k)
      && Abs(ColumnDot(w, cols, g, i, k)) <= (64 * k + 8 * Hits(y, k)) * 0x1_0000
  {
    hide QMul, Floored, OutputError;
    var g := OutputError(out, y);
    if k > 0 {
      HiddenTwoErrorExact(w, cols, out, y, i, k - 1);
      RowFits(k - 1, |out|, cols);
      ErrorSize(out, y, k - 1);
      ErrorTimesWeight(g[k - 1], w[(k - 1) * cols + i], if k - 1 == y then 9 else 8);
    }
  }

  /** The second hidden layer's error, for a boxed network: exact where the unit fired, else zero. */
  lemma BackwardLayerTwoExact(m: Net, x: Vec, y: byte, j: nat)
    requires |x| == INPUT && NetInBox(m) && j < H2
    ensures var p := Forward(m, x);
      var e := BackwardPass(m, p, y);
      && e.d2[j] == (if p.pre2[j] <= 0 then 0 else ExactColumn(m.w3, H2, e.d3, j, OUT))
      && Abs(e.d2[j]) <= 648 * 0x1_0000
  {
    hide Dense, QMul, Floored, OutputError;
    HiddenTwoErrorExact(m.w3, H2, Forward(m, x).out, y, j, OUT);
  }

  /** First-layer weight gradients never truncate, even when the error behind them has saturated. */
  lemma LayerOneGradientExact(g: Vec, x: Vec, k: nat)
    requires k < |g| * |x| && Pixels(x)
    ensures |x| > 0 && k / |x| < |g| && Outer(g, x, k) == Floored(g[k / |x|], x[k % |x|])
  {
    OuterIndex(k, |g|, |x|);
    var a, b := g[k / |x|], x[k % |x|];
    assert 0 <= b <= ONE;
    ShrinkingProduct(a, b);
  }

  lemma ProductBetween(a: int, b: nat, cap: nat)
    requires b <= cap
    ensures if a >= 0 then 0 <= a * b <= a * cap else a * cap <= a * b <= 0
  {
    assert a * (cap - b) == a * cap - a * b;
    if a >= 0 {
      assert a * (cap - b) >= 0;
    } else {
      assert a * (cap - b) <= 0;
    }
  }

  lemma ShrinkingProduct(a: i32, b: i32)
    requires 0 <= b <= ONE
    ensures QMul(a, b) == Floored(a, b)
  {
    ProductBetween(a, b, 0x1_0000);
    var p := a * b;
    assert if a >= 0 then 0 <= p / 0x1_0000 <= a else a <= p / 0x1_0000 <= 0;
  }

  /** So a job's first-layer update is integer arithmetic with two floors and one clamp. */
  lemma FirstLayerUpdateExact(m: Net, x: Vec, y: byte, lr: i32, k: nat)
    requires |x| == INPUT && Pixels(x) && 0 <= lr <= 0x8000 && k < N_W1
    ensures var e := BackwardPass(m, Forward(m, x), y);
      && k / INPUT < H1
      && Step(m, x, y, lr).w1[k]
         == Clamp(m.w1[k] - Floored(lr, Floored(e.d1[k / INPUT], x[k % INPUT])), -BOX, BOX)
  {
    hide Forward, BackwardPass, QMul, Nudge;
    var e := BackwardPass(m, Forward(m, x), y);
    LayerOneGradientExact(e.d1, x, k);
    NudgeIsDescent(m.w1[k], lr, Outer(e.d1, x, k));
  }

  // ---------- where exactness ends ----------

  /** A second-layer product is exact for every boxed weight just when the activation is below 4096. */
  lemma LayerTwoExactIff(h: i32)
    requires h >= 0
    ensures (forall w: i32 :: InBox(w) ==> QMul(w, h) == Floored(w, h)) <==> h < 0x1000_0000
  {
    if h < 0x1000_0000 {
      forall w: i32 | InBox(w) ensures QMul(w, h) == Floored(w, h) {
        QMulExact(w, h, 0x8_0000, 0xFFF_FFFF, 0x7FFF_FFF8);
      }
    } else {
      assert InBox(BOX);
      assert Floored(BOX, h) == 8 * h;
      assert QMul(BOX, h) != Floored(BOX, h);
    }
  }

  /** All weights and biases at the top of the box; all pixels white. */
  function FullNet(): Net {
    Model(seq(N_W1, _ => BOX), seq(H1, _ => BOX), seq(N_W2, _ => BOX),
          seq(H2, _ => BOX), seq(N_W3, _ => BOX), seq(OUT, _ => BOX))
  }

  lemma {:induction false} ConstantDot(w: Vec, row: nat, x: Vec, k: nat)
    requires row + k <= |w| && k <= |x| && k <= INPUT
    requires (forall i :: 0 <= i < |w| ==> w[i] == BOX) && forall i :: 0 <= i < |x| ==> x[i] == ONE
    ensures Dot(BOX, w, row, x, k) == (k + 1) * 0x8_0000
  {
    if k > 0 {
      ConstantDot(w, row, x, k - 1);
      assert QMul(BOX, ONE) == BOX;
    }
  }

  /** Boxed weights do not keep the second layer exact: here its products wrap. */
  lemma LayerTwoCanWrap()
    ensures NetInBox(FullNet()) && Pixels(seq(INPUT, _ => ONE))
    ensures Forward(FullNet(), seq(INPUT, _ => ONE)).act1[0] == 785 * 0x8_0000
    ensures QMul(FullNet().w2[0], 785 * 0x8_0000) != Floored(FullNet().w2[0], 785 * 0x8_0000)
  {
    hide Dense;
    var m, x := FullNet(), seq(INPUT, _ => ONE);
    FullFirstUnit(m, x);
  }

  lemma FullFirstUnit(m: Net, x: Vec)
    requires m == FullNet() && x == seq(INPUT, _ => ONE)
    ensures Dense(m.w1, m.b1, x)[0] == 785 * 0x8_0000
  {
    ConstantDot(m.w1, 0, x, INPUT);
  }

  // ---------- one whole step ----------

  ghost predicate PreExact(m: Net, x: Vec, j: nat)
    requires |x| == INPUT && j < H1
  {
    j * INPUT + INPUT <= N_W1 && Forward(m, x).pre1[j] == ExactDot(m.b1[j], m.w1, j * INPUT, x, INPUT)
  }

  ghost predicate ErrorExact(m: Net, x: Vec, y: byte, j: nat)
    requires |x| == INPUT && j < H2
  {
    var p := Forward(m, x);
    var e := BackwardPass(m, p, y);
    e.d2[j] == if p.pre2[j] <= 0 then 0 else ExactColumn(m.w3, H2, e.d3, j, OUT)
  }

  ghost predicate UpdateExact(m: Net, x: Vec, y: byte, lr: i32, k: nat)
    requires |x| == INPUT && k < N_W1
  {
    var e := BackwardPass(m, Forward(m, x), y);
    && k / INPUT < H1
    && Step(m, x, y, lr).w1[k]
       == Clamp(m.w1[k] - Floored(lr, Floored(e.d1[k / INPUT], x[k % INPUT])), -BOX, BOX)
  }

  /**
   All of a step that is exact for every boxed network: layer one, the loss, the error of layer two,
   the first update.
   */
  ghost predicate StepExact(m: Net, x: Vec, y: byte, lr: i32)
    requires |x| == INPUT
  {
    && (forall j :: 0 <= j < H1 ==> PreExact(m, x, j))
    && StepLoss(m, x, y) == ExactLoss(OutputError(Forward(m, x).out, y), OUT)
    && 0 <= StepLoss(m, x, y) <= 657 * 0x1_0000
    && (forall j :: 0 <= j < H2 ==> ErrorExact(m, x, y, j))
    && (forall k :: 0 <= k < N_W1 ==> UpdateExact(m, x, y, lr, k))
  }

  lemma StepIsExact(m: Net, x: Vec, y: byte, lr: i32)
    requires |x| == INPUT && NetInBox(m) && Pixels(x) && 0 <= lr <= 0x8000
    ensures StepExact(m, x, y, lr)
  {
    hide NetInBox, Pixels, Forward, ExactDot, ExactColumn;
    hide ExactLoss, StepLoss, OutputError, BackwardPass, Step, Floored;
    forall j | 0 <= j < H1 ensures PreExact(m, x, j) {
      ForwardLayerOneExact(m, x, j);
    }
    StepLossBound(m, x, y);
    forall j | 0 <= j < H2 ensures ErrorExact(m, x, y, j) {
      BackwardLayerTwoExact(m, x, y, j);
    }
    forall k | 0 <= k < N_W1 ensures UpdateExact(m, x, y, lr, k) {
      FirstLayerUpdateExact(m, x, y, lr, k);
    }
  }

  // ---------- what a step leaves alone ----------

  lemma ZeroGradient(w: i32, lr: i32)
    requires InBox(w)
    ensures Nudge(w, lr, 0) == w
  {
    QMulZero(lr);
  }

  /** A silent unit of the first hidden layer keeps its row, its bias and its column to the next layer. */
  lemma SilentUnitOne(m: Net, x: Vec, y: byte, lr: i32, j: nat)
    requires |x| == INPUT && NetInBox(m) && j < H1 && Forward(m, x).pre1[j] <= 0
    ensures var r := Step(m, x, y, lr);
      && r.b1[j] == m.b1[j]
      && (forall k :: j * INPUT <= k < j * INPUT + INPUT ==> r.w1[k] == m.w1[k])
      && (forall k :: 0 <= k < N_W2 && k % H1 == j ==> r.w2[k] == m.w2[k])
  {
    hide Dense, QMul, OutputError, Nudge;
    var p := Forward(m, x);
    var e := BackwardPass(m, p, y);
    assert e.d1[j] == 0 && p.act1[j] == 0;
    ZeroGradient(m.b1[j], lr);
    forall k | j * INPUT <= k < j * INPUT + INPUT
      ensures Step(m, x, y, lr).w1[k] == m.w1[k]
    {
      QMulZero(x[k % INPUT]);
      ZeroGradient(m.w1[k], lr);
    }
    forall k | 0 <= k < N_W2 && k % H1 == j
      ensures Step(m, x, y, lr).w2[k] == m.w2[k]
    {
      QMulZero(e.d2[k / H1]);
      ZeroGradient(m.w2[k], lr);
    }
  }

  /** The same for the second hidden layer. */
  lemma SilentUnitTwo(m: Net, x: Vec, y: byte, lr: i32, j: nat)
    requires |x| == INPUT && NetInBox(m) && j < H2 && Forward(m, x).pre2[j] <= 0
    ensures var r := Step(m, x, y, lr);
      && r.b2[j] == m.b2[j]
      && (forall k :: j * H1 <= k < j * H1 + H1 ==> r.w2[k] == m.w2[k])
      && (forall k :: 0 <= k < N_W3 && k % H2 == j ==> r.w3[k] == m.w3[k])
  {
    hide Dense, QMul, OutputError, Nudge;
    var p := Forward(m, x);
    var e := BackwardPass(m, p, y);
    assert e.d2[j] == 0 && p.act2[j] == 0;
    ZeroGradient(m.b2[j], lr);
    forall k | j * H1 <= k < j * H1 + H1
      ensures Step(m, x, y, lr).w2[k] == m.w2[k]
    {
      QMulZero(p.act1[k % H1]);
      ZeroGradient(m.w2[k], lr);
    }
    forall k | 0 <= k < N_W3 && k % H2 == j
      ensures Step(m, x, y, lr).w3[k] == m.w3[k]
    {
      QMulZero(e.d3[k / H2]);
      ZeroGradient(m.w3[k], lr);
    }
  }

  /** A blank pixel leaves its whole column of the first layer alone. */
  lemma BlankPixel(m: Net, x: Vec, y: byte, lr: i32, i: nat)
    requires |x| == INPUT && NetInBox(m) && i < INPUT && x[i] == 0
    ensures forall k :: 0 <= k < N_W1 && k % INPUT == i ==> Step(m, x, y, lr).w1[k] == m.w1[k]
  {
    hide Forward, BackwardPass, QMul, Nudge;
    var e := BackwardPass(m, Forward(m, x), y);
    forall k | 0 <= k < N_W1 && k % INPUT == i
      ensures Step(m, x, y, lr).w1[k] == m.w1[k]
    {
      QMulZero(e.d1[k / INPUT]);
      ZeroGradient(m.w1[k], lr);
    }
  }
}
