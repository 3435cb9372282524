/**
 A training step on a network that is one path: pixel i to unit j to unit l to class c, every other
 weight and every bias zero (crates/mesh-ai-v2/src/mlp.rs, `train_step`). Forward pass, chain rule and
 all 468874 new weights are written out in plain integers, for every path, image, label and rate.
 */
module Paths {
  import opened Machine
  import opened Q16
  import opened Network
  import opened Layers
  import opened Exactness
  import opened Targets

  /** Pixel, unit, unit, class, and the three weights between them. */
  datatype Path = Path(i: nat, j: nat, l: nat, c: nat, a: i32, b: i32, w: i32) {
    predicate Valid() { i < 784 && j < 512 && l < 128 && c < 10 && InBox(a) && InBox(b) && InBox(w) }
  }

  function Single(rows: nat, cols: nat, r: nat, col: nat, v: i32): (w: Vec)
    requires r < rows && col < cols
    ensures |w| == rows * cols
  {
    FlatIndex(r, col, rows, cols);
    Zeros(rows * cols)[r * cols + col := v]
  }

  function PathNet(p: Path): Net
    requires p.Valid()
  {
    Model(Single(512, 784, p.j, p.i, p.a), Zeros(512), Single(128, 512, p.l, p.j, p.b), Zeros(128),
          Single(10, 128, p.c, p.l, p.w), Zeros(10))
  }

  // ---------- sums with one term ----------

  lemma {:induction false} DotOfOne(w: Vec, row: nat, x: Vec, k: nat, at: nat)
    requires row + k <= |w| && k <= |x| && at < |w|
    requires forall t :: 0 <= t < |w| && t != at ==> w[t] == 0
    ensures Dot(0, w, row, x, k) == if row <= at < row + k then QMul(w[at], x[at - row]) else 0
  {
    hide QMul;
    if k > 0 {
      DotOfOne(w, row, x, k - 1, at);
      QMulZero(x[k - 1]);
    }
  }

  lemma DenseOfOne(rows: nat, cols: nat, r: nat, col: nat, v: i32, x: Vec)
    requires r < rows && col < cols && |x| == cols
    ensures Dense(Single(rows, cols, r, col, v), Zeros(rows), x)
         == seq(rows, j requires 0 <= j < rows => if j == r then QMul(v, x[col]) else 0)
  {
    hide QMul, Dot;
    var w := Single(rows, cols, r, col, v);
    FlatIndex(r, col, rows, cols);
    forall j | 0 <= j < rows
      ensures j * cols + cols <= rows * cols && Dot(0, w, j * cols, x, cols) == if j == r then QMul(v, x[col]) else 0
    {
      RowFits(j, rows, cols);
      DotOfOne(w, j * cols, x, cols, r * cols + col);
      if j < r {
        RowFits(j, r, cols);
      } else if j > r {
        RowFits(r, j, cols);
      }
    }
  }

  lemma {:induction false} ColumnOfOne(rows: nat, cols: nat, r: nat, col: nat, v: i32, g: Vec, k: nat)
    requires r < rows && col < cols && |g| == rows && k <= rows
    ensures ColumnDot(Single(rows, cols, r, col, v), cols, g, col, k) == if r < k then QMul(g[r], v) else 0
  {
    hide QMul;
    if k > 0 {
      ColumnOfOne(rows, cols, r, col, v, g, k - 1);
      RowFits(k - 1, rows, cols);
      FlatIndex(k - 1, col, rows, cols);
      FlatIndex(r, col, rows, cols);
      QMulZero(g[k - 1]);
    }
  }

  /** Of the error passed back through one weight, what a firing unit gets; no other unit fires. */
  lemma BackwardOfOne(rows: nat, cols: nat, r: nat, col: nat, v: i32, g: Vec, pre: Vec)
    requires r < rows && col < cols && |g| == rows && |pre| == cols
    requires forall i :: 0 <= i < cols ==> (pre[i] > 0 <==> i == col)
    ensures Backward(Single(rows, cols, r, col, v), g, pre)
         == seq(cols, i requires 0 <= i < cols => if i == col then QMul(g[r], v) else 0)
  {
    hide QMul, ColumnDot, Single;
    ColumnOfOne(rows, cols, r, col, v, g, rows);
  }

  // ---------- the step ----------

  /** A weight moved down its gradient at rate lr. */
  function Down(w: int, lr: int, grad: int): int { Clamp(w - (lr * grad) / 0x1_0000, -0x8_0000, 0x8_0000) }

  lemma MatrixDown(w: Vec, g: Vec, x: Vec, lr: i32, n: nat, h: nat, k: nat)
    requires |w| == |g| * |x| && k < |w| && 0 <= lr <= 0x8000 && n * h <= 0x7FFF
    requires forall t :: 0 <= t < |g| ==> Abs(g[t]) <= n * 0x1_0000
    requires forall t :: 0 <= t < |x| ==> Abs(x[t]) <= h * 0x1_0000
    ensures |x| > 0 && k / |x| < |g|
    ensures NudgeMatrix(w, g, x, lr)[k] == Down(w[k], lr, Floored(g[k / |x|], x[k % |x|]))
  {
    hide QMul, Nudge;
    OuterIndex(k, |g|, |x|);
    Scaled(n, h);
    QMulExact(g[k / |x|], x[k % |x|], n * 0x1_0000, h * 0x1_0000, n * h * 0x1_0000);
    NudgeIsDescent(w[k], lr, Outer(g, x, k));
  }

  lemma Scaled(n: nat, h: nat)
    ensures (n * 0x1_0000) * (h * 0x1_0000) == (n * h * 0x1_0000) * 0x1_0000
  {
    assert (n * 0x1_0000) * (h * 0x1_0000) == n * h * (0x1_0000 * 0x1_0000);
  }

  lemma VectorDown(b: Vec, g: Vec, lr: i32, k: nat)
    requires |b| == |g| && k < |b| && 0 <= lr <= 0x8000
    ensures NudgeVector(b, g, lr)[k] == Down(b[k], lr, g[k])
  {
    hide Nudge;
    NudgeIsDescent(b[k], lr, g[k]);
  }

  /** The signal along the path, one layer after the other. */
  function Signal1(p: Path, x: Vec): int requires p.Valid() && |x| == 784 { (p.a * x[p.i]) / 65536 }

  function Signal2(p: Path, x: Vec): int requires p.Valid() && |x| == 784 { (p.b * Signal1(p, x)) / 65536 }

  function Signal3(p: Path, x: Vec): int requires p.Valid() && |x| == 784 { (p.w * Signal2(p, x)) / 65536 }

  /** How far class k is from where the label wants it, and what of that comes back along the path. */
  function Blame3(p: Path, x: Vec, y: byte, k: nat): int
    requires p.Valid() && |x| == 784
  {
    Clamp(if k == p.c then Signal3(p, x) else 0, -0x8_0000, 0x8_0000) - if k == y then 65536 else 0
  }

  function Blame2(p: Path, x: Vec, y: byte): int
    requires p.Valid() && |x| == 784
  {
    (Blame3(p, x, y, p.c) * p.w) / 65536
  }

  function Blame1(p: Path, x: Vec, y: byte): int
    requires p.Valid() && |x| == 784
  {
    (Blame2(p, x, y) * p.b) / 65536
  }

  ghost predicate Fires(p: Path, x: Vec) {
    p.Valid() && |x| == 784 && Pixels(x) && Signal1(p, x) > 0 && Signal2(p, x) > 0
  }

  ghost predicate Only(v: Vec, k: nat, s: int) { forall t :: 0 <= t < |v| ==> v[t] == if t == k then s else 0 }

  lemma SignalSizes(p: Path, x: Vec)
    requires Fires(p, x)
    ensures 0 < Signal1(p, x) <= 8 * 0x1_0000 && Signal1(p, x) == QMul(p.a, x[p.i])
    ensures 0 < Signal2(p, x) <= 64 * 0x1_0000 && Signal2(p, x) == QMul(p.b, Signal1(p, x))
    ensures Abs(Signal3(p, x)) <= 512 * 0x1_0000 && Signal3(p, x) == QMul(p.w, Signal2(p, x))
  {
    hide QMul;
    QMulExact(p.a, x[p.i], 0x8_0000, 0x1_0000, 8 * 0x1_0000);
    QMulExact(p.b, Signal1(p, x), 0x8_0000, 8 * 0x1_0000, 64 * 0x1_0000);
    QMulExact(p.w, Signal2(p, x), 0x8_0000, 64 * 0x1_0000, 512 * 0x1_0000);
  }

  lemma BlameSizes(p: Path, x: Vec, y: byte)
    requires Fires(p, x)
    ensures forall k :: Abs(Blame3(p, x, y, k)) <= 9 * 0x1_0000
    ensures Abs(Blame2(p, x, y)) <= 72 * 0x1_0000 && Blame2(p, x, y) == QMul(Blame3(p, x, y, p.c), p.w)
    ensures Abs(Blame1(p, x, y)) <= 576 * 0x1_0000 && Blame1(p, x, y) == QMul(Blame2(p, x, y), p.b)
  {
    hide QMul, Signal3;
    QMulExact(Blame3(p, x, y, p.c), p.w, 9 * 0x1_0000, 0x8_0000, 72 * 0x1_0000);
    QMulExact(Blame2(p, x, y), p.b, 72 * 0x1_0000, 0x8_0000, 576 * 0x1_0000);
  }

  /** The forward pass carries the signal along the path and nothing anywhere else. */
  lemma ForwardAlongPath(p: Path, x: Vec)
    requires Fires(p, x)
    ensures var f := Forward(PathNet(p), x);
      && Only(f.pre1, p.j, Signal1(p, x)) && Only(f.act1, p.j, Signal1(p, x))
      && Only(f.pre2, p.l, Signal2(p, x)) && Only(f.act2, p.l, Signal2(p, x))
      && Only(f.out, p.c, Signal3(p, x))
  {
    hide QMul, Dense, Single, Signal1, Signal2, Signal3;
    SignalSizes(p, x);
    DenseOfOne(512, 784, p.j, p.i, p.a, x);
    DenseOfOne(128, 512, p.l, p.j, p.b, Forward(PathNet(p), x).act1);
    DenseOfOne(10, 128, p.c, p.l, p.w, Forward(PathNet(p), x).act2);
  }

  /** The backward pass carries the blame back along the path and nothing anywhere else. */
  lemma BackwardAlongPath(p: Path, x: Vec, y: byte)
    requires Fires(p, x)
    ensures var e := BackwardPass(PathNet(p), Forward(PathNet(p), x), y);
      && (forall k :: 0 <= k < 10 ==> e.d3[k] == Blame3(p, x, y, k))
      && Only(e.d2, p.l, Blame2(p, x, y)) && Only(e.d1, p.j, Blame1(p, x, y))
  {
    hide QMul, Single, Backward, Signal1, Signal2, Signal3, Forward;
    SignalSizes(p, x);
    BlameSizes(p, x, y);
    ForwardAlongPath(p, x);
    var f := Forward(PathNet(p), x);
    var e := BackwardPass(PathNet(p), f, y);
    forall k | 0 <= k < 10 ensures e.d3[k] == Blame3(p, x, y, k) {
      ErrorIsMiss(PathNet(p), x, y, k);
    }
    BackwardOfOne(10, 128, p.c, p.l, p.w, e.d3, f.pre2);
    BackwardOfOne(128, 512, p.l, p.j, p.b, e.d2, f.pre1);
  }

  /**
   Every weight after the step: those on the way of the blame move down blame times signal, at the rate of
   the job, and all others stay. Weight k of a matrix is that of row k / columns and column k % columns.
   */
  lemma StepAlongPath(p: Path, x: Vec, y: byte, lr: i32)
    requires Fires(p, x) && 0 <= lr <= 0x8000
    ensures var m, r := PathNet(p), Step(PathNet(p), x, y, lr);
      var h1, h2, e2, e1 := Signal1(p, x), Signal2(p, x), Blame2(p, x, y), Blame1(p, x, y);
      && (forall k :: 0 <= k < 10 ==> r.b3[k] == Down(0, lr, Blame3(p, x, y, k)))
      && (forall k :: 0 <= k < 128 ==> r.b2[k] == Down(0, lr, if k == p.l then e2 else 0))
      && (forall k :: 0 <= k < 512 ==> r.b1[k] == Down(0, lr, if k == p.j then e1 else 0))
      && (forall k :: 0 <= k < 1280 ==>
            r.w3[k] == Down(m.w3[k], lr, if k % 128 == p.l then (Blame3(p, x, y, k / 128) * h2) / 65536 else 0))
      && (forall k :: 0 <= k < 65536 ==>
            r.w2[k] == Down(m.w2[k], lr, if k == p.l * 512 + p.j then (e2 * h1) / 65536 else 0))
      && (forall k :: 0 <= k < 401408 ==>
            r.w1[k] == Down(m.w1[k], lr, if k / 784 == p.j then Floored(e1, x[k % 784]) else 0))
  {
    hide QMul, Single, Signal1, Signal2, Signal3, Blame1, Blame2, Blame3, Forward, BackwardPass, NudgeMatrix;
    hide NudgeVector, Down;
    SignalSizes(p, x);
    BlameSizes(p, x, y);
    ForwardAlongPath(p, x);
    BackwardAlongPath(p, x, y);
    var m, f := PathNet(p), Forward(PathNet(p), x);
    var e := BackwardPass(m, f, y);
    forall k | 0 <= k < 10 ensures NudgeVector(m.b3, e.d3, lr)[k] == Down(0, lr, Blame3(p, x, y, k)) {
      VectorDown(m.b3, e.d3, lr, k);
    }
    forall k | 0 <= k < 128
      ensures NudgeVector(m.b2, e.d2, lr)[k] == Down(0, lr, if k == p.l then Blame2(p, x, y) else 0)
    {
      VectorDown(m.b2, e.d2, lr, k);
    }
    forall k | 0 <= k < 512
      ensures NudgeVector(m.b1, e.d1, lr)[k] == Down(0, lr, if k == p.j then Blame1(p, x, y) else 0)
    {
      VectorDown(m.b1, e.d1, lr, k);
    }
    forall k | 0 <= k < 1280
      ensures NudgeMatrix(m.w3, e.d3, f.act2, lr)[k]
           == Down(m.w3[k], lr, if k % 128 == p.l then (Blame3(p, x, y, k / 128) * Signal2(p, x)) / 65536 else 0)
    {
      MatrixDown(m.w3, e.d3, f.act2, lr, 9, 64, k);
    }
    forall k | 0 <= k < 65536
      ensures NudgeMatrix(m.w2, e.d2, f.act1, lr)[k]
           == Down(m.w2[k], lr, if k == p.l * 512 + p.j then (Blame2(p, x, y) * Signal1(p, x)) / 65536 else 0)
    {
      MatrixDown(m.w2, e.d2, f.act1, lr, 72, 8, k);
      assert k == p.l * 512 + p.j <==> k / 512 == p.l && k % 512 == p.j;
    }
    forall k | 0 <= k < 401408
      ensures NudgeMatrix(m.w1, e.d1, x, lr)[k]
           == Down(m.w1[k], lr, if k / 784 == p.j then Floored(Blame1(p, x, y), x[k % 784]) else 0)
    {
      MatrixDown(m.w1, e.d1, x, lr, 576, 1, k);
    }
  }
}
