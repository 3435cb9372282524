/**
 The mlp512 network 784 -> 512 -> 128 -> 10 and one step of gradient descent on it, as
 mathematics: every gradient is an expression over the weights *before* the step and every
 weight moves at once. The CPU and CUDA trainers are proved against `Step`.

 Weight matrices are row-major: entry k of a matrix with `cols` columns is in row k / cols
 and column k % cols.
 */
module Network {
  import opened Machine
  import opened Q16

  const INPUT: nat := 784
  const H1: nat := 512
  const H2: nat := 128
  const OUT: nat := 10

  const N_W1: nat := 401408
  const N_W2: nat := 65536
  const N_W3: nat := 1280
  const N_WEIGHTS: nat := 468874

  type Vec = seq<i32>

  datatype Model = Model(w1: Vec, b1: Vec, w2: Vec, b2: Vec, w3: Vec, b3: Vec) {
    predicate Sized() {
      && |w1| == N_W1 && |b1| == H1
      && |w2| == N_W2 && |b2| == H2
      && |w3| == N_W3 && |b3| == OUT
    }
  }

  type Net = m: Model | m.Sized()
    witness Model(Zeros(N_W1), Zeros(H1), Zeros(N_W2), Zeros(H2), Zeros(N_W3), Zeros(OUT))

  function Zeros(n: nat): Vec { seq(n, _ => 0) }

  // ---------- one flat vector ----------

  /** Section boundaries of the flat buffer: w1 b1 w2 b2 w3 b3. */
  const AT_B1: nat := N_W1
  const AT_W2: nat := AT_B1 + H1
  const AT_B2: nat := AT_W2 + N_W2
  const AT_W3: nat := AT_B2 + H2
  const AT_B3: nat := AT_W3 + N_W3

  function Split(f: Vec): (m: Net)
    requires |f| == N_WEIGHTS
  {
    Model(f[..AT_B1], f[AT_B1..AT_W2], f[AT_W2..AT_B2], f[AT_B2..AT_W3], f[AT_W3..AT_B3], f[AT_B3..])
  }

  function Join(m: Net): (f: Vec)
    ensures |f| == N_WEIGHTS
  {
    m.w1 + m.b1 + m.w2 + m.b2 + m.w3 + m.b3
  }

  lemma SplitJoin(m: Net, f: Vec)
    requires |f| == N_WEIGHTS
    ensures Split(Join(m)) == m
    ensures Join(Split(f)) == f
  {
    var j := Join(m);
    assert j[..AT_B1] == m.w1;
    assert j[AT_B1..AT_W2] == m.b1;
    assert j[AT_W2..AT_B2] == m.w2;
    assert j[AT_B2..AT_W3] == m.b2;
    assert j[AT_W3..AT_B3] == m.w3;
    assert j[AT_B3..] == m.b3;
  }

  // ---------- forward ----------

  /** `s` plus the first k products of a matrix row with x, each addition saturating in turn. */
  function Dot(s: i32, w: Vec, row: nat, x: Vec, k: nat): i32
    requires row + k <= |w| && k <= |x|
  {
    if k == 0 then s else QAdd(Dot(s, w, row, x, k - 1), QMul(w[row + k - 1], x[k - 1]))
  }

  lemma RowFits(j: nat, rows: nat, cols: nat)
    requires j < rows
    ensures 0 <= j * cols && j * cols + cols <= rows * cols
  {
    assert (j + 1) * cols <= rows * cols;
  }

  function Dense(w: Vec, b: Vec, x: Vec): (y: Vec)
    requires |w| == |b| * |x|
    ensures |y| == |b|
  {
    seq(|b|, j requires 0 <= j < |b| => RowFits(j, |b|, |x|); Dot(b[j], w, j * |x|, x, |x|))
  }

  function Relu(v: Vec): (r: Vec)
    ensures |r| == |v|
  {
    seq(|v|, j requires 0 <= j < |v| => QRelu(v[j]))
  }

  function Boxed(v: Vec): (r: Vec)
    ensures |r| == |v|
  {
    seq(|v|, j requires 0 <= j < |v| => ClampQ(v[j]))
  }

  /** Pre-activations and activations of every layer on one input. */
  datatype Pass = Pass(pre1: Vec, act1: Vec, pre2: Vec, act2: Vec, out: Vec)

  function Forward(m: Net, x: Vec): (p: Pass)
    requires |x| == INPUT
    ensures |p.pre1| == |p.act1| == H1 && |p.pre2| == |p.act2| == H2 && |p.out| == OUT
  {
    var pre1 := Dense(m.w1, m.b1, x);
    var act1 := Relu(pre1);
    var pre2 := Dense(m.w2, m.b2, act1);
    var act2 := Relu(pre2);
    Pass(pre1, act1, pre2, act2, Dense(m.w3, m.b3, act2))
  }

  // ---------- loss ----------

  function Target(c: nat, y: byte): i32 { if c == y then ONE else 0 }

  /** Output error, which is also the gradient at the logits. */
  function OutputError(out: Vec, y: byte): (d: Vec)
    ensures |d| == |out|
  {
    seq(|out|, c requires 0 <= c < |out| => QSub(ClampQ(out[c]), Target(c, y)))
  }

  function SquaredLoss(d: Vec, k: nat): i32
    requires k <= |d|
  {
    if k == 0 then 0 else QAdd(SquaredLoss(d, k - 1), QMul(d[k - 1], d[k - 1]))
  }

  // ---------- backward ----------

  /** Column i of the matrix against the first k entries of g. */
  function ColumnDot(w: Vec, cols: nat, g: Vec, i: nat, k: nat): i32
    requires |w| == |g| * cols && i < cols && k <= |g|
  {
    if k == 0 then 0
    else
      RowFits(k - 1, |g|, cols);
      QAdd(ColumnDot(w, cols, g, i, k - 1), QMul(g[k - 1], w[(k - 1) * cols + i]))
  }

  /** The error passed back through a matrix, cut off where the unit below was not firing. */
  function Backward(w: Vec, g: Vec, pre: Vec): (d: Vec)
    requires |w| == |g| * |pre|
    ensures |d| == |pre|
  {
    seq(|pre|, i requires 0 <= i < |pre| =>
      if pre[i] <= 0 then 0 else ColumnDot(w, |pre|, g, i, |g|))
  }

  // ---------- update ----------

  /** One weight moved against its gradient and put back in the box. */
  function Nudge(w: i32, lr: i32, grad: i32): i32 {
    ClampQ(QSub(w, QMul(lr, grad)))
  }

  /** Gradient of entry k of the matrix that turned x into errors g: the outer product. */
  function Outer(g: Vec, x: Vec, k: nat): i32
    requires k < |g| * |x|
  {
    OuterIndex(k, |g|, |x|);
    QMul(g[k / |x|], x[k % |x|])
  }

  lemma OuterIndex(k: nat, rows: nat, cols: nat)
    requires k < rows * cols
    ensures cols > 0 && k / cols < rows && k % cols < cols
  {
  }

  function NudgeMatrix(w: Vec, g: Vec, x: Vec, lr: i32): (r: Vec)
    requires |w| == |g| * |x|
    ensures |r| == |w|
  {
    seq(|w|, k requires 0 <= k < |w| => Nudge(w[k], lr, Outer(g, x, k)))
  }

  function NudgeVector(b: Vec, g: Vec, lr: i32): (r: Vec)
    requires |b| == |g|
    ensures |r| == |b|
  {
    seq(|b|, k requires 0 <= k < |b| => Nudge(b[k], lr, g[k]))
  }

  datatype Errors = Errors(d1: Vec, d2: Vec, d3: Vec)

  function BackwardPass(m: Net, p: Pass, y: byte): (e: Errors)
    requires |p.pre1| == H1 && |p.pre2| == H2 && |p.out| == OUT
    ensures |e.d1| == H1 && |e.d2| == H2 && |e.d3| == OUT
  {
    var d3 := OutputError(p.out, y);
    var d2 := Backward(m.w3, d3, p.pre2);
    var d1 := Backward(m.w2, d2, p.pre1);
    Errors(d1, d2, d3)
  }

  /** Every parameter block moved against its errors and its layer's input. */
  function Descended(m: Net, x: Vec, act1: Vec, act2: Vec, e: Errors, lr: i32): (r: Net)
    requires |x| == INPUT && |act1| == |e.d1| == H1 && |act2| == |e.d2| == H2 && |e.d3| == OUT
  {
    Model(NudgeMatrix(m.w1, e.d1, x, lr), NudgeVector(m.b1, e.d1, lr),
          NudgeMatrix(m.w2, e.d2, act1, lr), NudgeVector(m.b2, e.d2, lr),
          NudgeMatrix(m.w3, e.d3, act2, lr), NudgeVector(m.b3, e.d3, lr))
  }

  /** The whole step: all six parameter blocks move together, from the old weights. */
  function Step(m: Net, x: Vec, y: byte, lr: i32): (r: Net)
    requires |x| == INPUT
  {
    var p := Forward(m, x);
    Descended(m, x, p.act1, p.act2, BackwardPass(m, p, y), lr)
  }

  function StepLoss(m: Net, x: Vec, y: byte): i32
    requires |x| == INPUT
  {
    SquaredLoss(OutputError(Forward(m, x).out, y), OUT)
  }
}
