/**
 The loops both trainers are made of: the forward pass of a dense layer, the output error,
 and index arithmetic for row-major buffers.
 */
module Layers {
  import opened Machine
  import opened Q16
  import opened Network

  /** Flat index j * cols + i is row j, column i. */
  lemma FlatIndex(j: nat, i: nat, rows: nat, cols: nat)
    requires j < rows && i < cols
    ensures j * cols + i < rows * cols
    ensures (j * cols + i) / cols == j && (j * cols + i) % cols == i
  {
    RowFits(j, rows, cols);
    DivModUnique(j, i, cols);
  }

  /** The weight gradient as a whole matrix. */
  function OuterMatrix(g: Vec, x: Vec): (r: Vec)
    ensures |r| == |g| * |x|
  {
    seq(|g| * |x|, k requires 0 <= k < |g| * |x| => Outer(g, x, k))
  }

  lemma NudgeMatrixByOuter(w: Vec, g: Vec, x: Vec, lr: i32)
    requires |w| == |g| * |x|
    ensures NudgeVector(w, OuterMatrix(g, x), lr) == NudgeMatrix(w, g, x, lr)
  {
  }

  lemma OuterRow(g: Vec, x: Vec, c: nat, k: nat)
    requires c < |g| && c * |x| <= k < c * |x| + |x|
    ensures k < |g| * |x| && OuterMatrix(g, x)[k] == QMul(g[c], x[k - c * |x|])
  {
    FlatIndex(c, k - c * |x|, |g|, |x|);
  }

  /** A row product only sees its own section of the buffer. */
  lemma {:induction false} DotSection(s: i32, w: Vec, off: nat, len: nat, row: nat, x: Vec, k: nat)
    requires off + len <= |w| && row + k <= len && k <= |x|
    ensures Dot(s, w[off..off + len], row, x, k) == Dot(s, w, off + row, x, k)
  {
    if k > 0 {
      DotSection(s, w, off, len, row, x, k - 1);
    }
  }

  method DotRow(s0: i32, w: array<i32>, row: nat, x: array<i32>) returns (s: i32)
    requires row + x.Length <= w.Length
    ensures s == Dot(s0, w[..], row, x[..], x.Length)
  {
    s := s0;
    for i := 0 to x.Length
      invariant s == Dot(s0, w[..], row, x[..], i)
    {
      s := QAdd(s, QMul(w[row + i], x[i]));
    }
  }

  /** One dense layer: weights and biases at given offsets of their buffers. */
  method Layer(w: array<i32>, wOff: nat, b: array<i32>, bOff: nat, x: array<i32>, rows: nat)
    returns (pre: array<i32>, act: array<i32>)
    requires wOff + rows * x.Length <= w.Length && bOff + rows <= b.Length
    ensures fresh(pre) && fresh(act) && pre != act
    ensures pre[..] == Dense(w[wOff..wOff + rows * x.Length], b[bOff..bOff + rows], x[..])
    ensures act[..] == Relu(pre[..])
  {
    hide QMul, QAdd, Dot;
    var cols := x.Length;
    ghost var size := rows * cols;
    ghost var W, B, X := w[wOff..wOff + size], b[bOff..bOff + rows], x[..];
    ghost var D := Dense(W, B, X);
    pre, act := new i32[rows](_ => 0), new i32[rows](_ => 0);
    for j := 0 to rows
      invariant w[..] == old(w[..]) && b[..] == old(b[..]) && x[..] == X
      invariant forall l :: 0 <= l < j ==> pre[l] == D[l] && act[l] == QRelu(D[l])
    {
      RowFits(j, rows, cols);
      var s := DotRow(b[bOff + j], w, wOff + j * cols, x);
      DotSection(B[j], w[..], wOff, size, j * cols, X, cols);
      pre[j] := s;
      act[j] := QRelu(s);
    }
  }

  /** Squared-error loss and its gradient at the logits, which are clamped first. */
  method OutputLayer(out: array<i32>, y: byte) returns (loss: i32, d: array<i32>)
    ensures fresh(d) && d[..] == OutputError(out[..], y)
    ensures loss == SquaredLoss(d[..], |d[..]|)
  {
    hide QMul;
    loss := 0;
    d := new i32[out.Length](_ => 0);
    ghost var D := OutputError(out[..], y);
    for c := 0 to out.Length
      invariant forall l :: 0 <= l < c ==> d[l] == D[l]
      invariant loss == SquaredLoss(D, c)
    {
      var err := QSub(ClampQ(out[c]), Target(c, y));
      assert err == D[c];
      loss := QAdd(loss, QMul(err, err));
      d[c] := err;
    }
    assert d[..] == D;
  }

  /** Cut the passed-back error off below units that were not firing. */
  method MaskDead(d: array<i32>, pre: array<i32>)
    requires d.Length == pre.Length && d != pre
    modifies d
    ensures forall i :: 0 <= i < d.Length ==> d[i] == if pre[i] <= 0 then 0 else old(d[i])
  {
    for i := 0 to d.Length
      invariant forall l :: 0 <= l < i ==> d[l] == if pre[l] <= 0 then 0 else old(d[l])
      invariant forall l :: i <= l < d.Length ==> d[l] == old(d[l])
    {
      if pre[i] <= 0 {
        d[i] := 0;
      }
    }
  }
}
