/**
 The CUDA trainer (crates/mesh-ai-v2/cuda/brain_v2_train.cu): all parameters sit in one flat
 buffer, and each gradient is applied as soon as it is known, output layer first, so that a
 weight is overwritten while the backward pass is still running.

 The contract of the crate is that this matches the CPU trainer bit for bit.
 */
module TrainCuda {
  import opened Machine
  import opened Q16
  import opened Network
  import opened Layers

  /** Entry p of the buffer after the first `done` weights at wOff and `rows` biases at bOff moved. */
  function Moved(old0: Vec, wOff: nat, grad: Vec, done: nat, bOff: nat, g: Vec, rows: nat, lr: i32, p: nat): i32
    requires p < |old0| && done <= |grad| && rows <= |g|
  {
    if wOff <= p < wOff + done then Nudge(old0[p], lr, grad[p - wOff])
    else if bOff <= p < bOff + rows then Nudge(old0[p], lr, g[p - bOff])
    else old0[p]
  }

  /** Old buffer B0 became B1 by one fused layer update: these weights, these biases, nothing else. */
  ghost predicate LayerMoved(B0: Vec, B1: Vec, wOff: nat, grad: Vec, bOff: nat, g: Vec, lr: i32) {
    && |B1| == |B0|
    && forall p :: 0 <= p < |B0| ==> B1[p] == Moved(B0, wOff, grad, |grad|, bOff, g, |g|, lr, p)
  }

  lemma SectionsAfterLayer(B0: Vec, B1: Vec, wOff: nat, grad: Vec, bOff: nat, g: Vec, lr: i32)
    requires LayerMoved(B0, B1, wOff, grad, bOff, g, lr)
    requires wOff + |grad| <= bOff && bOff + |g| <= |B0|
    ensures B1[wOff..wOff + |grad|] == NudgeVector(B0[wOff..wOff + |grad|], grad, lr)
    ensures B1[bOff..bOff + |g|] == NudgeVector(B0[bOff..bOff + |g|], g, lr)
    ensures forall lo: nat, hi: nat :: lo <= hi <= wOff || bOff + |g| <= lo <= hi <= |B0| ==> B1[lo..hi] == B0[lo..hi]
  {
    hide Nudge;
    forall k | 0 <= k < |grad| ensures B1[wOff..wOff + |grad|][k] == Nudge(B0[wOff + k], lr, grad[k]) {
      assert B1[wOff + k] == Moved(B0, wOff, grad, |grad|, bOff, g, |g|, lr, wOff + k);
    }
    forall k | 0 <= k < |g| ensures B1[bOff..bOff + |g|][k] == Nudge(B0[bOff + k], lr, g[k]) {
      assert B1[bOff + k] == Moved(B0, wOff, grad, |grad|, bOff, g, |g|, lr, bOff + k);
    }
    assert B1[wOff..wOff + |grad|] == NudgeVector(B0[wOff..wOff + |grad|], grad, lr);
    assert B1[bOff..bOff + |g|] == NudgeVector(B0[bOff..bOff + |g|], g, lr);
  }

  /** Updating output layer, middle layer, input layer in turn is the simultaneous update. */
  lemma ThreeLayersMoved(B0: Vec, B1: Vec, B2: Vec, B3: Vec, x: Vec, act1: Vec, act2: Vec, e: Errors, lr: i32)
    requires |B0| == N_WEIGHTS
    requires |x| == INPUT && |act1| == |e.d1| == H1 && |act2| == |e.d2| == H2 && |e.d3| == OUT
    requires LayerMoved(B0, B1, AT_W3, OuterMatrix(e.d3, act2), AT_B3, e.d3, lr)
    requires LayerMoved(B1, B2, AT_W2, OuterMatrix(e.d2, act1), AT_B2, e.d2, lr)
    requires LayerMoved(B2, B3, 0, OuterMatrix(e.d1, x), AT_B1, e.d1, lr)
    ensures Split(B3) == Descended(Split(B0), x, act1, act2, e, lr)
  {
    hide Nudge, Outer, Moved;
    var m := Split(B0);
    SectionsAfterLayer(B0, B1, AT_W3, OuterMatrix(e.d3, act2), AT_B3, e.d3, lr);
    SectionsAfterLayer(B1, B2, AT_W2, OuterMatrix(e.d2, act1), AT_B2, e.d2, lr);
    SectionsAfterLayer(B2, B3, 0, OuterMatrix(e.d1, x), AT_B1, e.d1, lr);
    NudgeMatrixByOuter(m.w1, e.d1, x, lr);
    NudgeMatrixByOuter(m.w2, e.d2, act1, lr);
    NudgeMatrixByOuter(m.w3, e.d3, act2, lr);
  }

  /** One row: read each weight for the passed-back error, then overwrite it. */
  method DescendRow(buf: array<i32>, row: nat, g: i32, h: array<i32>, dh: array<i32>, lr: i32)
    requires row + h.Length <= buf.Length && dh.Length == h.Length
    requires buf !in {h, dh} && dh != h
    modifies buf, dh
    ensures forall p :: 0 <= p < buf.Length ==>
      buf[p] == if row <= p < row + h.Length then Nudge(old(buf[p]), lr, QMul(g, h[p - row])) else old(buf[p])
    ensures forall i :: 0 <= i < h.Length ==> dh[i] == QAdd(old(dh[i]), QMul(g, old(buf[row + i])))
  {
    hide QMul, QAdd, Nudge;
    for j := 0 to h.Length
      invariant forall p :: 0 <= p < buf.Length ==>
        buf[p] == if row <= p < row + j then Nudge(old(buf[p]), lr, QMul(g, h[p - row])) else old(buf[p])
      invariant forall i :: 0 <= i < j ==> dh[i] == QAdd(old(dh[i]), QMul(g, old(buf[row + i])))
      invariant forall i :: j <= i < h.Length ==> dh[i] == old(dh[i])
    {
      var dw := QMul(g, h[j]);
      dh[j] := QAdd(dh[j], QMul(g, buf[row + j]));
      buf[row + j] := Nudge(buf[row + j], lr, dw);
    }
  }

  /** The layer's update has come c rows far. */
  ghost predicate RowsMoved(B: Vec, buf: Vec, wOff: nat, O: Vec, row: nat, bOff: nat, G: Vec, c: nat, lr: i32) {
    && |buf| == |B| && row <= |O| && c <= |G|
    && forall p :: 0 <= p < |B| ==> buf[p] == Moved(B, wOff, O, row, bOff, G, c, lr, p)
  }

  /** The error passed down is complete for the first c rows of the old weights W. */
  ghost predicate ErrorAfter(dh: Vec, W: Vec, cols: nat, G: Vec, c: nat) {
    && |dh| == cols && |W| == |G| * cols && c <= |G|
    && forall i :: 0 <= i < cols ==> dh[i] == ColumnDot(W, cols, G, i, c)
  }

  lemma NothingMoved(B: Vec, wOff: nat, O: Vec, bOff: nat, G: Vec, lr: i32)
    ensures RowsMoved(B, B, wOff, O, 0, bOff, G, 0, lr)
  {
  }

  lemma NothingAdded(dh: Vec, W: Vec, cols: nat, G: Vec)
    requires |W| == |G| * cols && |dh| == cols && forall i :: 0 <= i < cols ==> dh[i] == 0
    ensures ErrorAfter(dh, W, cols, G, 0)
  {
  }

  /** One bias and one row of weights moved: the layer's update has come one row further. */
  lemma RowMoved(B: Vec, before: Vec, after: Vec, wOff: nat, O: Vec, row: nat, bOff: nat, G: Vec, H: Vec, c: nat,
                 lr: i32)
    requires RowsMoved(B, before, wOff, O, row, bOff, G, c, lr)
    requires |after| == |B| && |O| == |G| * |H| && O == OuterMatrix(G, H)
    requires c < |G| && row == c * |H| && row + |H| <= |O| && wOff + |O| <= bOff && bOff + |G| <= |B|
    requires forall p :: wOff + row <= p < wOff + row + |H| ==>
      after[p] == Nudge(before[p], lr, QMul(G[c], H[p - wOff - row]))
    requires after[bOff + c] == Nudge(before[bOff + c], lr, G[c])
    requires forall p :: 0 <= p < |B| && !(wOff + row <= p < wOff + row + |H|) && p != bOff + c ==>
      after[p] == before[p]
    ensures RowsMoved(B, after, wOff, O, row + |H|, bOff, G, c + 1, lr)
  {
    hide Nudge, QMul, OuterMatrix;
    forall p | 0 <= p < |B| ensures after[p] == Moved(B, wOff, O, row + |H|, bOff, G, c + 1, lr, p) {
      if wOff + row <= p < wOff + row + |H| {
        OuterRow(G, H, c, p - wOff);
      }
    }
  }

  /** The row about to be overwritten still holds the old weights. */
  lemma ErrorAdded(B: Vec, before: Vec, wOff: nat, O: Vec, row: nat, bOff: nat, G: Vec, c: nat, lr: i32,
                   W: Vec, cols: nat, dh0: Vec, dh1: Vec)
    requires RowsMoved(B, before, wOff, O, row, bOff, G, c, lr) && ErrorAfter(dh0, W, cols, G, c)
    requires |W| == |O| && |dh1| == cols
    requires c < |G| && row == c * cols && row + cols <= |O| && wOff + |O| <= bOff && bOff + |G| <= |B|
    requires W == B[wOff..wOff + |O|]
    requires forall i :: 0 <= i < cols ==> dh1[i] == QAdd(dh0[i], QMul(G[c], before[wOff + row + i]))
    ensures ErrorAfter(dh1, W, cols, G, c + 1)
  {
    hide QAdd, QMul, Nudge;
    forall i | 0 <= i < cols ensures dh1[i] == ColumnDot(W, cols, G, i, c + 1) {
      assert before[wOff + row + i] == B[wOff + row + i] == W[row + i];
    }
  }

  /** One output unit: its bias, then its row of weights, whose old values go into the error passed down. */
  method BackwardRow(buf: array<i32>, row: nat, bias: nat, g: i32, h: array<i32>, dh: array<i32>, lr: i32)
    requires row + h.Length <= bias < buf.Length && dh.Length == h.Length
    requires buf !in {h, dh} && dh != h
    modifies buf, dh
    ensures forall p :: row <= p < row + h.Length ==> buf[p] == Nudge(old(buf[p]), lr, QMul(g, h[p - row]))
    ensures buf[bias] == Nudge(old(buf[bias]), lr, g)
    ensures forall p :: 0 <= p < buf.Length && !(row <= p < row + h.Length) && p != bias ==> buf[p] == old(buf[p])
    ensures forall i :: 0 <= i < h.Length ==> dh[i] == QAdd(old(dh[i]), QMul(g, old(buf[row + i])))
  {
    hide QMul, QAdd, Nudge;
    buf[bias] := Nudge(buf[bias], lr, g);
    DescendRow(buf, row, g, h, dh, lr);
  }

  /** A layer's backward pass and update fused. The error passed down is that of the old weights. */
  method BackwardInPlace(buf: array<i32>, wOff: nat, bOff: nat,
                         g: array<i32>, h: array<i32>, pre: array<i32>, lr: i32)
    returns (dh: array<i32>)
    requires wOff + g.Length * h.Length <= bOff && bOff + g.Length <= buf.Length
    requires pre.Length == h.Length && buf !in {g, h, pre}
    modifies buf
    ensures fresh(dh)
    ensures dh[..] == Backward(old(buf[wOff..wOff + g.Length * h.Length]), g[..], pre[..])
    ensures LayerMoved(old(buf[..]), buf[..], wOff, OuterMatrix(g[..], h[..]), bOff, g[..], lr)
  {
    hide QMul, QAdd, Nudge, OuterMatrix, RowsMoved, ErrorAfter, Backward, LayerMoved, Moved, ColumnDot;
    var rows, cols := g.Length, h.Length;
    ghost var size := rows * cols;
    ghost var B, W, G, H := buf[..], buf[wOff..wOff + size], g[..], h[..];
    ghost var O := OuterMatrix(G, H);
    dh := new i32[cols](_ => 0);
    NothingMoved(B, wOff, O, bOff, G, lr);
    NothingAdded(dh[..], W, cols, G);
    var row := 0;
    for c := 0 to rows
      invariant row == c * cols <= |O|
      invariant RowsMoved(B, buf[..], wOff, O, row, bOff, G, c, lr)
      invariant ErrorAfter(dh[..], W, cols, G, c)
    {
      RowFits(c, rows, cols);
      ghost var before, dh0 := buf[..], dh[..];
      BackwardRow(buf, wOff + row, bOff + c, g[c], h, dh, lr);
      ErrorAdded(B, before, wOff, O, row, bOff, G, c, lr, W, cols, dh0, dh[..]);
      RowMoved(B, before, buf[..], wOff, O, row, bOff, G, H, c, lr);
      row := row + cols;
    }
    AllRowsMoved(B, buf[..], wOff, O, bOff, G, lr);
    ghost var sums := dh[..];
    MaskDead(dh, pre);
    MaskedError(sums, dh[..], W, G, pre[..]);
  }

  lemma AllRowsMoved(B: Vec, buf: Vec, wOff: nat, O: Vec, bOff: nat, G: Vec, lr: i32)
    requires RowsMoved(B, buf, wOff, O, |O|, bOff, G, |G|, lr)
    ensures LayerMoved(B, buf, wOff, O, bOff, G, lr)
  {
  }

  lemma MaskedError(sums: Vec, dh: Vec, W: Vec, G: Vec, pre: Vec)
    requires |dh| == |pre| && ErrorAfter(sums, W, |pre|, G, |G|)
    requires forall i :: 0 <= i < |dh| ==> dh[i] == if pre[i] <= 0 then 0 else sums[i]
    ensures |W| == |G| * |pre| && dh == Backward(W, G, pre)
  {
    hide ColumnDot;
  }

  /** The first layer passes no error further down: only its weights and biases move. */
  method DescendInPlace(buf: array<i32>, wOff: nat, bOff: nat, g: array<i32>, x: array<i32>, lr: i32)
    requires wOff + g.Length * x.Length <= bOff && bOff + g.Length <= buf.Length
    requires buf !in {g, x}
    modifies buf
    ensures LayerMoved(old(buf[..]), buf[..], wOff, OuterMatrix(g[..], x[..]), bOff, g[..], lr)
  {
    hide QMul, Nudge, OuterMatrix;
    var rows, cols := g.Length, x.Length;
    ghost var B, G, X := buf[..], g[..], x[..];
    ghost var O := OuterMatrix(G, X);
    var row := 0;
    for j := 0 to rows
      invariant row == j * cols <= |O|
      invariant forall p :: 0 <= p < buf.Length ==> buf[p] == Moved(B, wOff, O, row, bOff, G, j, lr, p)
    {
      RowFits(j, rows, cols);
      buf[bOff + j] := Nudge(buf[bOff + j], lr, g[j]);
      for i := 0 to cols
        invariant forall p :: 0 <= p < buf.Length ==> buf[p] == Moved(B, wOff, O, row + i, bOff, G, j + 1, lr, p)
      {
        OuterRow(G, X, j, row + i);
        var dw := QMul(g[j], x[i]);
        buf[wOff + row + i] := Nudge(buf[wOff + row + i], lr, dw);
      }
      row := row + cols;
    }
  }

  method RunForward(buf: array<i32>, x: array<i32>)
    returns (pre1: array<i32>, act1: array<i32>, pre2: array<i32>, act2: array<i32>, out: array<i32>)
    requires buf.Length == N_WEIGHTS && x.Length == INPUT
    ensures fresh({pre1, act1, pre2, act2, out})
    ensures pre1.Length == act1.Length == H1 && pre2.Length == act2.Length == H2 && out.Length == OUT
    ensures Pass(pre1[..], act1[..], pre2[..], act2[..], out[..]) == Forward(Split(buf[..]), x[..])
  {
    hide Dense, Relu;
    pre1, act1 := Layer(buf, 0, buf, AT_B1, x, H1);
    pre2, act2 := Layer(buf, AT_W2, buf, AT_B2, act1, H2);
    var unused;
    out, unused := Layer(buf, AT_W3, buf, AT_B3, act2, OUT);
    assert buf[0..AT_B1] == buf[..][..AT_B1] && buf[AT_B3..N_WEIGHTS] == buf[..][AT_B3..];
  }

  /** The kernel's training step, on the flat buffer. */
  method TrainStep(buf: array<i32>, x: array<i32>, y: byte, lr: i32) returns (loss: i32)
    requires buf.Length == N_WEIGHTS && x.Length == INPUT && buf != x
    modifies buf
    ensures Split(buf[..]) == Step(Split(old(buf[..])), x[..], y, lr)
    ensures loss == StepLoss(Split(old(buf[..])), x[..], y)
  {
    hide LayerMoved, Backward, OutputError, Descended, OuterMatrix, Dense, QMul, QAdd;
    ghost var B0, X := buf[..], x[..];
    var pre1, act1, pre2, act2, out := RunForward(buf, x);
    var d3: array<i32>;
    loss, d3 := OutputLayer(out, y);
    var d2 := BackwardInPlace(buf, AT_W3, AT_B3, d3, act2, pre2, lr);
    ghost var B1 := buf[..];
    var d1 := BackwardInPlace(buf, AT_W2, AT_B2, d2, act1, pre1, lr);
    ghost var B2 := buf[..];
    DescendInPlace(buf, 0, AT_B1, d1, x, lr);
    ghost var e := Errors(d1[..], d2[..], d3[..]);
    ThreeLayersMoved(B0, B1, B2, buf[..], X, act1[..], act2[..], e, lr);
    assert B1[AT_W2..AT_B2] == B0[AT_W2..AT_B2] by {
      SectionsAfterLayer(B0, B1, AT_W3, OuterMatrix(e.d3, act2[..]), AT_B3, e.d3, lr);
    }
    assert e == BackwardPass(Split(B0), Forward(Split(B0), X), y);
  }
}
