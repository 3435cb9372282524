/**
 The CPU trainer (crates/mesh-ai-v2/src/mlp.rs): six weight buffers updated in place by
 nested loops, after all gradients have been collected in separate buffers.
 */
module TrainCpu {
  import opened Machine
  import opened Q16
  import opened Network
  import opened Layers
  import opened WeightCodec

  /** The inner loop: one row of weight gradients, and that row's share of the passed-back error. */
  method CollectRow(w: array<i32>, row: nat, g: i32, h: array<i32>, dw: array<i32>, dh: array<i32>)
    requires row + h.Length <= w.Length == dw.Length && dh.Length == h.Length
    requires dw !in {w, h, dh} && dh !in {w, h}
    modifies dw, dh
    ensures forall k :: 0 <= k < dw.Length ==>
      dw[k] == if row <= k < row + h.Length then QMul(g, h[k - row]) else old(dw[k])
    ensures forall i :: 0 <= i < h.Length ==> dh[i] == QAdd(old(dh[i]), QMul(g, w[row + i]))
  {
    hide QMul, QAdd;
    for j := 0 to h.Length
      invariant forall k :: 0 <= k < dw.Length ==>
        dw[k] == if row <= k < row + j then QMul(g, h[k - row]) else old(dw[k])
      invariant forall i :: 0 <= i < j ==> dh[i] == QAdd(old(dh[i]), QMul(g, w[row + i]))
      invariant forall i :: j <= i < h.Length ==> dh[i] == old(dh[i])
    {
      dw[row + j] := QMul(g, h[j]);
      dh[j] := QAdd(dh[j], QMul(g, w[row + j]));
    }
  }

  /** Weight gradients and the error passed to the layer below, both from the current weights. */
  method CollectGradients(w: array<i32>, g: array<i32>, h: array<i32>, pre: array<i32>)
    returns (dw: array<i32>, dh: array<i32>)
    requires w.Length == g.Length * h.Length && pre.Length == h.Length
    ensures fresh(dw) && fresh(dh)
    ensures dw[..] == OuterMatrix(g[..], h[..])
    ensures dh[..] == Backward(w[..], g[..], pre[..])
  {
    hide QMul, QAdd, OuterMatrix;
    var rows, cols := g.Length, h.Length;
    ghost var W, G, H := w[..], g[..], h[..];
    ghost var O := OuterMatrix(G, H);
    dw, dh := new i32[w.Length](_ => 0), new i32[cols](_ => 0);
    var row := 0;
    for c := 0 to rows
      invariant row == c * cols <= |O|
      invariant forall k :: 0 <= k < row ==> dw[k] == O[k]
      invariant forall i :: 0 <= i < cols ==> dh[i] == ColumnDot(W, cols, G, i, c)
    {
      RowFits(c, rows, cols);
      CollectRow(w, row, g[c], h, dw, dh);
      forall k | row <= k < row + cols
        ensures dw[k] == O[k]
      {
        OuterRow(G, H, c, k);
      }
      row := row + cols;
    }
    MaskDead(dh, pre);
    assert dw[..] == O;
    assert dh[..] == Backward(W, G, pre[..]);
  }

  /** The gradient of the first layer, which passes no error further down. */
  method CollectOuter(g: array<i32>, x: array<i32>) returns (dw: array<i32>)
    ensures fresh(dw) && dw[..] == OuterMatrix(g[..], x[..])
  {
    hide QMul;
    var rows, cols := g.Length, x.Length;
    ghost var size := rows * cols;
    ghost var O := OuterMatrix(g[..], x[..]);
    dw := new i32[rows * cols](_ => 0);
    for c := 0 to rows
      invariant g[..] == old(g[..]) && x[..] == old(x[..])
      invariant c * cols <= size
      invariant forall k :: 0 <= k < c * cols ==> dw[k] == O[k]
    {
      RowFits(c, rows, cols);
      var row := c * cols;
      for i := 0 to cols
        invariant g[..] == old(g[..]) && x[..] == old(x[..])
        invariant forall k :: 0 <= k < row + i ==> dw[k] == O[k]
      {
        FlatIndex(c, i, rows, cols);
        dw[row + i] := QMul(g[c], x[i]);
      }
      assert (c + 1) * cols == row + cols;
    }
    assert dw[..] == O;
  }

  method ApplyUpdate(w: array<i32>, dw: array<i32>, lr: i32)
    requires w.Length == dw.Length && w != dw
    modifies w
    ensures w[..] == NudgeVector(old(w[..]), dw[..], lr)
  {
    for k := 0 to w.Length
      invariant forall l :: 0 <= l < k ==> w[l] == Nudge(old(w[l]), lr, dw[l])
      invariant forall l :: k <= l < w.Length ==> w[l] == old(w[l])
    {
      w[k] := Nudge(w[k], lr, dw[k]);
    }
  }

  method AppendWords(out: Bytes, a: array<i32>) returns (r: Bytes)
    ensures r == out + EncodeWords(a[..])
  {
    hide PutI32;
    r := out;
    for i := 0 to a.Length
      invariant r == out + EncodeWords(a[..i])
    {
      r := r + PutI32(a[i]);
      assert a[..i + 1][..i] == a[..i];
    }
    assert a[..a.Length] == a[..];
  }

  method ReadWords(blob: Bytes, o: nat, len: nat) returns (a: array<i32>, o': nat)
    requires o + 4 * len <= |blob|
    ensures fresh(a) && a[..] == DecodeWords(blob[o..], len) && o' == o + 4 * len
  {
    hide GetI32;
    a := new i32[len](_ => 0);
    o' := o;
    for i := 0 to len
      invariant o' == o + 4 * i
      invariant forall l :: 0 <= l < i ==> a[l] == DecodeWords(blob[o..], len)[l]
    {
      assert Word(blob[o..], i) == blob[o'..o' + 4];
      a[i] := GetI32(blob[o'..o' + 4]);
      o' := o' + 4;
    }
  }

  /** The model object of the CPU path. */
  class Mlp {
    var w1: array<i32>
    var b1: array<i32>
    var w2: array<i32>
    var b2: array<i32>
    var w3: array<i32>
    var b3: array<i32>

    ghost predicate Valid()
      reads this
    {
      && w1.Length == N_W1 && b1.Length == H1
      && w2.Length == N_W2 && b2.Length == H2
      && w3.Length == N_W3 && b3.Length == OUT
    }

    ghost function Buffers(): set<object>
      reads this
    {
      {w1, b1, w2, b2, w3, b3}
    }

    ghost function Contents(): Net
      requires Valid()
      reads this, Buffers()
    {
      Model(w1[..], b1[..], w2[..], b2[..], w3[..], b3[..])
    }

    constructor (w1: array<i32>, b1: array<i32>, w2: array<i32>, b2: array<i32>, w3: array<i32>, b3: array<i32>)
      ensures this.w1 == w1 && this.b1 == b1 && this.w2 == w2 && this.b2 == b2 && this.w3 == w3 && this.b3 == b3
    {
      this.w1, this.b1, this.w2, this.b2, this.w3, this.b3 := w1, b1, w2, b2, w3, b3;
    }

    /** `to_weights`. */
    method ToWeights() returns (blob: Bytes)
      requires Valid()
      ensures blob == EncodeWeights(Contents())
    {
      hide EncodeWords, Header;
      blob := Header();
      blob := AppendWords(blob, w1);
      blob := AppendWords(blob, b1);
      blob := AppendWords(blob, w2);
      blob := AppendWords(blob, b2);
      blob := AppendWords(blob, w3);
      blob := AppendWords(blob, b3);
      EncodeWordsOfJoin(Contents());
    }

    /** `from_weights`; null stands for the error. */
    static method FromWeights(blob: Bytes) returns (m: Mlp?)
      ensures m == null <==> DecodeWeights(blob).None?
      ensures m != null ==> fresh(m) && m.Valid() && fresh(m.Buffers()) && m.Contents() == DecodeWeights(blob).value
    {
      hide DecodeWords, Magic;
      if |blob| < BLOB_LEN || blob[..MAGIC_LEN] != Magic() {
        return null;
      }
      var n := GetU32(blob[MAGIC_LEN..HEADER_LEN]);
      if n != N_WEIGHTS || |blob| < HEADER_LEN + n * 4 {
        return null;
      }
      var o := HEADER_LEN;
      var w1, b1, w2, b2, w3, b3;
      w1, o := ReadWords(blob, o, N_W1);
      b1, o := ReadWords(blob, o, H1);
      w2, o := ReadWords(blob, o, N_W2);
      b2, o := ReadWords(blob, o, H2);
      w3, o := ReadWords(blob, o, N_W3);
      b3, o := ReadWords(blob, o, OUT);
      m := new Mlp(w1, b1, w2, b2, w3, b3);
      SectionsOfDecoded(blob);
    }

    method RunForward(x: array<i32>)
      returns (pre1: array<i32>, act1: array<i32>, pre2: array<i32>, act2: array<i32>, out: array<i32>)
      requires Valid() && x.Length == INPUT
      ensures fresh({pre1, act1, pre2, act2, out})
      ensures pre1.Length == act1.Length == H1 && pre2.Length == act2.Length == H2 && out.Length == OUT
      ensures Pass(pre1[..], act1[..], pre2[..], act2[..], out[..]) == Forward(Contents(), x[..])
    {
      hide Dense, Relu;
      pre1, act1 := Layer(w1, 0, b1, 0, x, H1);
      assert w1[0..N_W1] == w1[..] && b1[0..H1] == b1[..];
      pre2, act2 := Layer(w2, 0, b2, 0, act1, H2);
      assert w2[0..N_W2] == w2[..] && b2[0..H2] == b2[..];
      var unused;
      out, unused := Layer(w3, 0, b3, 0, act2, OUT);
      assert w3[0..N_W3] == w3[..] && b3[0..OUT] == b3[..];
    }

    method Descend(x: array<i32>, act1: array<i32>, act2: array<i32>,
                   d1: array<i32>, d2: array<i32>, d3: array<i32>,
                   dw1: array<i32>, dw2: array<i32>, dw3: array<i32>, lr: i32)
      requires Valid()
      requires Buffers() !! {x, act1, act2, d1, d2, d3, dw1, dw2, dw3}
      requires x.Length == INPUT && act1.Length == d1.Length == H1
      requires act2.Length == d2.Length == H2 && d3.Length == OUT
      requires dw1[..] == OuterMatrix(d1[..], x[..])
      requires dw2[..] == OuterMatrix(d2[..], act1[..])
      requires dw3[..] == OuterMatrix(d3[..], act2[..])
      modifies Buffers()
      ensures Valid()
      ensures w1 == old(w1) && w2 == old(w2) && w3 == old(w3) && b1 == old(b1) && b2 == old(b2) && b3 == old(b3)
      ensures Contents() == Descended(old(Contents()), x[..], act1[..], act2[..], Errors(d1[..], d2[..], d3[..]), lr)
    {
      hide Nudge, QMul;
      ghost var m := Contents();
      ApplyUpdate(w1, dw1, lr);
      ApplyUpdate(b1, d1, lr);
      ApplyUpdate(w2, dw2, lr);
      ApplyUpdate(b2, d2, lr);
      ApplyUpdate(w3, dw3, lr);
      ApplyUpdate(b3, d3, lr);
      NudgeMatrixByOuter(m.w1, d1[..], x[..], lr);
      NudgeMatrixByOuter(m.w2, d2[..], act1[..], lr);
      NudgeMatrixByOuter(m.w3, d3[..], act2[..], lr);
    }

    /** One in-place SGD step is the simultaneous mathematical step. */
    method TrainStep(x: array<i32>, y: byte, lr: i32) returns (loss: i32)
      requires Valid() && x.Length == INPUT && x !in Buffers()
      modifies Buffers()
      ensures Valid()
      ensures w1 == old(w1) && w2 == old(w2) && w3 == old(w3) && b1 == old(b1) && b2 == old(b2) && b3 == old(b3)
      ensures Contents() == Step(old(Contents()), x[..], y, lr)
      ensures loss == StepLoss(old(Contents()), x[..], y)
    {
      hide Descended, Backward, Dense, QMul, QAdd;
      var pre1, act1, pre2, act2, out := RunForward(x);
      var d3: array<i32>;
      loss, d3 := OutputLayer(out, y);
      var dw3, d2 := CollectGradients(w3, d3, act2, pre2);
      var dw2, d1 := CollectGradients(w2, d2, act1, pre1);
      var dw1 := CollectOuter(d1, x);
      assert Errors(d1[..], d2[..], d3[..]) == BackwardPass(Contents(), Forward(Contents(), x[..]), y);
      Descend(x, act1, act2, d1, d2, d3, dw1, dw2, dw3, lr);
    }
  }
}
