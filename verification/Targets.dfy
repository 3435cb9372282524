/**
 What a training step trains towards (crates/mesh-ai-v2/src/mlp.rs, `train_step`): one, in Q16, at the
 labelled class and zero at the others. Everything is said in plain integers about networks before
 and after a step.
 */
module Targets {
  import opened Machine
  import opened Q16
  import opened Network
  import opened Exactness

  /** Logit c of the network on x, clamped as the loss sees it. */
  function Seen(m: Net, x: Vec, c: nat): int
    requires |x| == INPUT && c < OUT
  {
    Clamp(Forward(m, x).out[c], -0x8_0000, 0x8_0000)
  }

  /** How far that is from 65536 at the label, from 0 elsewhere. */
  function Miss(m: Net, x: Vec, y: byte, c: nat): int
    requires |x| == INPUT && c < OUT
  {
    if c == y then Seen(m, x, c) - 65536 else Seen(m, x, c)
  }

  lemma ErrorIsMiss(m: Net, x: Vec, y: byte, c: nat)
    requires |x| == INPUT && c < OUT
    ensures BackwardPass(m, Forward(m, x), y).d3[c] == Miss(m, x, y, c)
    ensures OutputError(Forward(m, x).out, y)[c] == Miss(m, x, y, c)
    ensures -9 * 0x1_0000 <= Miss(m, x, y, c) <= 8 * 0x1_0000
  {
    hide Forward, Backward;
  }

  // ---------- the loss ----------

  /** The loss vanishes just when every clamped logit is within 1/256 of its target. */
  lemma LossZeroIff(m: Net, x: Vec, y: byte)
    requires |x| == INPUT
    ensures StepLoss(m, x, y) == 0 <==> forall c :: 0 <= c < OUT ==> -256 < Miss(m, x, y, c) < 256
  {
    hide Forward, OutputError, SquaredLoss, Miss, BackwardPass;
    forall c | 0 <= c < OUT ensures OutputError(Forward(m, x).out, y)[c] == Miss(m, x, y, c) {
      ErrorIsMiss(m, x, y, c);
    }
    ZeroUpTo(Forward(m, x).out, y, OUT);
  }

  lemma {:induction false} ZeroUpTo(out: Vec, y: byte, k: nat)
    requires k <= |out| && k <= OUT
    ensures SquaredLoss(OutputError(out, y), k) == 0
      <==> forall c :: 0 <= c < k ==> -256 < OutputError(out, y)[c] < 256
  {
    hide QMul, OutputError;
    var d := OutputError(out, y);
    if k > 0 {
      ZeroUpTo(out, y, k - 1);
      LossExact(out, y, k - 1);
      ErrorSize(out, y, k - 1);
      SquareSize(d[k - 1], 9);
      SquareVanishes(d[k - 1]);
    }
  }

  lemma SquareVanishes(e: int)
    ensures (e * e) / 0x1_0000 == 0 <==> -256 < e < 256
  {
    var a := Abs(e);
    assert e * e == a * a;
    SmallSquare(a);
  }

  lemma SmallSquare(a: nat)
    ensures if a < 256 then 0 <= a * a < 0x1_0000 else a * a >= 0x1_0000
  {
    if a < 256 {
      assert a * a <= a * 255;
    } else {
      assert a * a >= a * 256;
    }
  }

  // ---------- the output layer ----------

  /**
   At a job's rates the bias of class c moves by exactly floor(lr * miss / 2^16), against the miss: at the
   label towards 65536, elsewhere towards zero.
   */
  lemma BiasMoves(m: Net, x: Vec, y: byte, lr: i32, c: nat)
    requires |x| == INPUT && NetInBox(m) && 66 <= lr <= 0x8000 && c < OUT
    ensures var b, b', logit := m.b3[c], Step(m, x, y, lr).b3[c], Forward(m, x).out[c];
      && b' == Clamp(b - (lr * Miss(m, x, y, c)) / 0x1_0000, -0x8_0000, 0x8_0000)
      && (c == y && logit < 65536 ==> b' >= b && (b < 0x8_0000 ==> b' > b))
      && (c == y && logit >= 65536 ==> b' <= b)
      && (c != y && logit < 0 ==> b' >= b && (b < 0x8_0000 ==> b' > b))
      && (c != y && logit >= 0 ==> b' <= b)
  {
    hide Forward, BackwardPass, NudgeMatrix, Nudge;
    ErrorIsMiss(m, x, y, c);
    NudgeIsDescent(m.b3[c], lr, Miss(m, x, y, c));
    assert InBox(m.b3[c]);
    Against(lr, Miss(m, x, y, c));
  }

  lemma Against(lr: int, e: int)
    requires lr > 0
    ensures e < 0 ==> (lr * e) / 0x1_0000 < 0
    ensures e >= 0 ==> (lr * e) / 0x1_0000 >= 0
  {
    if e < 0 {
      assert lr * e <= lr * -1;
    } else {
      assert lr * e >= 0;
    }
  }

  // ---------- nothing left to learn ----------

  /** A network that answers exactly one at the label and zero elsewhere has no loss, and a step leaves it alone. */
  lemma PerfectAnswerIsFixed(m: Net, x: Vec, y: byte, lr: i32)
    requires |x| == INPUT && NetInBox(m) && y < OUT
    requires forall c :: 0 <= c < OUT ==> Seen(m, x, c) == if c == y then 65536 else 0
    ensures StepLoss(m, x, y) == 0 && Step(m, x, y, lr) == m
  {
    hide Forward, Outer, NudgeMatrix, NudgeVector, Backward, NetInBox, Seen;
    LossZeroIff(m, x, y);
    var p := Forward(m, x);
    var e := BackwardPass(m, p, y);
    forall c | 0 <= c < OUT ensures e.d3[c] == 0 {
      ErrorIsMiss(m, x, y, c);
    }
    NothingPassedBack(m.w3, e.d3, p.pre2);
    NothingPassedBack(m.w2, e.d2, p.pre1);
    Boxes(m);
    NothingMoves(m.w1, m.b1, e.d1, x, lr);
    NothingMoves(m.w2, m.b2, e.d2, p.act1, lr);
    NothingMoves(m.w3, m.b3, e.d3, p.act2, lr);
  }

  lemma Boxes(m: Net)
    requires NetInBox(m)
    ensures VecInBox(m.w1) && VecInBox(m.b1) && VecInBox(m.w2)
    ensures VecInBox(m.b2) && VecInBox(m.w3) && VecInBox(m.b3)
  {
  }

  lemma NothingPassedBack(w: Vec, g: Vec, pre: Vec)
    requires |w| == |g| * |pre| && forall k :: 0 <= k < |g| ==> g[k] == 0
    ensures forall i :: 0 <= i < |pre| ==> Backward(w, g, pre)[i] == 0
  {
    hide ColumnDot;
    forall i | 0 <= i < |pre| ensures ColumnDot(w, |pre|, g, i, |g|) == 0 {
      ColumnOfZeros(w, |pre|, g, i, |g|);
    }
  }

  lemma {:induction false} ColumnOfZeros(w: Vec, cols: nat, g: Vec, i: nat, k: nat)
    requires |w| == |g| * cols && i < cols && k <= |g| && forall l :: 0 <= l < |g| ==> g[l] == 0
    ensures ColumnDot(w, cols, g, i, k) == 0
  {
    hide QMul;
    if k > 0 {
      ColumnOfZeros(w, cols, g, i, k - 1);
      RowFits(k - 1, |g|, cols);
      QMulZero(w[(k - 1) * cols + i]);
    }
  }

  lemma NothingMoves(w: Vec, b: Vec, g: Vec, x: Vec, lr: i32)
    requires |w| == |g| * |x| && |b| == |g| && VecInBox(w) && VecInBox(b)
    requires forall k :: 0 <= k < |g| ==> g[k] == 0
    ensures NudgeMatrix(w, g, x, lr) == w && NudgeVector(b, g, lr) == b
  {
    hide QMul, Nudge, Outer;
    forall k | 0 <= k < |w| ensures Nudge(w[k], lr, Outer(g, x, k)) == w[k] {
      NoGradient(g, x, k);
      assert InBox(w[k]);
      ZeroGradient(w[k], lr);
    }
    forall k | 0 <= k < |b| ensures Nudge(b[k], lr, g[k]) == b[k] {
      assert InBox(b[k]);
      ZeroGradient(b[k], lr);
    }
  }

  lemma NoGradient(g: Vec, x: Vec, k: nat)
    requires k < |g| * |x| && forall t :: 0 <= t < |g| ==> g[t] == 0
    ensures Outer(g, x, k) == 0
  {
    hide QMul;
    OuterIndex(k, |g|, |x|);
    QMulZero(x[k % |x|]);
  }
}
