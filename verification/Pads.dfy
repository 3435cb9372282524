/** Pads of equal length, one after the other in a buffer (apps/mesh-miner-gpu/src/host_pads.rs). */
module Pads {
  import opened Machine

  lemma PadFits(i: nat, n: nat, len: nat)
    requires i < n
    ensures i * len + len <= n * len
  {
    assert (i + 1) * len <= n * len;
  }

  function PadAt(host: Bytes, len: nat, i: nat): (pad: Bytes)
    requires i * len + len <= |host|
    ensures |pad| == len
  {
    host[i * len..i * len + len]
  }

  /** Overwrite pad i in place. */
  function PutPad(host: Bytes, len: nat, i: nat, pad: Bytes): (r: Bytes)
    requires i * len + len <= |host| && |pad| == len
    ensures |r| == |host|
  {
    host[..i * len] + pad + host[i * len + len..]
  }

  lemma PutThenAt(host: Bytes, len: nat, i: nat, pad: Bytes, k: nat)
    requires i * len + len <= |host| && k * len + len <= |host| && |pad| == len
    ensures PadAt(PutPad(host, len, i, pad), len, k) == if k == i then pad else PadAt(host, len, k)
  {
    var r := PutPad(host, len, i, pad);
    if k < i {
      PadFits(k, i, len);
    } else if k > i {
      PadFits(i, k, len);
    }
    forall x | 0 <= x < len ensures PadAt(r, len, k)[x] == (if k == i then pad else PadAt(host, len, k))[x] {
      assert PadAt(r, len, k)[x] == r[k * len + x];
    }
  }

  /** The buffer one thread would have produced, pad after pad. */
  function Sequential(fill: nat -> Bytes, start: nat, n: nat): Bytes {
    if n == 0 then [] else Sequential(fill, start, n - 1) + fill(start + n - 1)
  }

  lemma {:induction false} SequentialPad(fill: nat -> Bytes, start: nat, n: nat, len: nat, i: nat)
    requires i < n && forall x :: |fill(x)| == len
    ensures |Sequential(fill, start, n)| == n * len
    ensures i * len + len <= n * len && PadAt(Sequential(fill, start, n), len, i) == fill(start + i)
  {
    hide PadAt;
    var before, last := Sequential(fill, start, n - 1), fill(start + n - 1);
    SequentialLength(fill, start, n - 1, len);
    SequentialLength(fill, start, n, len);
    PadFits(i, n, len);
    if i < n - 1 {
      SequentialPad(fill, start, n - 1, len, i);
      PadOfPrefix(before, last, len, i);
    } else {
      LastPad(before, last, len, i);
    }
  }

  lemma LastPad(before: Bytes, last: Bytes, len: nat, i: nat)
    requires |before| == i * len && |last| == len
    ensures PadAt(before + last, len, i) == last
  {
  }

  lemma {:induction false} SequentialLength(fill: nat -> Bytes, start: nat, n: nat, len: nat)
    requires forall x :: |fill(x)| == len
    ensures |Sequential(fill, start, n)| == n * len
  {
    if n > 0 {
      SequentialLength(fill, start, n - 1, len);
      assert n * len == (n - 1) * len + len;
    }
  }

  lemma PadOfPrefix(host: Bytes, more: Bytes, len: nat, i: nat)
    requires i * len + len <= |host|
    ensures PadAt(host + more, len, i) == PadAt(host, len, i)
  {
  }
}
