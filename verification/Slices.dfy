/**
 Cutting n pads into contiguous slices, one per thread (apps/mesh-miner-gpu/src/host_pads.rs,
 engine.rs).
 */
module Slices {
  import opened Machine

  /** Pads lo..hi-1. */
  datatype Slice = Slice(lo: nat, hi: nat)

  /** Round-up division. */
  function DivCeil(n: nat, d: nat): nat
    requires d > 0
  {
    (n + d - 1) / d
  }

  lemma DivCeilCovers(n: nat, d: nat)
    requires d > 0
    ensures n <= d * DivCeil(n, d)
    ensures n > 0 ==> DivCeil(n, d) > 0
  {
    var m := n + d - 1;
    assert m == d * (m / d) + m % d;
    if n > 0 {
      assert m >= d;
    }
  }

  /** Slices of `chunk` pads from `base` on, the last one shorter. */
  function SlicesFrom(base: nat, n: nat, chunk: nat): seq<Slice>
    requires chunk > 0
    decreases n - base
  {
    if base >= n then []
    else [Slice(base, Min(base + chunk, n))] + SlicesFrom(base + chunk, n, chunk)
  }

  /** Non-empty, in order, without gaps or overlaps, covering exactly base..n-1. */
  ghost predicate Covers(s: seq<Slice>, base: nat, n: nat) {
    if s == [] then base >= n
    else s[0].lo == base && s[0].lo < s[0].hi <= n && Covers(s[1..], s[0].hi, n)
  }

  lemma {:induction false} SlicesCover(base: nat, n: nat, chunk: nat)
    requires chunk > 0
    ensures Covers(SlicesFrom(base, n, chunk), base, n)
    decreases n - base
  {
    if base < n {
      SlicesCover(base + chunk, n, chunk);
      if base + chunk > n {
        assert SlicesFrom(base + chunk, n, chunk) == [];
      }
    }
  }

  /** Every pad is in exactly one slice. */
  lemma {:induction false} SliceOf(s: seq<Slice>, base: nat, n: nat, i: nat) returns (t: nat)
    requires Covers(s, base, n) && base <= i < n
    ensures t < |s| && s[t].lo <= i < s[t].hi
  {
    if i < s[0].hi {
      t := 0;
    } else {
      t := SliceOf(s[1..], s[0].hi, n, i);
      t := t + 1;
    }
  }

  lemma {:induction false} SliceBounds(s: seq<Slice>, base: nat, n: nat, t: nat)
    requires Covers(s, base, n) && t < |s|
    ensures base <= s[t].lo < s[t].hi <= n
  {
    if t > 0 {
      SliceBounds(s[1..], s[0].hi, n, t - 1);
    }
  }

  lemma {:induction false} SlicesDisjoint(s: seq<Slice>, base: nat, n: nat, t: nat, u: nat)
    requires Covers(s, base, n) && t < u < |s|
    ensures s[t].hi <= s[u].lo
  {
    if t == 0 {
      SliceBounds(s[1..], s[0].hi, n, u - 1);
    } else {
      SlicesDisjoint(s[1..], s[0].hi, n, t - 1, u - 1);
    }
  }

  /** Slice t starts t chunks on and holds a whole chunk, or what is left. */
  lemma {:induction false} SliceAt(base: nat, n: nat, chunk: nat, t: nat)
    requires chunk > 0 && t < |SlicesFrom(base, n, chunk)|
    ensures 0 <= t * chunk && base + t * chunk < n
    ensures SlicesFrom(base, n, chunk)[t] == Slice(base + t * chunk, Min(base + t * chunk + chunk, n))
    decreases t
  {
    if t > 0 {
      SliceAt(base + chunk, n, chunk, t - 1);
      assert t * chunk == (t - 1) * chunk + chunk;
    }
  }

  /** There are no more slices than are needed: the chunks of all but the last do not reach the end. */
  lemma {:induction false} SliceCount(base: nat, n: nat, chunk: nat)
    requires chunk > 0 && base < n
    ensures var k := |SlicesFrom(base, n, chunk)|;
      k > 0 && 0 <= (k - 1) * chunk < n - base <= k * chunk
    decreases n - base
  {
    var k := |SlicesFrom(base, n, chunk)|;
    assert SlicesFrom(base, n, chunk)[1..] == SlicesFrom(base + chunk, n, chunk);
    if base + chunk < n {
      SliceCount(base + chunk, n, chunk);
      assert (k - 1) * chunk == (k - 2) * chunk + chunk && k * chunk == (k - 1) * chunk + chunk;
    } else {
      assert k == 1;
    }
  }

  /** The spawning loop: at most `threads` slices, cut off the front of what is left. */
  method SplitPads(n: nat, threads: nat) returns (s: seq<Slice>)
    requires threads > 0 && n > 0
    ensures |s| <= threads
    ensures DivCeil(n, threads) > 0 && s == SlicesFrom(0, n, DivCeil(n, threads))
  {
    DivCeilCovers(n, threads);
    var chunk := DivCeil(n, threads);
    s := [];
    var base := 0;
    for t := 0 to threads
      invariant |s| <= t
      invariant base <= n && (base < n ==> base == t * chunk)
      invariant s + SlicesFrom(base, n, chunk) == SlicesFrom(0, n, chunk)
    {
      if base < n {
        var take := Min(chunk, n - base);
        s := s + [Slice(base, base + take)];
        if base + chunk > n {
          assert SlicesFrom(base + chunk, n, chunk) == SlicesFrom(n, n, chunk) == [];
        }
        base := base + take;
      }
    }
    assert threads * chunk >= n;
  }

  /** The CPU search's own cut, start + t * chunk clipped to the batch, is the same one. */
  method SplitBatch(n: nat, threads: nat) returns (s: seq<Slice>)
    requires threads > 0 && n > 0
    ensures DivCeil(n, threads) > 0 && s == SlicesFrom(0, n, DivCeil(n, threads))
  {
    DivCeilCovers(n, threads);
    var chunk := Max(DivCeil(n, threads), 1);
    s := [];
    for t := 0 to threads
      invariant s + SlicesFrom(t * chunk, n, chunk) == SlicesFrom(0, n, chunk)
    {
      var lo := t * chunk;
      var hi := Min(n, lo + chunk);
      assert (t + 1) * chunk == lo + chunk;
      if lo < hi {
        s := s + [Slice(lo, hi)];
      }
    }
    assert threads * chunk >= n;
  }
}
