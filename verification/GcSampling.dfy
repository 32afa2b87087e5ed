/** Sampling of the garbage collector's pauses (metrics/metrics.go). The runtime counts its cycles
    in a uint32 and keeps the last 256 pauses in a ring; pause(c) is that of cycle c (from 0). */
module GcSampling {
  const TWO_32: int := 0x1_0000_0000
  const RING: int := 256

  type Uint32 = n: int | 0 <= n < TWO_32

  /** What the runtime reports after n cycles in all. */
  predicate Reports(ring: seq<int>, numGc: Uint32, n: nat, pause: nat -> int) {
    && |ring| == RING && numGc == n % TWO_32
    && forall c: nat | n - RING <= c < n :: ring[c % RING] == pause(c)
  }

  /** The first cycle that a poll samples, when the last poll saw last cycles and this one n. */
  function From(last: nat, n: nat): int
    requires last <= n
  {
    var num := n % TWO_32;
    var before := if num < last % TWO_32 then 0 else last % TWO_32;
    n - num + (if num - before >= RING then num - (RING - 1) else before)
  }

  function Epoch(n: nat): nat {
    n / TWO_32
  }

  /** A poll samples no cycle again that a poll before it may have sampled, and at most 255. */
  lemma NeverTwice(last: nat, n: nat)
    requires last <= n
    ensures last <= From(last, n) <= n < From(last, n) + 256
  {
    Split(last);
    Split(n);
    Apart(Epoch(n), Epoch(last), n % TWO_32, last % TWO_32);
  }

  lemma Split(n: nat)
    ensures n == Epoch(n) * TWO_32 + n % TWO_32
  {}

  lemma Apart(a: nat, b: nat, r: int, s: int)
    requires 0 <= r < TWO_32 && 0 <= s < TWO_32
    ensures a < b ==> a * TWO_32 + r < b * TWO_32 + s
  {}

  /** It samples every cycle since the last poll exactly when there were fewer than 256 and the
      counter did not wrap between the two. */
  lemma NoneMissed(last: nat, n: nat)
    requires last <= n
    ensures From(last, n) == last <==> n - last < 256 && last / 0x1_0000_0000 == n / 0x1_0000_0000
  {
    NeverTwice(last, n);
    Split(last);
    Split(n);
    Apart(Epoch(last), Epoch(n), last % TWO_32, 0);
    Apart(Epoch(n), Epoch(last), n % TWO_32, last % TWO_32);
  }

  /** Of the cycles that the two values of the counter tell apart, counted from its last wrap if it
      went down, it samples the last 255, or all when they are fewer. */
  lemma SampledMany(last: nat, n: nat)
    requires last <= n
    ensures var since := if n % 0x1_0000_0000 < last % 0x1_0000_0000 then n % 0x1_0000_0000
                         else n % 0x1_0000_0000 - last % 0x1_0000_0000;
      n - From(last, n) == if since < 255 then since else 255
  {}

  /** The ring slots read in one poll are different from each other. */
  lemma SlotsDistinct(from: nat, c: nat, d: nat)
    requires from <= c < from + RING && from <= d < from + RING
    ensures c % RING == d % RING <==> c == d
  {}

  /** Slot numbers do not depend on the epoch. */
  lemma SameSlot(epoch: nat, i: nat)
    ensures (epoch * TWO_32 + i) % RING == i % RING
  {
    assert TWO_32 == 0x100_0000 * RING;
    Shift(epoch * 0x100_0000, i);
    assert epoch * TWO_32 == epoch * 0x100_0000 * RING;
  }

  lemma Shift(k: nat, i: nat)
    ensures (k * RING + i) % RING == i % RING
  {
    var q := i / RING;
    assert k * RING + i == (k + q) * RING + i % RING;
    Unique(k * RING + i, k + q, i % RING);
  }

  lemma Unique(m: int, q: int, r: int)
    requires m == q * RING + r && 0 <= r < RING
    ensures m % RING == r
  {}

  class Metrics {
    var lastNumGc: Uint32

    constructor ()
      ensures lastNumGc == 0
    {
      lastNumGc := 0;
    }

    /** The last part of emitRuntimeStats: the samples are the pauses of the cycles from
        From(last, n) to n, in order. */
    method Poll(ring: seq<int>, num: Uint32, ghost last: nat, ghost n: nat, ghost pause: nat -> int)
      returns (samples: seq<int>)
      requires last <= n && lastNumGc == last % TWO_32 && Reports(ring, num, n, pause)
      modifies this
      ensures lastNumGc == n % TWO_32
      ensures From(last, n) >= 0 && |samples| == n - From(last, n)
      ensures forall k | 0 <= k < |samples| :: samples[k] == pause(From(last, n) + k)
    {
      NeverTwice(last, n);
      if num < lastNumGc {
        lastNumGc := 0;
      }
      if num - lastNumGc >= RING {
        lastNumGc := num - (RING - 1);
      }
      samples := [];
      var i := lastNumGc;
      ghost var from := From(last, n);
      while i < num
        invariant lastNumGc <= i <= num && |samples| == i - lastNumGc
        invariant n - num + lastNumGc == from
        invariant forall k | 0 <= k < |samples| :: samples[k] == pause(from + k)
      {
        Split(n);
        SameSlot(Epoch(n), i);
        assert ring[(n - num + i) % RING] == pause(n - num + i);
        samples := samples + [ring[i % RING]];
        i := i + 1;
      }
      lastNumGc := num;
    }
  }

  // ----- Many polls -----

  predicate Growing(counts: seq<nat>) {
    forall i, j | 0 <= i < j < |counts| :: counts[i] <= counts[j]
  }

  /** Poll k of a run, after the counts before it, samples cycle c. */
  predicate Samples(counts: seq<nat>, k: nat, c: nat)
    requires k < |counts| && Growing(counts)
  {
    var last := if k == 0 then 0 else counts[k - 1];
    From(last, counts[k]) <= c < counts[k]
  }

  lemma Disjoint(counts: seq<nat>, j: nat, k: nat, c: nat)
    requires Growing(counts) && j < |counts| && k < |counts|
    ensures j < k && Samples(counts, j, c) ==> !Samples(counts, k, c)
  {
    hide From;
    if j < k {
      NeverTwice(counts[k - 1], counts[k]);
      assert counts[j] <= counts[k - 1];
    }
  }

  /** Over a whole run of polls, wrapping or not, no cycle is sampled by two polls. */
  lemma SampledOnce(counts: seq<nat>, j: nat, k: nat, c: nat)
    requires Growing(counts) && j < |counts| && k < |counts|
    requires Samples(counts, j, c) && Samples(counts, k, c)
    ensures j == k
  {
    Disjoint(counts, j, k, c);
    Disjoint(counts, k, j, c);
  }

  /** While the counter does not wrap and polls come within 256 cycles, no cycle is missed. */
  lemma AllSampled(counts: seq<nat>, c: nat) returns (k: nat)
    requires Growing(counts) && counts != [] && c < counts[|counts| - 1] < TWO_32
    requires counts[0] < RING
    requires forall i | 0 < i < |counts| :: counts[i] - counts[i - 1] < RING
    ensures k < |counts| && Samples(counts, k, c)
  {
    hide From;
    k := |counts| - 1;
    while k > 0 && c < counts[k - 1]
      invariant k < |counts| && c < counts[k]
    {
      k := k - 1;
    }
    NoneMissed(if k == 0 then 0 else counts[k - 1], counts[k]);
  }
}
