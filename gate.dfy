/** The resolution gate shared by the storage and memory tracers: a call
    samples when the counter, read before it is incremented, is a multiple
    of the resolution. */
module Gate {

  /** `0 == opCounter % resolution`; the counter is never negative, so Go's
      truncating remainder and Dafny's agree. */
  predicate ShouldSample(counter: nat, resolution: nat)
    requires resolution > 0
  {
    counter % resolution == 0
  }

  /** The values offered on the calls numbered `start`, `start + 1`, ... that
      the gate lets through, in order. */
  function Sampled<T>(xs: seq<T>, start: nat, resolution: nat): seq<T>
    requires resolution > 0
  {
    if xs == [] then []
    else
      Sampled(xs[..|xs| - 1], start, resolution)
      + (if ShouldSample(start + |xs| - 1, resolution) then [xs[|xs| - 1]] else [])
  }

  /** A positive multiple of d is at least d. */
  lemma MulAtLeast(k: int, d: int)
    requires k >= 1 && d >= 1
    ensures k * d >= d
  {
    assert k * d == (k - 1) * d + d;
  }

  /** Euclidean division is determined by quotient and remainder. */
  lemma DivUnique(a: int, d: int, q: int, r: int)
    requires d > 0 && 0 <= r < d && a == q * d + r
    ensures a / d == q && a % d == r
  {
    var q', r' := a / d, a % d;
    var k := q' - q;
    assert k * d == r - r';
    if k >= 1 {
      MulAtLeast(k, d);
    } else if k <= -1 {
      MulAtLeast(-k, d);
    }
  }

  /** ceil((m + 1) / d) = ceil(m / d) plus one exactly when d divides m. */
  lemma CeilStep(m: nat, d: nat)
    requires d > 0
    ensures (m + d) / d == (m + d - 1) / d + (if m % d == 0 then 1 else 0)
  {
    var q, r := m / d, m % d;
    assert m == q * d + r;
    DivUnique(m + d, d, q + 1, r);
    if r == 0 {
      DivUnique(m + d - 1, d, q, d - 1);
    } else {
      DivUnique(m + d - 1, d, q + 1, r - 1);
    }
  }

  /** Of n calls counted from 0, ceil(n / resolution) are sampled. */
  lemma {:induction false} SampledCount<T>(xs: seq<T>, resolution: nat)
    requires resolution > 0
    ensures |Sampled(xs, 0, resolution)| == (|xs| + resolution - 1) / resolution
    decreases |xs|
  {
    if xs != [] {
      var m := |xs| - 1;
      SampledCount(xs[..m], resolution);
      CeilStep(m, resolution);
    }
  }

  /** A sampled call m is call number ceil(m / d) * d. */
  lemma LastSampleIndex(m: nat, d: nat)
    requires d > 0 && m % d == 0
    ensures ((m + d - 1) / d) * d == m
  {
    var q := m / d;
    DivUnique(m + d - 1, d, q, d - 1);
  }

  /** The j-th sample counted from 0 is the value offered on call number j * resolution. */
  lemma {:induction false} SampledAt<T>(xs: seq<T>, resolution: nat, j: nat)
    requires resolution > 0
    requires j < |Sampled(xs, 0, resolution)|
    ensures j * resolution < |xs| && Sampled(xs, 0, resolution)[j] == xs[j * resolution]
    decreases |xs|
  {
    var m := |xs| - 1;
    var init := xs[..m];
    var before := Sampled(init, 0, resolution);
    assert Sampled(xs, 0, resolution) == before + (if ShouldSample(m, resolution) then [xs[m]] else []);
    SampledCount(init, resolution);
    if j < |before| {
      SampledAt(init, resolution, j);
      assert Sampled(xs, 0, resolution)[j] == before[j];
      assert init[j * resolution] == xs[j * resolution];
    } else {
      // the last call was sampled and produced sample number j
      assert ShouldSample(m, resolution) && j == |before|;
      LastSampleIndex(m, resolution);
      assert j * resolution == m;
    }
  }
}
