/** Rejection samplers for points in the unit ball and the unit disk
    (src/rnd.rs).

    The random number generator is modelled as the finite sequence of the
    samples it would produce, each in [0, 1).  A draw consumes samples from
    the front and returns the remaining ones.  The source retries without
    limit; the model retries while the sequence lasts and reports `Exhausted`
    when it runs out. */
module Rnd {
  import opened Vec

  /** One sample of `rng.sample(Standard)` for `f32`: a number in [0, 1). */
  type Unit01 = r: real | 0.0 <= r < 1.0

  /** The result of a computation that draws samples: the value and the
      samples left over, or `Exhausted` if the samples ran out first. */
  datatype Sampled<T> = Drawn(value: T, rest: seq<Unit01>) | Exhausted

  /** The point `2 * (u1, u2, u3) - (1, 1, 1)` tried by one attempt. */
  function SphereCandidate(u1: Unit01, u2: Unit01, u3: Unit01): (p: Vec3)
    ensures -1.0 <= p.x < 1.0 && -1.0 <= p.y < 1.0 && -1.0 <= p.z < 1.0
  {
    Sub(ScalarMul(2.0, Vec3(u1, u2, u3)), Vec3(1.0, 1.0, 1.0))
  }

  /** The point `2 * (u1, u2, 0) - (1, 1, 0)` tried by one attempt. */
  function DiskCandidate(u1: Unit01, u2: Unit01): (p: Vec3)
    ensures -1.0 <= p.x < 1.0 && -1.0 <= p.y < 1.0 && p.z == 0.0
  {
    Sub(ScalarMul(2.0, Vec3(u1, u2, 0.0)), Vec3(1.0, 1.0, 0.0))
  }

  /** The candidate of attempt `k` of the ball sampler (samples 3k .. 3k+2). */
  function SphereAttempt(s: seq<Unit01>, k: nat): Vec3
    requires 3 * k + 3 <= |s|
  {
    SphereCandidate(s[3 * k], s[3 * k + 1], s[3 * k + 2])
  }

  /** The candidate of attempt `k` of the disk sampler (samples 2k, 2k+1). */
  function DiskAttempt(s: seq<Unit01>, k: nat): Vec3
    requires 2 * k + 2 <= |s|
  {
    DiskCandidate(s[2 * k], s[2 * k + 1])
  }

  /** `random_in_unit_sphere` on the samples `s`: three samples per attempt,
      returning the first candidate strictly inside the unit ball. */
  function UnitSphereDraw(s: seq<Unit01>): (d: Sampled<Vec3>)
    ensures d.Drawn? ==> SquaredLength(d.value) < 1.0
    ensures d.Drawn? ==> -1.0 <= d.value.x < 1.0 && -1.0 <= d.value.y < 1.0 && -1.0 <= d.value.z < 1.0
    ensures d.Drawn? ==> 3 <= |s| - |d.rest| && (|s| - |d.rest|) % 3 == 0
    ensures d.Drawn? ==> d.rest == s[|s| - |d.rest|..]
    decreases |s|
  {
    if |s| < 3 then
      Exhausted
    else
      var p := SphereCandidate(s[0], s[1], s[2]);
      if SquaredLength(p) < 1.0 then Drawn(p, s[3..]) else UnitSphereDraw(s[3..])
  }

  /** `random_in_unit_disk` on the samples `s`: two samples per attempt,
      returning the first candidate strictly inside the unit disk. */
  function UnitDiskDraw(s: seq<Unit01>): (d: Sampled<Vec3>)
    ensures d.Drawn? ==> SquaredLength(d.value) < 1.0 && d.value.z == 0.0
    ensures d.Drawn? ==> -1.0 <= d.value.x < 1.0 && -1.0 <= d.value.y < 1.0
    ensures d.Drawn? ==> 2 <= |s| - |d.rest| && (|s| - |d.rest|) % 2 == 0
    ensures d.Drawn? ==> d.rest == s[|s| - |d.rest|..]
    decreases |s|
  {
    if |s| < 2 then
      Exhausted
    else
      var p := DiskCandidate(s[0], s[1]);
      if SquaredLength(p) < 1.0 then Drawn(p, s[2..]) else UnitDiskDraw(s[2..])
  }

  /** The sampling loop of `random_in_unit_sphere`. */
  method RandomInUnitSphere(s: seq<Unit01>) returns (d: Sampled<Vec3>)
    ensures d == UnitSphereDraw(s)
  {
    var rest := s;
    while |rest| >= 3
      invariant UnitSphereDraw(rest) == UnitSphereDraw(s)
      decreases |rest|
    {
      var p := SphereCandidate(rest[0], rest[1], rest[2]);
      if SquaredLength(p) < 1.0 {
        return Drawn(p, rest[3..]);
      }
      rest := rest[3..];
    }
    return Exhausted;
  }

  /** The sampling loop of `random_in_unit_disk`. */
  method RandomInUnitDisk(s: seq<Unit01>) returns (d: Sampled<Vec3>)
    ensures d == UnitDiskDraw(s)
  {
    var rest := s;
    while |rest| >= 2
      invariant UnitDiskDraw(rest) == UnitDiskDraw(s)
      decreases |rest|
    {
      var p := DiskCandidate(rest[0], rest[1]);
      if SquaredLength(p) < 1.0 {
        return Drawn(p, rest[2..]);
      }
      rest := rest[2..];
    }
    return Exhausted;
  }

  /** One attempt of the ball sampler: accept attempt 0 or go on with the
      samples after it. */
  lemma SphereDrawStep(s: seq<Unit01>)
    requires |s| >= 3
    ensures UnitSphereDraw(s) ==
      if SquaredLength(SphereAttempt(s, 0)) < 1.0 then Drawn(SphereAttempt(s, 0), s[3..])
      else UnitSphereDraw(s[3..])
  {
  }

  /** Dropping the first attempt's samples renumbers the later attempts. */
  lemma SphereAttemptShift(s: seq<Unit01>, j: nat)
    requires 3 * j + 6 <= |s|
    ensures SphereAttempt(s[3..], j) == SphereAttempt(s, j + 1)
  {
  }

  /** The ball sampler returns attempt `k` when it is the first candidate
      inside the ball: every earlier candidate is discarded. */
  lemma {:induction false} SphereDrawFirstAccepted(s: seq<Unit01>, k: nat)
    requires 3 * k + 3 <= |s|
    requires SquaredLength(SphereAttempt(s, k)) < 1.0
    requires forall j: nat :: j < k ==> SquaredLength(SphereAttempt(s, j)) >= 1.0
    ensures UnitSphereDraw(s) == Drawn(SphereAttempt(s, k), s[3 * k + 3..])
    decreases k
  {
    SphereDrawStep(s);
    if k > 0 {
      assert SquaredLength(SphereAttempt(s, 0)) >= 1.0;
      var s' := s[3..];
      forall j: nat | j < k - 1
        ensures SquaredLength(SphereAttempt(s', j)) >= 1.0
      {
        SphereAttemptShift(s, j);
      }
      SphereAttemptShift(s, k - 1);
      SphereDrawFirstAccepted(s', k - 1);
      assert s'[3 * (k - 1) + 3..] == s[3 * k + 3..];
    }
  }

  /** When no attempt that fits in the samples lands inside the ball, the
      sampler runs out of samples. */
  lemma {:induction false} SphereDrawExhausted(s: seq<Unit01>)
    requires forall j: nat :: 3 * j + 3 <= |s| ==> SquaredLength(SphereAttempt(s, j)) >= 1.0
    ensures UnitSphereDraw(s) == Exhausted
    decreases |s|
  {
    if |s| >= 3 {
      SphereDrawStep(s);
      assert SquaredLength(SphereAttempt(s, 0)) >= 1.0;
      var s' := s[3..];
      forall j: nat | 3 * j + 3 <= |s'|
        ensures SquaredLength(SphereAttempt(s', j)) >= 1.0
      {
        SphereAttemptShift(s, j);
      }
      SphereDrawExhausted(s');
    }
  }

  /** One attempt of the disk sampler. */
  lemma DiskDrawStep(s: seq<Unit01>)
    requires |s| >= 2
    ensures UnitDiskDraw(s) ==
      if SquaredLength(DiskAttempt(s, 0)) < 1.0 then Drawn(DiskAttempt(s, 0), s[2..])
      else UnitDiskDraw(s[2..])
  {
  }

  lemma DiskAttemptShift(s: seq<Unit01>, j: nat)
    requires 2 * j + 4 <= |s|
    ensures DiskAttempt(s[2..], j) == DiskAttempt(s, j + 1)
  {
  }

  /** The disk sampler returns attempt `k` when it is the first candidate
      inside the disk. */
  lemma {:induction false} DiskDrawFirstAccepted(s: seq<Unit01>, k: nat)
    requires 2 * k + 2 <= |s|
    requires SquaredLength(DiskAttempt(s, k)) < 1.0
    requires forall j: nat :: j < k ==> SquaredLength(DiskAttempt(s, j)) >= 1.0
    ensures UnitDiskDraw(s) == Drawn(DiskAttempt(s, k), s[2 * k + 2..])
    decreases k
  {
    DiskDrawStep(s);
    if k > 0 {
      assert SquaredLength(DiskAttempt(s, 0)) >= 1.0;
      var s' := s[2..];
      forall j: nat | j < k - 1
        ensures SquaredLength(DiskAttempt(s', j)) >= 1.0
      {
        DiskAttemptShift(s, j);
      }
      DiskAttemptShift(s, k - 1);
      DiskDrawFirstAccepted(s', k - 1);
      assert s'[2 * (k - 1) + 2..] == s[2 * k + 2..];
    }
  }

  /** When no disk attempt that fits in the samples is accepted, the sampler
      runs out of samples. */
  lemma {:induction false} DiskDrawExhausted(s: seq<Unit01>)
    requires forall j: nat :: 2 * j + 2 <= |s| ==> SquaredLength(DiskAttempt(s, j)) >= 1.0
    ensures UnitDiskDraw(s) == Exhausted
    decreases |s|
  {
    if |s| >= 2 {
      DiskDrawStep(s);
      assert SquaredLength(DiskAttempt(s, 0)) >= 1.0;
      var s' := s[2..];
      forall j: nat | 2 * j + 2 <= |s'|
        ensures SquaredLength(DiskAttempt(s', j)) >= 1.0
      {
        DiskAttemptShift(s, j);
      }
      DiskDrawExhausted(s');
    }
  }
}
