/**
 * The smoke-puff particle pool of the live effect: the particle a spawn
 * creates (`spawnSmoke`), its frame index over time and the expiry rule of
 * `drawSmokes`, as functions on the pool's list of particles.
 */
module Smoke {
  import opened Random
  import opened Render

  const SmokeFolders: seq<string> := ["smoke_1", "smoke_2", "smoke_3"]
  const SmokeFrameCount := 5
  const SmokeDuration := 600
  /** 600 / 5 = 120 ms per sprite frame. */
  const FrameDuration := SmokeDuration / SmokeFrameCount

  /** One live puff: anchor, render scale, spawn time and sprite folder. */
  datatype Particle = Particle(x: real, y: real, scale: real, start: int, folder: int)

  /**
   * The particle `spawnSmoke(x, y, scale)` pushes at time `now`: anchored at
   * (x, y), 1.2 times the requested scale, started now, with a folder drawn
   * uniformly from the three sprite folders.
   */
  function NewParticle(x: real, y: real, scale: real, now: int, r: real): (p: Particle)
    requires 0.0 <= r < 1.0
    ensures p.x == x && p.y == y && p.start == now
    ensures p.scale == 1.2 * scale
    ensures 0 <= p.folder < |SmokeFolders|
  {
    Particle(x, y, scale * 1.2, now, RandomIndex(r, |SmokeFolders|))
  }

  /** `Math.floor(elapsed / frameDuration)`; Dafny's `/` floors for a positive divisor. */
  function FrameIndex(p: Particle, now: int): (f: int)
    ensures f < SmokeFrameCount <==> now - p.start < SmokeDuration
    ensures p.start <= now ==> 0 <= f
    ensures p.start <= now && now - p.start < SmokeDuration ==> f * FrameDuration <= now - p.start < (f + 1) * FrameDuration
  {
    (now - p.start) / FrameDuration
  }

  /** A particle whose frame index has run past its last frame. */
  predicate Expired(p: Particle, now: int) {
    FrameIndex(p, now) >= SmokeFrameCount
  }

  /** The particles that survive a `drawSmokes` pass at `now`, in their order. */
  function Live(ps: seq<Particle>, now: int): (r: seq<Particle>)
    ensures |r| <= |ps|
    ensures forall k :: 0 <= k < |r| ==> now - r[k].start < SmokeDuration
  {
    if ps == [] then []
    else (if Expired(ps[0], now) then [] else [ps[0]]) + Live(ps[1..], now)
  }

  function SmokeDraw(p: Particle, now: int): Draw {
    SmokeFrame(p.x, p.y, p.scale, p.folder, FrameIndex(p, now))
  }

  /** What a `drawSmokes` pass draws: it walks the pool from the back. */
  function SmokeDraws(ps: seq<Particle>, now: int): (r: seq<Draw>)
    ensures |r| == |Live(ps, now)|
  {
    if ps == [] then []
    else SmokeDraws(ps[1..], now) + (if Expired(ps[0], now) then [] else [SmokeDraw(ps[0], now)])
  }

  /** A particle survives exactly when less than 600 ms have passed since its start. */
  lemma {:induction false} LiveMembers(ps: seq<Particle>, now: int)
    ensures forall p :: p in Live(ps, now) <==> p in ps && now - p.start < SmokeDuration
  {
    if ps != [] {
      LiveMembers(ps[1..], now);
      assert forall p :: p in ps <==> p == ps[0] || p in ps[1..];
    }
  }

  /** Survivors keep their relative order: filtering distributes over concatenation. */
  lemma {:induction false} LiveAppend(a: seq<Particle>, b: seq<Particle>, now: int)
    ensures Live(a + b, now) == Live(a, now) + Live(b, now)
  {
    if a != [] {
      LiveAppend(a[1..], b, now);
      assert (a + b)[1..] == a[1..] + b;
    } else {
      assert a + b == b;
    }
  }

  /** The pass draws the survivors, last one first. */
  lemma {:induction false} SmokeDrawsReverseLive(ps: seq<Particle>, now: int)
    ensures |SmokeDraws(ps, now)| == |Live(ps, now)|
    ensures forall k :: 0 <= k < |Live(ps, now)| ==>
      SmokeDraws(ps, now)[k] == SmokeDraw(Live(ps, now)[|Live(ps, now)| - 1 - k], now)
  {
    if ps != [] {
      SmokeDrawsReverseLive(ps[1..], now);
    }
  }

  /** With no particle from the future, every drawn frame index lies in [0, 4]. */
  lemma {:induction false} DrawnFramesInRange(ps: seq<Particle>, now: int)
    requires forall p :: p in ps ==> p.start <= now
    ensures forall d :: d in SmokeDraws(ps, now) ==> d.SmokeFrame? && 0 <= d.frame < SmokeFrameCount
  {
    if ps != [] {
      assert forall p :: p in ps[1..] ==> p in ps;
      DrawnFramesInRange(ps[1..], now);
    }
  }
}
