/**
 * The live effect's per-frame state machine: the trigger latch, the clone
 * flags, the smoke pool and the overlay image state, all module variables of
 * the page, held here by one `Session` object.  Each camera frame is one call
 * of `OnResults`; what it draws is returned as a list of draw commands.
 */
module Sequencer {
  import opened Wrappers
  import opened Landmarks
  import opened Gesture
  import opened Render
  import opened Random
  import opened Smoke
  import opened Timeline

  /** The hand landmarks of one frame; either hand may be missing. */
  datatype HandResults = HandResults(right: Option<Hand>, left: Option<Hand>)

  /** The finger-skeleton overlays, right hand first. */
  function Skeletons(res: HandResults): (r: seq<Draw>)
    ensures |r| == (if res.right.Some? then 1 else 0) + (if res.left.Some? then 1 else 0)
    ensures res.right.Some? ==> r[0] == Skeleton(res.right.value)
    ensures res.left.Some? ==> r[|r| - 1] == Skeleton(res.left.value)
  {
    (if res.right.Some? then [Skeleton(res.right.value)] else [])
    + (if res.left.Some? then [Skeleton(res.left.value)] else [])
  }

  class Session {
    var clonesTriggered: bool
    var cloneStartTime: Option<int>
    /** The `smokeSpawned` flag of each entry of the clone table. */
    const smokeSpawned: array<bool>
    var activeSmokes: seq<Particle>
    /** The overlay image's `data-state`: "1" before the jutsu, "2" after. */
    var overlayState: string
    /** The latest timestamp a frame has seen (the clock is monotone). */
    ghost var clock: int

    ghost predicate Valid()
      reads this, smokeSpawned
    {
      && smokeSpawned.Length == |Clones|
      && (clonesTriggered <==> cloneStartTime.Some?)
      && (!clonesTriggered ==>
            && activeSmokes == []
            && overlayState == "1"
            && forall i :: 0 <= i < |Clones| ==> !smokeSpawned[i])
      && (clonesTriggered ==>
            && overlayState == "2"
            && cloneStartTime.value <= clock
            && forall i :: 0 <= i < |Clones| && smokeSpawned[i] ==> Due(Clones[i], cloneStartTime.value, clock))
      && forall p :: p in activeSmokes ==> p.start <= clock && 0 <= p.folder < |SmokeFolders|
    }

    /** Page load at time 0: nothing triggered, every flag clear, no smoke. */
    constructor ()
      ensures Valid() && fresh(smokeSpawned) && clock == 0
      ensures !clonesTriggered && cloneStartTime == None
      ensures smokeSpawned[..] == NoFlags() && activeSmokes == [] && overlayState == "1"
    {
      clonesTriggered := false;
      cloneStartTime := None;
      smokeSpawned := new bool[|Clones|](_ => false);
      activeSmokes := [];
      overlayState := "1";
      clock := 0;
      new;
      assert smokeSpawned[..] == NoFlags();
    }

    /** `resetClones`: back to the ready state, whatever the state was. */
    method ResetClones()
      requires smokeSpawned.Length == |Clones|
      modifies this, smokeSpawned
      ensures Valid()
      ensures !clonesTriggered && cloneStartTime == None
      ensures smokeSpawned[..] == NoFlags() && activeSmokes == [] && overlayState == "1"
      ensures clock == old(clock)
    {
      clonesTriggered := false;
      cloneStartTime := None;
      activeSmokes := [];
      for i := 0 to smokeSpawned.Length
        invariant forall k :: 0 <= k < i ==> !smokeSpawned[k]
        modifies smokeSpawned
      {
        smokeSpawned[i] := false;
      }
      overlayState := "1";
      assert smokeSpawned[..] == NoFlags();
    }

    /** `toggleImage`: one-way switch of the overlay to state "2". */
    method ToggleImage()
      modifies this`overlayState
      ensures overlayState == "2"
    {
      if overlayState == "2" {
        return;
      }
      overlayState := "2";
    }

    /** `spawnSmoke`: push one particle started now. */
    method SpawnSmoke(x: real, y: real, scale: real, now: int, r: real)
      requires 0.0 <= r < 1.0
      modifies this`activeSmokes
      ensures activeSmokes == old(activeSmokes) + [NewParticle(x, y, scale, now, r)]
    {
      var s := scale * 1.2;
      var folder := RandomIndex(r, |SmokeFolders|);
      activeSmokes := activeSmokes + [Particle(x, y, s, now, folder)];
    }

    /**
     * The detection block of a frame: the classifier is asked only while the
     * latch is open and a model is loaded; a positive answer closes the latch
     * and records the start time.
     */
    method DetectTrigger(res: HandResults, model: Option<Classifier>, sqrt: real -> real, now: int)
      modifies this`clonesTriggered, this`cloneStartTime
      ensures old(clonesTriggered) ==> clonesTriggered && cloneStartTime == old(cloneStartTime)
      ensures !old(clonesTriggered) ==>
        && (clonesTriggered <==> PredictGesture(model, res.right, res.left, sqrt, DefaultThreshold))
        && cloneStartTime == if clonesTriggered then Some(now) else old(cloneStartTime)
    {
      if !clonesTriggered && model.Some? {
        if PredictGesture(model, res.right, res.left, sqrt, DefaultThreshold) {
          clonesTriggered := true;
          cloneStartTime := Some(now);
        }
      }
    }

    /**
     * The activation pass of a triggered frame: every clone not yet spawned
     * whose delay has passed gets its flag set and spawns its smoke pair.
     */
    method ActivateDueClones(now: int, width: int, height: int, rand: seq<real>)
      requires smokeSpawned.Length == |Clones| && cloneStartTime.Some? && RandomSlots(rand)
      modifies smokeSpawned, this`activeSmokes
      ensures smokeSpawned[..] == StepFlags(old(smokeSpawned[..]), cloneStartTime.value, now)
      ensures activeSmokes == old(activeSmokes)
        + NewPuffs(old(smokeSpawned[..]), cloneStartTime.value, now, width, height, rand, |Clones|)
    {
      var start := cloneStartTime.value;
      ghost var flags := smokeSpawned[..];
      for i := 0 to |Clones|
        invariant forall k :: 0 <= k < i ==> smokeSpawned[k] == (flags[k] || Due(Clones[k], start, now))
        invariant forall k :: i <= k < |Clones| ==> smokeSpawned[k] == flags[k]
        invariant activeSmokes == old(activeSmokes) + NewPuffs(flags, start, now, width, height, rand, i)
      {
        var cl := Clones[i];
        ghost var before := activeSmokes;
        ghost var prev := NewPuffs(flags, start, now, width, height, rand, i);
        if !smokeSpawned[i] && now - start >= cl.delay {
          smokeSpawned[i] := true;
          var centerX := cl.x as real + width as real / 2.0;
          var centerY := cl.y as real + height as real / 2.0 - SmokeLift;
          SpawnSmoke(centerX - SmokeHalfGap, centerY, cl.scale, now, rand[2 * i]);
          SpawnSmoke(centerX + SmokeHalfGap, centerY, cl.scale, now, rand[2 * i + 1]);
          assert activeSmokes == before + ClonePuffs(i, width, height, now, rand);
          assert NewPuffs(flags, start, now, width, height, rand, i + 1) == prev + ClonePuffs(i, width, height, now, rand);
        } else {
          assert NewPuffs(flags, start, now, width, height, rand, i + 1) == prev + [];
        }
      }
      assert smokeSpawned[..] == StepFlags(flags, start, now);
    }

    /**
     * `drawClones`: the due clones in descending-delay order, then the person
     * once more on top.
     */
    method DrawClones(now: int, width: int) returns (draws: seq<Draw>)
      requires cloneStartTime.Some?
      ensures draws == ClonePass(DrawOrder(), cloneStartTime.value, now, width) + [Person]
    {
      var sorted := DrawOrder();
      draws := DrawEachDue(sorted, cloneStartTime.value, now, width);
      draws := draws + [Person];
    }

    /** The `forEach` of `drawClones`: one copy per due clone, in the given order. */
    static method DrawEachDue(sorted: seq<int>, start: int, now: int, width: int) returns (draws: seq<Draw>)
      requires ValidIndices(sorted)
      ensures draws == ClonePass(sorted, start, now, width)
    {
      draws := [];
      for k := 0 to |sorted|
        invariant draws == ClonePass(sorted[..k], start, now, width)
      {
        var i := sorted[k];
        ClonePassSnoc(sorted[..k], i, start, now, width);
        assert sorted[..k + 1] == sorted[..k] + [i];
        if now - start >= Clones[i].delay {
          draws := draws + [CloneDraw(i, width)];
        }
      }
      assert sorted[..|sorted|] == sorted;
    }

    /**
     * `drawSmokes`: walk the pool from the back, splice out each expired
     * particle and draw the others at their current frame.
     */
    method DrawSmokes(now: int) returns (draws: seq<Draw>)
      modifies this`activeSmokes
      ensures activeSmokes == Live(old(activeSmokes), now)
      ensures draws == SmokeDraws(old(activeSmokes), now)
    {
      ghost var pool := activeSmokes;
      draws := [];
      var i := |activeSmokes|;
      while i > 0
        invariant 0 <= i <= |pool|
        invariant activeSmokes == pool[..i] + Live(pool[i..], now)
        invariant draws == SmokeDraws(pool[i..], now)
      {
        i := i - 1;
        ghost var rest := Live(pool[i + 1..], now);
        assert pool[i..] == [pool[i]] + pool[i + 1..];
        assert pool[..i + 1] == pool[..i] + [pool[i]];
        assert activeSmokes == pool[..i] + [pool[i]] + rest;
        assert activeSmokes[i] == pool[i];
        var s := activeSmokes[i];
        var elapsed := now - s.start;
        var frameIndex := elapsed / FrameDuration;
        if frameIndex >= SmokeFrameCount {
          assert Live(pool[i..], now) == rest;
          assert activeSmokes[..i] == pool[..i];
          assert activeSmokes[i + 1..] == rest;
          activeSmokes := activeSmokes[..i] + activeSmokes[i + 1..];
        } else {
          assert Live(pool[i..], now) == [pool[i]] + rest;
          draws := draws + [SmokeFrame(s.x, s.y, s.scale, s.folder, frameIndex)];
        }
      }
      assert pool[0..] == pool;
    }

    /**
     * The triggered half of a frame: the activation pass, the overlay switch,
     * the clones with the person on top, and the smoke pass.
     */
    method TriggeredFrame(now: int, width: int, height: int, rand: seq<real>) returns (draws: seq<Draw>)
      requires smokeSpawned.Length == |Clones| && clonesTriggered && cloneStartTime.Some?
      requires cloneStartTime.value <= now && clock == now && RandomSlots(rand)
      requires forall i :: 0 <= i < |Clones| && smokeSpawned[i] ==> Due(Clones[i], cloneStartTime.value, now)
      requires forall p :: p in activeSmokes ==> p.start <= now && 0 <= p.folder < |SmokeFolders|
      modifies smokeSpawned, this`activeSmokes, this`overlayState
      ensures Valid()
      ensures smokeSpawned[..] == StepFlags(old(smokeSpawned[..]), cloneStartTime.value, now)
      ensures activeSmokes
        == Live(old(activeSmokes) + NewPuffs(old(smokeSpawned[..]), cloneStartTime.value, now, width, height, rand, |Clones|), now)
      ensures draws == ClonePass(DrawOrder(), cloneStartTime.value, now, width) + [Person]
        + SmokeDraws(old(activeSmokes) + NewPuffs(old(smokeSpawned[..]), cloneStartTime.value, now, width, height, rand, |Clones|), now)
    {
      var start := cloneStartTime.value;
      ghost var flags := smokeSpawned[..];
      ActivateDueClones(now, width, height, rand);
      NewPuffsStartNow(flags, start, now, width, height, rand, |Clones|);
      ghost var pool := activeSmokes;
      ToggleImage();
      var cloneDraws := DrawClones(now, width);
      var smokeDraws := DrawSmokes(now);
      LiveMembers(pool, now);
      draws := cloneDraws + smokeDraws;
      forall i | 0 <= i < |Clones| && smokeSpawned[i] ensures Due(Clones[i], start, now) {
        assert smokeSpawned[i] == (flags[i] || Due(Clones[i], start, now));
      }
    }

    /**
     * One camera frame (`holistic.onResults`).  Without a segmentation mask
     * nothing happens.  Otherwise: draw the video; while untriggered, ask the
     * detector; once triggered, run the activation pass, switch the overlay,
     * draw the clones, the person and the smoke; else draw the person; then
     * the hand skeletons.
     */
    method OnResults(maskReady: bool, res: HandResults, model: Option<Classifier>, sqrt: real -> real,
                     now: int, width: int, height: int, rand: seq<real>) returns (draws: seq<Draw>)
      requires Valid() && clock <= now && RandomSlots(rand)
      modifies this, smokeSpawned
      ensures Valid()
      ensures !maskReady ==> draws == [] && unchanged(this) && unchanged(smokeSpawned)
      ensures maskReady ==> clock == now
      ensures maskReady && old(clonesTriggered) ==>
        clonesTriggered && cloneStartTime == old(cloneStartTime)
      ensures maskReady && !old(clonesTriggered) ==>
        && (clonesTriggered <==> PredictGesture(model, res.right, res.left, sqrt, DefaultThreshold))
        && (clonesTriggered ==> cloneStartTime == Some(now))
      ensures maskReady && clonesTriggered ==>
        smokeSpawned[..] == StepFlags(old(smokeSpawned[..]), cloneStartTime.value, now)
      ensures maskReady && clonesTriggered ==>
        activeSmokes == Live(old(activeSmokes)
          + NewPuffs(old(smokeSpawned[..]), cloneStartTime.value, now, width, height, rand, |Clones|), now)
      ensures maskReady && clonesTriggered ==>
        draws == [Video]
          + (ClonePass(DrawOrder(), cloneStartTime.value, now, width) + [Person]
             + SmokeDraws(old(activeSmokes)
                 + NewPuffs(old(smokeSpawned[..]), cloneStartTime.value, now, width, height, rand, |Clones|), now))
          + Skeletons(res)
      ensures maskReady && !clonesTriggered ==>
        && smokeSpawned[..] == old(smokeSpawned[..]) && activeSmokes == []
        && draws == [Video, Person] + Skeletons(res)
    {
      if !maskReady {
        return [];
      }
      clock := now;
      draws := [Video];
      DetectTrigger(res, model, sqrt, now);
      if clonesTriggered {
        var start := cloneStartTime.value;
        assert forall i :: 0 <= i < |Clones| && smokeSpawned[i] ==> Due(Clones[i], start, now);
        var frame := TriggeredFrame(now, width, height, rand);
        draws := draws + frame + Skeletons(res);
        return;
      } else {
        draws := draws + [Person] + Skeletons(res);
      }
    }
  }
}
