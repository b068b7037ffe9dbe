/**
 * The clone timeline of the live effect: the fixed table of clones
 * (`customClones`), when each becomes due after the trigger, which clones a
 * frame activates and the smoke pair each activation spawns, and the order in
 * which `drawClones` draws them.
 */
module Timeline {
  import opened Smoke
  import opened Render

  /** A clone: offset, render scale and delay in ms after the trigger. */
  datatype CloneSpec = CloneSpec(x: int, y: int, scale: real, delay: int)

  const Clones: seq<CloneSpec> := [
    CloneSpec(-100, 100, 0.9, 1000),
    CloneSpec(120, 100, 0.85, 1150),
    CloneSpec(-180, 140, 0.8, 1300),
    CloneSpec(-140, 140, 0.45, 1320),
    CloneSpec(180, 160, 0.7, 1450),
    CloneSpec(140, 160, 0.4, 1470),
    CloneSpec(-250, 140, 0.7, 1600),
    CloneSpec(-220, 140, 0.35, 1620),
    CloneSpec(260, 160, 0.65, 1750),
    CloneSpec(-100, 150, 0.6, 2500),
    CloneSpec(100, 150, 0.6, 2650),
    CloneSpec(-120, 70, 0.55, 2800),
    CloneSpec(100, 70, 0.5, 2950),
    CloneSpec(-200, 85, 0.55, 3100),
    CloneSpec(230, 85, 0.5, 3250),
    CloneSpec(-280, 100, 0.4, 3400)
  ]

  /** Vertical lift of the smoke anchor above the canvas centre, and the half gap of a pair. */
  const SmokeLift := 40.0
  const SmokeHalfGap := 15.0

  /** A clone is due once at least its delay has passed since the trigger. */
  predicate Due(c: CloneSpec, start: int, now: int) {
    now - start >= c.delay
  }

  /** Every `smokeSpawned` flag cleared. */
  function NoFlags(): seq<bool> {
    seq(|Clones|, _ => false)
  }

  /** The flags after one activation pass at `now`: a due clone's flag is set. */
  function StepFlags(flags: seq<bool>, start: int, now: int): (r: seq<bool>)
    requires |flags| == |Clones|
    ensures |r| == |Clones|
  {
    seq(|Clones|, i requires 0 <= i < |Clones| => flags[i] || Due(Clones[i], start, now))
  }

  /** The injected `Math.random()` values: one per spawn slot, each in [0, 1). */
  predicate RandomSlots(rand: seq<real>) {
    |rand| >= 2 * |Clones| && forall k :: 0 <= k < |rand| ==> 0.0 <= rand[k] < 1.0
  }

  /**
   * The two puffs of one activation, 15 px left and right of the clone's
   * centre, 40 px above it, each at the clone's scale (times 1.2).
   */
  function Puffs(c: CloneSpec, width: int, height: int, now: int, r1: real, r2: real): (ps: seq<Particle>)
    requires 0.0 <= r1 < 1.0 && 0.0 <= r2 < 1.0
    ensures |ps| == 2
    ensures ps[0].x == c.x as real + width as real / 2.0 - SmokeHalfGap
    ensures ps[1].x == c.x as real + width as real / 2.0 + SmokeHalfGap
    ensures ps[0].y == ps[1].y == c.y as real + height as real / 2.0 - SmokeLift
    ensures ps[0].scale == ps[1].scale == 1.2 * c.scale
    ensures ps[0].start == ps[1].start == now
  {
    var centerX := c.x as real + width as real / 2.0;
    var centerY := c.y as real + height as real / 2.0 - SmokeLift;
    [NewParticle(centerX - SmokeHalfGap, centerY, c.scale, now, r1),
     NewParticle(centerX + SmokeHalfGap, centerY, c.scale, now, r2)]
  }

  /** The puffs clone i spawns, using random slots 2i and 2i+1. */
  function ClonePuffs(i: int, width: int, height: int, now: int, rand: seq<real>): seq<Particle>
    requires 0 <= i < |Clones| && RandomSlots(rand)
  {
    Puffs(Clones[i], width, height, now, rand[2 * i], rand[2 * i + 1])
  }

  /** Clone i is activated by a pass: not yet spawned, and due. */
  predicate Activates(flags: seq<bool>, start: int, now: int, i: int)
    requires |flags| == |Clones| && 0 <= i < |Clones|
  {
    !flags[i] && Due(Clones[i], start, now)
  }

  /** The particles an activation pass over the first n clones appends, in table order. */
  function NewPuffs(flags: seq<bool>, start: int, now: int, width: int, height: int,
                    rand: seq<real>, n: nat): (r: seq<Particle>)
    requires |flags| == |Clones| && n <= |Clones| && RandomSlots(rand)
    ensures |r| <= 2 * n
  {
    if n == 0 then []
    else
      NewPuffs(flags, start, now, width, height, rand, n - 1)
      + (if Activates(flags, start, now, n - 1) then ClonePuffs(n - 1, width, height, now, rand) else [])
  }

  /** Every puff a pass appends starts now and uses one of the sprite folders. */
  lemma {:induction false} NewPuffsStartNow(flags: seq<bool>, start: int, now: int, width: int, height: int,
                                            rand: seq<real>, n: nat)
    requires |flags| == |Clones| && n <= |Clones| && RandomSlots(rand)
    ensures forall p :: p in NewPuffs(flags, start, now, width, height, rand, n) ==>
      p.start == now && 0 <= p.folder < |SmokeFolders|
  {
    if n > 0 {
      NewPuffsStartNow(flags, start, now, width, height, rand, n - 1);
    }
  }

  /** The clones among the first n that a pass activates, in table order. */
  function Activations(flags: seq<bool>, start: int, now: int, n: nat): (r: seq<int>)
    requires |flags| == |Clones| && n <= |Clones|
    ensures forall k :: 0 <= k < |r| ==> 0 <= r[k] < n
  {
    if n == 0 then []
    else Activations(flags, start, now, n - 1) + (if Activates(flags, start, now, n - 1) then [n - 1] else [])
  }

  /** A pass activates exactly the unspawned due clones, each once, in table order. */
  lemma {:induction false} ActivationsExact(flags: seq<bool>, start: int, now: int, n: nat)
    requires |flags| == |Clones| && n <= |Clones|
    ensures forall i :: i in Activations(flags, start, now, n) <==>
      0 <= i < n && Activates(flags, start, now, i)
    ensures forall a, b :: 0 <= a < b < |Activations(flags, start, now, n)| ==>
      Activations(flags, start, now, n)[a] < Activations(flags, start, now, n)[b]
  {
    if n > 0 {
      ActivationsExact(flags, start, now, n - 1);
    }
  }

  /**
   * Each activation appends exactly two particles: the k-th activated clone's
   * pair sits at positions 2k and 2k+1, and nothing else is appended.
   */
  lemma {:induction false} NewPuffsPaired(flags: seq<bool>, start: int, now: int, width: int, height: int,
                                          rand: seq<real>, n: nat)
    requires |flags| == |Clones| && n <= |Clones| && RandomSlots(rand)
    ensures |NewPuffs(flags, start, now, width, height, rand, n)| == 2 * |Activations(flags, start, now, n)|
    ensures forall k :: 0 <= k < |Activations(flags, start, now, n)| ==>
      NewPuffs(flags, start, now, width, height, rand, n)[2 * k .. 2 * k + 2]
        == ClonePuffs(Activations(flags, start, now, n)[k], width, height, now, rand)
  {
    if n > 0 {
      NewPuffsPaired(flags, start, now, width, height, rand, n - 1);
      var prev := NewPuffs(flags, start, now, width, height, rand, n - 1);
      var acts := Activations(flags, start, now, n - 1);
      var all := NewPuffs(flags, start, now, width, height, rand, n);
      var allActs := Activations(flags, start, now, n);
      if Activates(flags, start, now, n - 1) {
        var extra := ClonePuffs(n - 1, width, height, now, rand);
        assert all == prev + extra;
        assert allActs == acts + [n - 1];
        forall k | 0 <= k < |allActs|
          ensures all[2 * k .. 2 * k + 2] == ClonePuffs(allActs[k], width, height, now, rand)
        {
          if k < |acts| {
            assert allActs[k] == acts[k];
            assert all[2 * k .. 2 * k + 2] == prev[2 * k .. 2 * k + 2];
          } else {
            assert all[2 * k .. 2 * k + 2] == extra;
          }
        }
      } else {
        assert all == prev;
        assert allActs == acts;
      }
    }
  }

  /** A second pass at the same time activates nothing. */
  lemma {:induction false} PassIsIdempotent(flags: seq<bool>, start: int, now: int, n: nat)
    requires |flags| == |Clones| && n <= |Clones|
    ensures Activations(StepFlags(flags, start, now), start, now, n) == []
  {
    if n > 0 {
      PassIsIdempotent(flags, start, now, n - 1);
    }
  }

  // ----- the flags over a session -----

  /** The flags after the activation passes of the frames at times `nows`, from a reset. */
  function FlagsAfter(start: int, nows: seq<int>): (r: seq<bool>)
    ensures |r| == |Clones|
  {
    if nows == [] then NoFlags()
    else StepFlags(FlagsAfter(start, nows[..|nows| - 1]), start, nows[|nows| - 1])
  }

  predicate NonDecreasing(nows: seq<int>) {
    forall a, b :: 0 <= a < b < |nows| ==> nows[a] <= nows[b]
  }

  /** With a monotone clock, a flag is set exactly when its clone is due at the latest frame. */
  lemma {:induction false} FlagsAfterDue(start: int, nows: seq<int>, i: int)
    requires NonDecreasing(nows) && 0 <= i < |Clones|
    ensures FlagsAfter(start, nows)[i] <==> nows != [] && Due(Clones[i], start, nows[|nows| - 1])
  {
    if nows != [] {
      var init := nows[..|nows| - 1];
      assert NonDecreasing(init);
      FlagsAfterDue(start, init, i);
    }
  }

  /** A flag, once set, is never cleared by later passes (whatever the clock does). */
  lemma {:induction false} FlagNeverReverts(start: int, nows: seq<int>, j: nat, i: int)
    requires j <= |nows| && 0 <= i < |Clones|
    requires FlagsAfter(start, nows[..j])[i]
    ensures FlagsAfter(start, nows)[i]
  {
    if j < |nows| {
      assert nows[..|nows| - 1][..j] == nows[..j];
      FlagNeverReverts(start, nows[..|nows| - 1], j, i);
    } else {
      assert nows[..j] == nows;
    }
  }

  /**
   * One activation per clone: with a monotone clock, the pass of frame j flips
   * clone i's flag from false to true exactly when frame j is the first frame
   * at which the clone is due.
   */
  lemma ActivatedAtFirstDueFrame(start: int, nows: seq<int>, j: nat, i: int)
    requires NonDecreasing(nows) && j < |nows| && 0 <= i < |Clones|
    ensures !FlagsAfter(start, nows[..j])[i] && FlagsAfter(start, nows[..j + 1])[i]
        <==> Due(Clones[i], start, nows[j]) && forall j' :: 0 <= j' < j ==> !Due(Clones[i], start, nows[j'])
  {
    assert NonDecreasing(nows[..j]);
    assert NonDecreasing(nows[..j + 1]);
    FlagsAfterDue(start, nows[..j], i);
    FlagsAfterDue(start, nows[..j + 1], i);
    if j > 0 && Due(Clones[i], start, nows[j - 1]) {
      assert nows[..j][j - 1] == nows[j - 1];
    }
    if Due(Clones[i], start, nows[j]) && !FlagsAfter(start, nows[..j])[i] {
      forall j' | 0 <= j' < j ensures !Due(Clones[i], start, nows[j']) {
        assert nows[j'] <= nows[j - 1];
      }
    }
  }

  /** So no clone is activated twice in a session. */
  lemma ActivatedOnce(start: int, nows: seq<int>, j1: nat, j2: nat, i: int)
    requires NonDecreasing(nows) && j1 < |nows| && j2 < |nows| && 0 <= i < |Clones|
    requires !FlagsAfter(start, nows[..j1])[i] && FlagsAfter(start, nows[..j1 + 1])[i]
    requires !FlagsAfter(start, nows[..j2])[i] && FlagsAfter(start, nows[..j2 + 1])[i]
    ensures j1 == j2
  {
    ActivatedAtFirstDueFrame(start, nows, j1, i);
    ActivatedAtFirstDueFrame(start, nows, j2, i);
  }

  /**
   * The documented scenario: triggered at 0, a pass at 1300 activates the
   * clones with delays 1000, 1150 and 1300 (six puffs); a second pass at 1300
   * activates nothing.
   */
  lemma ScenarioAt1300(width: int, height: int, rand: seq<real>)
    requires RandomSlots(rand)
    ensures Activations(NoFlags(), 0, 1300, |Clones|) == [0, 1, 2]
    ensures |NewPuffs(NoFlags(), 0, 1300, width, height, rand, |Clones|)| == 6
    ensures Activations(StepFlags(NoFlags(), 0, 1300), 0, 1300, |Clones|) == []
  {
    var after := StepFlags(NoFlags(), 0, 1300);
    ActivationsExact(NoFlags(), 0, 1300, |Clones|);
    ActivationsExact(after, 0, 1300, |Clones|);
    NewPuffsPaired(NoFlags(), 0, 1300, width, height, rand, |Clones|);
    var acts := Activations(NoFlags(), 0, 1300, |Clones|);
    assert forall i :: i in acts <==> 0 <= i < 3;
    assert acts == [0, 1, 2] by { ActivationsScenario(); }
    PassIsIdempotent(NoFlags(), 0, 1300, |Clones|);
  }

  lemma ActivationsScenario()
    ensures Activations(NoFlags(), 0, 1300, |Clones|) == [0, 1, 2]
  {
    var f := NoFlags();
    assert Activations(f, 0, 1300, 3) == [0, 1, 2];
    var n := 3;
    while n < |Clones|
      invariant 3 <= n <= |Clones|
      invariant Activations(f, 0, 1300, n) == [0, 1, 2]
    {
      assert !Due(Clones[n], 0, 1300);
      n := n + 1;
    }
  }

  // ----- draw order -----

  predicate ValidIndices(s: seq<int>) {
    forall k :: 0 <= k < |s| ==> 0 <= s[k] < |Clones|
  }

  predicate ByDescendingDelay(s: seq<int>)
    requires ValidIndices(s)
  {
    forall a, b :: 0 <= a < b < |s| ==> Clones[s[a]].delay >= Clones[s[b]].delay
  }

  predicate Distinct(s: seq<int>) {
    forall a, b :: 0 <= a < b < |s| ==> s[a] != s[b]
  }

  /** Every clone of `s` has a delay of at most `d`. */
  predicate DelaysAtMost(s: seq<int>, d: int)
    requires ValidIndices(s)
  {
    forall k :: 0 <= k < |s| ==> Clones[s[k]].delay <= d
  }

  /**
   * One step of the comparator sort `(a, b) => b.delay - a.delay`: clone i is
   * placed after every clone whose delay is at least its own, so clones of
   * equal delay keep their table order.
   */
  function InsertByDelay(i: int, s: seq<int>): (r: seq<int>)
    requires 0 <= i < |Clones| && ValidIndices(s) && ByDescendingDelay(s)
    ensures multiset(r) == multiset(s) + multiset{i}
    ensures ValidIndices(r)
  {
    if s == [] then [i]
    else if Clones[s[0]].delay >= Clones[i].delay then
      assert s == [s[0]] + s[1..];
      [s[0]] + InsertByDelay(i, s[1..])
    else [i] + s
  }

  /** Insertion keeps the order by delay, and adds no delay above those already present and i's. */
  lemma {:induction false} InsertByDelaySorted(i: int, s: seq<int>, d: int)
    requires 0 <= i < |Clones| && ValidIndices(s) && ByDescendingDelay(s)
    ensures ByDescendingDelay(InsertByDelay(i, s))
    ensures DelaysAtMost(s, d) && Clones[i].delay <= d ==> DelaysAtMost(InsertByDelay(i, s), d)
  {
    var r := InsertByDelay(i, s);
    if s != [] {
      var tail := s[1..];
      if Clones[s[0]].delay >= Clones[i].delay {
        assert DelaysAtMost(tail, Clones[s[0]].delay);
        InsertByDelaySorted(i, tail, Clones[s[0]].delay);
        InsertByDelaySorted(i, tail, d);
        var rest := InsertByDelay(i, tail);
        assert r == [s[0]] + rest;
        assert DelaysAtMost(rest, Clones[s[0]].delay);
      } else {
        assert r == [i] + s;
        assert DelaysAtMost(s, Clones[s[0]].delay);
      }
    }
  }

  /** The clone indices sorted by descending delay (a stable sort). */
  function SortByDelay(s: seq<int>): (r: seq<int>)
    requires ValidIndices(s)
    ensures multiset(r) == multiset(s)
    ensures ValidIndices(r) && ByDescendingDelay(r)
  {
    if s == [] then []
    else
      assert s == s[..|s| - 1] + [s[|s| - 1]];
      InsertByDelaySorted(s[|s| - 1], SortByDelay(s[..|s| - 1]), 0);
      InsertByDelay(s[|s| - 1], SortByDelay(s[..|s| - 1]))
  }

  /** The table indices 0..15 in table order. */
  function AllClones(): (r: seq<int>)
    ensures |r| == |Clones| && forall k :: 0 <= k < |r| ==> r[k] == k
  {
    seq(|Clones|, k => k)
  }

  /** `[...customClones].sort((a, b) => b.delay - a.delay)`, as indices into the table. */
  function DrawOrder(): (r: seq<int>)
    ensures ValidIndices(r) && ByDescendingDelay(r)
    ensures multiset(r) == multiset(AllClones())
  {
    SortByDelay(AllClones())
  }

  lemma {:induction false} DistinctCounts(s: seq<int>, x: int)
    requires Distinct(s)
    ensures multiset(s)[x] <= 1
  {
    if s != [] {
      assert s == [s[0]] + s[1..];
      assert Distinct(s[1..]);
      DistinctCounts(s[1..], x);
      if x == s[0] {
        assert x !in s[1..];
      }
    }
  }

  /** A permutation of a sequence without repeats has no repeats. */
  lemma DistinctPermutation(r: seq<int>, s: seq<int>)
    requires multiset(r) == multiset(s) && Distinct(s)
    ensures Distinct(r)
  {
    forall a, b | 0 <= a < b < |r| ensures r[a] != r[b] {
      if r[a] == r[b] {
        assert r == r[..a] + [r[a]] + r[a + 1..b] + [r[b]] + r[b + 1..];
        assert multiset(r)[r[a]] >= 2;
        DistinctCounts(s, r[a]);
      }
    }
  }

  /** The draw order lists every clone exactly once. */
  lemma DrawOrderIsPermutation()
    ensures Distinct(DrawOrder())
    ensures forall i :: i in DrawOrder() <==> 0 <= i < |Clones|
  {
    var all := AllClones();
    DistinctPermutation(DrawOrder(), all);
    forall i ensures i in DrawOrder() <==> 0 <= i < |Clones| {
      assert i in DrawOrder() <==> i in multiset(all);
      if 0 <= i < |Clones| { assert all[i] == i; }
    }
  }

  /** The transform of `drawClones` for clone i: shifted, then scaled. */
  function CloneDraw(i: int, width: int): (r: Draw)
    requires 0 <= i < |Clones|
    ensures r.Clone? && r.index == i && r.scale == Clones[i].scale && r.ty == Clones[i].y as real
    ensures r.tx + width as real * Clones[i].scale / 2.0 == Clones[i].x as real + width as real / 2.0
  {
    var c := Clones[i];
    Clone(i, c.x as real + width as real * (1.0 - c.scale) / 2.0, c.y as real, c.scale)
  }

  /** The smoke pair of a clone is centred horizontally on the clone's drawn copy. */
  lemma PuffsCentredOnClone(i: int, width: int, height: int, now: int, r1: real, r2: real)
    requires 0 <= i < |Clones| && 0.0 <= r1 < 1.0 && 0.0 <= r2 < 1.0
    ensures (Puffs(Clones[i], width, height, now, r1, r2)[0].x + Puffs(Clones[i], width, height, now, r1, r2)[1].x) / 2.0
         == CloneDraw(i, width).tx + Clones[i].scale * (width as real) / 2.0
  {
  }

  /** The clone copies one `drawClones` pass draws, walking `order`. */
  function ClonePass(order: seq<int>, start: int, now: int, width: int): (r: seq<Draw>)
    requires ValidIndices(order)
    ensures |r| <= |order|
    ensures forall k :: 0 <= k < |r| ==> r[k].Clone? && 0 <= r[k].index < |Clones|
  {
    if order == [] then []
    else
      var i := order[|order| - 1];
      ClonePass(order[..|order| - 1], start, now, width)
      + (if Due(Clones[i], start, now) then [CloneDraw(i, width)] else [])
  }

  /** Extending the order by one clone extends the pass by that clone's draw, if due. */
  lemma ClonePassSnoc(order: seq<int>, i: int, start: int, now: int, width: int)
    requires ValidIndices(order) && 0 <= i < |Clones|
    ensures ValidIndices(order + [i])
    ensures ClonePass(order + [i], start, now, width)
         == ClonePass(order, start, now, width) + (if Due(Clones[i], start, now) then [CloneDraw(i, width)] else [])
  {
    assert (order + [i])[..|order|] == order;
  }

  /** A pass over `order` draws exactly the due clones of `order`, each as its own transform. */
  lemma {:induction false} ClonePassMembers(order: seq<int>, start: int, now: int, width: int)
    requires ValidIndices(order)
    ensures forall d :: d in ClonePass(order, start, now, width) ==>
      d.Clone? && 0 <= d.index < |Clones| && d == CloneDraw(d.index, width)
      && d.index in order && Due(Clones[d.index], start, now)
    ensures forall i :: 0 <= i < |Clones| && i in order && Due(Clones[i], start, now) ==>
      CloneDraw(i, width) in ClonePass(order, start, now, width)
  {
    if order != [] {
      var init := order[..|order| - 1];
      assert order == init + [order[|order| - 1]];
      assert ValidIndices(init);
      ClonePassMembers(init, start, now, width);
    }
  }

  /** Every clone a pass draws is an entry of `order`. */
  lemma {:induction false} ClonePassFromOrder(order: seq<int>, start: int, now: int, width: int)
    requires ValidIndices(order)
    ensures forall k :: 0 <= k < |ClonePass(order, start, now, width)| ==>
      ClonePass(order, start, now, width)[k].index in order
  {
    if order != [] {
      var init := order[..|order| - 1];
      assert ValidIndices(init);
      ClonePassFromOrder(init, start, now, width);
      var prev := ClonePass(init, start, now, width);
      var cp := ClonePass(order, start, now, width);
      forall k | 0 <= k < |cp| ensures cp[k].index in order {
        if k < |prev| {
          assert cp[k] == prev[k];
          assert prev[k].index in init;
        }
      }
    }
  }

  /** A pass draws in the order of `order`: a by-delay order gives non-increasing delays. */
  lemma {:induction false} ClonePassOrdered(order: seq<int>, start: int, now: int, width: int)
    requires ValidIndices(order) && ByDescendingDelay(order)
    ensures forall a, b :: 0 <= a < b < |ClonePass(order, start, now, width)| ==>
      Clones[ClonePass(order, start, now, width)[a].index].delay
        >= Clones[ClonePass(order, start, now, width)[b].index].delay
  {
    if order != [] {
      var init, i := order[..|order| - 1], order[|order| - 1];
      assert ValidIndices(init) && ByDescendingDelay(init);
      ClonePassOrdered(init, start, now, width);
      ClonePassFromOrder(init, start, now, width);
      var prev := ClonePass(init, start, now, width);
      var cp := ClonePass(order, start, now, width);
      if Due(Clones[i], start, now) {
        assert cp == prev + [CloneDraw(i, width)];
        forall a | 0 <= a < |prev| ensures Clones[prev[a].index].delay >= Clones[i].delay {
          assert prev[a].index in init;
          var p :| 0 <= p < |init| && init[p] == prev[a].index;
          assert order[p] == prev[a].index;
        }
      } else {
        assert cp == prev;
      }
    }
  }

  /** A pass over an order without repeats draws each clone at most once. */
  lemma {:induction false} ClonePassDistinct(order: seq<int>, start: int, now: int, width: int)
    requires ValidIndices(order) && Distinct(order)
    ensures forall a, b :: 0 <= a < b < |ClonePass(order, start, now, width)| ==>
      ClonePass(order, start, now, width)[a].index != ClonePass(order, start, now, width)[b].index
  {
    if order != [] {
      var init, i := order[..|order| - 1], order[|order| - 1];
      assert ValidIndices(init) && Distinct(init);
      ClonePassDistinct(init, start, now, width);
      ClonePassFromOrder(init, start, now, width);
      var prev := ClonePass(init, start, now, width);
      var cp := ClonePass(order, start, now, width);
      if Due(Clones[i], start, now) {
        assert cp == prev + [CloneDraw(i, width)];
        forall a | 0 <= a < |prev| ensures prev[a].index != i {
          assert prev[a].index in init;
          var p :| 0 <= p < |init| && init[p] == prev[a].index;
          assert order[p] == prev[a].index;
        }
      } else {
        assert cp == prev;
      }
    }
  }

  /**
   * `drawClones`: the clones drawn are exactly the due ones, each once, in
   * non-increasing delay order.
   */
  lemma DrawClonesExactlyDue(start: int, now: int, width: int)
    ensures var cp := ClonePass(DrawOrder(), start, now, width);
      && (forall i :: 0 <= i < |Clones| ==> (CloneDraw(i, width) in cp <==> Due(Clones[i], start, now)))
      && (forall d :: d in cp ==> d.Clone? && 0 <= d.index < |Clones| && d == CloneDraw(d.index, width))
      && (forall a, b :: 0 <= a < b < |cp| ==>
            Clones[cp[a].index].delay >= Clones[cp[b].index].delay && cp[a].index != cp[b].index)
  {
    DrawOrderIsPermutation();
    ClonePassMembers(DrawOrder(), start, now, width);
    ClonePassOrdered(DrawOrder(), start, now, width);
    ClonePassDistinct(DrawOrder(), start, now, width);
    var cp := ClonePass(DrawOrder(), start, now, width);
    forall i | 0 <= i < |Clones| && CloneDraw(i, width) in cp
      ensures Due(Clones[i], start, now)
    {
      assert CloneDraw(i, width).index == i;
    }
  }
}
