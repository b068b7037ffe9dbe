/**
 * The training set the train button builds from the recorded samples: every
 * clone-sign sample labelled 1, then every other sample labelled 0, shuffled
 * by a Fisher–Yates pass that swaps inputs and labels in lockstep.
 */
module Dataset {
  import opened Random

  /** One recorded sample: the 126-value feature vector of a frame. */
  type Features = seq<real>

  /** An input vector with its 0/1 label. */
  type Example = (Features, int)

  const MinSamplesPerClass := 5

  /** What the network is fitted on: inputs and labels, index by index. */
  datatype TrainingSet = TrainingSet(xs: seq<Features>, ys: seq<int>)

  /** The pairs (xs[k], ys[k]). */
  function Zip(xs: seq<Features>, ys: seq<int>): seq<Example>
    requires |xs| == |ys|
  {
    seq(|xs|, k requires 0 <= k < |xs| => (xs[k], ys[k]))
  }

  /** Every sample of `s` paired with the label `y`. */
  function Labelled(s: seq<Features>, y: int): seq<Example> {
    seq(|s|, k requires 0 <= k < |s| => (s[k], y))
  }

  /** The labelled examples in assembly order: clone-sign samples first. */
  function Examples(pos: seq<Features>, neg: seq<Features>): seq<Example> {
    Labelled(pos, 1) + Labelled(neg, 0)
  }

  /** The training gate: at least five samples of each class. */
  predicate Trainable(nP: int, nN: int) {
    nP >= MinSamplesPerClass && nN >= MinSamplesPerClass
  }

  /**
   * The two `forEach` loops: each clone-sign sample pushed with label 1, then
   * each other sample pushed with label 0.
   */
  method Assemble(pos: seq<Features>, neg: seq<Features>) returns (xs: seq<Features>, ys: seq<int>)
    ensures xs == pos + neg
    ensures |ys| == |xs|
    ensures forall k :: 0 <= k < |pos| ==> ys[k] == 1
    ensures forall k :: |pos| <= k < |ys| ==> ys[k] == 0
    ensures Zip(xs, ys) == Examples(pos, neg)
  {
    xs, ys := [], [];
    for k := 0 to |pos|
      invariant xs == pos[..k] && |ys| == k
      invariant forall m :: 0 <= m < k ==> ys[m] == 1
    {
      xs := xs + [pos[k]];
      ys := ys + [1];
    }
    for k := 0 to |neg|
      invariant xs == pos + neg[..k] && |ys| == |pos| + k
      invariant forall m :: 0 <= m < |pos| ==> ys[m] == 1
      invariant forall m :: |pos| <= m < |ys| ==> ys[m] == 0
    {
      xs := xs + [neg[k]];
      ys := ys + [0];
    }
    assert neg[..|neg|] == neg;
    assert pos[..|pos|] == pos;
  }

  /** `[s[i], s[j]] = [s[j], s[i]]`. */
  function Swap<T>(s: seq<T>, i: int, j: int): (r: seq<T>)
    requires 0 <= i < |s| && 0 <= j < |s|
    ensures |r| == |s| && r[i] == s[j] && r[j] == s[i]
    ensures forall k :: 0 <= k < |s| && k != i && k != j ==> r[k] == s[k]
  {
    s[i := s[j]][j := s[i]]
  }

  /**
   * The shuffle loop from index `i` down to 1: position `i` is exchanged with
   * position `floor(rand[i] * (i + 1))`, which lies in [0, i].
   */
  function FisherYates<T>(s: seq<T>, rand: seq<real>, i: int): (r: seq<T>)
    requires i < |s| && i < |rand|
    requires forall k :: 0 <= k < |rand| ==> 0.0 <= rand[k] < 1.0
    ensures |r| == |s|
    decreases i
  {
    if i <= 0 then s
    else FisherYates(Swap(s, i, RandomIndex(rand[i], i + 1)), rand, i - 1)
  }

  /** The shuffle is a permutation: every element keeps its multiplicity. */
  lemma {:induction false} FisherYatesPermutes<T>(s: seq<T>, rand: seq<real>, i: int)
    requires i < |s| && i < |rand|
    requires forall k :: 0 <= k < |rand| ==> 0.0 <= rand[k] < 1.0
    ensures multiset(FisherYates(s, rand, i)) == multiset(s)
    decreases i
  {
    if i > 0 {
      var j := RandomIndex(rand[i], i + 1);
      SwapPermutes(s, i, j);
      FisherYatesPermutes(Swap(s, i, j), rand, i - 1);
    }
  }

  /** A swap permutes its sequence. */
  lemma SwapPermutes<T>(s: seq<T>, i: int, j: int)
    requires 0 <= i < |s| && 0 <= j < |s|
    ensures multiset(Swap(s, i, j)) == multiset(s)
  {
  }

  /** One step of the shuffle loop. */
  lemma FisherYatesStep(xs: seq<Features>, ys: seq<int>, rand: seq<real>, i: int)
    requires |xs| == |ys| && 0 < i < |xs| && i < |rand|
    requires forall k :: 0 <= k < |rand| ==> 0.0 <= rand[k] < 1.0
    ensures FisherYates(Zip(xs, ys), rand, i)
         == FisherYates(Zip(Swap(xs, i, RandomIndex(rand[i], i + 1)), Swap(ys, i, RandomIndex(rand[i], i + 1))), rand, i - 1)
  {
    ZipSwap(xs, ys, i, RandomIndex(rand[i], i + 1));
  }

  /** Swapping two arrays in lockstep swaps their pairs. */
  lemma ZipSwap(xs: seq<Features>, ys: seq<int>, i: int, j: int)
    requires |xs| == |ys| && 0 <= i < |xs| && 0 <= j < |xs|
    ensures Zip(Swap(xs, i, j), Swap(ys, i, j)) == Swap(Zip(xs, ys), i, j)
  {
  }

  /**
   * The in-place shuffle: for i from the last index down to 1, `xs[i]` and
   * `ys[i]` are both exchanged with index `floor(rand[i] * (i + 1))`.
   */
  method Shuffle(xs: array<Features>, ys: array<int>, rand: seq<real>)
    requires xs.Length == ys.Length && xs.Length <= |rand|
    requires forall k :: 0 <= k < |rand| ==> 0.0 <= rand[k] < 1.0
    modifies xs, ys
    ensures Zip(xs[..], ys[..]) == FisherYates(Zip(old(xs[..]), old(ys[..])), rand, xs.Length - 1)
  {
    ghost var goal := FisherYates(Zip(xs[..], ys[..]), rand, xs.Length - 1);
    var i := xs.Length - 1;
    while i > 0
      invariant -1 <= i < xs.Length
      invariant FisherYates(Zip(xs[..], ys[..]), rand, i) == goal
    {
      var j := RandomIndex(rand[i], i + 1);
      FisherYatesStep(xs[..], ys[..], rand, i);
      ghost var xs0, ys0 := xs[..], ys[..];
      var x, y := xs[i], ys[i];
      xs[i], ys[i] := xs[j], ys[j];
      xs[j], ys[j] := x, y;
      assert xs[..] == Swap(xs0, i, j) && ys[..] == Swap(ys0, i, j);
      i := i - 1;
    }
  }

  /** Fresh arrays holding the assembled inputs and labels. */
  method ToArrays(xs: seq<Features>, ys: seq<int>) returns (xa: array<Features>, ya: array<int>)
    ensures fresh(xa) && fresh(ya)
    ensures xa[..] == xs && ya[..] == ys
  {
    xa := new Features[|xs|](k requires 0 <= k < |xs| => xs[k]);
    ya := new int[|ys|](k requires 0 <= k < |ys| => ys[k]);
  }

  /** The assembled lists copied into arrays and shuffled there. */
  method ShuffledCopy(xs: seq<Features>, ys: seq<int>, rand: seq<real>) returns (t: TrainingSet)
    requires |xs| == |ys| <= |rand|
    requires forall k :: 0 <= k < |rand| ==> 0.0 <= rand[k] < 1.0
    ensures |t.xs| == |t.ys| == |xs|
    ensures Zip(t.xs, t.ys) == FisherYates(Zip(xs, ys), rand, |xs| - 1)
  {
    var xa, ya := ToArrays(xs, ys);
    Shuffle(xa, ya, rand);
    t := TrainingSet(xa[..], ya[..]);
  }

  /**
   * Dataset assembly and shuffle: the labelled pairs of both classes, in the
   * order the Fisher–Yates pass leaves them, as a permutation of the pairs.
   */
  method BuildTrainingSet(pos: seq<Features>, neg: seq<Features>, rand: seq<real>) returns (t: TrainingSet)
    requires |pos| + |neg| <= |rand|
    requires forall k :: 0 <= k < |rand| ==> 0.0 <= rand[k] < 1.0
    ensures |t.xs| == |t.ys| == |pos| + |neg|
    ensures Zip(t.xs, t.ys) == FisherYates(Examples(pos, neg), rand, |pos| + |neg| - 1)
    ensures multiset(Zip(t.xs, t.ys)) == multiset(Examples(pos, neg))
  {
    var xs, ys := Assemble(pos, neg);
    ghost var pairs := Zip(xs, ys);
    assert pairs == Examples(pos, neg);
    t := ShuffledCopy(xs, ys, rand);
    assert Zip(t.xs, t.ys) == FisherYates(pairs, rand, |pos| + |neg| - 1);
    FisherYatesPermutes(pairs, rand, |pos| + |neg| - 1);
  }
}
