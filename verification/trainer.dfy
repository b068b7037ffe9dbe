/**
 * The trainer page's module state: the recorded samples of both classes, the
 * recording controls and the trained model.  Every handler of the page that
 * changes that state is a method; camera frames, timer callbacks, key presses
 * and button clicks are calls.
 */
module Trainer {
  import opened Wrappers
  import opened Landmarks
  import opened Dataset
  import opened Recorder

  /** What an imported file supplies under `key`; a missing key is an empty list. */
  function Imported(data: map<string, seq<Features>>, key: string): (s: seq<Features>)
    ensures key !in data ==> s == []
    ensures key in data ==> s == data[key]
  {
    if key in data then data[key] else []
  }

  class TrainerState {
    /** `samples.clone_sign` and `samples.not_sign`. */
    var cloneSign: seq<Features>
    var notSign: seq<Features>
    var recording: Option<Label>
    /** The countdown interval, with the label and seconds its callback keeps. */
    var countdownTimer: Option<Countdown>
    /** The record interval, with the seconds its callback keeps. */
    var recordTimer: Option<int>
    /** The fitted model, represented by the training set it was fitted on. */
    var model: Option<TrainingSet>

    /** The recording controls as a value of the state machine. */
    function Rec(): RecState
      reads this
    {
      RecState(recording, countdownTimer, recordTimer)
    }

    /** The class invariant: the recording controls are well formed. */
    predicate Valid()
      reads this
    {
      WellFormed(Rec())
    }

    /** `samples[label]`. */
    function Samples(l: Label): seq<Features>
      reads this
    {
      match l
      case CloneSign => cloneSign
      case NotSign => notSign
    }

    /** Page load: no samples, no timers, no model. */
    constructor ()
      ensures Valid()
      ensures Rec() == Idle && cloneSign == [] && notSign == [] && model == None
    {
      cloneSign, notSign := [], [];
      recording, countdownTimer, recordTimer := None, None, None;
      model := None;
    }

    /**
     * `captureFrame`: while recording and with both hands seen, the frame's
     * 126 features are pushed onto the list of the label being recorded.
     */
    method CaptureFrame(right: Option<Hand>, left: Option<Hand>, sqrt: real -> real)
      requires Valid()
      modifies this`cloneSign, this`notSign
      ensures Valid()
      ensures recording.Some? && right.Some? && left.Some? ==>
        Samples(recording.value) == old(Samples(recording.value)) + [Extract(right.value, left.value, sqrt)]
      ensures recording != Some(CloneSign) || right.None? || left.None? ==> cloneSign == old(cloneSign)
      ensures recording != Some(NotSign) || right.None? || left.None? ==> notSign == old(notSign)
    {
      if recording.None? || right.None? || left.None? {
        return;
      }
      var r := NormalizeHand(right.value, sqrt);
      var lf := NormalizeHand(left.value, sqrt);
      var features := r + lf;
      match recording.value
      case CloneSign => cloneSign := cloneSign + [features];
      case NotSign => notSign := notSign + [features];
    }

    /** `cancelRecording`. */
    method CancelRecording()
      modifies this`recording, this`countdownTimer, this`recordTimer
      ensures Valid()
      ensures Rec() == Cancelled(old(Rec()))
    {
      countdownTimer := None;
      recordTimer := None;
      recording := None;
    }

    /** `startCountdown(label)`: a record button click. */
    method StartCountdown(sign: Label)
      modifies this`recording, this`countdownTimer, this`recordTimer
      ensures Valid()
      ensures Rec() == CountdownStarted(old(Rec()), sign)
    {
      CancelRecording();
      countdownTimer := Some(Countdown(sign, CountdownSeconds));
    }

    /** `startRec(label)`. */
    method StartRec(sign: Label)
      modifies this`recording, this`recordTimer
      ensures Rec() == RecStarted(old(Rec()), sign)
    {
      recording := Some(sign);
      recordTimer := Some(RecordSeconds);
    }

    /** `stopRec`. */
    method StopRec()
      modifies this`recording, this`recordTimer
      ensures Rec() == Stopped(old(Rec()))
    {
      recording := None;
      recordTimer := None;
    }

    /** One call of the countdown interval's callback. */
    method CountdownTick()
      requires Valid() && countdownTimer.Some?
      modifies this`recording, this`countdownTimer, this`recordTimer
      ensures Valid()
      ensures Rec() == Recorder.CountdownTick(old(Rec()))
    {
      var c := countdownTimer.value;
      var remaining := c.remaining - 1;
      if remaining > 0 {
        countdownTimer := Some(Countdown(c.sign, remaining));
      } else {
        countdownTimer := None;
        StartRec(c.sign);
      }
    }

    /** One call of the record interval's callback. */
    method RecordTick()
      requires Valid() && recordTimer.Some?
      modifies this`recording, this`recordTimer
      ensures Valid()
      ensures Rec() == Recorder.RecordTick(old(Rec()))
    {
      var remaining := recordTimer.value - 1;
      if remaining > 0 {
        recordTimer := Some(remaining);
      } else {
        StopRec();
      }
    }

    /** The keydown handler: "1" or "2", unless auto-repeated, starts a countdown. */
    method KeyDown(key: string, repeat: bool)
      requires Valid()
      modifies this`recording, this`countdownTimer, this`recordTimer
      ensures Valid()
      ensures Rec() == Recorder.KeyDown(old(Rec()), key, repeat)
    {
      if !repeat && key in KeyMap {
        StartCountdown(KeyMap[key]);
      }
    }

    /**
     * The train button: below five samples of either class nothing changes;
     * otherwise the model is fitted on the shuffled labelled set.
     */
    method Train(rand: seq<real>) returns (trained: bool)
      requires Valid()
      requires |cloneSign| + |notSign| <= |rand|
      requires forall k :: 0 <= k < |rand| ==> 0.0 <= rand[k] < 1.0
      modifies this`model
      ensures Valid()
      ensures trained <==> Trainable(|cloneSign|, |notSign|)
      ensures !trained ==> model == old(model)
      ensures trained ==> model.Some? && |model.value.xs| == |model.value.ys| == |cloneSign| + |notSign|
      ensures trained ==>
        Zip(model.value.xs, model.value.ys) == FisherYates(Examples(cloneSign, notSign), rand, |cloneSign| + |notSign| - 1)
      ensures trained ==> multiset(Zip(model.value.xs, model.value.ys)) == multiset(Examples(cloneSign, notSign))
    {
      var nP := |cloneSign|;
      var nN := |notSign|;
      if nP < MinSamplesPerClass || nN < MinSamplesPerClass {
        return false;
      }
      var t := BuildTrainingSet(cloneSign, notSign, rand);
      model := Some(t);
      trained := true;
    }

    /** The import handler: each imported list is appended to its class's list. */
    method ImportData(data: map<string, seq<Features>>)
      requires Valid()
      modifies this`cloneSign, this`notSign
      ensures Valid()
      ensures cloneSign == old(cloneSign) + Imported(data, Key(CloneSign))
      ensures notSign == old(notSign) + Imported(data, Key(NotSign))
    {
      cloneSign := cloneSign + Imported(data, "clone_sign");
      notSign := notSign + Imported(data, "not_sign");
    }

    /** The clear button: both lists emptied. */
    method ClearData()
      requires Valid()
      modifies this`cloneSign, this`notSign
      ensures Valid()
      ensures cloneSign == [] && notSign == []
    {
      cloneSign, notSign := [], [];
    }
  }
}
