/**
 * The trainer page's recording controls as a state machine: a 3-second
 * countdown, then 4 seconds of recording under a label, driven by one-second
 * interval callbacks.  Each callback is one `Tick`.
 */
module Recorder {
  import opened Wrappers

  /** The two sample classes and their keys in the sample store. */
  datatype Label = CloneSign | NotSign

  function Key(l: Label): (k: string)
    ensures k == "clone_sign" <==> l == CloneSign
  {
    match l
    case CloneSign => "clone_sign"
    case NotSign => "not_sign"
  }

  const CountdownSeconds := 3
  const RecordSeconds := 4

  /** The keyboard shortcuts: "1" records clone signs, "2" other poses. */
  const KeyMap: map<string, Label> := map["1" := CloneSign, "2" := NotSign]

  /** A running countdown interval and the seconds it has left. */
  datatype Countdown = Countdown(sign: Label, remaining: int)

  /**
   * `recording`, the countdown interval and the record interval (with the
   * seconds it has left); `None` is a cleared timer.
   */
  datatype RecState = RecState(recording: Option<Label>, countdown: Option<Countdown>, record: Option<int>)

  const Idle := RecState(None, None, None)

  /** At most one interval runs, and `recording` is set exactly while the record interval runs. */
  predicate WellFormed(s: RecState) {
    && (s.countdown.Some? ==> s.record.None? && 1 <= s.countdown.value.remaining <= CountdownSeconds)
    && (s.record.Some? <==> s.recording.Some?)
    && (s.record.Some? ==> 1 <= s.record.value <= RecordSeconds)
  }

  /** `cancelRecording`: both intervals cleared and nothing recorded. */
  function Cancelled(s: RecState): (r: RecState)
    ensures r.recording.None? && r.countdown.None? && r.record.None?
  {
    RecState(None, None, None)
  }

  /** `startCountdown(sign)`: cancel whatever runs, then count down from 3. */
  function CountdownStarted(s: RecState, sign: Label): (r: RecState)
    ensures WellFormed(r)
    ensures r.recording.None? && r.record.None?
    ensures r.countdown == Some(Countdown(sign, CountdownSeconds))
  {
    var c := Cancelled(s);
    RecState(c.recording, Some(Countdown(sign, CountdownSeconds)), c.record)
  }

  /** `startRec(sign)`: record under `sign` for 4 seconds; the countdown timer is left alone. */
  function RecStarted(s: RecState, sign: Label): (r: RecState)
    ensures r.recording == Some(sign) && r.record == Some(RecordSeconds)
    ensures r.countdown == s.countdown
  {
    RecState(Some(sign), s.countdown, Some(RecordSeconds))
  }

  /** `stopRec`: recording ends and the record timer is cleared; the countdown timer is left alone. */
  function Stopped(s: RecState): (r: RecState)
    ensures r.recording.None? && r.record.None? && r.countdown == s.countdown
  {
    RecState(None, s.countdown, None)
  }

  /**
   * One countdown callback: one second fewer; at zero the countdown timer is
   * cleared and recording starts under the countdown's sign.
   */
  function CountdownTick(s: RecState): (r: RecState)
    requires s.countdown.Some?
    ensures s.countdown.value.remaining > 1 ==>
      r == s.(countdown := Some(Countdown(s.countdown.value.sign, s.countdown.value.remaining - 1)))
    ensures s.countdown.value.remaining <= 1 ==>
      r.countdown.None? && r.recording == Some(s.countdown.value.sign) && r.record == Some(RecordSeconds)
  {
    var c := s.countdown.value;
    if c.remaining - 1 > 0 then s.(countdown := Some(Countdown(c.sign, c.remaining - 1)))
    else RecStarted(s.(countdown := None), c.sign)
  }

  /** One record callback: one second fewer; at zero `stopRec` runs. */
  function RecordTick(s: RecState): (r: RecState)
    requires s.record.Some?
    ensures s.record.value > 1 ==> r == s.(record := Some(s.record.value - 1))
    ensures s.record.value <= 1 ==> r.recording.None? && r.record.None? && r.countdown == s.countdown
  {
    if s.record.value - 1 > 0 then s.(record := Some(s.record.value - 1))
    else Stopped(s)
  }

  /**
   * One second passes: every running interval fires once (at most one runs
   * when well formed).  A tick never starts a countdown, it only runs one
   * down, and with no interval running nothing happens.
   */
  function Tick(s: RecState): (r: RecState)
    ensures r.countdown.Some? ==>
      s.countdown.Some? && r.countdown.value == Countdown(s.countdown.value.sign, s.countdown.value.remaining - 1)
    ensures s.countdown.None? && s.record.None? ==> r == s
  {
    if s.countdown.Some? then CountdownTick(s)
    else if s.record.Some? then RecordTick(s)
    else s
  }

  /** `n` seconds pass; only a key press or a button starts a countdown, never time. */
  function Ticks(s: RecState, n: nat): (r: RecState)
    ensures r.countdown.Some? ==> s.countdown.Some? && r.countdown.value.sign == s.countdown.value.sign
    decreases n
  {
    if n == 0 then s else Ticks(Tick(s), n - 1)
  }

  /** A key press: a mapped key that is not an auto-repeat starts a countdown; anything else does nothing. */
  function KeyDown(s: RecState, key: string, repeat: bool): (r: RecState)
    ensures !repeat && key in KeyMap ==> r == CountdownStarted(s, KeyMap[key])
    ensures repeat || key !in KeyMap ==> r == s
  {
    if !repeat && key in KeyMap then CountdownStarted(s, KeyMap[key]) else s
  }

  /** "1" records clone signs, "2" other poses, and no other key starts anything. */
  lemma KeyMapLabels(s: RecState, key: string)
    ensures KeyDown(s, "1", false).countdown == Some(Countdown(CloneSign, CountdownSeconds))
    ensures KeyDown(s, "2", false).countdown == Some(Countdown(NotSign, CountdownSeconds))
    ensures key != "1" && key != "2" ==> KeyDown(s, key, false) == s
  {
  }

  /** Every transition keeps the state well formed. */
  lemma TickPreservesWellFormed(s: RecState)
    requires WellFormed(s)
    ensures WellFormed(Tick(s))
  {
  }

  lemma {:induction false} TicksPreserveWellFormed(s: RecState, n: nat)
    requires WellFormed(s)
    ensures WellFormed(Ticks(s, n))
    decreases n
  {
    if n > 0 {
      TickPreservesWellFormed(s);
      TicksPreserveWellFormed(Tick(s), n - 1);
    }
  }

  /**
   * When a countdown expires the record timer is not running, so `startRec`
   * never replaces a live interval.
   */
  lemma StartRecReplacesNoTimer(s: RecState)
    requires WellFormed(s) && s.countdown.Some? && s.countdown.value.remaining == 1
    ensures s.record.None? && s.recording.None?
  {
  }

  /** Time passing in two stretches is time passing in one. */
  lemma {:induction false} TicksAdd(s: RecState, m: nat, n: nat)
    ensures Ticks(Ticks(s, m), n) == Ticks(s, m + n)
    decreases m
  {
    if m > 0 {
      TicksAdd(Tick(s), m - 1, n);
    }
  }

  /**
   * A countdown with `r` seconds left reaches recording after exactly `r`
   * ticks, and records nothing before.
   */
  lemma {:induction false} CountdownRuns(sign: Label, r: int, k: nat)
    requires 1 <= r
    ensures k < r ==>
      Ticks(RecState(None, Some(Countdown(sign, r)), None), k) == RecState(None, Some(Countdown(sign, r - k)), None)
    ensures Ticks(RecState(None, Some(Countdown(sign, r)), None), r)
         == RecState(Some(sign), None, Some(RecordSeconds))
    decreases r
  {
    if r > 1 {
      CountdownRuns(sign, r - 1, if k == 0 then 0 else k - 1);
    }
  }

  /**
   * A recording with `r` seconds left records under its sign for `r - 1`
   * more ticks and is stopped by the `r`-th, with no timer left.
   */
  lemma {:induction false} RecordRuns(sign: Label, r: int, k: nat)
    requires 1 <= r
    ensures k < r ==> Ticks(RecState(Some(sign), None, Some(r)), k) == RecState(Some(sign), None, Some(r - k))
    ensures Ticks(RecState(Some(sign), None, Some(r)), r) == Idle
    decreases r
  {
    if r > 1 {
      RecordRuns(sign, r - 1, if k == 0 then 0 else k - 1);
    }
  }

  /** Nothing happens while idle. */
  lemma {:induction false} IdleStays(n: nat)
    ensures Ticks(Idle, n) == Idle
    decreases n
  {
    if n > 0 {
      IdleStays(n - 1);
    }
  }

  /**
   * A whole session: from any state, `startCountdown(sign)` records nothing
   * for 3 seconds, records under `sign` for the next 4, and is idle with no
   * timer left from then on.
   */
  lemma {:induction false} Session(s: RecState, sign: Label, k: nat)
    ensures k < CountdownSeconds ==> Ticks(CountdownStarted(s, sign), k).recording.None?
    ensures CountdownSeconds <= k < CountdownSeconds + RecordSeconds ==>
      Ticks(CountdownStarted(s, sign), k).recording == Some(sign)
    ensures CountdownSeconds + RecordSeconds <= k ==> Ticks(CountdownStarted(s, sign), k) == Idle
  {
    var start := CountdownStarted(s, sign);
    assert start == RecState(None, Some(Countdown(sign, CountdownSeconds)), None);
    CountdownRuns(sign, CountdownSeconds, k);
    if CountdownSeconds <= k {
      TicksAdd(start, CountdownSeconds, k - CountdownSeconds);
      RecordRuns(sign, RecordSeconds, k - CountdownSeconds);
      if CountdownSeconds + RecordSeconds <= k {
        TicksAdd(Ticks(start, CountdownSeconds), RecordSeconds, k - CountdownSeconds - RecordSeconds);
        IdleStays(k - CountdownSeconds - RecordSeconds);
      }
    }
  }
}
