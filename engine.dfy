/**
 * The typing engine (`TypewriterInstance`) as a state machine over values. Each
 * function here is one method of the engine; the class in module Typewriter
 * implements the same methods imperatively and is proved equal to these functions.
 *
 * Besides the instance's own fields the state holds the two host facilities the
 * engine talks to: the queue of pending `setTimeout` callbacks (with the handles
 * the host hands out) and the completion messages sent to the popup.
 */
module Engine {
  import opened Wrappers
  import opened Chars
  import opened Randomness
  import opened Delay
  import opened Keyboard
  import opened Elements

  /** The callbacks the engine schedules with `setTimeout` */
  datatype Event =
    | TypeNext                             // `() => this.typeNext()`
    | MistakeBackspace(correctChar: char)  // first timeout of `typeMistake`
    | MistakeCorrect(correctChar: char)    // nested timeout of `typeMistake`

  /** A pending timeout: its handle, its delay in milliseconds and its callback */
  datatype Timer = Timer(id: nat, delay: real, event: Event)

  /** The `stats` of the `typingComplete` message; `wpm` is `None` where JavaScript computes a non-finite number */
  datatype Stats = Stats(duration: int, wpm: Option<int>, characters: nat)

  /** The random draws one step of the engine may consume */
  datatype Draws = Draws(gate: real, pick: real, fallback: real, delay: DelayDraws, backspace: real)

  predicate ValidDraws(d: Draws) {
    IsDraw(d.gate) && IsDraw(d.pick) && IsDraw(d.fallback) && ValidDelayDraws(d.delay) && IsDraw(d.backspace)
  }

  /**
   * The fields of an instance, the pending timeouts and the messages sent.
   * `timeoutId == 0` stands for `null`; the host's handles start at 1.
   */
  datatype State = State(
    element: Field,
    text: string,
    settings: Settings,
    currentIndex: nat,
    isRunning: bool,
    isPaused: bool,
    timeoutId: nat,
    startTime: Option<int>,
    pending: seq<Timer>,
    nextId: nat,
    sent: seq<Stats>)

  /** The instance right after `new TypewriterInstance(element, text, settings)` */
  function Initial(element: Field, text: string, settings: Settings): State {
    State(element, text, settings, 0, false, false, 0, None, [], 1, [])
  }

  /** `Math.round` */
  function Round(x: real): (r: int)
    ensures x - 0.5 < r as real <= x + 0.5
  {
    (x + 0.5).Floor
  }

  /**
   * `Math.round((length / 5) / (duration / 60000))`: for a non-zero duration the
   * words per minute, `round(12000 * length / duration)`; for a zero duration the
   * JavaScript value is infinite or NaN.
   */
  function Wpm(characters: nat, duration: int): (w: Option<int>)
    ensures w.None? <==> duration == 0
    ensures duration != 0 ==> w == Some(Round(12000.0 * characters as real / duration as real))
  {
    if duration == 0 then None
    else
      var minutes := duration as real / 60000.0;
      assert (characters as real / 5.0) / minutes == 12000.0 * characters as real / duration as real by {
        assert minutes * 60000.0 == duration as real;
      }
      Some(Round((characters as real / 5.0) / minutes))
  }

  /** 300 characters in one minute are 60 words per minute. */
  lemma WpmOfOneMinute()
    ensures Wpm(300, 60000) == Some(60)
  {
    assert 12000.0 * 300.0 / 60000.0 == 60.0;
  }

  /** A positive duration gives a non-negative rate. */
  lemma WpmNonNegative(characters: nat, duration: int)
    requires duration > 0
    ensures Wpm(characters, duration).Some? && Wpm(characters, duration).value >= 0
  {
    assert 12000.0 * characters as real / duration as real >= 0.0;
  }

  /** `Date.now() - this.startTime`, where a null start time counts as 0 */
  function Elapsed(st: State, now: int): int {
    now - st.startTime.GetOr(0)
  }

  /** `setTimeout(callback, delay)`: queue the callback under the next handle */
  function Arm(st: State, delay: real, ev: Event): State {
    st.(pending := st.pending + [Timer(st.nextId, delay, ev)], nextId := st.nextId + 1)
  }

  /** `clearTimeout(id)` */
  function Cancel(ts: seq<Timer>, id: nat): (r: seq<Timer>)
    ensures forall i :: 0 <= i < |r| ==> r[i] in ts && r[i].id != id
    ensures forall i :: 0 <= i < |ts| && ts[i].id != id ==> ts[i] in r
    ensures |r| <= |ts|
  {
    if ts == [] then []
    else (if ts[0].id == id then [] else [ts[0]]) + Cancel(ts[1..], id)
  }

  /** The queue without the timeout that fired */
  function Remove(ts: seq<Timer>, k: nat): seq<Timer>
    requires k < |ts|
  {
    ts[..k] + ts[k + 1..]
  }

  /** `getCurrentValue()` followed by `setCurrentValue(value + s)` */
  function Append(st: State, s: string): State {
    st.(element := Write(st.element, Read(st.element) + s))
  }

  /**
   * The end of the run of non-space characters that starts at `i`: the loop of
   * `typeWord` stops there.
   */
  function WordEnd(text: string, i: nat): (e: nat)
    requires i <= |text|
    ensures i <= e <= |text|
    ensures forall j :: i <= j < e ==> text[j] != ' '
    ensures e < |text| ==> text[e] == ' '
    decreases |text| - i
  {
    if i < |text| && text[i] != ' ' then WordEnd(text, i + 1) else i
  }

  /** `complete()`: stop and send the statistics */
  function CompleteStep(st: State, now: int): State {
    var duration := Elapsed(st, now);
    st.(isRunning := false, sent := st.sent + [Stats(duration, Wpm(|st.text|, duration), |st.text|)])
  }

  /** `scheduleNext()`: complete at the end of the text, otherwise arm `typeNext` after the next character's delay */
  function ScheduleNextStep(st: State, d: Draws, now: int): State {
    if st.currentIndex >= |st.text| then CompleteStep(st, now)
    else
      var delay := GetCharDelay(st.settings, st.text[st.currentIndex], d.delay);
      Arm(st, delay as real, TypeNext).(timeoutId := st.nextId)
  }

  /** `typeWord()`: append the non-space run at the current index and skip over it */
  function TypeWordStep(st: State, d: Draws, now: int): State
    requires st.currentIndex <= |st.text|
  {
    var e := WordEnd(st.text, st.currentIndex);
    ScheduleNextStep(Append(st, st.text[st.currentIndex..e]).(currentIndex := e), d, now)
  }

  /** `typeCharacter(c)` */
  function TypeCharacterStep(st: State, c: char, d: Draws, now: int): State
    requires st.currentIndex <= |st.text|
  {
    if st.settings.typingMode == "word" && c == ' ' then TypeWordStep(st, d, now)
    else ScheduleNextStep(Append(st, [c]).(currentIndex := st.currentIndex + 1), d, now)
  }

  /** `typeMistake(c)`, up to its first timeout: type a wrong character and arm the backspace */
  function TypeMistakeStep(st: State, c: char, d: Draws): State {
    var w := RandomWrongChar(c, d.pick, d.fallback);
    Arm(Append(st, [w]), GetCharDelay(st.settings, w, d.delay) as real, MistakeBackspace(c))
  }

  /** Whether `typeNext` takes the typo branch for character `c` */
  predicate MakesMistake(s: Settings, c: char, d: Draws) {
    s.typingMistakes && d.gate < 0.02 && IsLetter(c)
  }

  /** `typeNext()` */
  function TypeNextStep(st: State, d: Draws, now: int): State {
    if !st.isRunning || st.isPaused || st.currentIndex >= |st.text| then
      if st.currentIndex >= |st.text| && st.isRunning then CompleteStep(st, now) else st
    else
      var c := st.text[st.currentIndex];
      if MakesMistake(st.settings, c, d) then TypeMistakeStep(st, c, d)
      else TypeCharacterStep(st, c, d, now)
  }

  /**
   * `start()`. The source reads the clock twice: `startNow` is the `Date.now()` stored
   * as the start time, `now` the one `complete()` reads should the first `typeNext`
   * complete at once.
   */
  function StartStep(st: State, d: Draws, startNow: int, now: int): State {
    TypeNextStep(st.(isRunning := true, startTime := Some(startNow), element := Write(st.element, "")), d, now)
  }

  /** `stop()`: only the timeout stored in `timeoutId` is cancelled */
  function StopStep(st: State): State {
    st.(isRunning := false, pending := if st.timeoutId != 0 then Cancel(st.pending, st.timeoutId) else st.pending)
  }

  /** `togglePause()` */
  function TogglePauseStep(st: State, d: Draws, now: int): State {
    var flipped := st.(isPaused := !st.isPaused);
    if !flipped.isPaused && flipped.isRunning then TypeNextStep(flipped, d, now) else flipped
  }

  /** What a callback does when it runs */
  function CallbackStep(st: State, ev: Event, d: Draws, now: int): State {
    match ev
    case TypeNext => TypeNextStep(st, d, now)
    case MistakeBackspace(c) =>
      if !st.isRunning || st.isPaused then st
      else
        var erased := st.(element := Write(st.element, DropLast(Read(st.element))));
        Arm(erased, GetBackspaceDelay(st.settings, d.backspace), MistakeCorrect(c))
    case MistakeCorrect(c) =>
      if !st.isRunning || st.isPaused then st
      else ScheduleNextStep(Append(st, [c]).(currentIndex := st.currentIndex + 1), d, now)
  }

  /** The host takes the pending timeout at position `k` off its queue and runs it. */
  function FireStep(st: State, k: nat, d: Draws, now: int): State
    requires k < |st.pending|
  {
    CallbackStep(st.(pending := Remove(st.pending, k)), st.pending[k].event, d, now)
  }

  // ---------------------------------------------------------------------------
  // The instance invariant

  /**
   * Handles are positive, below `nextId` and increasing along the queue; the handle
   * in `timeoutId`, if still pending, belongs to a `typeNext` timeout.
   */
  ghost predicate TimersValid(st: State) {
    st.timeoutId < st.nextId &&
    (forall i :: 0 <= i < |st.pending| ==> 1 <= st.pending[i].id < st.nextId) &&
    (forall i, j :: 0 <= i < j < |st.pending| ==> st.pending[i].id < st.pending[j].id) &&
    (forall i :: 0 <= i < |st.pending| && st.pending[i].id == st.timeoutId ==> st.pending[i].event == TypeNext)
  }

  /** The index stays within the text, and a running instance always has a character left to type. */
  ghost predicate Valid(st: State) {
    st.currentIndex <= |st.text| &&
    (st.isRunning ==> st.currentIndex < |st.text|) &&
    TimersValid(st)
  }

  lemma InitialValid(element: Field, text: string, settings: Settings)
    ensures Valid(Initial(element, text, settings))
  {
  }

  lemma ArmValid(st: State, delay: real, ev: Event)
    requires TimersValid(st) && ev != TypeNext
    ensures TimersValid(Arm(st, delay, ev))
  {
  }

  lemma ArmNextValid(st: State, delay: real)
    requires TimersValid(st)
    ensures TimersValid(Arm(st, delay, TypeNext).(timeoutId := st.nextId))
  {
  }

  lemma RemoveValid(st: State, k: nat)
    requires TimersValid(st) && k < |st.pending|
    ensures TimersValid(st.(pending := Remove(st.pending, k)))
  {
    var r := Remove(st.pending, k);
    assert forall i :: 0 <= i < |r| ==> r[i] == st.pending[if i < k then i else i + 1];
  }

  lemma CancelOrdered(ts: seq<Timer>, id: nat)
    requires forall i, j :: 0 <= i < j < |ts| ==> ts[i].id < ts[j].id
    ensures forall i, j :: 0 <= i < j < |Cancel(ts, id)| ==> Cancel(ts, id)[i].id < Cancel(ts, id)[j].id
  {
    if ts != [] {
      CancelOrdered(ts[1..], id);
      var tail := Cancel(ts[1..], id);
      assert forall i :: 0 <= i < |tail| ==> tail[i] in ts[1..];
    }
  }

  lemma StopValid(st: State)
    requires Valid(st)
    ensures Valid(StopStep(st))
  {
    if st.timeoutId != 0 {
      CancelOrdered(st.pending, st.timeoutId);
    }
  }

  /** `scheduleNext` leaves a valid state whenever the index is within the text. */
  lemma ScheduleNextValid(st: State, d: Draws, now: int)
    requires st.currentIndex <= |st.text| && TimersValid(st)
    ensures Valid(ScheduleNextStep(st, d, now))
  {
    if st.currentIndex < |st.text| {
      ArmNextValid(st, GetCharDelay(st.settings, st.text[st.currentIndex], d.delay) as real);
    }
  }

  lemma TypeNextValid(st: State, d: Draws, now: int)
    requires Valid(st)
    ensures Valid(TypeNextStep(st, d, now))
  {
    if st.isRunning && !st.isPaused && st.currentIndex < |st.text| {
      var c := st.text[st.currentIndex];
      if MakesMistake(st.settings, c, d) {
        var w := RandomWrongChar(c, d.pick, d.fallback);
        assert TypeNextStep(st, d, now) == TypeMistakeStep(st, c, d);
        ArmValid(Append(st, [w]), GetCharDelay(st.settings, w, d.delay) as real, MistakeBackspace(c));
      } else if st.settings.typingMode == "word" && c == ' ' {
        var e := WordEnd(st.text, st.currentIndex);
        var typed := Append(st, st.text[st.currentIndex..e]).(currentIndex := e);
        assert TypeNextStep(st, d, now) == ScheduleNextStep(typed, d, now);
        ScheduleNextValid(typed, d, now);
      } else {
        var typed := Append(st, [c]).(currentIndex := st.currentIndex + 1);
        assert TypeNextStep(st, d, now) == ScheduleNextStep(typed, d, now);
        ScheduleNextValid(typed, d, now);
      }
    }
  }

  lemma StartValid(st: State, d: Draws, startNow: int, now: int)
    requires Valid(st)
    ensures Valid(StartStep(st, d, startNow, now))
  {
    var started := st.(isRunning := true, startTime := Some(startNow), element := Write(st.element, ""));
    if st.currentIndex < |st.text| {
      TypeNextValid(started, d, now);
    }
  }

  lemma TogglePauseValid(st: State, d: Draws, now: int)
    requires Valid(st)
    ensures Valid(TogglePauseStep(st, d, now))
  {
    TypeNextValid(st.(isPaused := !st.isPaused), d, now);
  }

  lemma CallbackValid(st: State, ev: Event, d: Draws, now: int)
    requires Valid(st)
    ensures Valid(CallbackStep(st, ev, d, now))
  {
    match ev
    case TypeNext =>
      TypeNextValid(st, d, now);
    case MistakeBackspace(c) =>
      if st.isRunning && !st.isPaused {
        var erased := st.(element := Write(st.element, DropLast(Read(st.element))));
        ArmValid(erased, GetBackspaceDelay(st.settings, d.backspace), MistakeCorrect(c));
      }
    case MistakeCorrect(c) =>
      if st.isRunning && !st.isPaused {
        ScheduleNextValid(Append(st, [c]).(currentIndex := st.currentIndex + 1), d, now);
      }
  }

  lemma FireValid(st: State, k: nat, d: Draws, now: int)
    requires Valid(st) && k < |st.pending|
    ensures Valid(FireStep(st, k, d, now))
  {
    RemoveValid(st, k);
    CallbackValid(st.(pending := Remove(st.pending, k)), st.pending[k].event, d, now);
  }
}
