/**
 * `TypewriterInstance` as an object whose methods update its fields in place. Each
 * method is proved to leave the instance in the state the matching step function of
 * module Engine computes, and the public methods keep the instance invariant.
 *
 * The host's side of `setTimeout` (the queue of pending callbacks and the next
 * handle) and the `typingComplete` messages sent so far are kept as fields too, so
 * that a method's whole effect is visible in `Snapshot()`.
 */
module Typewriter {
  import opened Wrappers
  import opened Delay
  import opened Keyboard
  import opened Elements
  import opened Engine

  class TypewriterInstance {
    var element: Field
    const text: string
    const settings: Settings
    var currentIndex: nat
    var isRunning: bool
    var isPaused: bool
    var timeoutId: nat           // 0 stands for `null`
    var startTime: Option<int>
    // the host
    var pending: seq<Timer>
    var nextId: nat
    var sent: seq<Stats>

    /** All fields as one value */
    function Snapshot(): State
      reads this
    {
      State(element, text, settings, currentIndex, isRunning, isPaused, timeoutId, startTime, pending, nextId, sent)
    }

    ghost predicate Valid()
      reads this
    {
      Engine.Valid(Snapshot())
    }

    /** A missing settings object is replaced by the defaults. */
    constructor(element: Field, text: string, settings: Option<Settings>)
      ensures Snapshot() == Initial(element, text, settings.GetOr(DEFAULT_SETTINGS))
      ensures Valid()
    {
      this.element := element;
      this.text := text;
      this.settings := settings.GetOr(DEFAULT_SETTINGS);
      currentIndex := 0;
      isRunning := false;
      isPaused := false;
      timeoutId := 0;
      startTime := None;
      pending := [];
      nextId := 1;
      sent := [];
    }

    /** The host's `setTimeout`: queue the callback and hand out a fresh handle */
    method SetTimeout(delay: real, ev: Event) returns (id: nat)
      modifies this
      ensures id == old(nextId)
      ensures Snapshot() == Arm(old(Snapshot()), delay, ev)
    {
      id := nextId;
      pending := pending + [Timer(id, delay, ev)];
      nextId := nextId + 1;
    }

    /** The host's `clearTimeout` */
    method ClearTimeout(id: nat)
      modifies this
      ensures Snapshot() == old(Snapshot()).(pending := Cancel(old(pending), id))
    {
      pending := Cancel(pending, id);
    }

    /** `setCurrentValue(value)` */
    method SetCurrentValue(value: string)
      modifies this
      ensures Read(element) == value || !Editable(old(element))
      ensures Snapshot() == old(Snapshot()).(element := Write(old(element), value))
    {
      element := Write(element, value);
    }

    /** `clearElement()` */
    method ClearElement()
      modifies this
      ensures Snapshot() == old(Snapshot()).(element := Write(old(element), ""))
    {
      SetCurrentValue("");
    }

    /** `complete()`, with `Date.now()` given as `now` */
    method Complete(now: int)
      modifies this
      ensures Snapshot() == CompleteStep(old(Snapshot()), now)
    {
      isRunning := false;
      var duration := now - startTime.GetOr(0);
      sent := sent + [Stats(duration, Wpm(|text|, duration), |text|)];
    }

    /** `scheduleNext()` */
    method ScheduleNext(d: Draws, now: int)
      modifies this
      ensures Snapshot() == ScheduleNextStep(old(Snapshot()), d, now)
    {
      if currentIndex >= |text| {
        Complete(now);
        return;
      }
      var nextChar := text[currentIndex];
      var delay := GetCharDelay(settings, nextChar, d.delay);
      timeoutId := SetTimeout(delay as real, Event.TypeNext);
    }

    /** `typeWord()`: collect the characters up to the next space, append them, move past them */
    method TypeWord(d: Draws, now: int)
      requires currentIndex <= |text|
      modifies this
      ensures Snapshot() == TypeWordStep(old(Snapshot()), d, now)
    {
      var word := "";
      var i := currentIndex;
      while i < |text| && text[i] != ' '
        invariant currentIndex <= i <= |text|
        invariant word == text[currentIndex..i]
        invariant WordEnd(text, i) == WordEnd(text, currentIndex)
        decreases |text| - i
      {
        word := word + [text[i]];
        i := i + 1;
      }
      var currentValue := Read(element);
      SetCurrentValue(currentValue + word);
      currentIndex := i;
      ScheduleNext(d, now);
    }

    /** `typeCharacter(char)` */
    method TypeCharacter(c: char, d: Draws, now: int)
      requires currentIndex <= |text|
      modifies this
      ensures Snapshot() == TypeCharacterStep(old(Snapshot()), c, d, now)
    {
      if settings.typingMode == "word" && c == ' ' {
        TypeWord(d, now);
      } else {
        var currentValue := Read(element);
        SetCurrentValue(currentValue + [c]);
        currentIndex := currentIndex + 1;
        ScheduleNext(d, now);
      }
    }

    /** `typeMistake(correctChar)` up to its first `setTimeout`; its two callbacks are `BackspaceCallback` and `CorrectCallback` below. */
    method TypeMistake(correctChar: char, d: Draws)
      modifies this
      ensures Snapshot() == TypeMistakeStep(old(Snapshot()), correctChar, d)
    {
      var wrongChar := RandomWrongChar(correctChar, d.pick, d.fallback);
      var currentValue := Read(element);
      SetCurrentValue(currentValue + [wrongChar]);
      var _ := SetTimeout(GetCharDelay(settings, wrongChar, d.delay) as real, Event.MistakeBackspace(correctChar));
    }

    /** `typeNext()` */
    method TypeNext(d: Draws, now: int)
      modifies this
      ensures Snapshot() == TypeNextStep(old(Snapshot()), d, now)
      ensures old(Valid()) ==> Valid()
    {
      ghost var st := Snapshot();
      if !isRunning || isPaused || currentIndex >= |text| {
        if currentIndex >= |text| && isRunning {
          Complete(now);
        }
      } else {
        var c := text[currentIndex];
        var shouldMakeMistake := settings.typingMistakes && d.gate < 0.02 && Chars.IsLetter(c);
        if shouldMakeMistake {
          TypeMistake(c, d);
        } else {
          TypeCharacter(c, d, now);
        }
      }
      if Engine.Valid(st) {
        TypeNextValid(st, d, now);
      }
    }

    /**
     * `start()`: `startNow` is the `Date.now()` stored as the start time, `now` the one
     * read should the first `typeNext` complete the session.
     */
    method Start(d: Draws, startNow: int, now: int)
      modifies this
      ensures Snapshot() == StartStep(old(Snapshot()), d, startNow, now)
      ensures old(Valid()) ==> Valid()
    {
      ghost var st := Snapshot();
      isRunning := true;
      startTime := Some(startNow);
      ClearElement();
      TypeNext(d, now);
      if Engine.Valid(st) {
        StartValid(st, d, startNow, now);
      }
    }

    /** `stop()`: cancels the timeout in `timeoutId` and leaves `timeoutId` as it was */
    method Stop()
      modifies this
      ensures Snapshot() == StopStep(old(Snapshot()))
      ensures old(Valid()) ==> Valid()
    {
      ghost var st := Snapshot();
      isRunning := false;
      if timeoutId != 0 {
        ClearTimeout(timeoutId);
      }
      if Engine.Valid(st) {
        StopValid(st);
      }
    }

    /** `togglePause()` */
    method TogglePause(d: Draws, now: int)
      modifies this
      ensures Snapshot() == TogglePauseStep(old(Snapshot()), d, now)
      ensures old(Valid()) ==> Valid()
    {
      isPaused := !isPaused;
      if !isPaused && isRunning {
        TypeNext(d, now);
      }
    }

    /**
     * The first callback of `typeMistake`: erase the wrong character and schedule the
     * correct one. It reads no clock, so the same state results whatever `now` is.
     */
    method BackspaceCallback(correctChar: char, d: Draws, now: int)
      modifies this
      ensures Snapshot() == CallbackStep(old(Snapshot()), Event.MistakeBackspace(correctChar), d, now)
    {
      if !isRunning || isPaused {
        return;
      }
      var valueWithMistake := Read(element);
      SetCurrentValue(DropLast(valueWithMistake));
      var _ := SetTimeout(GetBackspaceDelay(settings, d.backspace), Event.MistakeCorrect(correctChar));
    }

    /** The nested callback of `typeMistake`: type the correct character and go on. */
    method CorrectCallback(correctChar: char, d: Draws, now: int)
      modifies this
      ensures Snapshot() == CallbackStep(old(Snapshot()), Event.MistakeCorrect(correctChar), d, now)
    {
      if !isRunning || isPaused {
        return;
      }
      var correctedValue := Read(element);
      SetCurrentValue(correctedValue + [correctChar]);
      currentIndex := currentIndex + 1;
      ScheduleNext(d, now);
    }

    /** Run one of the callbacks this class schedules */
    method RunCallback(ev: Event, d: Draws, now: int)
      modifies this
      ensures Snapshot() == CallbackStep(old(Snapshot()), ev, d, now)
    {
      match ev
      case TypeNext => TypeNext(d, now);
      case MistakeBackspace(c) => BackspaceCallback(c, d, now);
      case MistakeCorrect(c) => CorrectCallback(c, d, now);
    }

    /** The host takes the pending callback at position `k` off its queue and runs it. */
    method Fire(k: nat, d: Draws, now: int)
      requires k < |pending|
      modifies this
      ensures Snapshot() == FireStep(old(Snapshot()), k, d, now)
      ensures old(Valid()) ==> Valid()
    {
      ghost var st := Snapshot();
      var ev := pending[k].event;
      pending := pending[..k] + pending[k + 1..];
      assert Snapshot() == st.(pending := Remove(st.pending, k));
      RunCallback(ev, d, now);
      if Engine.Valid(st) {
        FireValid(st, k, d, now);
      }
    }
  }
}
