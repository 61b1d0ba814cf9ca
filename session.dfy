/**
 * Properties of whole typing sessions: what the field holds after each step, how a
 * typo plays out, and what survives pause, resume and stop.
 */
module Session {
  import opened Chars
  import opened Randomness
  import opened Delay
  import opened Keyboard
  import opened Elements
  import opened Engine
  import opened Wrappers

  // ---------------------------------------------------------------------------
  // Single steps

  /**
   * In character mode (or at any character other than a space) a step without a
   * typo appends exactly the character at the index and advances the index by one;
   * then either the next timeout is armed or, at the end of the text, the session
   * completes.
   */
  lemma TypeCharacterAppends(st: State, d: Draws, now: int)
    requires Valid(st) && st.isRunning && !st.isPaused
    requires !MakesMistake(st.settings, st.text[st.currentIndex], d)
    requires st.settings.typingMode != "word" || st.text[st.currentIndex] != ' '
    ensures var r := TypeNextStep(st, d, now);
            r.element == Write(st.element, Read(st.element) + [st.text[st.currentIndex]]) &&
            r.currentIndex == st.currentIndex + 1 &&
            (r.isRunning <==> r.currentIndex < |st.text|) &&
            (r.isRunning ==> r.pending == st.pending + [Timer(st.nextId, GetCharDelay(st.settings, st.text[r.currentIndex], d.delay) as real, TypeNext)] && r.timeoutId == st.nextId) &&
            (!r.isRunning ==> r.pending == st.pending && |r.sent| == |st.sent| + 1 && r.sent[|st.sent|].characters == |st.text|)
  {
  }

  /** A stopped or paused instance ignores `typeNext`. */
  lemma TypeNextIdle(st: State, d: Draws, now: int)
    requires Valid(st) && (!st.isRunning || st.isPaused)
    ensures TypeNextStep(st, d, now) == st
  {
  }

  /**
   * In word mode `typeNext` at a space appends the empty word and re-arms itself
   * at the same index: neither the field nor the index changes.
   */
  lemma WordModeStalls(st: State, d: Draws, now: int)
    requires Valid(st) && st.isRunning && !st.isPaused
    requires st.settings.typingMode == "word" && st.text[st.currentIndex] == ' '
    ensures var r := TypeNextStep(st, d, now);
            r.element == st.element && r.currentIndex == st.currentIndex && r.isRunning &&
            r.pending == st.pending + [Timer(st.nextId, GetCharDelay(st.settings, ' ', d.delay) as real, TypeNext)] &&
            r.timeoutId == st.nextId
  {
    assert WordEnd(st.text, st.currentIndex) == st.currentIndex;
    assert st.text[st.currentIndex..st.currentIndex] == "";
    assert Read(st.element) + "" == Read(st.element);
  }

  /** `typeWord` appends the maximal run of non-space characters at the index and moves the index to its end. */
  lemma TypeWordCollectsRun(st: State, d: Draws, now: int)
    requires st.currentIndex <= |st.text|
    ensures var r := TypeWordStep(st, d, now);
            var e := r.currentIndex;
            st.currentIndex <= e <= |st.text| &&
            (forall j :: st.currentIndex <= j < e ==> st.text[j] != ' ') &&
            (e == |st.text| || st.text[e] == ' ') &&
            r.element == Write(st.element, Read(st.element) + st.text[st.currentIndex..e])
  {
  }

  /** `typeNext` only ever adds to the field and never moves the index back. */
  lemma TypeNextExtends(st: State, d: Draws, now: int)
    ensures var r := TypeNextStep(st, d, now);
            Read(st.element) <= Read(r.element) && st.currentIndex <= r.currentIndex &&
            st.pending <= r.pending && r.element.kind == st.element.kind
  {
  }

  /**
   * A typo in three steps: the field goes from `p` to `p + [w]` (with `w` a wrong
   * character), back to `p`, then to `p + [c]`; the index moves only in the third
   * step, by one. The two later steps are timeouts that `timeoutId` does not hold.
   */
  lemma MistakeRoundTrip(st: State, d1: Draws, d2: Draws, d3: Draws, n1: int, n2: int, n3: int)
    requires Valid(st) && st.isRunning && !st.isPaused && Editable(st.element)
    requires MakesMistake(st.settings, st.text[st.currentIndex], d1) && IsDraw(d1.pick)
    ensures var c := st.text[st.currentIndex];
            var w := RandomWrongChar(c, d1.pick, d1.fallback);
            var p := Read(st.element);
            var k := |st.pending|;
            var s1 := TypeNextStep(st, d1, n1);
            w != c &&
            Read(s1.element) == p + [w] && s1.currentIndex == st.currentIndex &&
            s1.timeoutId == st.timeoutId && |s1.pending| == k + 1 &&
            s1.pending[k].event == MistakeBackspace(c) &&
            var s2 := FireStep(s1, k, d2, n2);
            Read(s2.element) == p && s2.currentIndex == st.currentIndex &&
            s2.timeoutId == st.timeoutId && |s2.pending| == k + 1 &&
            s2.pending[k].event == MistakeCorrect(c) &&
            var s3 := FireStep(s2, k, d3, n3);
            Read(s3.element) == p + [c] && s3.currentIndex == st.currentIndex + 1
  {
    var c := st.text[st.currentIndex];
    WrongCharIsNeighbour(c, d1.pick, d1.fallback);
    var w := RandomWrongChar(c, d1.pick, d1.fallback);
    var p := Read(st.element);
    var k := |st.pending|;
    var s1 := TypeNextStep(st, d1, n1);
    assert Remove(s1.pending, k) == st.pending;
    var s2 := FireStep(s1, k, d2, n2);
    assert DropLast(p + [w]) == p;
    assert Remove(s2.pending, k) == st.pending;
  }

  /** The second and third typo steps do nothing but leave the queue when the instance is stopped or paused. */
  lemma MistakeStepsGuarded(st: State, k: nat, d: Draws, now: int)
    requires k < |st.pending| && !st.pending[k].event.TypeNext?
    requires !st.isRunning || st.isPaused
    ensures FireStep(st, k, d, now) == st.(pending := Remove(st.pending, k))
  {
  }

  // ---------------------------------------------------------------------------
  // An undisturbed session: one chain of timeouts, no pause and no stop

  /**
   * The state of a session that nobody pauses or stops, whose field held `lead` when
   * typing reached index `from`: while running exactly one timeout is pending and the
   * field holds `lead` followed by the text typed since `from`, plus the wrong
   * character while a typo waits for its backspace; once finished the field holds
   * `lead` and the rest of the text, and one completion was reported. A session
   * from `start()` has an empty `lead` and `from` 0.
   */
  ghost predicate Chain(st: State, lead: string, from: nat) {
    Valid(st) && Editable(st.element) && !st.isPaused && from <= st.currentIndex &&
    var p := lead + st.text[from..st.currentIndex];
    var v := Read(st.element);
    if !st.isRunning then
      st.currentIndex == |st.text| && st.pending == [] && v == p &&
      |st.sent| == 1 && st.sent[0].characters == |st.text|
    else
      |st.pending| == 1 && st.sent == [] &&
      match st.pending[0].event
      case TypeNext => v == p
      case MistakeBackspace(c) =>
        c == st.text[st.currentIndex] && IsLetter(c) && |v| == |p| + 1 && v[..|p|] == p && v[|p|] != c
      case MistakeCorrect(c) => c == st.text[st.currentIndex] && v == p
  }

  /** Steps left to the end of an undisturbed session: three per character, fewer mid-typo */
  function Measure(st: State): int {
    if !st.isRunning || st.pending == [] then 0
    else
      var phase := match st.pending[0].event
        case TypeNext => 0
        case MistakeBackspace(_) => 1
        case MistakeCorrect(_) => 2;
      3 * (|st.text| - st.currentIndex) - phase
  }

  /** The pending `typeNext` of a word-mode session sits on a space. */
  predicate AtWordStall(st: State) {
    st.isRunning && st.pending != [] && st.pending[0].event == TypeNext &&
    st.settings.typingMode == "word" && st.currentIndex < |st.text| && st.text[st.currentIndex] == ' '
  }

  /** No space is left for word mode to stall on. */
  predicate NoStall(st: State) {
    st.settings.typingMode != "word" ||
    forall i :: st.currentIndex <= i < |st.text| ==> st.text[i] != ' '
  }

  /** `scheduleNext` from the typed prefix with nothing pending keeps the chain. */
  lemma ScheduleNextChain(st: State, lead: string, from: nat, d: Draws, now: int)
    requires from <= st.currentIndex <= |st.text| && TimersValid(st) && Editable(st.element)
    requires st.isRunning && !st.isPaused && st.pending == [] && st.sent == []
    requires Read(st.element) == lead + st.text[from..st.currentIndex]
    ensures var r := ScheduleNextStep(st, d, now);
            Chain(r, lead, from) && r.currentIndex == st.currentIndex && r.text == st.text && r.settings == st.settings &&
            (r.isRunning ==> r.pending[0].event == TypeNext)
  {
    ScheduleNextValid(st, d, now);
  }

  /** A running session between two timeouts: nothing pending, the field holds `lead` and the text typed since `from`. */
  ghost predicate Ready(st: State, lead: string, from: nat) {
    Valid(st) && Editable(st.element) && st.isRunning && !st.isPaused && from <= st.currentIndex &&
    st.pending == [] && st.sent == [] && Read(st.element) == lead + st.text[from..st.currentIndex]
  }

  /** A typo starts the backspace phase. */
  lemma TypeMistakeChain(st: State, lead: string, from: nat, d: Draws, now: int)
    requires Ready(st, lead, from) && IsDraw(d.pick) && MakesMistake(st.settings, st.text[st.currentIndex], d)
    ensures var r := TypeNextStep(st, d, now);
            Chain(r, lead, from) && r.text == st.text && r.settings == st.settings && r.currentIndex == st.currentIndex &&
            r.isRunning && r.pending[0].event.MistakeBackspace?
  {
    var c := st.text[st.currentIndex];
    var p := lead + st.text[from..st.currentIndex];
    WrongCharIsNeighbour(c, d.pick, d.fallback);
    var w := RandomWrongChar(c, d.pick, d.fallback);
    assert TypeNextStep(st, d, now) == TypeMistakeStep(st, c, d);
    ArmValid(Append(st, [w]), GetCharDelay(st.settings, w, d.delay) as real, MistakeBackspace(c));
    assert (p + [w])[..|p|] == p;
  }

  /** Typing `c` at index `i` extends the typed part by `c`. */
  lemma Extend(text: string, lead: string, from: nat, i: nat)
    requires from <= i < |text|
    ensures lead + text[from..i] + [text[i]] == lead + text[from..i + 1]
  {
    assert text[from..i + 1] == text[from..i] + [text[i]];
  }

  /** A character typed without a typo moves the chain one character on. */
  lemma TypeCharChain(st: State, lead: string, from: nat, d: Draws, now: int)
    requires Ready(st, lead, from) && !MakesMistake(st.settings, st.text[st.currentIndex], d)
    requires st.settings.typingMode != "word" || st.text[st.currentIndex] != ' '
    ensures var r := TypeNextStep(st, d, now);
            Chain(r, lead, from) && r.text == st.text && r.settings == st.settings && r.currentIndex == st.currentIndex + 1 &&
            (r.isRunning ==> r.pending[0].event == TypeNext)
  {
    var i := st.currentIndex;
    var c := st.text[i];
    assert TypeNextStep(st, d, now) == ScheduleNextStep(Append(st, [c]).(currentIndex := i + 1), d, now);
    Extend(st.text, lead, from, i);
    ScheduleNextChain(Append(st, [c]).(currentIndex := i + 1), lead, from, d, now);
  }

  /** Word mode on a space re-arms `typeNext` where it is. */
  lemma WordSpaceChain(st: State, lead: string, from: nat, d: Draws, now: int)
    requires Ready(st, lead, from) && st.settings.typingMode == "word" && st.text[st.currentIndex] == ' '
    ensures var r := TypeNextStep(st, d, now);
            Chain(r, lead, from) && r.text == st.text && r.settings == st.settings && r.currentIndex == st.currentIndex &&
            Read(r.element) == Read(st.element) && AtWordStall(r)
  {
    WordModeStalls(st, d, now);
    ScheduleNextChain(st, lead, from, d, now);
  }

  /** `typeNext` on a running chain with nothing pending: the chain goes on and gets shorter, except at a word-mode space. */
  lemma TypeNextChain(st: State, lead: string, from: nat, d: Draws, now: int)
    requires Ready(st, lead, from) && IsDraw(d.pick)
    ensures var r := TypeNextStep(st, d, now);
            Chain(r, lead, from) && r.text == st.text && r.settings == st.settings && r.currentIndex >= st.currentIndex &&
            if st.settings.typingMode == "word" && st.text[st.currentIndex] == ' '
            then r.currentIndex == st.currentIndex && Read(r.element) == Read(st.element) && AtWordStall(r)
            else Measure(r) < 3 * (|st.text| - st.currentIndex)
  {
    var c := st.text[st.currentIndex];
    if MakesMistake(st.settings, c, d) {
      TypeMistakeChain(st, lead, from, d, now);
    } else if st.settings.typingMode == "word" && c == ' ' {
      WordSpaceChain(st, lead, from, d, now);
    } else {
      TypeCharChain(st, lead, from, d, now);
    }
  }

  /** The backspace timeout of a typo erases it and arms the correction. */
  lemma BackspaceChain(st: State, lead: string, from: nat, d: Draws, now: int)
    requires Chain(st, lead, from) && st.isRunning && st.pending[0].event.MistakeBackspace?
    ensures var r := FireStep(st, 0, d, now);
            Chain(r, lead, from) && r.text == st.text && r.settings == st.settings && r.currentIndex == st.currentIndex &&
            r.isRunning && r.pending[0].event.MistakeCorrect?
  {
    var c := st.pending[0].event.correctChar;
    var rest := st.(pending := []);
    assert Remove(st.pending, 0) == [];
    var p := lead + st.text[from..st.currentIndex];
    var v := Read(st.element);
    assert v == p + [v[|p|]];
    assert DropLast(v) == p;
    ArmValid(rest.(element := Write(rest.element, p)), GetBackspaceDelay(rest.settings, d.backspace), MistakeCorrect(c));
  }

  /** The correction timeout of a typo types the right character and goes on. */
  lemma CorrectChain(st: State, lead: string, from: nat, d: Draws, now: int)
    requires Chain(st, lead, from) && st.isRunning && st.pending[0].event.MistakeCorrect?
    ensures var r := FireStep(st, 0, d, now);
            Chain(r, lead, from) && r.text == st.text && r.settings == st.settings && r.currentIndex == st.currentIndex + 1 &&
            (r.isRunning ==> r.pending[0].event == TypeNext)
  {
    var c := st.pending[0].event.correctChar;
    var i := st.currentIndex;
    var rest := st.(pending := []);
    assert Remove(st.pending, 0) == [];
    Extend(st.text, lead, from, i);
    ScheduleNextChain(Append(rest, [c]).(currentIndex := i + 1), lead, from, d, now);
  }

  /**
   * Firing the one pending timeout of an undisturbed session keeps it undisturbed
   * and brings it closer to the end, except when word mode sits on a space: then the
   * session stays where it is.
   */
  lemma FireChain(st: State, lead: string, from: nat, d: Draws, now: int)
    requires Chain(st, lead, from) && st.isRunning && IsDraw(d.pick)
    ensures var r := FireStep(st, 0, d, now);
            Chain(r, lead, from) && r.text == st.text && r.settings == st.settings && r.currentIndex >= st.currentIndex &&
            if AtWordStall(st)
            then r.currentIndex == st.currentIndex && Read(r.element) == Read(st.element) && AtWordStall(r)
            else Measure(r) < Measure(st)
  {
    match st.pending[0].event
    case TypeNext =>
      var rest := st.(pending := []);
      assert Remove(st.pending, 0) == [];
      TypeNextChain(rest, lead, from, d, now);
    case MistakeBackspace(c) =>
      BackspaceChain(st, lead, from, d, now);
    case MistakeCorrect(c) =>
      CorrectChain(st, lead, from, d, now);
  }

  /** The host's clock and random draws at one timeout */
  datatype Tick = Tick(draws: Draws, now: int)

  predicate ValidTicks(ticks: seq<Tick>) {
    forall i :: 0 <= i < |ticks| ==> ValidDraws(ticks[i].draws)
  }

  /** An undisturbed session: the host fires the first pending timeout, once per tick, while the instance runs. */
  function Run(st: State, ticks: seq<Tick>): State
    decreases |ticks|
  {
    if ticks == [] || !st.isRunning || st.pending == [] then st
    else Run(FireStep(st, 0, ticks[0].draws, ticks[0].now), ticks[1..])
  }

  lemma TailTicks(ticks: seq<Tick>)
    requires ValidTicks(ticks) && ticks != []
    ensures ValidTicks(ticks[1..])
  {
    forall i | 0 <= i < |ticks[1..]| ensures ValidDraws(ticks[1..][i].draws) {
      assert ticks[1..][i] == ticks[i + 1];
    }
  }

  /** `start()` on a new instance begins an undisturbed session with an empty field. */
  lemma StartChain(element: Field, text: string, settings: Settings, d: Draws, startNow: int, now: int)
    requires Editable(element) && IsDraw(d.pick)
    ensures Chain(StartStep(Initial(element, text, settings), d, startNow, now), "", 0)
  {
    var started := Initial(element, text, settings).(isRunning := true, startTime := Some(startNow), element := Write(element, ""));
    assert "" + text[0..0] == "";
    if |text| > 0 {
      TypeNextChain(started, "", 0, d, now);
    }
  }

  /**
   * An undisturbed session with no word-mode space ahead completes within `Measure`
   * ticks, whatever the random draws (typos included), and the field then holds
   * `lead` followed by the text from `from` on.
   */
  lemma {:induction false} RunCompletes(st: State, lead: string, from: nat, ticks: seq<Tick>)
    requires Chain(st, lead, from) && NoStall(st) && ValidTicks(ticks)
    requires |ticks| >= Measure(st)
    ensures var r := Run(st, ticks);
            !r.isRunning && Read(r.element) == lead + st.text[from..] &&
            |r.sent| == 1 && r.sent[0].characters == |st.text|
    decreases |ticks|
  {
    if ticks != [] && st.isRunning {
      var next := FireStep(st, 0, ticks[0].draws, ticks[0].now);
      FireChain(st, lead, from, ticks[0].draws, ticks[0].now);
      TailTicks(ticks);
      RunCompletes(next, lead, from, ticks[1..]);
    } else {
      assert st.text[from..st.currentIndex] == st.text[from..];
    }
  }

  /**
   * From `start()` on a new instance, with no space for word mode to stall on, three
   * timeouts per character complete the session, and the field then holds exactly
   * the text.
   */
  lemma SessionTypesText(element: Field, text: string, settings: Settings, d: Draws, startNow: int, now: int, ticks: seq<Tick>)
    requires Editable(element) && IsDraw(d.pick) && ValidTicks(ticks)
    requires settings.typingMode != "word" || ' ' !in text
    requires |ticks| >= 3 * |text|
    ensures var r := Run(StartStep(Initial(element, text, settings), d, startNow, now), ticks);
            !r.isRunning && Read(r.element) == text && |r.sent| == 1 && r.sent[0].characters == |text|
  {
    var st := StartStep(Initial(element, text, settings), d, startNow, now);
    StartChain(element, text, settings, d, startNow, now);
    assert NoStall(st) by {
      if settings.typingMode == "word" {
        forall i | st.currentIndex <= i < |st.text| ensures st.text[i] != ' ' {
          assert st.text[i] in text;
        }
      }
    }
    RunCompletes(st, "", 0, ticks);
    assert "" + text[0..] == text;
  }

  /**
   * A word-mode session whose next character is a space never gets past it: however
   * many timeouts fire, it keeps running at the same index with the same field.
   */
  lemma {:induction false} WordModeNeverCompletes(st: State, lead: string, from: nat, ticks: seq<Tick>)
    requires Chain(st, lead, from) && AtWordStall(st) && ValidTicks(ticks)
    ensures var r := Run(st, ticks);
            r.isRunning && r.currentIndex == st.currentIndex && Read(r.element) == Read(st.element)
    decreases |ticks|
  {
    if ticks != [] {
      var next := FireStep(st, 0, ticks[0].draws, ticks[0].now);
      FireChain(st, lead, from, ticks[0].draws, ticks[0].now);
      TailTicks(ticks);
      WordModeNeverCompletes(next, lead, from, ticks[1..]);
    }
  }

  // ---------------------------------------------------------------------------
  // Interleavings of pause, resume, stop and timeouts

  /** What the page or the host can do to a started instance */
  datatype Op = StopOp | ToggleOp(tick: Tick) | FireOp(k: nat, tick: Tick)

  function Apply(st: State, op: Op): State {
    match op
    case StopOp => StopStep(st)
    case ToggleOp(t) => TogglePauseStep(st, t.draws, t.now)
    case FireOp(k, t) => if k < |st.pending| then FireStep(st, k, t.draws, t.now) else st
  }

  function ApplyAll(st: State, ops: seq<Op>): State
    decreases |ops|
  {
    if ops == [] then st else ApplyAll(Apply(st, ops[0]), ops[1..])
  }

  /** One operation on a stopped instance moves neither the field, the index nor the reports. */
  lemma ApplyStopped(st: State, op: Op)
    requires !st.isRunning
    ensures var r := Apply(st, op);
            !r.isRunning && r.element == st.element && r.currentIndex == st.currentIndex && r.sent == st.sent
  {
  }

  /** Once stopped (or completed), an instance types nothing more, whatever is paused, resumed or fired. */
  lemma {:induction false} StoppedStaysStill(st: State, ops: seq<Op>)
    requires !st.isRunning
    ensures var r := ApplyAll(st, ops);
            !r.isRunning && r.element == st.element && r.currentIndex == st.currentIndex && r.sent == st.sent
    decreases |ops|
  {
    if ops != [] {
      ApplyStopped(st, ops[0]);
      StoppedStaysStill(Apply(st, ops[0]), ops[1..]);
    }
  }

  /**
   * `stop()` cancels only the `typeNext` timeout in `timeoutId`: every pending typo
   * timeout stays queued.
   */
  lemma StopKeepsMistakeTimers(st: State)
    requires Valid(st)
    ensures var r := StopStep(st);
            !r.isRunning && r.element == st.element &&
            (forall i :: 0 <= i < |st.pending| && st.pending[i].event != TypeNext ==> st.pending[i] in r.pending) &&
            (forall t :: t in r.pending ==> t in st.pending && (st.timeoutId != 0 ==> t.id != st.timeoutId))
  {
    if st.timeoutId != 0 {
      forall i | 0 <= i < |st.pending| && st.pending[i].event != TypeNext
        ensures st.pending[i] in StopStep(st).pending
      {
        assert st.pending[i].id != st.timeoutId;
      }
    }
  }

  /**
   * `togglePause()` twice on a running instance re-arms `typeNext` without cancelling
   * the timeout that was already pending: if the instance is still running, two
   * chains of timeouts now run side by side.
   */
  lemma PauseResumeKeepsOldTimer(st: State, d1: Draws, d2: Draws, n1: int, n2: int)
    requires Valid(st) && st.isRunning && !st.isPaused
    ensures var r := TogglePauseStep(TogglePauseStep(st, d1, n1), d2, n2);
            !r.isPaused && r.pending[..|st.pending|] == st.pending &&
            (r.isRunning ==> |r.pending| == |st.pending| + 1)
  {
    var paused := TogglePauseStep(st, d1, n1);
    assert paused == st.(isPaused := true);
    var r := TogglePauseStep(paused, d2, n2);
    assert r == TypeNextStep(st, d2, n2);
    TypeNextExtends(st, d2, n2);
  }

  /**
   * If the pending `typeNext` fires during a pause, it returns without re-arming and
   * its chain ends: the resume then runs `typeNext` on an empty queue, so at most one
   * timeout is pending afterwards.
   */
  lemma PauseFireResumeOneChain(st: State, d1: Draws, d2: Draws, d3: Draws, n1: int, n2: int, n3: int)
    requires Valid(st) && st.isRunning && !st.isPaused
    requires |st.pending| == 1 && st.pending[0].event == TypeNext
    ensures var s1 := TogglePauseStep(st, d1, n1);
            0 < |s1.pending| &&
            var s2 := FireStep(s1, 0, d2, n2);
            s2 == st.(isPaused := true, pending := []) &&
            var s3 := TogglePauseStep(s2, d3, n3);
            s3 == TypeNextStep(st.(pending := []), d3, n3) && |s3.pending| <= 1
  {
    var s1 := TogglePauseStep(st, d1, n1);
    assert s1 == st.(isPaused := true);
    assert Remove(s1.pending, 0) == [];
    var s2 := FireStep(s1, 0, d2, n2);
    assert s2 == st.(isPaused := true, pending := []);
    TypeNextExtends(st.(pending := []), d3, n3);
    var r := TypeNextStep(st.(pending := []), d3, n3);
    assert |r.pending| <= 1 by {
      TypeNextOneTimer(st.(pending := []), d3, n3);
    }
  }

  /** `typeNext` arms at most one timeout. */
  lemma TypeNextOneTimer(st: State, d: Draws, now: int)
    ensures |TypeNextStep(st, d, now).pending| <= |st.pending| + 1
  {
  }

  /**
   * A pause between a typo and its backspace, with the backspace firing while the
   * instance is paused, drops the backspace: after resuming, the session goes on as
   * an undisturbed one whose field already holds the wrong character after the
   * typed part.
   */
  lemma TypoLeftAfterPause(st: State, lead: string, from: nat, d1: Draws, d2: Draws, d3: Draws, n1: int, n2: int, n3: int)
    requires Chain(st, lead, from) && st.isRunning && st.pending[0].event.MistakeBackspace? && IsDraw(d3.pick)
    ensures var i := st.currentIndex;
            var p := lead + st.text[from..i];
            var w := Read(st.element)[|p|];
            var s1 := TogglePauseStep(st, d1, n1);
            w != st.text[i] && 0 < |s1.pending| &&
            var s3 := TogglePauseStep(FireStep(s1, 0, d2, n2), d3, n3);
            Chain(s3, p + [w], i) && s3.text == st.text && s3.settings == st.settings && s3.currentIndex >= i
  {
    var i := st.currentIndex;
    var p := lead + st.text[from..i];
    var v := Read(st.element);
    var w := v[|p|];
    assert v == p + [w];
    assert st.text[i..i] == "";
    var s1 := TogglePauseStep(st, d1, n1);
    var s2 := FireStep(s1, 0, d2, n2);
    assert s2 == st.(isPaused := true, pending := []);
    var resumed := st.(pending := []);
    assert TogglePauseStep(s2, d3, n3) == TypeNextStep(resumed, d3, n3);
    assert Ready(resumed, p + [w], i);
    TypeNextChain(resumed, p + [w], i, d3, n3);
  }

  /**
   * Hence the typo stays for good: left undisturbed after the resume, the session
   * completes with the wrong character still in the field, one character longer
   * than the field an undisturbed session ends with.
   */
  lemma TypoStaysToTheEnd(st: State, lead: string, from: nat, d1: Draws, d2: Draws, d3: Draws, n1: int, n2: int, n3: int, ticks: seq<Tick>)
    requires Chain(st, lead, from) && st.isRunning && st.pending[0].event.MistakeBackspace? && IsDraw(d3.pick)
    requires NoStall(st) && ValidTicks(ticks) && |ticks| >= 3 * (|st.text| - st.currentIndex)
    ensures var i := st.currentIndex;
            var p := lead + st.text[from..i];
            var w := Read(st.element)[|p|];
            var s1 := TogglePauseStep(st, d1, n1);
            0 < |s1.pending| &&
            var r := Run(TogglePauseStep(FireStep(s1, 0, d2, n2), d3, n3), ticks);
            !r.isRunning && Read(r.element) == p + [w] + st.text[i..] &&
            |Read(r.element)| == |lead + st.text[from..]| + 1 &&
            |r.sent| == 1 && r.sent[0].characters == |st.text|
  {
    var i := st.currentIndex;
    var p := lead + st.text[from..i];
    var w := Read(st.element)[|p|];
    TypoLeftAfterPause(st, lead, from, d1, d2, d3, n1, n2, n3);
    var s3 := TogglePauseStep(FireStep(TogglePauseStep(st, d1, n1), 0, d2, n2), d3, n3);
    assert NoStall(s3);
    RunCompletes(s3, p + [w], i, ticks);
  }

  /**
   * A pause and a resume that both come before the backspace fires: the resume types
   * the right character after the typo, and the backspace then erases that
   * character instead, leaving the typo in the field with the index past it.
   */
  lemma PauseResumeBeforeBackspace(st: State, lead: string, from: nat, d1: Draws, d2: Draws, d3: Draws, n1: int, n2: int, n3: int)
    requires Chain(st, lead, from) && st.isRunning && st.pending[0].event.MistakeBackspace?
    requires st.currentIndex + 1 < |st.text| && !MakesMistake(st.settings, st.text[st.currentIndex], d2)
    ensures var i := st.currentIndex;
            var p := lead + st.text[from..i];
            var w := Read(st.element)[|p|];
            var c := st.text[i];
            var s2 := TogglePauseStep(TogglePauseStep(st, d1, n1), d2, n2);
            Read(s2.element) == p + [w, c] && s2.currentIndex == i + 1 && s2.isRunning &&
            |s2.pending| == 2 && s2.pending[0] == st.pending[0] && s2.pending[1].event == TypeNext &&
            var s3 := FireStep(s2, 0, d3, n3);
            Read(s3.element) == p + [w] && s3.currentIndex == i + 1 && s3.isRunning &&
            |s3.pending| == 2 && s3.pending[0] == s2.pending[1] && s3.pending[1].event == MistakeCorrect(c) &&
            Read(s3.element) != lead + st.text[from..s3.currentIndex]
  {
    var i := st.currentIndex;
    var p := lead + st.text[from..i];
    var v := Read(st.element);
    var w := v[|p|];
    var c := st.text[i];
    assert v == p + [w];
    var s1 := TogglePauseStep(st, d1, n1);
    assert s1 == st.(isPaused := true);
    var s2 := TogglePauseStep(s1, d2, n2);
    assert s2 == TypeNextStep(st, d2, n2);
    TypeCharacterAppends(st, d2, n2);
    assert Read(s2.element) == p + [w] + [c];
    assert Remove(s2.pending, 0) == [s2.pending[1]];
    var s3 := FireStep(s2, 0, d3, n3);
    assert DropLast(p + [w] + [c]) == p + [w];
    Extend(st.text, lead, from, i);
    assert (lead + st.text[from..i + 1])[|p|] == c;
  }

  /**
   * `start()` does not reset the index: on an instance stopped part-way it clears
   * the field and types on from the old index, so the field holds only the part of
   * the text typed since the restart.
   */
  lemma RestartResumesAtIndex(st: State, d: Draws, startNow: int, now: int)
    requires Valid(st) && !st.isRunning && Editable(st.element) && !st.settings.typingMistakes
    requires 0 < st.currentIndex < |st.text|
    ensures var r := StartStep(st, d, startNow, now);
            st.currentIndex <= r.currentIndex &&
            Read(r.element) == st.text[st.currentIndex..r.currentIndex] &&
            Read(r.element) != st.text[..r.currentIndex]
  {
    var started := st.(isRunning := true, startTime := Some(startNow), element := Write(st.element, ""));
    var i := st.currentIndex;
    var c := st.text[i];
    if st.isPaused {
      assert st.text[i..i] == "";
    } else if st.settings.typingMode == "word" && c == ' ' {
      WordModeStalls(started, d, now);
      assert st.text[i..i] == "";
    } else {
      TypeCharacterAppends(started, d, now);
      assert st.text[i..i + 1] == [c];
    }
  }

  /**
   * `start()` after completion clears the field and at once reports completion
   * again, timed from the start time it has just stored to the clock `complete()`
   * reads.
   */
  lemma RestartAfterCompletion(st: State, d: Draws, startNow: int, now: int)
    requires Editable(st.element) && st.currentIndex == |st.text|
    ensures var r := StartStep(st, d, startNow, now);
            !r.isRunning && Read(r.element) == "" && r.startTime == Some(startNow) &&
            |r.sent| == |st.sent| + 1 && r.sent[..|st.sent|] == st.sent &&
            var s := r.sent[|st.sent|];
            s.characters == |st.text| && s.duration == now - startNow &&
            (s.wpm.None? <==> now == startNow)
  {
    var r := StartStep(st, d, startNow, now);
    assert r.sent == st.sent + [Stats(now - startNow, Wpm(|st.text|, now - startNow), |st.text|)];
  }

  // ---------------------------------------------------------------------------
  // Without typos, any interleaving types a prefix of the text

  /**
   * With typos switched off: the field holds exactly the typed prefix, only `typeNext`
   * timeouts are pending, and a completion, reported at most once, means the whole
   * text was typed.
   */
  ghost predicate Typed(st: State) {
    Valid(st) && Editable(st.element) && !st.settings.typingMistakes &&
    Read(st.element) == st.text[..st.currentIndex] &&
    (forall i :: 0 <= i < |st.pending| ==> st.pending[i].event == TypeNext) &&
    |st.sent| <= 1 &&
    (|st.sent| == 1 ==> !st.isRunning && st.currentIndex == |st.text|) &&
    (st.isRunning ==> st.sent == [])
  }

  lemma ScheduleNextTyped(st: State, d: Draws, now: int)
    requires st.currentIndex <= |st.text| && TimersValid(st) && st.isRunning
    requires Editable(st.element) && !st.settings.typingMistakes
    requires Read(st.element) == st.text[..st.currentIndex] && st.sent == []
    requires forall i :: 0 <= i < |st.pending| ==> st.pending[i].event == TypeNext
    ensures Typed(ScheduleNextStep(st, d, now))
  {
    ScheduleNextValid(st, d, now);
  }

  lemma TypeNextTyped(st: State, d: Draws, now: int)
    requires Typed(st)
    ensures Typed(TypeNextStep(st, d, now))
  {
    if st.isRunning && !st.isPaused {
      var i := st.currentIndex;
      var c := st.text[i];
      if st.settings.typingMode == "word" && c == ' ' {
        var e := WordEnd(st.text, i);
        assert st.text[..i] + st.text[i..e] == st.text[..e];
        ScheduleNextTyped(Append(st, st.text[i..e]).(currentIndex := e), d, now);
      } else {
        assert st.text[..i] + [c] == st.text[..i + 1];
        ScheduleNextTyped(Append(st, [c]).(currentIndex := i + 1), d, now);
      }
    }
  }

  lemma StopTyped(st: State)
    requires Typed(st)
    ensures Typed(StopStep(st)) && StopStep(st).text == st.text
  {
    StopValid(st);
    var r := StopStep(st);
    forall i | 0 <= i < |r.pending| ensures r.pending[i].event == TypeNext {
      assert r.pending[i] in st.pending;
    }
  }

  lemma TogglePauseTyped(st: State, d: Draws, now: int)
    requires Typed(st)
    ensures Typed(TogglePauseStep(st, d, now)) && TogglePauseStep(st, d, now).text == st.text
  {
    var flipped := st.(isPaused := !st.isPaused);
    TypeNextTyped(flipped, d, now);
  }

  lemma FireTyped(st: State, k: nat, d: Draws, now: int)
    requires Typed(st) && k < |st.pending|
    ensures Typed(FireStep(st, k, d, now)) && FireStep(st, k, d, now).text == st.text
  {
    var rest := st.(pending := Remove(st.pending, k));
    RemoveValid(st, k);
    forall i | 0 <= i < |rest.pending| ensures rest.pending[i].event == TypeNext {
      if i < k { assert rest.pending[i] == st.pending[i]; }
      else { assert rest.pending[i] == st.pending[i + 1]; }
    }
    assert FireStep(st, k, d, now) == TypeNextStep(rest, d, now);
    TypeNextTyped(rest, d, now);
  }

  lemma ApplyTyped(st: State, op: Op)
    requires Typed(st)
    ensures Typed(Apply(st, op)) && Apply(st, op).text == st.text
  {
    match op
    case StopOp => StopTyped(st);
    case ToggleOp(t) => TogglePauseTyped(st, t.draws, t.now);
    case FireOp(k, t) =>
      if k < |st.pending| {
        FireTyped(st, k, t.draws, t.now);
      }
  }

  /** `start()` on a new instance with typos off establishes `Typed`. */
  lemma StartTyped(element: Field, text: string, settings: Settings, d: Draws, startNow: int, now: int)
    requires Editable(element) && !settings.typingMistakes
    ensures Typed(StartStep(Initial(element, text, settings), d, startNow, now))
  {
    if |text| > 0 {
      TypeNextTyped(Initial(element, text, settings).(isRunning := true, startTime := Some(startNow), element := Write(element, "")), d, now);
    }
  }

  /** With typos off, `Typed` holds whatever order pauses, resumes, stops and timeouts come in. */
  lemma {:induction false} TypedForever(st: State, ops: seq<Op>)
    requires Typed(st)
    ensures Typed(ApplyAll(st, ops)) && ApplyAll(st, ops).text == st.text
    decreases |ops|
  {
    if ops != [] {
      ApplyTyped(st, ops[0]);
      TypedForever(Apply(st, ops[0]), ops[1..]);
    }
  }

  /**
   * Hence, with typos off and any interleaving (duplicate `typeNext` chains
   * included), the field always holds a prefix of the text, and a reported
   * completion, sent at most once, means it holds the whole text.
   */
  lemma TypedRunTypesPrefix(st: State, ops: seq<Op>)
    requires Typed(st)
    ensures var r := ApplyAll(st, ops);
            Read(r.element) <= st.text &&
            (|r.sent| > 0 ==> Read(r.element) == st.text && |r.sent| == 1)
  {
    TypedForever(st, ops);
    TypedPrefix(ApplyAll(st, ops));
  }

  lemma TypedPrefix(st: State)
    requires Typed(st)
    ensures Read(st.element) <= st.text
    ensures |st.sent| > 0 ==> Read(st.element) == st.text && |st.sent| == 1
  {
    assert st.text[..|st.text|] == st.text;
  }
}
