# Typewriter engine: a verified model

This project models the typing engine of a browser extension that types a given text
into the focused input field of a web page, one character (or one word) at a time.
It simulates a human typist: delays depend on the character class, a typing pattern
and random variation, and occasional typos are made and corrected.

The core is `TypewriterInstance` in `content.js`, together with the helpers the engine
depends on: the typeable-element test and the keyboard-shortcut modifier test.

## How the model is organised

- `Chars`: the character classes of the engine (the regular-expression tests
  `[a-zA-Z]`, `[0-9]`, `[.,!?;:()]`, `[.!?]`), plus lower-casing of the characters
  whose JavaScript lower case is an ASCII letter.
- `Randomness`: what a `Math.random()` draw is, a real number in [0, 1).
  Every draw is a parameter of the operation that consumes it.
- `Delay`: the settings record, the defaults, and `getCharDelay`, built in three
  stages: class, pattern and variation.
  All arithmetic uses reals, with `Math.floor` as `.Floor`.
  It also holds `getBackspaceDelay`.
- `Keyboard`: the QWERTY adjacency table and the choice of a wrong character.
- `Elements`: the target element as a field of one of three kinds, with the engine's
  read, write and clear operations. Inputs and textareas use `value`,
  content-editable elements use `textContent`, and every other element reads as ""
  and ignores writes. This module also holds `isTypeableElement`.
- `Hotkey`: `checkModifier`.
- `Engine`: the instance as a value, with one step function per method.
  - The host's `setTimeout` queue is explicit: a list of pending timeouts with their
    handles. `timeoutId == 0` stands for `null` (handles start at 1).
  - The `typingComplete` messages are collected in `sent`.
  - `Date.now()` is a parameter `now`.
  - The host may run *any* pending timeout next (`FireStep`).
  - `Valid` is the instance invariant (index within the text, handles fresh and
    ordered), and every step preserves it.
- `Typewriter`: the class `TypewriterInstance`. Its fields and its methods update
  them in place. Every method is proved to produce exactly the state the matching
  `Engine` step computes, and the public methods keep `Valid`. `typeWord` keeps its
  loop, with invariants.
- `Session`: multi-step properties.
  - An undisturbed session on an editable target (an input, a textarea or a
    content-editable element) completes with exactly the text in the field, whatever
    the draws and typos, within three timeouts per character, provided word mode
    meets no space ahead (where it stalls, see below). The session invariant
    `Chain(st, lead, from)` also covers a session whose field held `lead` when typing
    reached index `from`, which is what a pause during a typo leaves behind.
  - A typo erases itself and then types the right character.
  - With typos off, any interleaving of pause, resume, stop and timeouts leaves a
    prefix of the text in the field.
  - After a stop, nothing is typed any more.

### Behaviour of the engine that the model keeps as written

- `togglePause()` never cancels the pending `typeNext` timeout, and a resume runs
  `typeNext` at once (which types, starts a typo or completes, and then arms the next
  timeout).
  - A resume that comes before the pending `typeNext` fires starts a second chain of
    timeouts beside it (`Session.PauseResumeKeepsOldTimer`).
  - If the pending `typeNext` fires during the pause, it returns without re-arming
    and its chain ends, so after the resume only the new chain runs
    (`Session.PauseFireResumeOneChain`).
  - With typos off the field still only ever holds a prefix of the text
    (`Session.TypedRunTypesPrefix`).
- The two timeouts of a typo are not stored in `timeoutId`, so `stop()` cannot cancel
  them (`Session.StopKeepsMistakeTimers`). They check `isRunning` when they run and
  then do nothing (`Session.MistakeStepsGuarded`).
- A typo's backspace that fires while the instance is paused is dropped. After the
  resume the wrong character stays in the field, typing goes on after it, and it is
  still there when the session completes (`Session.TypoLeftAfterPause`,
  `Session.TypoStaysToTheEnd`).
- If the pause and the resume both come before the backspace fires, the resume types
  the right character after the typo, and the backspace then erases that character
  instead. The typo stays and the index is already past it
  (`Session.PauseResumeBeforeBackspace`).
- In word mode, `typeNext` at a space calls `typeWord`. Its loop stops at once, so it
  appends the empty word and re-arms itself at the same index. A word-mode session
  therefore never gets past its first space (`Session.WordModeStalls`,
  `Session.WordModeNeverCompletes`). Words without spaces are typed one character at
  a time, because `typeCharacter` only calls `typeWord` on a space.
- `start()` reads the clock for the start time, and `complete()` reads it again.
  The model takes the two readings as two parameters, `startNow` and `now`.
- `start()` does not reset `currentIndex`.
  - Restarting a stopped instance clears the field and types on from the old index
    (`Session.RestartResumesAtIndex`).
  - Restarting a completed one clears the field and at once reports completion
    again (`Session.RestartAfterCompletion`).
- `getBackspaceDelay()` floors only its fixed part, so its result is in general not
  a whole number.
- `checkModifier` and `isTypeableElement` are modelled as written. An element that is
  typeable only through its role or class (a `div` with `role="textbox"`) is
  accepted, but the engine's write operations ignore it
  (`Elements.TextboxRoleIsIgnored`).

## Model

| member | source | states |
|---|---|---|
| `Chars.ToLower` | content.js:412 | lower-casing maps `A`-`Z` to `a`-`z` (code plus 32) and the Kelvin sign U+212A to `k`, and leaves every other character alone; the result is a lower-case ASCII letter exactly when the character is an ASCII letter or the Kelvin sign |
| `Chars.LowerString` | content.js:116-117 | lower-casing a string keeps its length and lower-cases each character in place |
| `Hotkey.CheckModifier` | content.js:187-196 | a shortcut matches only with Shift held and only for the names "Ctrl+Shift" or "Alt+Shift"; every other modifier name is rejected |
| `Hotkey.ModifiersExclusive` | content.js:187-196 | no key press matches both the Ctrl+Shift and the Alt+Shift shortcut |
| `Delay.GetCharDelay` | content.js:427-466 | the delay is a whole number of milliseconds, never below 10; it is exactly 10 when the computed delay is below 10, and otherwise it is the floor of the computed delay |
| `Delay.SmoothLetterDelay` | content.js:427-466 | without variation and with the smooth (or an unknown) pattern, a letter waits `max(10, floor(baseSpeed * letterSpeed))` |
| `Delay.SentencePauseBounds` | content.js:439-441 | with pauses on, `.`, `!` and `?` wait between 200 and 500 ms longer than `baseSpeed * punctuationSpeed` |
| `Delay.PatternBounds` | content.js:445-457 | hunt-and-peck adds between 50 and 400 ms; burst multiplies by 0.4, or by 0.8 on its occasional slow key; smooth and unknown patterns leave the delay unchanged |
| `Delay.VariationBounds` | content.js:459-463 | random variation keeps the delay within 20% of the unvaried delay, on the side given by its sign, and a positive delay stays strictly below 120% |
| `Delay.DefaultLetterDelay` | content.js:427-466 | with the default settings a letter waits at least 40 and less than 60 ms |
| `Delay.GetBackspaceDelay` | content.js:468-470 | a backspace waits at least `floor(0.3 * baseSpeed)` and less than 50 ms more than that |
| `Delay.DefaultBackspaceDelay` | content.js:468-470 | with the default settings a backspace waits at least 15 and less than 65 ms |
| `Keyboard.NearbyKeys` | content.js:398-413 | the neighbour list is never empty, and is `[c]` for a character whose lower case has no entry in the table |
| `Keyboard.TableCoversAlphabet` | content.js:399-410 | the adjacency table has an entry for exactly the 26 lower-case letters |
| `Keyboard.TableEntries` | content.js:399-410 | every table entry is a non-empty list of lower-case letters, none equal to its key |
| `Keyboard.FallbackLetter` | content.js:395 | the fallback is a lower-case letter, and for a draw its code is `97 + floor(26 * draw)` |
| `Keyboard.RandomWrongChar` | content.js:392-396 | for a draw, the wrong character is one of the neighbours `getNearbyKeys` lists; in any case it is a neighbour or a lower-case letter |
| `Keyboard.WrongCharIsNeighbour` | content.js:392-396 | for a letter, the typo is a lower-case neighbour of the letter from the table and differs from the intended character in either case |
| `Keyboard.NonLetterIsRetyped` | content.js:392-413 | for a character outside `A`-`Z` and `a`-`z`, the "wrong" character is the character itself, except for the Kelvin sign, which gets one of the neighbours `j`, `i`, `l` of `k` |
| `Elements.Read` | content.js:295-303 | an element that is neither an input, a textarea nor content-editable reads as "" |
| `Elements.Write` | content.js:286-316 | a write never changes the kind of the element, and leaves any other element unchanged |
| `Elements.IsTypeableElement` | content.js:113-136 | only a non-null element is typeable; every textarea, every content-editable element and every element with role `textbox` is |
| `Elements.KindOf` | content.js:286-316 | the engine reads and writes `value` exactly for tag names `textarea` and `input` (in any case); every element it writes other than an input is also typeable |
| `Elements.DropLast` | content.js:378 | `slice(0, -1)` removes exactly the last character, and leaves the empty string empty |
| `Elements.ReadAfterWrite` | content.js:286-316 | on an input, textarea or content-editable element, reading after a write gives back the value written; any other element is never changed and always reads as "" |
| `Elements.WriteBack` | content.js:295-316 | writing back the value just read changes nothing |
| `Elements.WritableKindsAreTypeable` | content.js:113-136 | every content-editable element and every textarea is typeable, and a textarea is written through `value` |
| `Elements.UpperCaseTextarea` | content.js:116 | tag names are compared without regard to case |
| `Elements.TextboxRoleIsIgnored` | content.js:129-133 | a `div` with role `textbox` is typeable, but it is of the kind the engine's writes ignore |
| `Elements.CheckboxIsNotTypeable` | content.js:121-123 | a checkbox input is not typeable |
| `Elements.NullIsNotTypeable` | content.js:114 | a null element is not typeable |
| `Engine.Round` | content.js:482 | `Math.round` gives the integer nearest its argument, halves rounded up |
| `Engine.Wpm` | content.js:481-482 | wpm is undefined (non-finite) exactly when the duration is 0, and otherwise is `round(12000 * characters / duration)` |
| `Engine.WpmOfOneMinute` | content.js:481-482 | 300 characters in 60000 ms are 60 words per minute |
| `Engine.WpmNonNegative` | content.js:481-482 | a positive duration gives a finite, non-negative rate |
| `Engine.Cancel` | content.js:268-271 | `clearTimeout(id)` removes every queued timeout with that handle and keeps all others |
| `Engine.CancelOrdered` | content.js:268-271 | cancelling keeps the queue's handles in increasing order |
| `Engine.WordEnd` | content.js:353-357 | the word loop stops at the first space at or after the index, or at the end of the text, and everything it passes over is not a space |
| `Engine.CompleteStep` | content.js:472-493 | specification of `complete()`; its properties are the contracts of `Typewriter.TypewriterInstance.Complete` and `Session.RestartAfterCompletion` |
| `Engine.ScheduleNextStep` | content.js:415-425 | specification of `scheduleNext()`; see `Engine.ScheduleNextValid` and `Session.ScheduleNextChain` |
| `Engine.TypeWordStep` | content.js:349-364 | specification of `typeWord()`; see `Session.TypeWordCollectsRun` |
| `Engine.TypeCharacterStep` | content.js:338-347 | specification of `typeCharacter()`; see `Session.TypeCharacterAppends` |
| `Engine.TypeMistakeStep` | content.js:366-373 | specification of the first part of `typeMistake()`; see `Session.MistakeRoundTrip` |
| `Engine.TypeNextStep` | content.js:318-336 | specification of `typeNext()`; see `Engine.TypeNextValid`, `Session.TypeNextExtends` and `Session.TypeNextChain` |
| `Engine.StartStep` | content.js:252-264 | specification of `start()`; see `Engine.StartValid` and `Session.StartChain` |
| `Engine.StopStep` | content.js:266-277 | specification of `stop()`; see `Session.StopKeepsMistakeTimers` |
| `Engine.TogglePauseStep` | content.js:279-284 | specification of `togglePause()`; see `Session.PauseResumeKeepsOldTimer` |
| `Engine.CallbackStep` | content.js:373-389 | specification of the two nested callbacks of `typeMistake()` and of `typeNext` as a callback; see `Engine.CallbackValid` |
| `Engine.FireStep` | content.js:373-389 | the host runs one pending timeout; see `Engine.FireValid` and `Session.FireChain` |
| `Engine.InitialValid` | content.js:226-236 | a new instance satisfies the instance invariant |
| `Engine.ScheduleNextValid` | content.js:415-425 | `scheduleNext` keeps the invariant whenever the index is within the text |
| `Engine.TypeNextValid` | content.js:318-336 | `typeNext` keeps the invariant |
| `Engine.StartValid` | content.js:252-264 | `start` keeps the invariant |
| `Engine.StopValid` | content.js:266-277 | `stop` keeps the invariant |
| `Engine.TogglePauseValid` | content.js:279-284 | `togglePause` keeps the invariant |
| `Engine.CallbackValid` | content.js:373-389 | each of the three callbacks the engine schedules keeps the invariant |
| `Engine.FireValid` | content.js:373-389 | running any pending timeout keeps the invariant |
| `Session.TypeCharacterAppends` | content.js:338-347 | without a typo and off a word-mode space, a step appends exactly the character at the index and moves the index one on; it then arms `typeNext` for the next character's delay, or completes at the end of the text and reports the text length |
| `Session.TypeNextIdle` | content.js:318-324 | a stopped or paused instance ignores `typeNext` |
| `Session.WordModeStalls` | content.js:349-364 | in word mode at a space, `typeNext` changes neither the field nor the index and re-arms itself |
| `Session.TypeWordCollectsRun` | content.js:349-364 | `typeWord` appends the maximal run of non-space characters at the index and moves the index to the end of that run |
| `Session.TypeNextExtends` | content.js:318-336 | `typeNext` only appends to the field, never moves the index back and never drops a pending timeout |
| `Session.MistakeRoundTrip` | content.js:366-390 | a typo takes the field from `p` to `p` plus a wrong character, back to `p`, then to `p` plus the right character; the index moves only in the last step, by one |
| `Session.MistakeStepsGuarded` | content.js:374 | the typo's later timeouts do nothing when the instance is stopped or paused |
| `Session.ScheduleNextChain` | content.js:415-425 | from the typed prefix, `scheduleNext` either leaves one `typeNext` pending or completes with the whole text typed |
| `Session.TypeMistakeChain` | content.js:366-370 | a typo in an undisturbed session leaves the typed prefix plus one wrong character, with one backspace pending |
| `Session.TypeCharChain` | content.js:343-346 | a typed character moves an undisturbed session one character on |
| `Session.WordSpaceChain` | content.js:349-364 | at a word-mode space an undisturbed session stays where it is |
| `Session.TypeNextChain` | content.js:318-336 | `typeNext` keeps a session undisturbed and brings it closer to its end, except at a word-mode space |
| `Session.BackspaceChain` | content.js:373-378 | the backspace timeout erases the typo and leaves the correction pending |
| `Session.CorrectChain` | content.js:381-388 | the correction timeout types the right character and moves the session one character on |
| `Session.FireChain` | content.js:373-389 | firing the one pending timeout keeps the session undisturbed and brings it closer to its end, or (at a word-mode space) leaves it where it is |
| `Session.StartChain` | content.js:252-264 | `start()` on a new instance with an editable target begins an undisturbed session from an empty field |
| `Session.RunCompletes` | content.js:318-425 | an undisturbed session with no word-mode space ahead completes within three timeouts per remaining character, whatever the random draws; the field then holds what it held when the session reached index `from` followed by the rest of the text, and one report with the text length was sent |
| `Session.SessionTypesText` | content.js:252-425 | after `start()` on a new instance, with no space for word mode to stall on, three timeouts per character complete the session with exactly the text in the field and one report with its length |
| `Session.WordModeNeverCompletes` | content.js:338-364 | a word-mode session at a space keeps running at the same index with the same field, however many timeouts fire |
| `Session.ApplyStopped` | content.js:266-284 | any one operation on a stopped instance leaves the field, the index and the reports alone |
| `Session.StoppedStaysStill` | content.js:266-284 | after a stop or a completion, no sequence of pauses, resumes and timeouts types anything or reports again |
| `Session.StopKeepsMistakeTimers` | content.js:266-277 | `stop()` cancels only the timeout in `timeoutId`; every pending typo timeout stays queued and the field is untouched |
| `Session.PauseResumeKeepsOldTimer` | content.js:279-284 | pause then resume keeps every timeout that was pending and, if still running, adds one more |
| `Session.TypeNextOneTimer` | content.js:318-336 | one `typeNext` arms at most one timeout, whichever branch it takes |
| `Session.PauseFireResumeOneChain` | content.js:318-324 | when the one pending `typeNext` fires during a pause it changes nothing and arms nothing, and the resume then leaves at most one timeout pending, exactly as a `typeNext` on the instance with an empty queue |
| `Session.TypoLeftAfterPause` | content.js:373-374 | when a typo's backspace fires while the instance is paused, it does nothing; after the resume the session goes on undisturbed with the typed part and the wrong character kept at the head of the field |
| `Session.TypoStaysToTheEnd` | content.js:318-425 | left undisturbed after that resume, the session completes with the typed part, the wrong character and the rest of the text in the field, one character more than an undisturbed session ends with |
| `Session.PauseResumeBeforeBackspace` | content.js:373-379 | when pause and resume both come before the backspace fires, the resume types the right character after the typo and moves the index on, and the backspace then erases that right character, so the field holds the typo where the text has the right character |
| `Session.RestartResumesAtIndex` | content.js:252-264 | with typos off, `start()` on an instance stopped part-way clears the field and types on from the old index, so the field holds only what was typed since the restart |
| `Session.RestartAfterCompletion` | content.js:252-264 | `start()` after completion clears the field, stores the new start time and at once sends one more report, for the whole text, timed from that start time to the clock `complete()` reads, with no finite rate exactly when the two readings are equal |
| `Session.ScheduleNextTyped` | content.js:415-425 | with typos off, `scheduleNext` from the typed prefix keeps the typed-prefix invariant |
| `Session.TypeNextTyped` | content.js:318-364 | with typos off, `typeNext` keeps the typed-prefix invariant |
| `Session.StopTyped` | content.js:266-277 | `stop` keeps the typed-prefix invariant |
| `Session.TogglePauseTyped` | content.js:279-284 | `togglePause` keeps the typed-prefix invariant |
| `Session.FireTyped` | content.js:318-336 | running any pending timeout keeps the typed-prefix invariant |
| `Session.ApplyTyped` | content.js:266-336 | every operation keeps the typed-prefix invariant |
| `Session.StartTyped` | content.js:252-264 | `start()` on a new instance with typos off establishes the typed-prefix invariant |
| `Session.TypedForever` | content.js:266-336 | with typos off, the typed-prefix invariant holds after any sequence of pauses, resumes, stops and timeouts in any order |
| `Session.TypedPrefix` | content.js:472-493 | under the typed-prefix invariant, the field is a prefix of the text, and once a report was sent it is the whole text and there is exactly one report |
| `Session.TypedRunTypesPrefix` | content.js:252-336 | with typos off and any interleaving, the field always holds a prefix of the text, and a completion report means the whole text was typed |
| `Typewriter.TypewriterInstance.constructor` | content.js:226-250 | a new instance is at index 0, stopped, unpaused, with no timeout and no start time; missing settings are replaced by the defaults |
| `Typewriter.TypewriterInstance.SetTimeout` | content.js:424 | the host queues the callback under the next handle and returns that handle |
| `Typewriter.TypewriterInstance.ClearTimeout` | content.js:268-271 | the host drops the timeouts with that handle |
| `Typewriter.TypewriterInstance.SetCurrentValue` | content.js:305-316 | an editable element then holds the value; nothing else changes |
| `Typewriter.TypewriterInstance.ClearElement` | content.js:286-293 | the element is emptied; nothing else changes |
| `Typewriter.TypewriterInstance.Complete` | content.js:472-493 | the instance stops and sends one report of duration, wpm and character count |
| `Typewriter.TypewriterInstance.ScheduleNext` | content.js:415-425 | completes at the end of the text, otherwise arms `typeNext` for the next character's delay and stores its handle |
| `Typewriter.TypewriterInstance.TypeWord` | content.js:349-364 | the loop collects the run of non-space characters at the index; the method appends it, moves past it, and schedules the next step |
| `Typewriter.TypewriterInstance.TypeCharacter` | content.js:338-347 | a space in word mode goes to `typeWord`; any other character is appended and the index moves one on |
| `Typewriter.TypewriterInstance.TypeMistake` | content.js:366-390 | appends a wrong character and arms the backspace after that character's delay, without storing its handle |
| `Typewriter.TypewriterInstance.TypeNext` | content.js:318-336 | completes, idles, makes a typo with chance 2% on letters when typos are on, or types the character; keeps the invariant |
| `Typewriter.TypewriterInstance.Start` | content.js:252-264 | runs, records the first clock reading as the start time, clears the field and types the first step, which reads the clock again should it complete; keeps the invariant |
| `Typewriter.TypewriterInstance.Stop` | content.js:266-277 | stops and cancels the stored timeout, if any; keeps the invariant |
| `Typewriter.TypewriterInstance.TogglePause` | content.js:279-284 | flips the pause flag and types the next step when resuming a running instance; keeps the invariant |
| `Typewriter.TypewriterInstance.BackspaceCallback` | content.js:373-379 | unless stopped or paused, removes the last character and arms the correction after the backspace delay |
| `Typewriter.TypewriterInstance.CorrectCallback` | content.js:381-388 | unless stopped or paused, types the right character, moves the index one on and schedules the next step |
| `Typewriter.TypewriterInstance.RunCallback` | content.js:373-389 | runs one of the three scheduled callbacks |
| `Typewriter.TypewriterInstance.Fire` | content.js:373-389 | the host removes one pending timeout and runs it; keeps the invariant |

## Left out

- Visual feedback: the CSS classes, the indicator element and its texts, and the
  3-second timer that hides it. These change no state of the engine.
- `element.focus()` in `start()`, and the focus tracking of the page (`focusin`,
  `focusout`, `handleStartTyping`). The target element is given to the instance.
- The `input` and `change` events dispatched by `setCurrentValue`. They go to page
  code the model cannot see.
- `chrome.runtime.sendMessage` and `chrome.storage`. A completion report is appended
  to `sent` instead, and the message listener and the popup are not part of this
  model.
- `handleKeydown`: only its modifier test `checkModifier` is modelled. The key
  comparison depends on Unicode `toLowerCase`.
- The `mistakes` field set by the constructor. No method reads or writes it.
- Timing: the host may run any pending timeout next, not necessarily the earliest
  due. Every real schedule is one of the orders the model allows.
- Other scripts and the user editing the field while typing runs.
- IEEE arithmetic: reals replace doubles, so rounding error is not modelled. A
  zero-duration rate (infinite or NaN in JavaScript) is `None`. Settings that are
  not numbers (NaN delays) are out of scope.
- Chars.ToLower: models `toLowerCase` only where it can change what the engine does.
  That is `A`-`Z` and the Kelvin sign U+212A, which becomes `k`. Every other
  non-ASCII character is kept as it is. JavaScript maps such characters either to
  non-ASCII characters or, for U+0130, to the two characters `i` and U+0307. Neither
  result is a key of the adjacency table, and neither makes a lower-cased tag name or
  `type` equal to the ASCII names they are compared with. So the results of
  `getNearbyKeys` and `isTypeableElement` are the same. A typo is only ever asked for
  at `A`-`Z` and `a`-`z` (content.js:329), so the Kelvin sign never reaches
  `getNearbyKeys` from the engine.
- Elements.ReadAfterWrite: the field is a lossless string store. The model leaves
  out the browser's sanitisation of `value`: line breaks are stripped from `text`,
  `search`, `tel` and `password` inputs, `email` and `url` inputs are trimmed, and a
  textarea reads a carriage return back as a line feed. `Session.RunCompletes` and
  `Session.SessionTypesText` promise exactly the text in the field. In a browser
  that holds only for texts that this sanitisation leaves unchanged.
- Characters are Dafny characters, not UTF-16 code units, so a character outside
  the basic plane counts as one character here and as two in `charAt` and `length`.
- Keyboard.FallbackLetter: takes the index modulo 26 so that the result is a letter
  for every real. For a draw in [0, 1) this equals the source's
  `97 + floor(26 * r)`, which is all its contract states.
