# dewlock: a verified model

dewlock is a screen locker for Wayland. A timer and descriptor loop drives a password editor, the editor
talks to a forked authentication child over two pipes, and the child's verdict decides when the session
unlocks. This project models those parts in Dafny and proves what they promise.

## How it is built

| file | models |
|---|---|
| Utf8.dfy | src/unicode.c |
| SafeBuffer.dfy | src/safebuf.c, and the two buffer edits of src/password.c |
| Pipes.dfy, Framing.dfy | src/auth.c: retry loops over short and interrupted calls, frames, the four transfers |
| Backends.dfy | src/auth-pam.c and src/auth-shadow.c |
| Deadlines.dfy, EventLoop.dfy, FdTable.dfy | src/loop.c |
| Machine.dfy | the state as a value and a step for every event |
| Effects.dfy | the same machine a second time, field by field, and what follows for typing, messages, the clock and key repeat |
| Lock.dfy | src/password.c, src/clock.c, src/seat.c, the timer pass and the callbacks of main.c, updating fields in place |
| Surfaces.dfy | src/ctx.c, src/render.c and the surface handlers of main.c |
| Runs.dfy | what one turn of the main loop, a whole run and the course of `main` are, as relations between states and events |
| Passes.dfy | what a timer pass does to the alarms that are due |
| Session.dfy | main.c: repaints, outputs, the main loop, locking and unlocking |
| AuthProtocol.dfy | parent, child and the pipes between them, one step per system call |
| Joint.dfy | the course of `main` as the parent's part of that protocol |
| Outputs.dfy | which outputs have a lock surface over the course of `main` |
| Config.dfy | the string rewriting of src/config.c |
| Options.dfy, Sequences.dfy | optional values, one fact about sequences |

The classes follow the source method by method. Each method of `Lock.State` is proved to take the step that
`Machine.Step` takes for its event, so what is proved about all sequences of events (`Machine.Replay`) holds of all
runs of the classes. `Machine` says what each event does; `Effects` says, independently and with every symbol and
duration written out, what each field depends on, and `CoreByField` and `SeatByField` prove the two to be one
machine. `Runs` says what a run is. A turn has one event for each signal the compositor delivered while it was
dispatched, one for each reply read, one for SIGUSR1, one for a failed dispatch and one for each timer that was
alive at its turn and past, in this order and no others; it ends the process exactly if `Runs.Aborts` says so of
what `poll` reported and of the reply pipe. `Session.Client` is proved to make exactly such turns, up to
`LockSession`, which is `main` from the first round trip on. What a run means (`RunReaches`, `ClearedExactly`,
`LockHolds`, `CourseReaches`) is then proved about the relation, and what decides the turn and the end of the
process is restated in terms of what `poll` reports and of what is received (`AbortsExactly`, `TurnStopsExactly`,
`EndsExactly`): a crash of the child, for one, ends the process with the lock in place (`LethalKeepsLock`). `Passes`
does so for its timers: nothing that is due is put off (`DueAlarmFires`, `NothingOverdue`), and nothing else fires
(`FiresItsAlarm`, `FiresOnce`).

Timers live in memory that can be freed: a handle is an address, a node that has left the list is freed, and a
handle may dangle. Callbacks are tags dispatched by a match. `AuthProtocol` shares `Machine` for the parent and is
tied to the byte stream loops of the two children by `JudgedAsOwed` and `JudgedAsServed`. `Joint` ties it to the
other side: the course of `main` is the parent's part of a run of both processes exactly if its requests go out and no
reply comes before its request (`CourseIsJoint`, `JointOnly`), and beside a child it is left by a cleared flag, without
SIGUSR1 or a failed dispatch, only for a password found right (`UnlockedByRightPassword`): one that
`pam_authenticate` accepted, or that `crypt` turns into the stored hash (`UnlockedByPam`, `UnlockedByHash`).

`damage_state` is the last thing any handler does that can be seen, so `Lock.State` records that it was called and
`Session.Client` makes the repaint when the handler, or the timer callback, returns.

## What turned out false, and what holds instead

- "At most one request is in flight" fails: `submit_password` leaves the auth-idle timer armed, and its callback
  turns validation into idleness. `TwoInFlight` is a run that shows it, `StrayBreaksExactly` says that nothing
  else breaks it, and `TrackedThroughout` bounds what can be in flight.
- "Every frame is repainted" fails when no indicator buffer is free, because the surface counts as clean whether or
  not a frame was drawn. `Surface.Render` says exactly when that happens, and `StarvedFrame` is a run that ends in it.
  It also fails for a scale that changes before the main loop runs; `SetScale` says exactly when a painted frame then
  goes out of date, and `StaleScale` is a run. The claims about repaints carry `starved` and `rescaled` for these two.
- "A buffer the compositor holds is left alone" holds of the indicator's buffers and fails for the background:
  `GetBackground` destroys the held one exactly if a size other than its own is asked for, as in `TornBackground`. If
  no memory can be had for the new size, going back to the old one finds the background attached and gone
  (`LostBackground`).
- "Every new output gets a lock surface when it is complete" fails for outputs completed before the main loop runs
  and after `create_surface` was called for all (main.c:479); `OutputDone` states the exact condition, and
  `LateOutput` is a run that enters the loop with such an output. Over the whole course of `main`,
  `LockSurfacesExactly` says which outputs have one.
- "The timeout of `poll` is accurate" fails for a timer more than 2^31 ms past, whose estimate wraps around: in
  `LongPastWraps` the loop goes to sleep for days although a timer is due. `EstimateExactly` says that a difference no
  `int` can hold is the only way an estimate goes wrong, and `InSightInRange` that no other timer has one.
- "Expiries are normalised" fails for a key repeat armed after the repeat rate has dropped to zero, or for a negative
  delay. `DeadlineExact` gives the exact condition on the arithmetic, `ForwardExactly` the exact condition on a run
  for a timer to be armed for a negative time, and `RateDropsWhileHeld` the events. The timeout of `poll` is accurate
  for such expiries too.
- "A key that was released repeats no more" fails if the keymap was taken away while it was down: `keyboard_key`
  returns before it stops the repeat (src/seat.c:103-105), which then goes on typing. `ReleaseStops` gives the exact
  condition and `StuckKey` the events; the results about key repeat count a release under a keymap only.
- "The escaped path is the path" fails for an empty path and for a single space, which give `join_args` no word, for
  paths that begin with a space or end with a single one, and for any two adjacent spaces where `wordexp` fails.
  `PathSurvives`, `WordsExist` and `FailedExpansion` give the exact conditions. Without a word the assertion in
  `join_args` fails in a debug build; the release build has no assertions (Makefile:30) and writes in front of its
  buffer (src/config.c:77).
- "The encoder's first byte announces its length" fails where bit 21 of the value is set; `LeadAnnouncesSize`
  gives the exact condition. The table row for six octets cannot be reached.

## Model

| member | source | states |
|---|---|---|
| Utf8.DecodeEncoding | src/unicode.c:32-58 | reading the written bytes back by the layout of section 3 of RFC 3629 returns the code point, surrogates included, exactly for values below 2^21 (so for every code point up to U+10FFFF) |
| Utf8.Encode | src/unicode.c:32-58 | the backward loop writes exactly the encoding at the given position and touches no other byte |
| Utf8.SelfSynchronising | src/unicode.c:47-57 | exactly the first byte of an encoding is not a continuation byte |
| Utf8.EncodingHasNul | src/unicode.c:32-58 | only U+0000 puts a NUL into the buffer |
| Utf8.LastSizeOfEncoding | src/unicode.c:7-19 | whatever bytes come before it, the backward scan measures the last encoded code point whole |
| Utf8.LastSize | src/unicode.c:7-19 | the two pointer loops find the terminator and compute that measure for any buffer contents, stale bytes behind the terminator included |
| Utf8.LeadAnnouncesSize | src/unicode.c:60-78 | the first byte announces the encoder's own length exactly when bit 21 of a four-byte value is clear |
| Utf8.ShortestForm | src/unicode.c:21-30 | no value has a shorter sequence whose lead byte announces its length: the encoder's thresholds are those of the layout |
| Utf8.Size | src/unicode.c:60-78 | the table lookup gives the length announced by a lead byte; its row for six octets is never reached |
| Utf8.SizeByLeadingOnes | src/unicode.c:60-78 | the length read from the table is the number of leading ones, from two to five; a byte with none stands alone, and every other byte is refused |
| SafeBuffer.SBuf.Create | src/safebuf.c:52-75 | a created buffer is all zero and spells the empty text |
| SafeBuffer.SBuf.Clear | src/safebuf.c:92-96 | every byte up to the capacity is wiped and the allocation kept |
| SafeBuffer.SBuf.Destroy | src/safebuf.c:77-90 | the old bytes are wiped before the allocation is given up |
| Editor.AppendCh | src/password.c:25-34 | the byte buffer refines the list editor: the code point is appended when its bytes, the terminator and one byte more fit, and otherwise nothing changes; after any append two bytes of capacity are left |
| Editor.Backspace | src/password.c:16-23 | the buffer then spells the text without its last code point; only the terminator byte is rewritten |
| Editor.ScanDropsLast | src/password.c:16-23 | what the scan measures on an encoded text is the last code point, and cutting it leaves the encoding of the rest |
| Editor.EraseUndoesType | src/password.c:16-34 | backspace undoes a typed code point; a code point is refused exactly when it does not fit |
| Pipes.WriteFull | src/auth.c:39-57 | under any schedule of short writes and EINTR everything is sent, or a proper prefix was and the call reports failure |
| Pipes.ReadFull | src/auth.c:16-37 | never takes a byte beyond the item; end of file is reported only when no byte of it had arrived; terminates by the bytes and interruptions left |
| Framing.ParseFrame | src/auth.c:59-94 | one frame is read back as its password, whatever follows it |
| Framing.ParseAllFrames | src/auth.c:59-94 | any sequence of frames is read back as the same sequence of passwords |
| Framing.ParseExactly | src/auth.c:59-94 | a stream is accepted as a request exactly if it begins with the frame of that password: nothing else passes the two checks |
| Framing.FrameLayout | src/auth.c:130-152 | the bytes of the frame of a password that fits the buffer |
| Auth.WriteRequest | src/auth.c:130-152 | one whole frame goes out or a proper prefix of it and an error; the buffer is wiped either way |
| Auth.ReadRequest | src/auth.c:59-94 | result, bytes taken and calls made are exactly those of two full reads and the two checks on what they deliver, for every schedule of short, interrupted and failing calls; an accepted request is the first frame of the stream and nothing beyond it is consumed |
| Auth.TakingParses | src/auth.c:59-94 | what those reads accept is the first frame the parser finds; end of file is reported only on an empty stream, and without failing calls the result is the parser's |
| Auth.ReadReply | src/auth.c:154-160 | it succeeds exactly if the full read of one byte does; that byte is consumed and decides the verdict, and on failure nothing is |
| Lock.WireReadBack | src/auth.c:59-94 | the bytes the parent has put on the request pipe parse back to the texts typed, in order |
| PamBackend.HandleConversation | src/auth-pam.c:33-70 | only the first prompt is answered and only while the password is held; the conversation aborts exactly when it has more prompts than that |
| PamBackend.PasswordHandedOnce | src/auth-pam.c:33-70 | over any number of conversations of one authentication the password is handed out at most once, only to a prompt, and any further prompt aborts |
| PamBackend.HandedExactly | src/auth-pam.c:46-62 | over all conversations a message is answered with the password exactly if it is a prompt, echoed or not, and no prompt came before it |
| PamBackend.Authenticate | src/auth-pam.c:115-133 | the verdict is whether PAM returns success for what the conversations got of this request's password |
| PamBackend.VerdictExactly | src/auth-pam.c:122-128 | so it is success exactly if `pam_authenticate` returns success given the password, or given none if nothing asked for it |
| PamBackend.Turn | src/auth-pam.c:115-135 | one request is read, judged and answered, and then no byte but zero is left in any allocation ever made for a password |
| PamBackend.Run | src/auth-pam.c:114-151 | the request loop writes a prefix of the replies owed for the request stream, and all of them when no call fails |
| PamBackend.OwedAnswers | src/auth-pam.c:115-142 | every request is answered in order, up to and including the first success and none after it, by whether `pam_authenticate` returns success for that very password; only of a password with a NUL it sees the part before |
| ShadowBackend.Turn | src/auth-shadow.c:67-88 | the same for the second child: it answers only if `crypt` returned something to compare, with success exactly if that is the hash, and forgets the password before it compares |
| ShadowBackend.Run | src/auth-shadow.c:65-95 | the same for the second child, which keeps serving after a success |
| ShadowBackend.CompareExactly | src/auth-shadow.c:77-84 | there is a verdict exactly if `crypt` returns a string as long as the hash that does not begin with an asterisk, and it is success exactly if that string is the hash |
| ShadowBackend.ServeAnswers | src/auth-shadow.c:65-95 | replies come in request order, each success exactly if `crypt` turns that very password into the hash, and stop exactly at the first password for which it returns nothing to compare |
| Deadlines.DeadlineExact | src/loop.c:169-177 | the stored expiry is exactly `ms` after now; it is normalised exactly when the millisecond remainder does not borrow, so always for `ms >= 0` |
| Deadlines.NegativePeriodUnnormalised | src/loop.c:169-177 | a timer of -1 ms can store an expiry that is not normalised |
| Deadlines.ExpiredExact | src/loop.c:119-121 | for normalised expiries the two-part test is exactly "expiry before now"; for others it never fires early |
| Deadlines.EstimateExactly | src/loop.c:74-75 | with each difference and their sum converted to `int`, the estimate is strictly less than a millisecond off exactly if an `int` can hold the difference |
| Deadlines.LongPastWraps | src/loop.c:67-83 | a timer more than 24 days past is due, and yet `poll` is told to wait for days |
| Deadlines.InSightInRange | src/loop.c:74-75 | an `int` holds the difference for every timer, whatever `int` its duration, that is not more than 2^31 ms past |
| Deadlines.TimeoutAccurate | src/loop.c:67-83 | for any number of expiries whose differences an `int` can hold the poll timeout is within a millisecond of the time to the earliest |
| EventLoop.Loop.AddTimer | src/loop.c:157-182 | the new timer is live at the head of the list with the clock's reading and its duration; nothing else changes |
| EventLoop.Loop.RemoveTimer | src/loop.c:203-213 | finds a listed handle by address, dangling handles included, and only marks it |
| EventLoop.Loop.PollTimeout | src/loop.c:67-83 | the loop over the list computes the least estimate, clamped to 0 and INT_MAX, cancelled timers included |
| EventLoop.SleepsUntilDue | src/loop.c:67-83 | whatever `int` durations the timers were armed for, unless one is more than 2^31 ms past, the timeout is within a millisecond of the time to the earliest expiry listed |
| EventLoop.RanInOrder | src/loop.c:107-128 | in a pass timers run newest first, each had a turn, and none runs twice |
| EventLoop.RanExactly | src/loop.c:107-128 | a listed timer runs exactly when it is alive at its turn and past its expiry: never early, never when cancelled before its turn |
| EventLoop.RanOnTime | src/loop.c:107-128 | in terms of time: a timer that runs was armed for a time that is past, and one armed for no negative duration runs exactly if it is alive at its turn and that time is past |
| EventLoop.PassLeaves | src/loop.c:107-128 | after the pass a timer listed at its start is still listed exactly when it was alive at its turn and not past its expiry; all others were unlinked and freed |
| EventLoop.NoneLeftBehind | src/loop.c:107-128 | nothing listed before the pass and past its expiry is left in the list |
| EventLoop.Advance | src/loop.c:112-126 | one turn keeps the split of the list into timers to come, timers that stay, and timers added during the pass, whatever the callback adds or cancels |
| FdTable.Table.Add | src/loop.c:133-155 | the registration is appended to both structures, also when the array has to grow |
| FdTable.Table.Remove | src/loop.c:184-201 | the first registration of the descriptor is dropped from both structures, and all others keep their order |
| FdTable.Table.Dispatch | src/loop.c:91-105 | walking the callback list with a running array index calls what the plain list of registrations asks for |
| FdTable.DispatchedExactly | src/loop.c:91-105 | calls are made exactly for the descriptors that report an event asked for, a hang-up or an error, each with its own callback, and with distinct descriptors once each |
| FdTable.DispatchedInOrder | src/loop.c:91-105 | what was registered later is called later |
| Lock.HandlesAreLiveTimers | src/clock.c:32-47 | between callbacks a timer is live exactly when one of the handles of clock.c, password.c or a seat holds it, exactly one does, and it has that handle's callback |
| Lock.FewLiveTimers | src/password.c:50-79 | at most three timers and one per seat are live |
| Lock.State.AlarmsAreTimers | src/loop.c:157-182 | between callbacks the live timers are exactly the alarms the pure machine has armed, each with its callback, time and duration |
| Lock.Rearmed | src/password.c:50-79 | cancelling the old timer and arming a new one keeps handles and live timers in bijection and changes that one alarm only |
| Lock.LinkedAfterFree | src/loop.c:122-126 | after a callback has let go of its handle, freeing its node restores the bijection |
| Lock.RepeatArmed | src/seat.c:88-94 | a key repeat may overwrite the handle of the timer that is firing |
| Lock.State.ScheduleClock | src/clock.c:32-39 | re-arming the clock, also from its own callback, cancels the old timer and leaves exactly the new one |
| Lock.State.SubmitPassword | src/password.c:81-97 | the request carries the text held, every byte of the buffer is then zero whether or not it went out, and the state is validating or shows the failure with its timer armed; that the buffer is all zero while a password is validated is part of the invariant every handler keeps |
| Lock.State.PwdHandleKey | src/password.c:99-175 | every key, from every state, does to buffer, state and timers what the list-of-code-points editor does, and asks for a repaint whenever something visible changed; what that editor does with each key is in the rows of Effects |
| Lock.State.SetTimeFires | src/clock.c:25-30 | the clock callback asks for a repaint and re-arms itself while it is firing |
| Lock.State.SetAuthIdleFires | src/password.c:36-41 | lets go of its handle and returns to idle, also while a password is being validated |
| Lock.State.ClearPasswordFires | src/password.c:58-64 | lets go of its handle and zeroes every byte of the buffer |
| Lock.State.RepeatFires | src/seat.c:88-94 | re-arms itself and then handles the key, which may arm or cancel other timers |
| Lock.State.KeyPressed | src/seat.c:96-125 | the key is handled, the old repeat stops, and a new one is armed exactly if the seat repeats keys |
| Lock.State.Leave | src/seat.c:75-86 | losing focus leaves no repeat armed |
| Lock.State.Modifiers | src/seat.c:127-152 | a repaint is asked for exactly when caps lock or the layout changed |
| Lock.State.Fire | src/loop.c:122-123 | running any callback takes the step of its event and leaves timers only added or marked |
| Lock.State.Visit | src/loop.c:112-126 | one turn of the pass: swept, left alone, or run and freed, with handles and live timers in bijection again afterwards |
| Lock.State.PassTurn | src/loop.c:111-126 | the node read before the callback ran is still listed when the callback has returned |
| Lock.State.Handle | src/seat.c:57-152 | every handler takes exactly the step of the pure machine for its event |
| Lock.State.ReplyIn | main.c:363-384 | the process ends exactly if the one-byte read fails; a reply of success stops the loop, a refusal is counted and shown |
| Machine.GoodThroughout | src/password.c:36-175 | over every sequence of events: text is held only while input is dirty and its clearing is scheduled, nothing is held during validation, an error message is on a timer, each of the three timers is armed for its own duration, no NUL is held, and the text leaves two bytes free |
| Machine.ClearedInTime | src/password.c:66-72 | whenever text is held it has not changed since the key ten seconds after which it will be cleared |
| Effects.SubmitKey | src/password.c:81-109 | Enter of either kind, and control with m, d or j, submit: nothing is held any more and its clearing is off; validation begins, or the failure is shown for three seconds |
| Effects.CorrectingKey | src/password.c:111-130 | Delete and Backspace drop the last code point, with control everything; Escape drops everything and makes the input pristine; what is left will be cleared ten seconds later |
| Effects.OtherKeys | src/password.c:131-174 | control with c or u empties a dirty input; a modifier key only puts the clearing off; any other key with a character, and the five letters without control, insert it if it fits into 1024 bytes with two to spare; the rest do nothing |
| Effects.CoreByField | src/password.c:36-175 | every field of the state after any event, told by field with symbols and durations written out: no event changes any other, or changes it otherwise |
| Effects.SeatByField | src/seat.c:75-167 | the same for every seat: which event sets, arms or stops its repeat, with what delay or period, and that the period is the longest that repeats as often as asked |
| Effects.PostsExactly | src/password.c:81-97 | a request is posted exactly by a key that submits and whose bytes go out, and carries the text held |
| Effects.TypedIsPosted | src/password.c:99-175 | over every sequence of events without a correction or a clearing, whatever else happens, the characters typed are what the next submission sends, if they fit |
| Effects.MessageInTime | src/password.c:43-48 | while a refusal is shown, it has been shown since the reply or failed write three seconds after which it will be hidden |
| Effects.ClockTicks | src/clock.c:25-39 | from the start of the loop to its end the clock is armed for a second after it last fired, and shows the minute of that moment |
| Effects.NoPhantomKeys | src/seat.c:75-86 | after the focus left, or a key was released under a keymap, nothing repeats on that seat until a key of it is pressed |
| Effects.ReleaseStops | src/seat.c:96-116 | a release stops the repeat of its seat exactly if there is a keymap |
| Effects.StuckKey | src/seat.c:88-105 | events after which a key that is up types: the keymap is taken away, the key is released, and its repeat fires |
| Effects.PressedBetween | src/seat.c:75-86 | so over every run, between any such moment and any later repeat |
| Effects.RepeatOf | src/seat.c:88-125 | an armed repeat is that of the key last pressed on the seat, neither released nor left since, armed by that press for the delay or by the last repeat for the period |
| Effects.RepeatedKey | src/seat.c:88-94 | over every run, what a repeat hands to the password is that key |
| Machine.StopsOnly | main.c:354-391 | the loop's flag is cleared exactly by a reply of success, SIGUSR1 or a failed dispatch, and never set again |
| Machine.FailuresCounted | main.c:374-378 | the attempts counted are the refusals read |
| Machine.ForwardExactly | src/seat.c:88-125 | over every sequence of events no timer is armed for a negative time exactly if no repeat fires on a seat with a negative period and no key is pressed on one with a positive period and a negative delay |
| Machine.RateDropsWhileHeld | src/seat.c:88-94 | such events: the rate drops to zero while a key is held and the repeat is armed for -1 ms |
| Surfaces.IdleScreenHoldsNothing | src/render.c:308-313 | over every sequence of events the screen that shows only the clock is chosen exactly while the program is idle with nothing typed, and then no text is held; the other screen shows how authentication stands, and warns of caps lock exactly while it is idle |
| Surfaces.ByteSizeExact | src/ctx.c:74-75 | the 32-bit byte size is 4 times width times height exactly while that fits 32 bits |
| Surfaces.IndicatorIsMultiple | src/render.c:277-283 | the indicator's sides are multiples of the scale, more than the surface's and at most one scale more |
| Surfaces.Surface.GetIndicator | src/ctx.c:133-162 | a buffer the compositor holds is never handed out, redrawn or destroyed; no buffer is reported exactly when both are held; what is handed out has the size asked for |
| Surfaces.Surface.GetBackground | src/ctx.c:111-131 | a background the compositor holds is destroyed exactly if another size is asked for |
| Surfaces.BackgroundThere | src/render.c:53-76 | when a surface is committed its background exists exactly if the entry had the size already, or another size was attached last and there was room |
| Surfaces.Surface.RenderFrame | src/render.c:272-325 | a frame is drawn exactly when a buffer is free and has the right size or can be had, and then into the first free one, whose sides are the next multiples of the scale; buffers in the compositor's hands stay as they are, and without a frame what was painted stays |
| Surfaces.Surface.Render | src/render.c:38-96 | a dirty surface is afterwards shown as it is now, or still dirty with a frame pending, or starved, and starved exactly if a buffer could not be had, in which case the old painting stays; a commit is made exactly if a background could be attached, and every commit follows an acknowledged configure and has exactly the acknowledged size times the scale |
| Surfaces.Surface.FrameDone | src/render.c:21-30 | a repaint put off while a frame was pending is made when it is done |
| Surfaces.Surface.Configure | main.c:158-167 | the new size is acknowledged before anything is committed for it, and what becomes of the background is exact |
| Surfaces.Surface.SetScale | main.c:222-231 | while the loop runs a new scale is repainted; before that a painted frame is left current exactly when the scale did not change |
| Surfaces.Surface.Create | main.c:113-156 | at most one lock surface is ever requested for an output |
| Surfaces.StarvedFrame | src/render.c:80-95 | a run of two repaints without a release: the third is not drawn, the old one stays, and the surface counts as clean |
| Surfaces.StaleScale | main.c:222-231 | a run in which a scale change before the main loop leaves a frame for the old scale on a surface that counts as clean, until something asks for a repaint |
| Surfaces.TornBackground | src/ctx.c:111-131 | a run in which a resize destroys the background the compositor holds |
| Surfaces.LostBackground | src/render.c:58-70 | a run after which the surface is committed with a background that was destroyed |
| Session.Client.DamageAll | main.c:174-180 | every surface, in any stage, is repainted or will be |
| Session.Client.PaintedIsVisible | main.c:174-180 | between handlers every surface shows, or will show, exactly what is visible of the state: no repaint is lost |
| Session.Client.Signalled | src/seat.c:57-152 | after any signal the state has taken its step, all surfaces are repainted or will be, and none is starved that was not and had buffers to be drawn with |
| Session.Client.TimerPass | src/loop.c:107-128 | the whole pass terminates with one event for each timer that runs, in order, and leaves all invariants and all repaints in place; at every turn the live timers are the alarms armed after the events so far, and what is added is armed no earlier than the pass read the clock |
| Session.Client.OutputDone | main.c:214-220 | an output gets its lock surface here exactly if it has one or the loop runs |
| Session.Client.LateOutput | main.c:478-514 | a run of the handlers that enters the loop with a complete output that has no lock surface |
| Session.Client.OutputRemoved | main.c:314-325 | only that output's surface goes |
| Session.Client.Arrive | main.c:158-325 | one arrival: a signal takes its step; an event about a surface is heeded by that surface, in any stage, and leaves the others alone; outputs come, are completed and go |
| Session.Client.OnReply | main.c:363-384 | the process ends exactly if the pipe is readable and the read fails, or is hung up with nothing to read; otherwise one reply is read, the next in the pipe |
| Session.Client.OnDisplay | main.c:354-361 | one event for each signal delivered, in order, and one more exactly if the dispatch failed; the process ends exactly if the compositor refuses the lock or sends a keymap that cannot be mapped or compiled |
| Session.Client.LoopPoll | src/loop.c:66-131 | a timeout for the alarms armed then, the callbacks of exactly the ready descriptors, in registration order, then one timer pass over exactly the armed alarms; it ends the process, or fails, exactly as poll and the reply pipe say |
| Session.Client.Run | main.c:515-524 | every turn begins with the flag set where the one before ended and is one that `LoopPoll` makes; the loop ends at a cleared flag, or in the turn whose flush or poll fails or that ends the process |
| Session.Client.CreateAll | main.c:478-479 | every output known by then gets its lock surface, and none had one before |
| Session.Client.LockSession | main.c:458-531 | how the process ends is a function of what it received before the loop, and after that of how its loop ended; readiness and the unlock request come only after the lock was granted, and the lock is given up exactly if the program ends through its clean-up |
| Runs.AbortsNowhere | main.c:354-391 | a turn whose callbacks all returned is not one that ends the process; with `AbortsIn`, whether a turn does is decided when it begins |
| Runs.AbortsIn | main.c:354-391 | a callback that ends the process was bound to do so when the turn began |
| Runs.AbortsExactly | main.c:354-391 | in terms of what `poll` reports: a turn ends the process exactly if the display reports something and a message refuses the lock or breaks the keymap, the reply pipe is readable and the read fails, or it is hung up or in error and not readable |
| Runs.DueExactly | src/loop.c:91-105 | each of the three handlers is called exactly if its descriptor is readable, hung up or in error |
| Runs.TurnStopsExactly | main.c:354-391 | a turn clears the flag exactly if it brought SIGUSR1, a dispatch that failed, or a reply of success |
| Runs.LeftBecauseAsked | main.c:515-524 | a loop left by a cleared flag was left after such a turn |
| Runs.LethalEndsRun | main.c:380-383 | over every run no turn is survived in which the child has crashed or a deadly message is handled, and where the loop comes to one the process ends |
| Runs.LethalKeepsLock | main.c:354-391 | and then the lock is not given up |
| Runs.EndingExactly | main.c:516-531 | the process ends well after a cleared flag or a failed flush, badly after a failed `poll`, and without unlocking only if it was aborted |
| Runs.EndsExactly | main.c:458-531 | how `main` ends, and with what exit status, for every script of what it receives and every way its loop can be left |
| Runs.WaitExactly | main.c:481-486 | the wait for the lock ends with the first batch that fails or brings it, and as that batch says |
| Runs.AllDelivered | src/seat.c:57-152 | no signal for an announced seat is lost or reordered |
| Runs.ArrivalsNext | main.c:354-361 | handling one more arrival keeps one event per signal delivered, in order, and the log, seats and replies exact |
| Passes.NothingOverdue | src/loop.c:107-128 | after a pass no armed alarm, whenever it was armed, is past the time the pass read, negative durations apart |
| Passes.OverdueTextCleared | src/password.c:58-72 | text still held after a pass had its clearing armed no more than ten seconds before the pass read the clock |
| Passes.OverdueMessageHidden | src/password.c:36-48 | a refusal still shown after a pass had its hiding armed no more than three seconds before |
| Passes.DueAlarmFires | src/loop.c:107-128 | an alarm overdue when the pass reads the clock fires in that pass, unless it is the one that hides a message or clears the password and a repeated key of the same pass changed it before |
| Passes.TurnFiresDue | src/loop.c:66-131 | so in every turn of the main loop |
| Passes.WakesInTime | src/loop.c:66-85 | in every turn `poll` is told to wait for no armed alarm beyond the millisecond it is due, unless that is more than 2^31 ms past |
| Passes.RunsIfArmed | src/loop.c:107-128 | at its turn an overdue timer runs exactly if the alarm it carries is still armed after the events of the earlier turns |
| Passes.FiresItsAlarm | src/loop.c:107-128 | nothing fires early or after it was cancelled: each event of a pass is that of an alarm armed at that moment and past |
| Passes.FiresOnce | src/loop.c:107-128 | no alarm fires twice in a pass |
| Runs.TurnReaches | src/loop.c:66-131 | the events of a turn lead from its first state to its last, and every reply read was the next in the pipe |
| Runs.RunReaches | main.c:515-524 | so do the events of a whole run; none of them starts the loop, and all a run adds to the log is that the session is locked |
| Runs.ClearedExactly | main.c:515-524 | over every run the flag is found cleared exactly if there was a reply of success, SIGUSR1 or a failed dispatch |
| Runs.StaysLocked | main.c:354-391 | over every run in which every reply refuses, SIGUSR1 does not come and no dispatch fails, the flag stays set |
| Runs.LockHolds | main.c:458-531 | over the whole course of `main`: if also no flush or poll fails, the process does not leave its loop, so the lock is not given up |
| Runs.CourseReaches | main.c:458-531 | from the connection to the last turn the state is the replay of the events, and everything received before the loop was handled, in order |
| Outputs.HistoryExact | main.c:214-220 | over every sequence of arrivals an output is listed only if it was announced, and has a lock surface exactly if it was there when all were given one, or it was completed while the loop ran |
| Outputs.LockSurfacesExactly | main.c:458-529 | so it is at every turn of the course of `main`, which makes them between the second round trip and the wait for the lock |
| AuthProtocol.NextConserves | src/auth.c:59-160 | every act of either process, at the grain of one system call, conserves requests and replies |
| AuthProtocol.ConservedThroughout | src/auth.c:16-160 | over every interleaving the submitted passwords are, in order, those judged, the one with the child, and those in the bytes in flight; replies are consumed, in the pipe, or about to be written |
| AuthProtocol.VerdictsMatchSubmissions | main.c:363-384 | the k-th reply consumed is the verdict on the k-th password submitted, the failed attempts are the refusals consumed, and the loop is stopped by a reply only if a submitted password was found right |
| AuthProtocol.TrackedThroughout | src/password.c:81-97 | while validating some request is unanswered, and beyond that one there are at most as many as stray firings of the auth-idle timer |
| AuthProtocol.ExactWithoutStrays | src/password.c:81-104 | without such a firing there is never a second request, and validating is exactly one being unanswered |
| AuthProtocol.StrayBreaksExactly | src/password.c:36-41 | the correspondence is broken by an act exactly when that act is the auth-idle timer firing during validation |
| AuthProtocol.TwoInFlight | src/password.c:36-104 | a concrete run that puts two requests in flight |
| AuthProtocol.NoDeadlock | src/auth.c:16-160 | in every state that can be reached with the main loop running, the child alive and a request unanswered, one of the processes can move it on |
| AuthProtocol.AllAnswered | src/auth.c:16-160 | every way to do so ends after a bounded number of system calls, with every request answered, the child ended or the main loop stopped |
| AuthProtocol.JudgedAsOwed | src/auth-pam.c:115-142 | in every interleaving the verdicts are the first of those the request loop gives for the bytes of the frames submitted, and each is success exactly if `pam_authenticate` returns success for that very password: no password submitted holds a NUL |
| AuthProtocol.JudgedAsServed | src/auth-shadow.c:65-95 | the same for the shadow child: each verdict is success exactly if `crypt` turns that very password into the hash, and is given only for a result that can be compared |
| AuthProtocol.ChildEndsExactly | src/auth.c:59-94 | an act ends the child exactly if it kills it, cannot judge, or answers a success it ends after; no request of the parent is ever malformed |
| AuthProtocol.PamChildEnds | src/auth-pam.c:137-151 | over every run in which it is not killed the PAM child ends exactly when it has answered a password that was accepted |
| AuthProtocol.ShadowChildEnds | src/auth-shadow.c:80-83 | and the shadow child only at a password for which `crypt` returns nothing to compare |
| Joint.PartRealisable | src/auth.c:16-160 | in every run of both processes the parent's timers fire only when armed, its replies follow its requests, and the requests on record are the texts it posted |
| Joint.Realised | src/auth.c:16-160 | every sequence of events with these properties is the parent's part of some run |
| Joint.CourseArmed | main.c:458-531 | every timer that fires in the course of `main` is armed then, and replies are read only after the one start of the loop |
| Joint.CourseIsJoint | main.c:458-531 | if no write fails and no reply comes before its request, the course of `main` is the parent's part of some run of both processes |
| Joint.JointOnly | main.c:458-531 | and only then is it the part of any run |
| Joint.UnlockedByRightPassword | main.c:363-384 | when the course of `main` runs beside a child, the requests submitted are the texts it posted, and its loop is left by a cleared flag, without SIGUSR1 or a failed dispatch, only if one of those passwords was found right |
| Joint.UnlockedByPam | src/auth-pam.c:122-142 | with the PAM child: only if `pam_authenticate` returned success for one of the texts posted |
| Joint.UnlockedByHash | src/auth-shadow.c:77-90 | with the shadow child: only if `crypt` turns one of the texts posted into the stored hash |
| Joint.CoursePressedBetween | src/seat.c:75-94 | in the course of `main`, between the moment a repeat is stopped and the next one a key of that seat is pressed |
| Config.SplitFirst | src/config.c:122-127 | one turn of the loop removes exactly one pair of adjacent spaces and keeps the final result |
| Config.EscapeSeparates | src/config.c:122-127 | the result has no two adjacent spaces |
| Config.InsertedAreBackslashes | src/config.c:122-127 | every character put in is a backslash |
| Config.EscapeKeeps | src/config.c:122-127 | deleting the characters put in gives back the original |
| Config.EscapeSpaces | src/config.c:122-127 | the reallocating, shifting loop terminates inside its buffers and leaves that result |
| Config.JoinArgs | src/config.c:62-79 | the buffer is filled to its computed length with the words separated by single spaces and a terminator |
| Config.PathSurvives | src/config.c:122-131 | a plain path comes through escaping, word splitting and joining unchanged exactly when it is not empty, no space begins it and no lone space ends it |
| Config.WordsExist | src/config.c:62-65 | `join_args`, which demands a word, gets none exactly for an empty path and for a single space |
| Config.FailedExpansion | src/config.c:122-132 | where `wordexp` fails the escaped path is loaded: the original exactly if it has no two adjacent spaces |

## Left out

- Cairo drawing, text layout, fonts and `bg_render_image`: only which screen is chosen and which buffer is attached and committed is modelled.
- The Wayland transport, xkbcommon, PAM and `crypt`: events, keysyms and verdicts are arbitrary inputs. Events a compositor cannot send, such as a frame event for a frame not asked for, are skipped.
- `mlock`, page alignment, shared memory, `mmap`, `fork`, privilege dropping and the child side of `daemonize`: only contents, length and capacity of buffers, and whether going to the background failed.
- The two seconds the shadow child sleeps after a reply, and `pam_setcred`, `pam_end` and the exit status of the PAM child.
- Heap exhaustion in `loop_add_timer`, `sbuf_create`, `realloc` and the object creation of `create_surface` (main.c:118-134), which ends the process: allocation is assumed to succeed.
- Surfaces.Surface.GetIndicator: creation either succeeds or leaves the entry wiped; a cairo failure after the buffer was created (src/ctx.c:97-107) and byte sizes that wrap to zero are not modelled.
- Surfaces.Surface.Render: `width * scale` is unbounded, where the source multiplies in `int`; what a destroyed buffer looks like on screen is not modelled, only that it was destroyed while held.
- Deadlines.EstimateExactly: overflow of the `int` addition in src/loop.c:75, which the language leaves undefined, wraps around.
- EventLoop.Loop.AddTimer: an address is not given out again after it was freed, and seconds are unbounded.
- Session.Client.LoopPoll: what `poll` reports is taken as this turn's; after EINTR the source dispatches on whatever `revents` holds (src/loop.c:85-105), which the model covers only as some report.
- Lock.State.Handle: seats are records in a sequence of the state rather than separate heap objects, and timer nodes are entries of a table of addresses.
- Lock.State.SubmitPassword: `cancel_input_idle` is left out, because `input_idle_timer` is never armed.
- AuthProtocol.ConservedThroughout: runs with a failed write on the request pipe are not considered; what a failed write leaves in the pipe is stated by `Auth.WriteRequest`.
- Config.PathSurvives: word splitting is modelled, with the default field separators, for plain paths (`Plain`): variables, quotes, tildes, patterns and the characters `wordexp` refuses are not; nor is the split of the setting at its first colon.
- The command line, logging, the lines of the configuration file and colours. The manual lets a colour be given with six digits (dewlock.1.scd.tpl:76), and src/color.h:11-24 reads such a value without adding an alpha byte; colours are not modelled.
- Pointer handlers and other ignored callbacks: they do nothing with the lock's state.
- The number of dots drawn for a password (`set_password`, src/render.c:168-184) and its static counter.
- Bit masks and shifts of src/unicode.c are written as the quotients and remainders they are; `revents` masks are bit vectors.
