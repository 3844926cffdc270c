# Controller-to-mouse translator, modelled in Dafny

`controllerMouse.py` turns an Xbox-style game controller into a mouse and
keyboard. Its core is the `while running` main loop: each tick it drains the
controller's pending events (button down/up, D-pad hat motion, quit) and
answers each with synthesized mouse and key presses, then reads the left
stick, zeroes any axis inside the deadzone and moves the mouse by the
surviving readings times `MOUSE_SPEED` (15), then services the small
"Deadzone Adjustment" window, whose buttons step the deadzone by 0.01 within
[0.00, 0.50] and whose close button stops the loop.

The model:

- `Actions.dfy` — the events the loop reads and the actions it synthesizes
  (`MousePress`, `MouseRelease`, `KeyPress`, `KeyRelease`, `MouseMove`).
- `Bindings.dfy` — the fixed binding table (A → left click, B → right click,
  LB/RB → Alt+Left/Alt+Right, Start → Win+Ctrl+O, Y → Enter, D-pad → arrow
  taps) as the pure function `EventActions`, with the drain of a whole event
  queue (`DrainActions`) and its properties: modifier holds nest and unwind
  in reverse order, mouse buttons are forwarded one-for-one, a Quit does not
  cut the drain short.
- `Deadzone.dfy` — the deadzone in integer hundredths (start 10, range
  0..50), the two adjustment callbacks, the stick filter and the mouse move.
- `Engine.dfy` — the loop's globals (`running`, `osk_open`, the deadzone)
  as the pure `State`, the meaning of one event, one tick and a whole run as
  functions, and the class `Controller`: the loop itself written as the
  source writes it (the event `for` loop, the in-place filtering of the
  stick readings, the guarded deadzone updates, the `while running` loop),
  each method proved against those functions.
- `EngineProperties.dfy` — what stops the loop, how far repeated clicks move
  the deadzone, that `osk_open` never influences any synthesized action, and
  the shape of one tick's output.

The deadzone is kept in hundredths because the callbacks only ever add or
subtract 0.01 and round to two decimals; a stick reading `v` is filtered
against `deadzone / 100`. Stick readings and mouse deltas are reals.

Three facts about the code that the model keeps exactly as written:

- A Quit does not end the tick: `running` is only cleared
  (controllerMouse.py:162-163); the rest of the queue is translated, the
  stick still moves the mouse and the window is still serviced in that tick;
  the loop then does not start another one. `QuitDoesNotStopDrain`,
  `TickRunning` and `RunStopsAfter` state this.
- The code enforces no pairing of mouse presses and releases; it forwards
  each button-down and button-up one-for-one, which is what
  `DrainForwardsMouseButtons` proves, and nothing more is claimed.
- D-pad taps fire on every hat-motion event that has a nonzero component,
  not only on transitions.

## Model

| member | source | states |
|---|---|---|
| Deadzone.Increase | controllerMouse.py:81-86 | the deadzone goes up by one hundredth exactly when the result is at most 0.50, otherwise it is unchanged; an in-range deadzone stays in range |
| Deadzone.Decrease | controllerMouse.py:93-98 | the deadzone goes down by one hundredth exactly when the result is at least 0.00, otherwise it is unchanged; an in-range deadzone stays in range |
| Deadzone.Filter | controllerMouse.py:241-246 | a filtered reading is 0 or the reading itself; it is the reading whenever its magnitude is at least the deadzone, and it is 0 exactly when the magnitude is below the deadzone (or the reading was 0) |
| Deadzone.AxisActions | controllerMouse.py:248-254 | at most one mouse move per tick, present exactly when a filtered component is nonzero, with deltas equal to the filtered readings times 15 |
| Deadzone.FilterKeepsBoundary | controllerMouse.py:243-246 | a reading exactly equal to the deadzone is kept |
| Deadzone.FilterMonotone | controllerMouse.py:243-246 | a reading that passes a larger deadzone passes any smaller one unchanged |
| Deadzone.SmallReadingSuppressed | controllerMouse.py:238-254 | stick (0.05, 0.00) at deadzone 0.10 moves nothing |
| Deadzone.ReadingScaled | controllerMouse.py:238-254 | stick (0.50, -0.20) at deadzone 0.10 moves by (7.5, -3.0) |
| Bindings.BindingOf | controllerMouse.py:166-200 | exactly A and B are mouse clicks, each clicking the mouse button bound back to it; a key binding holds at most two modifiers (the full table is `ButtonDownSequences`) |
| Bindings.EventActions | controllerMouse.py:162-233 | a Quit or an ignored event produces nothing, a button-up only mouse releases, a hat motion only key presses and releases (nesting: `EventNested`; mouse counts: `EventMouseActions`) |
| Bindings.DrainActions | controllerMouse.py:155 | a queue of only Quit and ignored events produces nothing (composition: `DrainAppend`; nesting: `DrainNested`; forwarding: `DrainForwardsMouseButtons`) |
| Bindings.ButtonDownSequences | controllerMouse.py:166-200 | A presses the left mouse button, B the right; LB is Alt held around a Left tap, RB Alt around a Right tap; Start is Cmd then Ctrl held around an 'o' tap, released Ctrl then Cmd; Y is an Enter tap; unmapped buttons produce nothing |
| Bindings.ButtonUpSequences | controllerMouse.py:203-210 | A and B release their mouse buttons; every other button-up produces nothing |
| Bindings.HatSequences | controllerMouse.py:213-233 | a hat event produces at most two taps, the horizontal one first; a centred hat or any hat other than the D-pad produces nothing; (-1, 1) is a Left tap then an Up tap |
| Bindings.PrimaryClick | controllerMouse.py:166-169 | A down then A up synthesizes a left press then a left release and nothing else |
| Bindings.HeldTapNested | controllerMouse.py:173-192 | a tap held under any list of modifiers leaves the keyboard as it found it, each modifier released after everything acquired inside it |
| Bindings.EventNested | controllerMouse.py:162-233 | the actions of any single event press no key they do not release, in reverse order of pressing |
| Bindings.DrainNested | controllerMouse.py:155-233 | draining any event queue leaves no key held and releases keys innermost first |
| Bindings.DrainAppend | controllerMouse.py:155 | draining two queues one after the other synthesizes the first queue's actions followed by the second's |
| Bindings.QuitDoesNotStopDrain | controllerMouse.py:162-163 | a Quit produces nothing itself and the events behind it in the queue are still translated |
| Bindings.EventMouseActions | controllerMouse.py:166-233 | one event produces a left (right) mouse press exactly when it is an A (B) button-down, a release exactly when it is an A (B) button-up, and never a mouse move |
| Bindings.DrainForwardsMouseButtons | controllerMouse.py:166-209 | over any queue, the number of left (right) mouse presses equals the number of A (B) button-downs and the number of releases the number of button-ups; no event produces a mouse move |
| Engine.AfterEvent | controllerMouse.py:162-191 | after one event `running` is cleared exactly by a Quit, `osk_open` flips exactly on a Start press, the deadzone is untouched (over a queue: `DrainFlags`) |
| Engine.AfterCommand | controllerMouse.py:81-110 | one window callback keeps the deadzone in range, clears `running` exactly when it is the close handler, and leaves `osk_open` alone |
| Engine.AfterUi | controllerMouse.py:257-262 | after servicing the window the loop runs only if it ran before and servicing did not fail; `osk_open` is unchanged and the deadzone stays in range (`CommandsRunning`) |
| Engine.AfterTick | controllerMouse.py:153-262 | a tick never restarts a stopped loop and keeps the deadzone in range (exact condition: `TickRunning`) |
| Engine.TickActions | controllerMouse.py:155-254 | a tick's output starts with the drained events' actions and adds at most one more action (that it is the single move: `TickMovesOnceAtEnd`) |
| Engine.AfterDrain | controllerMouse.py:155-163 | draining events never changes the deadzone and never sets `running` back to true |
| Engine.AfterCommands | controllerMouse.py:81-110 | the window callbacks keep the deadzone in [0, 50], never set `running` back to true and never touch `osk_open` |
| Engine.RunFrom | controllerMouse.py:151-153 | a run starts at most one tick per supplied input; if it stops early the loop is no longer running; a run that ends running began running; the deadzone stays in range |
| Engine.Controller.constructor | controllerMouse.py:45-53 | the loop starts running (`running = True`, line 151), with the keyboard flag false, deadzone 0.10 and nothing synthesized |
| Engine.Controller.HandleEvent | controllerMouse.py:162-233 | one event appends exactly the binding table's actions for it and updates the flags as `AfterEvent` says |
| Engine.Controller.PressButton | controllerMouse.py:166-200 | a button-down appends the press sequence of its binding; only Start flips `osk_open` |
| Engine.Controller.ReleaseButton | controllerMouse.py:204-210 | a button-up appends the release sequence of its binding |
| Engine.Controller.MoveHat | controllerMouse.py:216-233 | a D-pad value appends the horizontal tap, then the vertical tap |
| Engine.Controller.Drain | controllerMouse.py:155-233 | the event loop appends the drain's actions in arrival order and leaves the flags as `AfterDrain` says |
| Engine.Controller.MoveMouse | controllerMouse.py:238-254 | the in-place filtering of the stick readings appends exactly the move `AxisActions` prescribes for the current deadzone |
| Engine.Controller.IncreaseDeadzone | controllerMouse.py:81-86 | the guarded update leaves the deadzone at `Increase` of its old value |
| Engine.Controller.DecreaseDeadzone | controllerMouse.py:93-98 | the guarded update leaves the deadzone at `Decrease` of its old value |
| Engine.Controller.CloseWindow | controllerMouse.py:106-110 | closing the window clears `running` |
| Engine.Controller.UpdateUi | controllerMouse.py:257-262 | servicing the window runs its callbacks in order and a failure clears `running` |
| Engine.Controller.Tick | controllerMouse.py:153-265 | one tick keeps the deadzone in range, leaves the state `AfterTick` prescribes and appends the tick's actions |
| Engine.Controller.Run | controllerMouse.py:151-153 | the main loop ends in the final state of `RunFrom`, has appended exactly the run's actions and reports how many ticks it started |
| EngineProperties.DrainFlags | controllerMouse.py:162-191 | after a drain `running` is false exactly when a Quit was among the events, `osk_open` has flipped once per Start press, and the deadzone is unchanged |
| EngineProperties.CommandsRunning | controllerMouse.py:106-110 | the window callbacks clear `running` exactly when the window was closed among them |
| EngineProperties.CommandsIgnoreOsk | controllerMouse.py:81-110 | the window callbacks never read `osk_open` |
| EngineProperties.RepeatedIncrease | controllerMouse.py:81-86 | n increases from an in-range deadzone reach deadzone + n capped at 0.50; increases at the cap are no-ops |
| EngineProperties.RepeatedDecrease | controllerMouse.py:93-98 | n decreases from an in-range deadzone reach deadzone - n floored at 0.00 |
| EngineProperties.TickRunning | controllerMouse.py:153-262 | after a tick the loop is running exactly when it was and the tick saw no Quit, no window close and no window failure |
| EngineProperties.TickIgnoresOsk | controllerMouse.py:191-192 | a tick's actions and the rest of its next state do not depend on `osk_open` |
| EngineProperties.TickMovesOnceAtEnd | controllerMouse.py:236-254 | within a tick the only mouse move is the last action, present exactly when a filtered stick reading is nonzero |
| EngineProperties.TickForwardsMouseButtons | controllerMouse.py:166-209 | a tick's mouse presses and releases are exactly its A/B button-downs and button-ups |
| EngineProperties.RunStopsAfter | controllerMouse.py:151-163 | once a tick sees a Quit, a window close or a window failure, no later tick starts: the run has the same final state, the same synthesized actions and the same tick count as the run over the inputs up to that tick |
| EngineProperties.RunAllTicks | controllerMouse.py:151-153 | while no tick stops it, the loop runs every supplied tick and is still running |
| EngineProperties.RunIgnoresOsk | controllerMouse.py:191-215 | two runs whose states differ only in `osk_open` synthesize the same actions over the same ticks |
| EngineProperties.DeadzoneStaysInRange | controllerMouse.py:53-98 | from the start-up deadzone 0.10 no run leaves [0.00, 0.50] |

## Left out

- Controller discovery and the retry/cancel dialog (controllerMouse.py:116-145): blocking user interface and device I/O before the loop starts.
- Building the adjustment window, its label and the `trace_add` observer that refreshes it (controllerMouse.py:57-78, 101-113): user interface; only the callbacks' effect on the deadzone and on `running` is modelled.
- The pygame and pynput calls themselves: events, stick readings and window callbacks are inputs of each tick (`TickInput`), synthesized input events are appended to `emitted`.
- Floating point: `round(x ± 0.01, 2)` is modelled as an exact step of one hundredth, stick readings and mouse deltas as exact reals.
- Exceptions: a failure inside the Start chord (controllerMouse.py:185-195), which would skip the `osk_open` toggle, and the outer handler and cleanup (controllerMouse.py:267-274). `TclError` while servicing the window is modelled only as a flag that clears `running` after the serviced callbacks.
- `time.sleep(0.01)` and the console logging.
- The loop runs for as many ticks as inputs are supplied; a run that never stops is not modelled.
