/** Properties of the translation engine across events, ticks and whole runs:
    what stops the loop, what the deadzone can reach, that the on-screen
    keyboard flag never influences what is synthesized, and what one tick's
    output looks like. */
module EngineProperties {
  import opened Actions
  import opened Bindings
  import opened Deadzone
  import opened Engine

  /** How many times the Start button went down in `events`. */
  function StartPresses(events: seq<Event>): nat
  {
    multiset(events)[ButtonDown(ButtonStart)]
  }

  /** A tick after which the loop does not run again: a Quit event, the
      adjustment window closed, or servicing the window failed. */
  predicate Stops(t: TickInput)
  {
    Quit in t.events || WindowClosed in t.ui || t.uiError
  }

  // ---------------------------------------------------------------------
  // The flags after a drain and after servicing the window.

  /** Draining clears `running` exactly when a Quit was among the events,
      flips `oskOpen` once per Start press, and leaves the deadzone alone. */
  lemma {:induction false} DrainFlags(s: State, events: seq<Event>)
    ensures AfterDrain(s, events)
         == State(s.running && Quit !in events,
                  s.oskOpen != (StartPresses(events) % 2 == 1),
                  s.deadzone)
    decreases |events|
  {
    if events != [] {
      var init, last := events[..|events| - 1], events[|events| - 1];
      assert events == init + [last];
      assert multiset(events) == multiset(init) + multiset([last]);
      DrainFlags(s, init);
    }
  }

  /** The window callbacks clear `running` exactly when the window was
      closed among them. */
  lemma {:induction false} CommandsRunning(s: State, cmds: seq<UiCommand>)
    ensures AfterCommands(s, cmds).running == (s.running && WindowClosed !in cmds)
    decreases |cmds|
  {
    if cmds != [] {
      var init, last := cmds[..|cmds| - 1], cmds[|cmds| - 1];
      assert cmds == init + [last];
      CommandsRunning(s, init);
    }
  }

  /** The window callbacks never look at `oskOpen`. */
  lemma {:induction false} CommandsIgnoreOsk(s: State, cmds: seq<UiCommand>, b: bool)
    ensures AfterCommands(s.(oskOpen := b), cmds) == AfterCommands(s, cmds).(oskOpen := b)
    decreases |cmds|
  {
    if cmds != [] {
      CommandsIgnoreOsk(s, cmds[..|cmds| - 1], b);
    }
  }

  /** Clicking Increase n times from an in-range deadzone reaches
      deadzone + n, capped at 50: further clicks at the cap change nothing. */
  lemma {:induction false} RepeatedIncrease(s: State, n: nat)
    requires InRange(s.deadzone)
    ensures AfterCommands(s, seq(n, _ => IncreaseClicked)).deadzone
         == if s.deadzone + n <= MaxDeadzone then s.deadzone + n else MaxDeadzone
  {
    if n > 0 {
      var cmds := seq(n, _ => IncreaseClicked);
      assert cmds[..n - 1] == seq(n - 1, _ => IncreaseClicked);
      RepeatedIncrease(s, n - 1);
    }
  }

  /** Clicking Decrease n times from an in-range deadzone reaches
      deadzone - n, floored at 0. */
  lemma {:induction false} RepeatedDecrease(s: State, n: nat)
    requires InRange(s.deadzone)
    ensures AfterCommands(s, seq(n, _ => DecreaseClicked)).deadzone
         == if s.deadzone - n >= MinDeadzone then s.deadzone - n else MinDeadzone
  {
    if n > 0 {
      var cmds := seq(n, _ => DecreaseClicked);
      assert cmds[..n - 1] == seq(n - 1, _ => DecreaseClicked);
      RepeatedDecrease(s, n - 1);
    }
  }

  // ---------------------------------------------------------------------
  // Ticks.

  /** The loop keeps running after a tick exactly when it was running and
      the tick saw no Quit, no window close and no window failure. */
  lemma TickRunning(s: State, t: TickInput)
    ensures AfterTick(s, t).running == (s.running && !Stops(t))
  {
    DrainFlags(s, t.events);
    CommandsRunning(AfterDrain(s, t.events), t.ui);
  }

  /** A tick's output never depends on `oskOpen`, and neither does anything
      of the next state but `oskOpen` itself. */
  lemma TickIgnoresOsk(s: State, t: TickInput, b: bool)
    ensures TickActions(s.(oskOpen := b), t) == TickActions(s, t)
    ensures AfterTick(s.(oskOpen := b), t).(oskOpen := false) == AfterTick(s, t).(oskOpen := false)
  {
    var s' := s.(oskOpen := b);
    DrainFlags(s, t.events);
    DrainFlags(s', t.events);
    var d, d' := AfterDrain(s, t.events), AfterDrain(s', t.events);
    assert d' == d.(oskOpen := d'.oskOpen);
    CommandsIgnoreOsk(d, t.ui, d'.oskOpen);
  }

  /** One tick's output: the drained events' actions, among which no mouse
      move; then one move, last, exactly when a filtered stick reading is
      nonzero. */
  lemma TickMovesOnceAtEnd(s: State, t: TickInput)
    ensures var r := TickActions(s, t);
            && (forall i | 0 <= i < |r| && r[i].MouseMove? :: i == |r| - 1)
            && ((|r| > 0 && r[|r| - 1].MouseMove?)
                <==> Filter(t.stickX, s.deadzone) != 0.0 || Filter(t.stickY, s.deadzone) != 0.0)
  {
    var d, a := DrainActions(t.events), AxisActions(t.stickX, t.stickY, s.deadzone);
    DrainForwardsMouseButtons(t.events, LeftButton);
    assert forall i | 0 <= i < |d| :: d[i] in d;
    var r := d + a;
    assert forall i | 0 <= i < |d| :: r[i] == d[i];
  }

  /** Over a tick, mouse presses and releases are exactly the A/B button
      downs and ups among its events. */
  lemma TickForwardsMouseButtons(s: State, t: TickInput, m: MouseButton)
    ensures multiset(TickActions(s, t))[MousePress(m)] == multiset(t.events)[ButtonDown(ButtonFor(m))]
    ensures multiset(TickActions(s, t))[MouseRelease(m)] == multiset(t.events)[ButtonUp(ButtonFor(m))]
  {
    DrainForwardsMouseButtons(t.events, m);
    var a := AxisActions(t.stickX, t.stickY, s.deadzone);
    assert MousePress(m) !in a && MouseRelease(m) !in a;
  }

  // ---------------------------------------------------------------------
  // Runs.

  /** Once a tick stops the loop, no later tick starts: the run behaves
      exactly as if the inputs ended with tick k, in its final state, in
      everything it synthesizes and in the ticks it starts. */
  lemma {:induction false} RunStopsAfter(s: State, ticks: seq<TickInput>, k: nat)
    requires k < |ticks| && Stops(ticks[k])
    ensures RunFrom(s, ticks) == RunFrom(s, ticks[..k + 1])
    ensures RunFrom(s, ticks).ticks <= k + 1
    decreases k
  {
    assert ticks[..k + 1][0] == ticks[0];
    assert ticks[..k + 1][1..] == ticks[1..][..k];
    if s.running {
      TickRunning(s, ticks[0]);
      if k > 0 {
        RunStopsAfter(AfterTick(s, ticks[0]), ticks[1..], k - 1);
      }
    }
  }

  /** Conversely, while no tick stops it, the loop runs every supplied tick. */
  lemma {:induction false} RunAllTicks(s: State, ticks: seq<TickInput>)
    requires s.running
    requires forall i | 0 <= i < |ticks| :: !Stops(ticks[i])
    ensures RunFrom(s, ticks).ticks == |ticks|
    ensures RunFrom(s, ticks).final.running
    decreases |ticks|
  {
    if ticks != [] {
      TickRunning(s, ticks[0]);
      RunAllTicks(AfterTick(s, ticks[0]), ticks[1..]);
    }
  }

  /** `oskOpen` is inert: two runs from states that differ only in it
      synthesize exactly the same actions over the same ticks. */
  lemma {:induction false} RunIgnoresOsk(s: State, ticks: seq<TickInput>, b: bool)
    ensures RunFrom(s.(oskOpen := b), ticks).out == RunFrom(s, ticks).out
    ensures RunFrom(s.(oskOpen := b), ticks).ticks == RunFrom(s, ticks).ticks
    ensures RunFrom(s.(oskOpen := b), ticks).final.(oskOpen := false)
         == RunFrom(s, ticks).final.(oskOpen := false)
    decreases |ticks|
  {
    if ticks != [] && s.running {
      var t := ticks[0];
      var next, next' := AfterTick(s, t), AfterTick(s.(oskOpen := b), t);
      TickIgnoresOsk(s, t, b);
      assert next' == next.(oskOpen := next'.oskOpen);
      RunIgnoresOsk(next, ticks[1..], next'.oskOpen);
    }
  }

  /** From the start-up state no run leaves the deadzone range [0.00, 0.50]. */
  lemma DeadzoneStaysInRange(ticks: seq<TickInput>)
    ensures InRange(RunFrom(Initial, ticks).final.deadzone)
  {
  }
}
