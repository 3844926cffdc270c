/** The translation engine: the `while running` polling loop with its shared
    flags, the deadzone store the adjustment window updates, and the
    synthesized-action stream it produces.

    Each tick drains the controller's pending events in arrival order, then
    reads the left stick and moves the mouse, then services the adjustment
    window (whose button callbacks change the deadzone and whose close
    handler clears `running`). The pure functions below give the meaning of
    one event, one tick and a whole run; the class `Controller` is the loop
    itself, written as the source writes it, and proved against them. */
module Engine {
  import opened Actions
  import opened Bindings
  import opened Deadzone

  /** The loop's mutable globals: the running flag, the on-screen-keyboard
      flag (toggled for information only) and the deadzone in hundredths. */
  datatype State = State(running: bool, oskOpen: bool, deadzone: int)

  const Initial: State := State(true, false, DefaultDeadzone)

  /** A callback the adjustment window runs while it is serviced. */
  datatype UiCommand = IncreaseClicked | DecreaseClicked | WindowClosed

  /** What the outside world supplies to one tick: the pending controller
      events, the two left-stick readings (axes 0 and 1), the window
      callbacks that fire while the window is serviced, and whether
      servicing the window failed. */
  datatype TickInput = TickInput(
    events: seq<Event>,
    stickX: real,
    stickY: real,
    ui: seq<UiCommand>,
    uiError: bool)

  /** The effect of one discrete event on the flags: Quit clears `running`,
      a Start press flips `oskOpen`, nothing else touches them. */
  function AfterEvent(s: State, e: Event): (r: State)
    ensures r.running == (s.running && e != Quit)
    ensures r.oskOpen == (s.oskOpen != (e == ButtonDown(ButtonStart)))
    ensures r.deadzone == s.deadzone
  {
    match e
    case Quit => s.(running := false)
    case ButtonDown(b) => if b == ButtonStart then s.(oskOpen := !s.oskOpen) else s
    case _ => s
  }

  /** The flags after draining `events` in arrival order. */
  function AfterDrain(s: State, events: seq<Event>): (r: State)
    ensures r.deadzone == s.deadzone
    ensures r.running ==> s.running
  {
    if events == [] then s
    else AfterEvent(AfterDrain(s, events[..|events| - 1]), events[|events| - 1])
  }

  /** One window callback: the buttons step the deadzone within its range,
      the close handler clears `running`. */
  function AfterCommand(s: State, c: UiCommand): (r: State)
    ensures InRange(s.deadzone) ==> InRange(r.deadzone)
    ensures r.running == (s.running && c != WindowClosed)
    ensures r.oskOpen == s.oskOpen
  {
    match c
    case IncreaseClicked => s.(deadzone := Increase(s.deadzone))
    case DecreaseClicked => s.(deadzone := Decrease(s.deadzone))
    case WindowClosed => s.(running := false)
  }

  /** The state after the window callbacks `cmds`, in order: the deadzone
      never leaves its range and `running` never comes back. */
  function AfterCommands(s: State, cmds: seq<UiCommand>): (r: State)
    ensures InRange(s.deadzone) ==> InRange(r.deadzone)
    ensures r.running ==> s.running
    ensures r.oskOpen == s.oskOpen
  {
    if cmds == [] then s
    else AfterCommand(AfterCommands(s, cmds[..|cmds| - 1]), cmds[|cmds| - 1])
  }

  /** Servicing the window: its callbacks, then a failure stops the loop. */
  function AfterUi(s: State, cmds: seq<UiCommand>, uiError: bool): (r: State)
    ensures r.running ==> s.running && !uiError
    ensures r.oskOpen == s.oskOpen
    ensures InRange(s.deadzone) ==> InRange(r.deadzone)
  {
    var r := AfterCommands(s, cmds);
    if uiError then r.(running := false) else r
  }

  /** The state after one tick: drain, then service the window. */
  function AfterTick(s: State, t: TickInput): (r: State)
    ensures r.running ==> s.running
    ensures InRange(s.deadzone) ==> InRange(r.deadzone)
  {
    AfterUi(AfterDrain(s, t.events), t.ui, t.uiError)
  }

  /** The actions one tick synthesizes: the drained events' actions, then
      at most one mouse move computed with the deadzone in force. */
  function TickActions(s: State, t: TickInput): (r: seq<Action>)
    ensures DrainActions(t.events) <= r
    ensures |r| <= |DrainActions(t.events)| + 1
  {
    DrainActions(t.events) + AxisActions(t.stickX, t.stickY, s.deadzone)
  }

  /** The outcome of a run: the final state, everything synthesized, and
      how many ticks were started. */
  datatype Outcome = Outcome(final: State, out: seq<Action>, ticks: nat)

  /** The `while running` loop over the supplied tick inputs: a tick starts
      only while `running` holds. */
  function RunFrom(s: State, ticks: seq<TickInput>): (r: Outcome)
    ensures r.ticks <= |ticks|
    ensures r.ticks < |ticks| ==> !r.final.running
    ensures r.final.running ==> s.running
    ensures InRange(s.deadzone) ==> InRange(r.final.deadzone)
    decreases |ticks|
  {
    if ticks == [] || !s.running then Outcome(s, [], 0)
    else
      var rest := RunFrom(AfterTick(s, ticks[0]), ticks[1..]);
      Outcome(rest.final, TickActions(s, ticks[0]) + rest.out, rest.ticks + 1)
  }

  // One more element of a prefix, packaged for the loops below.

  lemma DrainStep(s: State, before: seq<Action>, events: seq<Event>, i: nat)
    requires i < |events|
    ensures AfterDrain(s, events[..i + 1]) == AfterEvent(AfterDrain(s, events[..i]), events[i])
    ensures before + DrainActions(events[..i + 1]) == (before + DrainActions(events[..i])) + EventActions(events[i])
  {
    assert events[..i + 1] == events[..i] + [events[i]];
    assert (events[..i] + [events[i]])[..i] == events[..i];
    DrainSnoc(events[..i], events[i]);
    ConcatAssoc(before, DrainActions(events[..i]), EventActions(events[i]));
  }

  lemma CommandsStep(s: State, cmds: seq<UiCommand>, i: nat)
    requires i < |cmds|
    ensures AfterCommands(s, cmds[..i + 1]) == AfterCommand(AfterCommands(s, cmds[..i]), cmds[i])
  {
    assert cmds[..i + 1][..i] == cmds[..i];
  }

  /** The main loop's globals and the stream of synthesized actions. */
  class Controller {
    var running: bool
    var oskOpen: bool
    var deadzone: int
    /** Every action synthesized so far, oldest first. */
    var emitted: seq<Action>

    ghost predicate Valid()
      reads this
    {
      InRange(deadzone)
    }

    function Snapshot(): State
      reads this
    {
      State(running, oskOpen, deadzone)
    }

    /** The state when the loop is entered: running, keyboard closed, the
        default deadzone, nothing synthesized yet. */
    constructor ()
      ensures Valid()
      ensures Snapshot() == Initial && emitted == []
    {
      running := true;
      oskOpen := false;
      deadzone := DefaultDeadzone;
      emitted := [];
    }

    /** Send one synthesized input event to the host. */
    method Emit(a: Action)
      modifies this`emitted
      ensures emitted == old(emitted) + [a]
    {
      emitted := emitted + [a];
    }

    method TapKey(k: Key)
      modifies this`emitted
      ensures emitted == old(emitted) + Tap(k)
    {
      Emit(KeyPress(k));
      Emit(KeyRelease(k));
    }

    /** One pass of the event loop's body for event `e`. */
    method HandleEvent(e: Event)
      modifies this`running, this`oskOpen, this`emitted
      ensures Snapshot() == AfterEvent(old(Snapshot()), e)
      ensures emitted == old(emitted) + EventActions(e)
    {
      if e.Quit? {
        running := false;
      }
      if e.ButtonDown? {
        PressButton(e.button);
      }
      if e.ButtonUp? {
        ReleaseButton(e.button);
      }
      if e.HatMotion? {
        if e.hat == HatDpad {
          MoveHat(e.x, e.y);
        }
      }
    }

    /** A button went down: a mouse press, a key tap under its modifiers, or
        nothing for an unmapped button; Start also flips `oskOpen`. */
    method PressButton(b: int)
      modifies this`oskOpen, this`emitted
      ensures oskOpen == (old(oskOpen) != (b == ButtonStart))
      ensures emitted == old(emitted) + PressActions(BindingOf(b))
    {
      if b == ButtonA {
        Emit(MousePress(LeftButton));
      } else if b == ButtonB {
        Emit(MousePress(RightButton));
      } else if b == ButtonLB {
        Emit(KeyPress(Alt));
        TapKey(LeftArrow);
        Emit(KeyRelease(Alt));
      } else if b == ButtonRB {
        Emit(KeyPress(Alt));
        TapKey(RightArrow);
        Emit(KeyRelease(Alt));
      } else if b == ButtonStart {
        Emit(KeyPress(Cmd));
        Emit(KeyPress(Ctrl));
        TapKey(Char('o'));
        Emit(KeyRelease(Ctrl));
        Emit(KeyRelease(Cmd));
        oskOpen := !oskOpen;
        assert [Cmd, Ctrl][1..] == [Ctrl];
      } else if b == ButtonY {
        TapKey(Enter);
      }
    }

    /** A button came up: only the two mouse buttons are released. */
    method ReleaseButton(b: int)
      modifies this`emitted
      ensures emitted == old(emitted) + ReleaseActions(BindingOf(b))
    {
      if b == ButtonA {
        Emit(MouseRelease(LeftButton));
      } else if b == ButtonB {
        Emit(MouseRelease(RightButton));
      }
    }

    /** The D-pad moved to (hatX, hatY): a horizontal arrow tap, then a
        vertical one. */
    method MoveHat(hatX: int, hatY: int)
      modifies this`emitted
      ensures emitted == old(emitted) + HatXActions(hatX) + HatYActions(hatY)
    {
      if hatX == -1 {
        TapKey(LeftArrow);
      } else if hatX == 1 {
        TapKey(RightArrow);
      }
      if hatY == 1 {
        TapKey(UpArrow);
      } else if hatY == -1 {
        TapKey(DownArrow);
      }
    }

    /** Read the left stick, apply the current deadzone and move the mouse
        if anything survives. */
    method MoveMouse(stickX: real, stickY: real)
      modifies this`emitted
      ensures emitted == old(emitted) + AxisActions(stickX, stickY, deadzone)
    {
      var x, y := stickX, stickY;
      var currentDeadzone := Threshold(deadzone);
      if Abs(x) < currentDeadzone {
        x := 0.0;
      }
      if Abs(y) < currentDeadzone {
        y := 0.0;
      }
      var moveX := x * MouseSpeed as real;
      var moveY := y * MouseSpeed as real;
      if moveX != 0.0 || moveY != 0.0 {
        Emit(MouseMove(moveX, moveY));
      }
    }

    method IncreaseDeadzone()
      modifies this`deadzone
      ensures deadzone == Increase(old(deadzone))
    {
      var newDeadzone := deadzone + 1;
      if newDeadzone <= MaxDeadzone {
        deadzone := newDeadzone;
      }
    }

    method DecreaseDeadzone()
      modifies this`deadzone
      ensures deadzone == Decrease(old(deadzone))
    {
      var newDeadzone := deadzone - 1;
      if newDeadzone >= MinDeadzone {
        deadzone := newDeadzone;
      }
    }

    /** The adjustment window's close handler. */
    method CloseWindow()
      modifies this`running
      ensures !running
    {
      running := false;
    }

    /** Service the adjustment window: run its pending callbacks in order;
        a failure while servicing stops the loop. */
    method UpdateUi(cmds: seq<UiCommand>, uiError: bool)
      modifies this`running, this`deadzone
      ensures Snapshot() == AfterUi(old(Snapshot()), cmds, uiError)
    {
      ghost var s0 := Snapshot();
      for i := 0 to |cmds|
        invariant Snapshot() == AfterCommands(s0, cmds[..i])
      {
        CommandsStep(s0, cmds, i);
        match cmds[i] {
          case IncreaseClicked => IncreaseDeadzone();
          case DecreaseClicked => DecreaseDeadzone();
          case WindowClosed => CloseWindow();
        }
      }
      assert cmds[..|cmds|] == cmds;
      if uiError {
        running := false;
      }
    }

    /** The `for event in pygame.event.get()` loop: every pending event, in
        arrival order. */
    method Drain(events: seq<Event>)
      modifies this`running, this`oskOpen, this`emitted
      ensures Snapshot() == AfterDrain(old(Snapshot()), events)
      ensures emitted == old(emitted) + DrainActions(events)
    {
      ghost var s0, e0 := Snapshot(), emitted;
      for i := 0 to |events|
        invariant Snapshot() == AfterDrain(s0, events[..i])
        invariant emitted == e0 + DrainActions(events[..i])
      {
        DrainStep(s0, e0, events, i);
        HandleEvent(events[i]);
      }
      assert events[..|events|] == events;
    }

    /** One iteration of the `while running` loop. */
    method Tick(t: TickInput)
      requires Valid()
      modifies this
      ensures Valid()
      ensures Snapshot() == AfterTick(old(Snapshot()), t)
      ensures emitted == old(emitted) + TickActions(old(Snapshot()), t)
    {
      ghost var e0 := emitted;
      Drain(t.events);
      ConcatAssoc(e0, DrainActions(t.events), AxisActions(t.stickX, t.stickY, deadzone));
      MoveMouse(t.stickX, t.stickY);
      UpdateUi(t.ui, t.uiError);
    }

    /** The main loop, fed with the inputs of successive ticks; returns how
        many ticks it started. It stops as soon as `running` is false at a
        tick boundary (or the supplied inputs run out). */
    method Run(ticks: seq<TickInput>) returns (n: nat)
      requires Valid()
      modifies this
      ensures Valid()
      ensures Snapshot() == RunFrom(old(Snapshot()), ticks).final
      ensures emitted == old(emitted) + RunFrom(old(Snapshot()), ticks).out
      ensures n == RunFrom(old(Snapshot()), ticks).ticks
    {
      ghost var whole := RunFrom(Snapshot(), ticks);
      n := 0;
      while running && n < |ticks|
        invariant Valid()
        invariant n <= |ticks|
        invariant RunFrom(Snapshot(), ticks[n..]).final == whole.final
        invariant emitted + RunFrom(Snapshot(), ticks[n..]).out == old(emitted) + whole.out
        invariant n + RunFrom(Snapshot(), ticks[n..]).ticks == whole.ticks
        decreases |ticks| - n
      {
        assert ticks[n..][1..] == ticks[n + 1..];
        ghost var s, before := Snapshot(), emitted;
        ghost var rest := RunFrom(AfterTick(s, ticks[n]), ticks[n + 1..]);
        Tick(ticks[n]);
        ConcatAssoc(before, TickActions(s, ticks[n]), rest.out);
        n := n + 1;
      }
    }
  }
}
