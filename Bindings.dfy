/** The fixed binding table of the translator: which synthesized actions each
    discrete controller event produces, and the properties of those action
    sequences (modifier nesting, one-for-one forwarding of mouse buttons). */
module Bindings {
  import opened Actions

  // Controller button and hat indices (Xbox layout as the host reports it).
  const ButtonA: int := 0
  const ButtonB: int := 1
  const ButtonY: int := 3
  const ButtonLB: int := 4
  const ButtonRB: int := 5
  const ButtonStart: int := 7
  const HatDpad: int := 0

  /** What a physical button is bound to: a momentary mouse button whose
      press and release follow the physical button, a key tap held under an
      ordered list of modifiers (outermost first), or nothing. */
  datatype Binding =
    | Click(mouse: MouseButton)
    | Chord(modifiers: seq<Key>, key: Key)
    | Unbound

  function BindingOf(button: int): (r: Binding)
    ensures r.Click? <==> button == ButtonA || button == ButtonB
    ensures r.Click? ==> ButtonFor(r.mouse) == button
    ensures r.Chord? ==> |r.modifiers| <= 2
  {
    if button == ButtonA then Click(LeftButton)
    else if button == ButtonB then Click(RightButton)
    else if button == ButtonLB then Chord([Alt], LeftArrow)
    else if button == ButtonRB then Chord([Alt], RightArrow)
    else if button == ButtonStart then Chord([Cmd, Ctrl], Char('o'))
    else if button == ButtonY then Chord([], Enter)
    else Unbound
  }

  /** The controller button whose binding clicks mouse button `m`. */
  function ButtonFor(m: MouseButton): int
  {
    match m
    case LeftButton => ButtonA
    case RightButton => ButtonB
  }

  function Tap(k: Key): seq<Action>
  {
    [KeyPress(k), KeyRelease(k)]
  }

  /** `inner` performed while every key of `modifiers` is held, each modifier
      acquired as a scoped hold: the first one outermost. */
  function Held(modifiers: seq<Key>, inner: seq<Action>): seq<Action>
    decreases |modifiers|
  {
    if modifiers == [] then inner
    else [KeyPress(modifiers[0])] + Held(modifiers[1..], inner) + [KeyRelease(modifiers[0])]
  }

  function PressActions(b: Binding): seq<Action>
  {
    match b
    case Click(m) => [MousePress(m)]
    case Chord(modifiers, k) => Held(modifiers, Tap(k))
    case Unbound => []
  }

  /** Only momentary bindings react to the button coming back up. */
  function ReleaseActions(b: Binding): seq<Action>
  {
    match b
    case Click(m) => [MouseRelease(m)]
    case _ => []
  }

  function HatXActions(x: int): seq<Action>
  {
    if x == -1 then Tap(LeftArrow) else if x == 1 then Tap(RightArrow) else []
  }

  function HatYActions(y: int): seq<Action>
  {
    if y == 1 then Tap(UpArrow) else if y == -1 then Tap(DownArrow) else []
  }

  /** The actions one discrete event produces. */
  function EventActions(e: Event): (r: seq<Action>)
    ensures e.Quit? || e.Other? ==> r == []
    ensures e.ButtonUp? ==> forall a | a in r :: a.MouseRelease?
    ensures e.HatMotion? ==> forall a | a in r :: a.KeyPress? || a.KeyRelease?
  {
    match e
    case ButtonDown(b) => PressActions(BindingOf(b))
    case ButtonUp(b) => ReleaseActions(BindingOf(b))
    case HatMotion(h, x, y) => if h == HatDpad then HatXActions(x) + HatYActions(y) else []
    case _ => []
  }

  /** The actions produced by draining a queue of events, in arrival order. */
  function DrainActions(events: seq<Event>): (r: seq<Action>)
    ensures (forall i | 0 <= i < |events| :: events[i].Quit? || events[i].Other?) ==> r == []
  {
    if events == [] then []
    else DrainActions(events[..|events| - 1]) + EventActions(events[|events| - 1])
  }

  // ---------------------------------------------------------------------
  // Key nesting: every key pressed is released, innermost first.

  /** The keys still held after `acts`, starting with `held` (last element
      innermost), or None when a key is released that is not the innermost
      held one. Mouse actions do not touch the keyboard. */
  function Unwind(acts: seq<Action>, held: seq<Key>): Option<seq<Key>>
    decreases |acts|
  {
    if acts == [] then Some(held)
    else match acts[0]
      case KeyPress(k) => Unwind(acts[1..], held + [k])
      case KeyRelease(k) =>
        if |held| > 0 && held[|held| - 1] == k then Unwind(acts[1..], held[..|held| - 1]) else None
      case _ => Unwind(acts[1..], held)
  }

  /** Every key pressed in `acts` is released there, in reverse order of
      pressing, and nothing is released that was not pressed. */
  predicate Nested(acts: seq<Action>)
  {
    Unwind(acts, []) == Some([])
  }

  lemma {:induction false} UnwindAppend(a: seq<Action>, b: seq<Action>, held: seq<Key>)
    ensures Unwind(a + b, held) == match Unwind(a, held)
                                   case None => None
                                   case Some(h) => Unwind(b, h)
    decreases |a|
  {
    if a == [] {
      assert a + b == b;
    } else {
      assert (a + b)[0] == a[0];
      assert (a + b)[1..] == a[1..] + b;
      match a[0]
      case KeyPress(k) => UnwindAppend(a[1..], b, held + [k]);
      case KeyRelease(k) =>
        if |held| > 0 && held[|held| - 1] == k {
          UnwindAppend(a[1..], b, held[..|held| - 1]);
        }
      case _ => UnwindAppend(a[1..], b, held);
    }
  }

  lemma TapNested(k: Key, held: seq<Key>)
    ensures Unwind(Tap(k), held) == Some(held)
  {
    var t, h := Tap(k), held + [k];
    assert t[0] == KeyPress(k) && t[1..] == [KeyRelease(k)];
    assert Unwind(t, held) == Unwind([KeyRelease(k)], h);
    assert h[|h| - 1] == k && h[..|h| - 1] == held;
    assert [KeyRelease(k)][1..] == [];
    assert Unwind([KeyRelease(k)], h) == Unwind([], held);
  }

  /** A tap held under any list of modifiers leaves the keyboard as it found
      it: the modifiers are released in reverse acquisition order. */
  lemma {:induction false} HeldTapNested(modifiers: seq<Key>, k: Key, held: seq<Key>)
    ensures Unwind(Held(modifiers, Tap(k)), held) == Some(held)
    decreases |modifiers|
  {
    if modifiers == [] {
      TapNested(k, held);
    } else {
      var m := modifiers[0];
      var inner := Held(modifiers[1..], Tap(k));
      UnwindAppend([KeyPress(m)] + inner, [KeyRelease(m)], held);
      UnwindAppend([KeyPress(m)], inner, held);
      HeldTapNested(modifiers[1..], k, held + [m]);
      assert (held + [m])[..|held|] == held;
    }
  }

  lemma {:induction false} EventNested(e: Event, held: seq<Key>)
    ensures Unwind(EventActions(e), held) == Some(held)
  {
    match e
    case ButtonDown(b) =>
      match BindingOf(b) {
        case Chord(modifiers, k) => HeldTapNested(modifiers, k, held);
        case _ =>
      }
    case HatMotion(h, x, y) =>
      if h == HatDpad {
        UnwindAppend(HatXActions(x), HatYActions(y), held);
        if x == -1 { TapNested(LeftArrow, held); } else if x == 1 { TapNested(RightArrow, held); }
        if y == 1 { TapNested(UpArrow, held); } else if y == -1 { TapNested(DownArrow, held); }
      }
    case _ =>
  }

  /** Draining any queue of events leaves no key held: every synthesized key
      press is matched by a release, innermost modifier first. */
  lemma {:induction false} DrainNested(events: seq<Event>)
    ensures Nested(DrainActions(events))
    decreases |events|
  {
    if events != [] {
      var init, last := events[..|events| - 1], events[|events| - 1];
      assert events == init + [last];
      DrainSnoc(init, last);
      DrainNested(init);
      UnwindAppend(DrainActions(init), EventActions(last), []);
      EventNested(last, []);
    }
  }

  // ---------------------------------------------------------------------
  // Draining is compositional; a Quit event does not cut the drain short.

  lemma DrainSnoc(events: seq<Event>, e: Event)
    ensures DrainActions(events + [e]) == DrainActions(events) + EventActions(e)
  {
    assert (events + [e])[..|events|] == events;
  }

  lemma {:induction false} DrainAppend(a: seq<Event>, b: seq<Event>)
    ensures DrainActions(a + b) == DrainActions(a) + DrainActions(b)
    decreases |b|
  {
    if b == [] {
      assert a + b == a;
    } else {
      var init, last := b[..|b| - 1], b[|b| - 1];
      assert b == init + [last];
      calc {
        DrainActions(a + b);
        { assert a + b == (a + init) + [last]; }
        DrainActions((a + init) + [last]);
        { DrainSnoc(a + init, last); }
        DrainActions(a + init) + EventActions(last);
        { DrainAppend(a, init); }
        (DrainActions(a) + DrainActions(init)) + EventActions(last);
        { ConcatAssoc(DrainActions(a), DrainActions(init), EventActions(last)); }
        DrainActions(a) + (DrainActions(init) + EventActions(last));
        { DrainSnoc(init, last); }
        DrainActions(a) + DrainActions(b);
      }
    }
  }

  /** A Quit in the middle of a queue produces nothing itself and the events
      behind it are still translated. */
  lemma QuitDoesNotStopDrain(before: seq<Event>, after: seq<Event>)
    ensures DrainActions(before + [Quit] + after) == DrainActions(before) + DrainActions(after)
  {
    DrainAppend(before + [Quit], after);
    DrainSnoc(before, Quit);
  }

  // ---------------------------------------------------------------------
  // Mouse buttons are forwarded one-for-one; moves never come from events.

  lemma {:induction false} HeldTapHasNoMouse(modifiers: seq<Key>, k: Key)
    ensures forall a | a in Held(modifiers, Tap(k)) :: a.KeyPress? || a.KeyRelease?
    decreases |modifiers|
  {
    if modifiers != [] {
      HeldTapHasNoMouse(modifiers[1..], k);
    }
  }

  lemma BindingClicks(b: int, m: MouseButton)
    ensures BindingOf(b) == Click(m) <==> b == ButtonFor(m)
  {
  }

  /** Only the keys of a binding's press sequence are not mouse actions. */
  lemma PressMouseActions(b: int, m: MouseButton)
    ensures multiset(PressActions(BindingOf(b)))[MousePress(m)] == if b == ButtonFor(m) then 1 else 0
    ensures MouseRelease(m) !in PressActions(BindingOf(b))
    ensures forall a | a in PressActions(BindingOf(b)) :: !a.MouseMove?
  {
    BindingClicks(b, m);
    match BindingOf(b) {
      case Click(m') =>
      case Chord(modifiers, k) =>
        HeldTapHasNoMouse(modifiers, k);
        assert MousePress(m) !in Held(modifiers, Tap(k));
      case Unbound =>
    }
  }

  lemma HatHasNoMouse(x: int, y: int)
    ensures forall a | a in HatXActions(x) + HatYActions(y) :: a.KeyPress? || a.KeyRelease?
  {
  }

  lemma EventMouseActions(e: Event, m: MouseButton)
    ensures multiset(EventActions(e))[MousePress(m)] == if e == ButtonDown(ButtonFor(m)) then 1 else 0
    ensures multiset(EventActions(e))[MouseRelease(m)] == if e == ButtonUp(ButtonFor(m)) then 1 else 0
    ensures forall a | a in EventActions(e) :: !a.MouseMove?
  {
    match e {
      case ButtonDown(b) =>
        PressMouseActions(b, m);
      case ButtonUp(b) =>
        BindingClicks(b, m);
      case HatMotion(h, x, y) =>
        HatHasNoMouse(x, y);
        assert MousePress(m) !in EventActions(e);
        assert MouseRelease(m) !in EventActions(e);
      case _ =>
    }
  }

  /** Every button-down of A (B) becomes exactly one left (right) mouse
      press and every button-up exactly one release; the translator adds
      no pairing of its own, and no event produces a mouse move. */
  lemma {:induction false} DrainForwardsMouseButtons(events: seq<Event>, m: MouseButton)
    ensures multiset(DrainActions(events))[MousePress(m)] == multiset(events)[ButtonDown(ButtonFor(m))]
    ensures multiset(DrainActions(events))[MouseRelease(m)] == multiset(events)[ButtonUp(ButtonFor(m))]
    ensures forall a | a in DrainActions(events) :: !a.MouseMove?
    decreases |events|
  {
    if events != [] {
      var init, last := events[..|events| - 1], events[|events| - 1];
      assert events == init + [last];
      DrainSnoc(init, last);
      DrainForwardsMouseButtons(init, m);
      EventMouseActions(last, m);
    }
  }

  // ---------------------------------------------------------------------
  // The table, event by event.

  /** The exact sequences a button-down produces. */
  lemma ButtonDownSequences(b: int)
    ensures EventActions(ButtonDown(ButtonA)) == [MousePress(LeftButton)]
    ensures EventActions(ButtonDown(ButtonB)) == [MousePress(RightButton)]
    ensures EventActions(ButtonDown(ButtonLB))
         == [KeyPress(Alt), KeyPress(LeftArrow), KeyRelease(LeftArrow), KeyRelease(Alt)]
    ensures EventActions(ButtonDown(ButtonRB))
         == [KeyPress(Alt), KeyPress(RightArrow), KeyRelease(RightArrow), KeyRelease(Alt)]
    ensures EventActions(ButtonDown(ButtonStart))
         == [KeyPress(Cmd), KeyPress(Ctrl), KeyPress(Char('o')),
             KeyRelease(Char('o')), KeyRelease(Ctrl), KeyRelease(Cmd)]
    ensures EventActions(ButtonDown(ButtonY)) == [KeyPress(Enter), KeyRelease(Enter)]
    ensures b !in {ButtonA, ButtonB, ButtonY, ButtonLB, ButtonRB, ButtonStart}
            ==> EventActions(ButtonDown(b)) == []
  {
    assert [Cmd, Ctrl][1..] == [Ctrl];
  }

  /** Only A and B react to being released; LB, RB, Start, Y and unmapped
      buttons produce nothing on button-up. */
  lemma ButtonUpSequences(b: int)
    ensures EventActions(ButtonUp(ButtonA)) == [MouseRelease(LeftButton)]
    ensures EventActions(ButtonUp(ButtonB)) == [MouseRelease(RightButton)]
    ensures b != ButtonA && b != ButtonB ==> EventActions(ButtonUp(b)) == []
  {
  }

  /** A D-pad hat value produces at most two taps, the horizontal one first;
      a centred hat and every other hat produce nothing. */
  lemma HatSequences(h: int, x: int, y: int)
    ensures |EventActions(HatMotion(h, x, y))| <= 4
    ensures h != HatDpad ==> EventActions(HatMotion(h, x, y)) == []
    ensures x == 0 && y == 0 ==> EventActions(HatMotion(h, x, y)) == []
    ensures h == HatDpad && x == -1 && y == 1
            ==> EventActions(HatMotion(h, x, y)) == Tap(LeftArrow) + Tap(UpArrow)
    ensures h == HatDpad && x == 1 && y == -1
            ==> EventActions(HatMotion(h, x, y)) == Tap(RightArrow) + Tap(DownArrow)
    ensures h == HatDpad && y == 0 && x == -1 ==> EventActions(HatMotion(h, x, y)) == Tap(LeftArrow)
    ensures h == HatDpad && x == 0 && y == -1 ==> EventActions(HatMotion(h, x, y)) == Tap(DownArrow)
  {
  }

  /** A down then up of A is a left press followed by a left release and
      nothing else. */
  lemma PrimaryClick()
    ensures DrainActions([ButtonDown(ButtonA), ButtonUp(ButtonA)])
         == [MousePress(LeftButton), MouseRelease(LeftButton)]
  {
    var events := [ButtonDown(ButtonA), ButtonUp(ButtonA)];
    assert events[..1] == [ButtonDown(ButtonA)];
    assert events[..1][..0] == [];
    assert DrainActions(events[..1]) == [MousePress(LeftButton)];
  }
}
