/** The vocabulary of the controller-to-mouse translator: the discrete events
    the controller's event queue delivers, and the synthesized mouse and
    keyboard actions the translator emits in their place. */
module Actions {

  datatype Option<T> = None | Some(value: T)

  /** The pointer buttons the translator presses and releases. */
  datatype MouseButton = LeftButton | RightButton

  /** The keyboard keys the translator synthesizes; `Char` is a plain
      character key such as 'o'. */
  datatype Key =
    | Alt
    | Cmd
    | Ctrl
    | Enter
    | LeftArrow
    | RightArrow
    | UpArrow
    | DownArrow
    | Char(c: char)

  /** One synthesized input event, in the order it is sent to the host. */
  datatype Action =
    | MousePress(button: MouseButton)
    | MouseRelease(button: MouseButton)
    | KeyPress(key: Key)
    | KeyRelease(key: Key)
    | MouseMove(dx: real, dy: real)

  /** One event of the controller's event queue. `Other` stands for every
      event type the main loop does not inspect (axis motion, ball motion,
      device added, ...). A hat value is the pair (x, y). */
  datatype Event =
    | Quit
    | ButtonDown(button: int)
    | ButtonUp(button: int)
    | HatMotion(hat: int, x: int, y: int)
    | Other

  /** Concatenation regroups freely; stated once so that proofs about long
      action streams need not rediscover it element by element. */
  lemma ConcatAssoc<T>(a: seq<T>, b: seq<T>, c: seq<T>)
    ensures (a + b) + c == a + (b + c)
  {
  }
}
