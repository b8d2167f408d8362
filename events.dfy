/** Values the XTest delivery backend works with: C++ integers, X11 key
    symbols and key codes, the slot an action comes from, and the synthetic
    events it hands to the XTest extension. */
module Events {

  datatype Option<+T> = None | Some(value: T)

  /** A C++ `int` (32 bits, two's complement). */
  type Int32 = x: int | -0x8000_0000 <= x < 0x8000_0000

  /** A C++ `unsigned int` (32 bits). */
  type UInt32 = x: int | 0 <= x < 0x1_0000_0000

  /** An X11 `KeyCode`: an unsigned char; 0 means the symbol has no key. */
  type KeyCode = x: int | 0 <= x < 0x100

  /** An X11 key symbol. */
  type Keysym = int

  // Key symbols of the left modifier keys, as X11's keysymdef.h defines them.
  const XK_Shift_L: Keysym := 0xffe1
  const XK_Control_L: Keysym := 0xffe3
  const XK_Meta_L: Keysym := 0xffe7
  const XK_Alt_L: Keysym := 0xffe9

  /** The kind of action a button slot performs: the two modes this backend
      tests for, and every other mode, which it ignores. */
  datatype SlotMode = Keyboard | MouseButton | Other

  /** A button slot: its mode and its code (a key symbol or a button index). */
  datatype Slot = Slot(mode: SlotMode, code: Int32)

  /** One call into the XTest extension, or a flush of the display. */
  datatype Event =
    | KeyEv(keycode: KeyCode, pressed: bool)
    | ButtonEv(button: UInt32, pressed: bool)
    | RelMotion(dx: Int32, dy: Int32)
    | AbsMotion(screen: Int32, x: Int32, y: Int32)
    | Flush

  /** `static_cast<unsigned int>` of an `int`: the same bits read as unsigned. */
  function AsUnsigned(x: Int32): (r: UInt32)
    ensures x >= 0 ==> r == x
    ensures x < 0 ==> r == x + 0x1_0000_0000
    ensures r % 0x1_0000_0000 == x % 0x1_0000_0000
  {
    x % 0x1_0000_0000
  }

  /** What one keyboard slot event emits. */
  function KeyboardEvents(keycodeOf: Keysym -> KeyCode, slot: Slot, pressed: bool): (r: seq<Event>)
    ensures r != [] <==> slot.mode == Keyboard && keycodeOf(slot.code) > 0
    ensures r != [] ==> r == [KeyEv(keycodeOf(slot.code), pressed), Flush]
    ensures forall e | e in r :: e == Flush || (e.KeyEv? && e.keycode != 0)
  {
    if slot.mode == Keyboard then
      var tempcode := keycodeOf(slot.code);
      if tempcode > 0 then [KeyEv(tempcode, pressed), Flush] else []
    else
      []
  }

  /** What one mouse-button slot event emits. */
  function MouseButtonEvents(slot: Slot, pressed: bool): (r: seq<Event>)
    ensures r != [] <==> slot.mode == MouseButton
    ensures r != [] ==> r == [ButtonEv(AsUnsigned(slot.code), pressed), Flush]
    ensures forall e | e in r :: !e.KeyEv?
  {
    if slot.mode == MouseButton then [ButtonEv(AsUnsigned(slot.code), pressed), Flush] else []
  }

  /** A non-negative slot code reaches XTest as the very same button number. */
  lemma MouseButtonPassesCodeThrough(slot: Slot, pressed: bool)
    requires slot.mode == MouseButton && slot.code >= 0
    ensures MouseButtonEvents(slot, pressed) == [ButtonEv(slot.code, pressed), Flush]
  {
  }

  /** Concatenation regroups freely (stated for the solver, which does not
      apply it on its own in long event traces). */
  lemma AppendAssoc<T>(a: seq<T>, b: seq<T>, c: seq<T>)
    ensures (a + b) + c == a + (b + c)
  {
  }

  lemma SegmentAssoc<T>(start: seq<T>, a: seq<T>, b: seq<T>, c: seq<T>, d: seq<T>)
    ensures start + a + b + c + d == start + (a + b + c + d)
  {
  }

  /** The stack of outstanding presses after `evs`, starting from `held`
      (the most recent press last), or None when a release is not of the
      most recent outstanding press. A key pressed twice is on the stack
      twice and must be released twice. */
  function Held(held: seq<KeyCode>, evs: seq<Event>): Option<seq<KeyCode>>
    decreases |evs|
  {
    if evs == [] then Some(held)
    else match evs[0]
      case KeyEv(c, pressed) =>
        if pressed then Held(held + [c], evs[1..])
        else if held != [] && held[|held| - 1] == c then Held(held[..|held| - 1], evs[1..])
        else None
      case _ => Held(held, evs[1..])
  }

  /** Running `a` then `b` is running `b` from where `a` left off. */
  lemma {:induction false} HeldAppend(held: seq<KeyCode>, a: seq<Event>, b: seq<Event>)
    ensures Held(held, a + b) == match Held(held, a) case None => None case Some(h) => Held(h, b)
    decreases |a|
  {
    if a == [] {
      assert a + b == b;
    } else {
      assert (a + b)[0] == a[0];
      assert (a + b)[1..] == a[1..] + b;
      match a[0]
      case KeyEv(c, pressed) =>
        if pressed {
          HeldAppend(held + [c], a[1..], b);
        } else if held != [] && held[|held| - 1] == c {
          HeldAppend(held[..|held| - 1], a[1..], b);
        }
      case RelMotion(_, _) => HeldAppend(held, a[1..], b);
      case AbsMotion(_, _, _) => HeldAppend(held, a[1..], b);
      case ButtonEv(_, _) => HeldAppend(held, a[1..], b);
      case Flush => HeldAppend(held, a[1..], b);
    }
  }

  /** Events that are not key events never change which keys are held. */
  lemma {:induction false} NonKeyEventsKeepHeld(held: seq<KeyCode>, evs: seq<Event>)
    requires forall e | e in evs :: !e.KeyEv?
    ensures Held(held, evs) == Some(held)
    decreases |evs|
  {
    if evs != [] {
      assert evs[0] in evs;
      forall e | e in evs[1..] ensures !e.KeyEv? {
        assert e in evs;
      }
      NonKeyEventsKeepHeld(held, evs[1..]);
    }
  }

  /** Pressing and then releasing one keyboard slot leaves the held keys as
      they were: either both halves emit, or neither does. */
  lemma KeyTapKeepsHeld(keycodeOf: Keysym -> KeyCode, slot: Slot, held: seq<KeyCode>)
    ensures Held(held, KeyboardEvents(keycodeOf, slot, true) + KeyboardEvents(keycodeOf, slot, false)) == Some(held)
    ensures |KeyboardEvents(keycodeOf, slot, true) + KeyboardEvents(keycodeOf, slot, false)| in {0, 4}
  {
    var evs := KeyboardEvents(keycodeOf, slot, true) + KeyboardEvents(keycodeOf, slot, false);
    if evs != [] {
      var c := keycodeOf(slot.code);
      assert evs == [KeyEv(c, true), Flush, KeyEv(c, false), Flush];
      assert evs[1..] == [Flush, KeyEv(c, false), Flush];
      assert evs[2..] == [KeyEv(c, false), Flush];
      assert evs[3..] == [Flush];
      assert (held + [c])[..|held + [c]| - 1] == held;
      calc {
        Held(held, evs);
        Held(held + [c], evs[1..]);
        Held(held + [c], evs[2..]);
        Held(held, evs[3..]);
        Some(held);
      }
    }
  }

  /** Mouse-button and motion events never press or release a key. */
  lemma PointerEventsKeepHeld(slot: Slot, pressed: bool, dx: Int32, dy: Int32, screen: Int32, x: Int32, y: Int32, held: seq<KeyCode>)
    ensures Held(held, MouseButtonEvents(slot, pressed)) == Some(held)
    ensures Held(held, [RelMotion(dx, dy), Flush]) == Some(held)
    ensures Held(held, [AbsMotion(screen, x, y), Flush]) == Some(held)
  {
    NonKeyEventsKeepHeld(held, MouseButtonEvents(slot, pressed));
    NonKeyEventsKeepHeld(held, [RelMotion(dx, dy), Flush]);
    NonKeyEventsKeepHeld(held, [AbsMotion(screen, x, y), Flush]);
  }
}
