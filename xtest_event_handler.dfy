/** The XTest delivery backend: each sender emits its events to the display
    through the XTest extension and flushes. The display is recorded as the
    `trace` of events it has received; the key resolver of the borrowed
    display (`XKeysymToKeycode`) and the character mapper are passed in. */
module XTestHandler {
  import opened Events
  import opened TextEntry

  /** Fixed human-readable name of the backend. */
  const Name: string := "XTest"

  /** Fixed machine identifier of the backend. */
  const Identifier: string := "xtest"

  /** ASCII lower-casing of one character. */
  function AsciiLower(c: char): char
  {
    if 'A' <= c <= 'Z' then (c as int + 32) as char else c
  }

  /** The backend's name is "XTest" and its identifier "xtest", the name
      in lower case. */
  lemma NameAndIdentifier()
    ensures Name == "XTest" && Identifier == "xtest"
    ensures |Identifier| == |Name|
    ensures forall i | 0 <= i < |Name| :: Identifier[i] == AsciiLower(Name[i])
  {
  }

  class XTestEventHandler {
    /** Every event handed to the display so far, oldest first. */
    var trace: seq<Event>

    constructor ()
      ensures trace == []
    {
      trace := [];
    }

    /** Presses or releases the key a keyboard slot names; any other slot,
        and a key symbol without a key code, emit nothing. */
    method SendKeyboardEvent(keycodeOf: Keysym -> KeyCode, slot: Slot, pressed: bool)
      modifies this
      ensures trace == old(trace) + KeyboardEvents(keycodeOf, slot, pressed)
    {
      var device := slot.mode;
      var code := slot.code;
      if device == Keyboard {
        var tempcode := keycodeOf(code);
        if tempcode > 0 {
          trace := trace + [KeyEv(tempcode, pressed)];
          trace := trace + [Flush];
        }
      }
    }

    /** Presses or releases the mouse button a mouse-button slot names. */
    method SendMouseButtonEvent(slot: Slot, pressed: bool)
      modifies this
      ensures trace == old(trace) + MouseButtonEvents(slot, pressed)
    {
      var device := slot.mode;
      var code := slot.code;
      if device == MouseButton {
        trace := trace + [ButtonEv(AsUnsigned(code), pressed)];
        trace := trace + [Flush];
      }
    }

    /** Moves the pointer by (xDis, yDis). */
    method SendMouseEvent(xDis: Int32, yDis: Int32)
      modifies this
      ensures trace == old(trace) + [RelMotion(xDis, yDis), Flush]
    {
      trace := trace + [RelMotion(xDis, yDis)];
      trace := trace + [Flush];
    }

    /** Moves the pointer to (xDis, yDis) on `screen`. */
    method SendMouseAbsEvent(xDis: Int32, yDis: Int32, screen: Int32)
      modifies this
      ensures trace == old(trace) + [AbsMotion(screen, xDis, yDis), Flush]
    {
      trace := trace + [AbsMotion(screen, xDis, yDis)];
      trace := trace + [Flush];
    }

    /** Spring-mode motion inside a width-by-height area: not supported by
        this backend, so nothing is emitted. */
    method SendMouseSpringEventInArea(xDis: Int32, yDis: Int32, width: Int32, height: Int32)
      ensures trace == old(trace)
    {
    }

    /** Spring-mode motion: not supported by this backend. */
    method SendMouseSpringEvent(xDis: Int32, yDis: Int32)
      ensures trace == old(trace)
    {
    }

    /** Emits nothing: this backend has no messages to report. */
    method PrintPostMessages()
      ensures trace == old(trace)
    {
    }

    /** When `tested`, presses the key of `key` and pushes its key code,
        whatever the code is, on the press list. */
    method AppendModifierCode(tested: bool, tempList: seq<KeyCode>, keycodeOf: Keysym -> KeyCode, key: Keysym)
      returns (list: seq<KeyCode>)
      modifies this
      ensures list == tempList + (if tested then [keycodeOf(key)] else [])
      ensures trace == old(trace) + (if tested then [KeyEv(keycodeOf(key), true)] else [])
    {
      list := tempList;
      if tested {
        var code: KeyCode := 0;
        if code == 0 {
          code := keycodeOf(key);
        }
        var modifiercode := code;
        trace := trace + [KeyEv(modifiercode, true)];
        list := list + [modifiercode];
      }
    }

    /** Types `maintext`: for each character whose key resolves, presses its
        modifiers (Shift, Control, Alt, Meta) and then its key, flushes,
        releases them all in reverse order and flushes again. */
    method SendTextEntryEvent<C>(keycodeOf: Keysym -> KeyCode, mapper: Option<C -> CharKeyInfo>, maintext: seq<C>)
      modifies this
      ensures trace == old(trace) + TextEntryEvents(keycodeOf, mapper, maintext)
    {
      if mapper.Some? {
        var keymapper := mapper.value;
        var i := 0;
        while i < |maintext|
          invariant 0 <= i <= |maintext|
          invariant trace == old(trace) + TextEvents(keycodeOf, keymapper, maintext[..i])
        {
          var temp := keymapper(maintext[i]);
          SendCharacter(keycodeOf, temp);
          TextEventsSnoc(keycodeOf, keymapper, maintext, i);
          AppendAssoc(old(trace), TextEvents(keycodeOf, keymapper, maintext[..i]), CharEvents(keycodeOf, temp));
          i := i + 1;
        }
        assert maintext[..i] == maintext;
      }
    }

    /** Presses the modifiers of `modifiers` that the handler knows, in the
        order Shift, Control, Alt, Meta, and returns their key codes in that
        order. */
    method PressModifiers(keycodeOf: Keysym -> KeyCode, modifiers: set<Modifier>) returns (tempList: seq<KeyCode>)
      modifies this
      ensures tempList == ModifierCodes(keycodeOf, PressedModifiers(modifiers))
      ensures trace == old(trace) + Presses(tempList)
    {
      ghost var shift := if Shift in modifiers then [KeyEv(keycodeOf(XK_Shift_L), true)] else [];
      ghost var control := if Control in modifiers then [KeyEv(keycodeOf(XK_Control_L), true)] else [];
      ghost var alt := if Alt in modifiers then [KeyEv(keycodeOf(XK_Alt_L), true)] else [];
      ghost var meta := if Meta in modifiers then [KeyEv(keycodeOf(XK_Meta_L), true)] else [];
      ghost var codes := ModifierCodes(keycodeOf, PressedModifiers(modifiers));
      ModifierCodesByFlag(keycodeOf, modifiers);
      ModifierPressesByFlag(keycodeOf, modifiers);
      tempList := [];
      if modifiers != {} {
        tempList := AppendModifierCode(Shift in modifiers, tempList, keycodeOf, XK_Shift_L);
        assert tempList == if Shift in modifiers then [keycodeOf(XK_Shift_L)] else [];
        tempList := AppendModifierCode(Control in modifiers, tempList, keycodeOf, XK_Control_L);
        tempList := AppendModifierCode(Alt in modifiers, tempList, keycodeOf, XK_Alt_L);
        tempList := AppendModifierCode(Meta in modifiers, tempList, keycodeOf, XK_Meta_L);
        assert tempList == codes;
        assert trace == old(trace) + shift + control + alt + meta;
        SegmentAssoc(old(trace), shift, control, alt, meta);
      } else {
        assert shift + control + alt + meta == [];
        assert codes == [];
      }
    }

    /** Walks the press list from its back to its front, releasing each key. */
    method ReleaseInReverse(tempList: seq<KeyCode>)
      modifies this
      ensures trace == old(trace) + Releases(tempList)
    {
      var j := |tempList|;
      while j > 0
        invariant 0 <= j <= |tempList|
        invariant trace == old(trace) + Releases(tempList[j..])
      {
        j := j - 1;
        var currentcode := tempList[j];
        assert tempList[j..][1..] == tempList[j + 1..];
        assert Releases(tempList[j..]) == Releases(tempList[j + 1..]) + [KeyEv(currentcode, false)];
        AppendAssoc(old(trace), Releases(tempList[j + 1..]), [KeyEv(currentcode, false)]);
        trace := trace + [KeyEv(currentcode, false)];
      }
      assert tempList[0..] == tempList;
    }

    /** One pass of the text-entry loop: types the character `temp`
        describes, or skips it when its key does not resolve. */
    method SendCharacter(keycodeOf: Keysym -> KeyCode, temp: CharKeyInfo)
      modifies this
      ensures trace == old(trace) + CharEvents(keycodeOf, temp)
    {
      var tempcode := keycodeOf(temp.virtualkey);
      if tempcode > 0 {
        ghost var start := trace;
        var tempList := PressModifiers(keycodeOf, temp.modifiers);
        assert trace == start + Presses(tempList);
        ghost var modifierCodes := tempList;
        trace := trace + [KeyEv(tempcode, true)];
        tempList := tempList + [tempcode];
        PressesAppendIf(modifierCodes, true, tempcode);
        assert Presses(tempList) == Presses(modifierCodes) + [KeyEv(tempcode, true)];
        AppendAssoc(start, Presses(modifierCodes), [KeyEv(tempcode, true)]);
        assert trace == start + Presses(tempList);
        assert tempList == PressList(keycodeOf, temp);

        trace := trace + [Flush];

        if |tempList| > 0 {
          ghost var p := tempList;
          ghost var pressed := trace;
          assert pressed == start + Presses(p) + [Flush];
          ReleaseInReverse(tempList);
          trace := trace + [Flush];
          SegmentAssoc(start, Presses(p), [Flush], Releases(p), [Flush]);
          assert CharEvents(keycodeOf, temp) == Presses(p) + [Flush] + Releases(p) + [Flush];
        }
      } else {
        assert CharEvents(keycodeOf, temp) == [];
        assert trace == old(trace) + [];
      }
    }
  }
}
