/** What text entry emits: for each character, the required modifiers and the
    character's own key are pressed, the display is flushed, the keys are
    released in the reverse order and the display is flushed again. */
module TextEntry {
  import opened Events

  /** The keyboard modifier flags the handler acts on. */
  datatype Modifier = Shift | Control | Alt | Meta

  /** What the character mapper says about one character: the key symbol
      that types it and the modifiers that must be held. */
  datatype CharKeyInfo = CharKeyInfo(virtualkey: Keysym, modifiers: set<Modifier>)

  /** Position of a modifier in the fixed press order Shift, Control, Alt, Meta. */
  function Rank(m: Modifier): nat
  {
    match m
    case Shift => 0
    case Control => 1
    case Alt => 2
    case Meta => 3
  }

  /** The left-hand key symbol pressed for a modifier. */
  function ModifierKeysym(m: Modifier): Keysym
  {
    match m
    case Shift => XK_Shift_L
    case Control => XK_Control_L
    case Alt => XK_Alt_L
    case Meta => XK_Meta_L
  }

  /** The modifiers of `mods` in the order they are pressed. */
  function PressedModifiers(mods: set<Modifier>): (r: seq<Modifier>)
    ensures forall m :: m in r <==> m in mods
    ensures forall i, j | 0 <= i < j < |r| :: Rank(r[i]) < Rank(r[j])
  {
    var r := (if Shift in mods then [Shift] else [])
      + (if Control in mods then [Control] else [])
      + (if Alt in mods then [Alt] else [])
      + (if Meta in mods then [Meta] else []);
    assert forall m :: m in r <==> m in mods by {
      forall m ensures m in r <==> m in mods {
        assert m == Shift || m == Control || m == Alt || m == Meta;
      }
    }
    r
  }

  /** A sequence without repetitions has as many elements as its set. */
  lemma {:induction false} DistinctCard<T>(s: seq<T>)
    requires forall i, j | 0 <= i < j < |s| :: s[i] != s[j]
    ensures |set x | x in s| == |s|
  {
    if s != [] {
      DistinctCard(s[1..]);
      assert (set x | x in s) == {s[0]} + (set x | x in s[1..]);
      assert s[0] !in s[1..] by {
        forall k | 0 <= k < |s[1..]| ensures s[1..][k] != s[0] {
          assert s[1..][k] == s[k + 1];
        }
      }
    }
  }

  /** A character needing k modifier flags gets exactly k modifier presses. */
  lemma PressedModifierCount(mods: set<Modifier>)
    ensures |PressedModifiers(mods)| == |mods|
  {
    var r := PressedModifiers(mods);
    DistinctCard(r);
    assert (set x | x in r) == mods;
  }

  /** The key codes pushed on the press list for `ms`, in order. */
  function ModifierCodes(keycodeOf: Keysym -> KeyCode, ms: seq<Modifier>): (r: seq<KeyCode>)
    ensures |r| == |ms|
  {
    seq(|ms|, i requires 0 <= i < |ms| => keycodeOf(ModifierKeysym(ms[i])))
  }

  /** The press list of a character: its modifiers' key codes, then its own. */
  function PressList(keycodeOf: Keysym -> KeyCode, info: CharKeyInfo): (r: seq<KeyCode>)
    ensures |r| == |info.modifiers| + 1
    ensures r[|r| - 1] == keycodeOf(info.virtualkey)
  {
    PressedModifierCount(info.modifiers);
    ModifierCodes(keycodeOf, PressedModifiers(info.modifiers)) + [keycodeOf(info.virtualkey)]
  }

  /** The press list of a modifier set, flag by flag in the fixed order. */
  lemma ModifierCodesByFlag(keycodeOf: Keysym -> KeyCode, mods: set<Modifier>)
    ensures ModifierCodes(keycodeOf, PressedModifiers(mods))
            == (if Shift in mods then [keycodeOf(XK_Shift_L)] else [])
            + (if Control in mods then [keycodeOf(XK_Control_L)] else [])
            + (if Alt in mods then [keycodeOf(XK_Alt_L)] else [])
            + (if Meta in mods then [keycodeOf(XK_Meta_L)] else [])
  {
    var shift := if Shift in mods then [Shift] else [];
    var control := if Control in mods then [Control] else [];
    var alt := if Alt in mods then [Alt] else [];
    var meta := if Meta in mods then [Meta] else [];
    assert PressedModifiers(mods) == shift + control + alt + meta;
    ModifierCodesConcat(keycodeOf, shift + control + alt, meta);
    ModifierCodesConcat(keycodeOf, shift + control, alt);
    ModifierCodesConcat(keycodeOf, shift, control);
    assert ModifierCodes(keycodeOf, []) == [];
    ModifierCodesSingle(keycodeOf, Shift);
    ModifierCodesSingle(keycodeOf, Control);
    ModifierCodesSingle(keycodeOf, Alt);
    ModifierCodesSingle(keycodeOf, Meta);
  }

  lemma ModifierCodesSingle(keycodeOf: Keysym -> KeyCode, m: Modifier)
    ensures ModifierCodes(keycodeOf, [m]) == [keycodeOf(ModifierKeysym(m))]
  {
    var l := ModifierCodes(keycodeOf, [m]);
    assert |l| == 1;
    assert l[0] == keycodeOf(ModifierKeysym([m][0]));
  }

  lemma ModifierCodesConcat(keycodeOf: Keysym -> KeyCode, a: seq<Modifier>, b: seq<Modifier>)
    ensures ModifierCodes(keycodeOf, a + b) == ModifierCodes(keycodeOf, a) + ModifierCodes(keycodeOf, b)
  {
    var l, r := ModifierCodes(keycodeOf, a + b), ModifierCodes(keycodeOf, a) + ModifierCodes(keycodeOf, b);
    assert |l| == |r|;
    forall i | 0 <= i < |l| ensures l[i] == r[i] {
      if i < |a| {
        assert (a + b)[i] == a[i];
      } else {
        assert (a + b)[i] == b[i - |a|];
      }
    }
  }

  /** Presses of the keys of `p`, first to last. */
  function Presses(p: seq<KeyCode>): (r: seq<Event>)
    ensures |r| == |p|
    ensures forall e | e in r :: e.KeyEv? && e.pressed
  {
    seq(|p|, i requires 0 <= i < |p| => KeyEv(p[i], true))
  }

  /** The modifier presses of a modifier set, flag by flag in the fixed order. */
  lemma ModifierPressesByFlag(keycodeOf: Keysym -> KeyCode, mods: set<Modifier>)
    ensures Presses(ModifierCodes(keycodeOf, PressedModifiers(mods)))
            == (if Shift in mods then [KeyEv(keycodeOf(XK_Shift_L), true)] else [])
            + (if Control in mods then [KeyEv(keycodeOf(XK_Control_L), true)] else [])
            + (if Alt in mods then [KeyEv(keycodeOf(XK_Alt_L), true)] else [])
            + (if Meta in mods then [KeyEv(keycodeOf(XK_Meta_L), true)] else [])
  {
    ModifierCodesByFlag(keycodeOf, mods);
    var shift := if Shift in mods then [keycodeOf(XK_Shift_L)] else [];
    var control := if Control in mods then [keycodeOf(XK_Control_L)] else [];
    var alt := if Alt in mods then [keycodeOf(XK_Alt_L)] else [];
    var meta := if Meta in mods then [keycodeOf(XK_Meta_L)] else [];
    PressesConcat(shift + control + alt, meta);
    PressesConcat(shift + control, alt);
    PressesConcat(shift, control);
    PressesOptional(Shift in mods, keycodeOf(XK_Shift_L));
    PressesOptional(Control in mods, keycodeOf(XK_Control_L));
    PressesOptional(Alt in mods, keycodeOf(XK_Alt_L));
    PressesOptional(Meta in mods, keycodeOf(XK_Meta_L));
    assert Presses(shift + control + alt + meta) == Presses(shift) + Presses(control) + Presses(alt) + Presses(meta);
  }

  lemma PressesOptional(tested: bool, c: KeyCode)
    ensures Presses(if tested then [c] else []) == if tested then [KeyEv(c, true)] else []
  {
    if tested {
      assert Presses([c])[0] == KeyEv(c, true);
    }
  }

  /** Pressing one more key, or none, appends that one press, or none. */
  lemma PressesAppendIf(p: seq<KeyCode>, tested: bool, c: KeyCode)
    ensures Presses(p + (if tested then [c] else [])) == Presses(p) + (if tested then [KeyEv(c, true)] else [])
  {
    if tested {
      PressesConcat(p, [c]);
    } else {
      assert p + [] == p;
    }
  }

  lemma PressesConcat(a: seq<KeyCode>, b: seq<KeyCode>)
    ensures Presses(a + b) == Presses(a) + Presses(b)
  {
    var l, r := Presses(a + b), Presses(a) + Presses(b);
    assert |l| == |r|;
    forall i | 0 <= i < |l| ensures l[i] == r[i] {
      if i < |a| {
        assert (a + b)[i] == a[i];
      } else {
        assert (a + b)[i] == b[i - |a|];
      }
    }
  }

  /** Releases of the keys of `p`, last to first. */
  function Releases(p: seq<KeyCode>): (r: seq<Event>)
    ensures |r| == |p|
    ensures forall e | e in r :: e.KeyEv? && !e.pressed
  {
    if p == [] then [] else Releases(p[1..]) + [KeyEv(p[0], false)]
  }

  /** The i-th release is of the i-th key from the end of the press list. */
  lemma {:induction false} ReleasesAt(p: seq<KeyCode>, i: nat)
    requires i < |p|
    ensures |Releases(p)| == |p|
    ensures Releases(p)[i] == KeyEv(p[|p| - 1 - i], false)
  {
    if i < |p| - 1 {
      ReleasesAt(p[1..], i);
    }
  }

  /** Pressing the keys of `p` holds them on top of what was held. */
  lemma {:induction false} HeldAfterPresses(held: seq<KeyCode>, p: seq<KeyCode>)
    ensures Held(held, Presses(p)) == Some(held + p)
    decreases |p|
  {
    if p == [] {
      assert held + p == held;
    } else {
      assert Presses(p)[0] == KeyEv(p[0], true);
      assert Presses(p)[1..] == Presses(p[1..]);
      HeldAfterPresses(held + [p[0]], p[1..]);
      assert held + [p[0]] + p[1..] == held + p;
    }
  }

  /** Releasing `p` in reverse undoes pressing it. */
  lemma {:induction false} HeldAfterReleases(held: seq<KeyCode>, p: seq<KeyCode>)
    ensures Held(held + p, Releases(p)) == Some(held)
    decreases |p|
  {
    if p != [] {
      var rest := Releases(p[1..]);
      var last := [KeyEv(p[0], false)];
      assert Releases(p) == rest + last;
      assert held + [p[0]] + p[1..] == held + p;
      HeldAfterReleases(held + [p[0]], p[1..]);
      assert Held(held + p, rest) == Some(held + [p[0]]);
      HeldAppend(held + p, rest, last);
      assert (held + [p[0]])[..|held + [p[0]]| - 1] == held;
      assert last[1..] == [];
      assert Held(held + [p[0]], last) == Held(held, []) == Some(held);
      assert Held(held + p, rest + last) == Held(held + [p[0]], last);
    } else {
      assert held + p == held;
    }
  }

  /** What one character emits, given the character mapper's answer. */
  function CharEvents(keycodeOf: Keysym -> KeyCode, info: CharKeyInfo): (r: seq<Event>)
    ensures r == [] <==> keycodeOf(info.virtualkey) == 0
  {
    var tempcode := keycodeOf(info.virtualkey);
    if tempcode > 0 then
      var p := PressList(keycodeOf, info);
      Presses(p) + [Flush] + Releases(p) + [Flush]
    else
      []
  }

  /** Where each event of a press-then-release segment for `p` sits. */
  lemma SegmentLayout(p: seq<KeyCode>)
    ensures var seg := Presses(p) + [Flush] + Releases(p) + [Flush];
            && |seg| == 2 * |p| + 2
            && (forall i | 0 <= i < |p| :: seg[i] == KeyEv(p[i], true))
            && seg[|p|] == Flush
            && (forall j | |p| < j < 2 * |p| + 1 :: seg[j] == KeyEv(p[2 * |p| - j], false))
            && seg[2 * |p| + 1] == Flush
  {
    var seg := Presses(p) + [Flush] + Releases(p) + [Flush];
    forall j | |p| < j < 2 * |p| + 1 ensures seg[j] == KeyEv(p[2 * |p| - j], false) {
      ReleasesAt(p, j - |p| - 1);
      assert seg[j] == Releases(p)[j - |p| - 1];
    }
  }

  /** The layout of a typed character's events: its k modifiers pressed in
      the fixed order, then its own key, a flush, its own key released,
      the modifiers released in reverse order, and a flush. */
  lemma CharEventsShape(keycodeOf: Keysym -> KeyCode, info: CharKeyInfo)
    requires keycodeOf(info.virtualkey) > 0
    ensures var seg, ms, c := CharEvents(keycodeOf, info), PressedModifiers(info.modifiers), keycodeOf(info.virtualkey);
            var k := |ms|;
            && k == |info.modifiers|
            && |seg| == 2 * k + 4
            && (forall i | 0 <= i < k :: seg[i] == KeyEv(keycodeOf(ModifierKeysym(ms[i])), true))
            && seg[k] == KeyEv(c, true)
            && seg[k + 1] == Flush
            && seg[k + 2] == KeyEv(c, false)
            && (forall j | k + 2 < j < 2 * k + 3 :: seg[j] == KeyEv(keycodeOf(ModifierKeysym(ms[2 * k + 2 - j])), false))
            && seg[2 * k + 3] == Flush
  {
    var ms := PressedModifiers(info.modifiers);
    var k := |ms|;
    var p := PressList(keycodeOf, info);
    PressedModifierCount(info.modifiers);
    SegmentLayout(p);
    assert |p| == k + 1;
    assert forall i | 0 <= i < k :: p[i] == keycodeOf(ModifierKeysym(ms[i]));
  }

  /** A modifier whose key symbol has no key code is pressed and released as
      key code 0 all the same. */
  lemma UnresolvedModifierStillPressed(keycodeOf: Keysym -> KeyCode, info: CharKeyInfo)
    requires keycodeOf(info.virtualkey) > 0
    requires Shift in info.modifiers && keycodeOf(XK_Shift_L) == 0
    ensures CharEvents(keycodeOf, info)[0] == KeyEv(0, true)
    ensures CharEvents(keycodeOf, info)[|CharEvents(keycodeOf, info)| - 2] == KeyEv(0, false)
  {
    CharEventsShape(keycodeOf, info);
    var ms := PressedModifiers(info.modifiers);
    assert ms[0] == Shift by {
      assert Shift in ms;
      var j :| 0 <= j < |ms| && ms[j] == Shift;
      assert j == 0 || Rank(ms[0]) < Rank(ms[j]);
    }
  }

  /** Every key a character presses it also releases, last pressed first. */
  lemma CharEventsKeepHeld(keycodeOf: Keysym -> KeyCode, info: CharKeyInfo, held: seq<KeyCode>)
    ensures Held(held, CharEvents(keycodeOf, info)) == Some(held)
  {
    if keycodeOf(info.virtualkey) > 0 {
      var p := PressList(keycodeOf, info);
      HeldAfterPresses(held, p);
      HeldAppend(held, Presses(p), [Flush]);
      HeldAfterReleases(held, p);
      HeldAppend(held, Presses(p) + [Flush], Releases(p));
      HeldAppend(held, Presses(p) + [Flush] + Releases(p), [Flush]);
    }
  }

  /** What a string emits, character by character. */
  function TextEvents<C>(keycodeOf: Keysym -> KeyCode, charInfo: C -> CharKeyInfo, text: seq<C>): (r: seq<Event>)
    ensures (forall c | c in text :: keycodeOf(charInfo(c).virtualkey) == 0) ==> r == []
    decreases |text|
  {
    if text == [] then [] else CharEvents(keycodeOf, charInfo(text[0])) + TextEvents(keycodeOf, charInfo, text[1..])
  }

  /** What text entry emits; without a character mapper it emits nothing. */
  function TextEntryEvents<C>(keycodeOf: Keysym -> KeyCode, mapper: Option<C -> CharKeyInfo>, text: seq<C>): (r: seq<Event>)
    ensures mapper.None? || text == [] ==> r == []
  {
    match mapper
    case None => []
    case Some(charInfo) => TextEvents(keycodeOf, charInfo, text)
  }

  /** No state carries over from one character to the next. */
  lemma {:induction false} TextEventsAppend<C>(keycodeOf: Keysym -> KeyCode, charInfo: C -> CharKeyInfo, s: seq<C>, t: seq<C>)
    ensures TextEvents(keycodeOf, charInfo, s + t) == TextEvents(keycodeOf, charInfo, s) + TextEvents(keycodeOf, charInfo, t)
    decreases |s|
  {
    if s == [] {
      assert s + t == t;
    } else {
      assert (s + t)[0] == s[0];
      assert (s + t)[1..] == s[1..] + t;
      TextEventsAppend(keycodeOf, charInfo, s[1..], t);
    }
  }

  /** The events of a prefix one character longer. */
  lemma TextEventsSnoc<C>(keycodeOf: Keysym -> KeyCode, charInfo: C -> CharKeyInfo, text: seq<C>, i: nat)
    requires i < |text|
    ensures TextEvents(keycodeOf, charInfo, text[..i + 1]) == TextEvents(keycodeOf, charInfo, text[..i]) + CharEvents(keycodeOf, charInfo(text[i]))
  {
    var c := text[i];
    assert text[..i + 1] == text[..i] + [c];
    assert TextEvents(keycodeOf, charInfo, [c]) == CharEvents(keycodeOf, charInfo(c)) by {
      assert [c][1..] == [];
    }
    TextEventsAppend(keycodeOf, charInfo, text[..i], [c]);
  }

  /** A character whose key does not resolve is skipped and typing goes on
      with the characters after it. */
  lemma SkippedCharacterEmitsNothing<C>(keycodeOf: Keysym -> KeyCode, charInfo: C -> CharKeyInfo, s: seq<C>, c: C, t: seq<C>)
    requires keycodeOf(charInfo(c).virtualkey) == 0
    ensures TextEvents(keycodeOf, charInfo, s + [c] + t) == TextEvents(keycodeOf, charInfo, s) + TextEvents(keycodeOf, charInfo, t)
  {
    var one := TextEvents(keycodeOf, charInfo, [c]);
    assert [c][1..] == [];
    assert one == CharEvents(keycodeOf, charInfo(c)) + TextEvents(keycodeOf, charInfo, []);
    assert one == [];
    TextEventsAppend(keycodeOf, charInfo, s + [c], t);
    TextEventsAppend(keycodeOf, charInfo, s, [c]);
    assert TextEvents(keycodeOf, charInfo, s) + one == TextEvents(keycodeOf, charInfo, s);
  }

  /** Text entry leaves no key held down, whatever it is given. */
  lemma {:induction false} TextEventsKeepHeld<C>(keycodeOf: Keysym -> KeyCode, charInfo: C -> CharKeyInfo, text: seq<C>, held: seq<KeyCode>)
    ensures Held(held, TextEvents(keycodeOf, charInfo, text)) == Some(held)
    decreases |text|
  {
    if text != [] {
      var first := CharEvents(keycodeOf, charInfo(text[0]));
      CharEventsKeepHeld(keycodeOf, charInfo(text[0]), held);
      TextEventsKeepHeld(keycodeOf, charInfo, text[1..], held);
      HeldAppend(held, first, TextEvents(keycodeOf, charInfo, text[1..]));
    }
  }

  lemma TextEntryKeepsHeld<C>(keycodeOf: Keysym -> KeyCode, mapper: Option<C -> CharKeyInfo>, text: seq<C>, held: seq<KeyCode>)
    ensures Held(held, TextEntryEvents(keycodeOf, mapper, text)) == Some(held)
  {
    if mapper.Some? {
      TextEventsKeepHeld(keycodeOf, mapper.value, text, held);
    }
  }

  /** A resolved character that needs Shift alone. */
  lemma ShiftedCharEvents(keycodeOf: Keysym -> KeyCode, info: CharKeyInfo)
    requires info.modifiers == {Shift} && keycodeOf(info.virtualkey) > 0
    ensures var shift, c := keycodeOf(XK_Shift_L), keycodeOf(info.virtualkey);
            CharEvents(keycodeOf, info) == [KeyEv(shift, true), KeyEv(c, true), Flush, KeyEv(c, false), KeyEv(shift, false), Flush]
  {
    var shift, c := keycodeOf(XK_Shift_L), keycodeOf(info.virtualkey);
    assert PressedModifiers({Shift}) == [Shift];
    ModifierCodesSingle(keycodeOf, Shift);
    var p := PressList(keycodeOf, info);
    assert p == [shift, c];
    assert Presses(p) == [KeyEv(shift, true), KeyEv(c, true)];
    assert Releases(p) == [KeyEv(c, false), KeyEv(shift, false)] by {
      assert p[1..] == [c];
      assert [c][1..] == [];
      assert Releases([c]) == Releases([]) + [KeyEv(c, false)];
    }
  }

  /** A resolved character that needs no modifier. */
  lemma PlainCharEvents(keycodeOf: Keysym -> KeyCode, info: CharKeyInfo)
    requires info.modifiers == {} && keycodeOf(info.virtualkey) > 0
    ensures var c := keycodeOf(info.virtualkey);
            CharEvents(keycodeOf, info) == [KeyEv(c, true), Flush, KeyEv(c, false), Flush]
  {
    var c := keycodeOf(info.virtualkey);
    assert PressedModifiers({}) == [];
    var p := PressList(keycodeOf, info);
    assert p == [c];
    assert Presses(p) == [KeyEv(c, true)];
    assert Releases(p) == [KeyEv(c, false)] by {
      assert p[1..] == [];
    }
  }

  /** Typing two characters, the first needing Shift (as 'A' does) and the
      second no modifier (as 'b' does). */
  lemma TypingCapitalThenLower<C>(keycodeOf: Keysym -> KeyCode, charInfo: C -> CharKeyInfo, upper: C, lower: C)
    requires charInfo(upper).modifiers == {Shift} && charInfo(lower).modifiers == {}
    requires keycodeOf(charInfo(upper).virtualkey) > 0 && keycodeOf(charInfo(lower).virtualkey) > 0
    ensures var shift, a, b := keycodeOf(XK_Shift_L), keycodeOf(charInfo(upper).virtualkey), keycodeOf(charInfo(lower).virtualkey);
            TextEntryEvents(keycodeOf, Some(charInfo), [upper, lower])
            == [KeyEv(shift, true), KeyEv(a, true), Flush, KeyEv(a, false), KeyEv(shift, false), Flush,
                KeyEv(b, true), Flush, KeyEv(b, false), Flush]
  {
    ShiftedCharEvents(keycodeOf, charInfo(upper));
    PlainCharEvents(keycodeOf, charInfo(lower));
    assert [upper, lower][1..] == [lower];
    assert [lower][1..] == [];
    assert TextEvents(keycodeOf, charInfo, [upper, lower])
        == CharEvents(keycodeOf, charInfo(upper)) + (CharEvents(keycodeOf, charInfo(lower)) + []);
  }
}
