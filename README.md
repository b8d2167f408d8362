# XTest event delivery backend

This project models the XTest backend of antimicro, a program that maps gamepad input to keyboard and mouse events. The backend turns slot actions into synthetic X11 events and hands them to the XTest extension. It handles:

- key presses;
- mouse-button presses;
- relative and absolute pointer motion;
- typing a whole string.

The model replaces the display with a `trace`, the sequence of events it has received so far. A flush of the display appears as a `Flush` event. Each sender is a method of the class `XTestHandler.XTestEventHandler`. Its `ensures` says that the sender appends exactly the events of a specification function to the trace.

The model has three modules:

- `Events`:
  - C++ integer widths;
  - X11 key codes;
  - button slots;
  - the event datatype;
  - the events a keyboard slot and a mouse-button slot emit;
  - `Held`, a reference simulator that keeps a stack of outstanding presses. It rejects any release that is not of the most recent outstanding press, and a key pressed twice must be released twice.
- `TextEntry`: what one typed character and a whole string emit, and the properties of those events:
  - modifiers are pressed in the fixed order Shift, Control, Alt, Meta, then the character's key;
  - a flush follows;
  - every key is released in reverse order;
  - a second flush follows;
  - every press is matched by a release, last pressed first released;
  - characters are independent of one another.
- `XTestHandler`: the handler class, its senders, and the constants `Name` (`"XTest"`) and `Identifier` (`"xtest"`) that `getName` and `getIdentifier` return (`src/eventhandlers/xtesteventhandler.cpp:131-144`), with the lemma `NameAndIdentifier` about them.

The key resolver (`XKeysymToKeycode` on the shared display) is passed to the senders as the function `keycodeOf`. So is the character mapper, as an `Option` whose `None` stands for a missing mapper.

The model follows the code on three points:

- There is no separate no-op path for a missing display.
- The character's own key is resolved before any modifier is pressed. So no modifier is ever pressed for a character that is then skipped, and there is no branch that releases dangling modifiers.
- A modifier whose key symbol has no key code is still pressed and released, as key code 0 (`TextEntry.UnresolvedModifierStillPressed`).

## Model

| member | source | states |
|---|---|---|
| Events.AsUnsigned | src/eventhandlers/xtesteventhandler.cpp:105 | `static_cast<unsigned int>` keeps a non-negative int and adds 2^32 to a negative one, so the value is unchanged modulo 2^32 |
| Events.KeyboardEvents | src/eventhandlers/xtesteventhandler.cpp:81-90 | a keyboard slot emits something iff its mode is Keyboard and its key symbol resolves to a code above 0; it then emits exactly that key event and a flush; key code 0 is never sent |
| Events.MouseButtonEvents | src/eventhandlers/xtesteventhandler.cpp:103-107 | a slot emits something iff its mode is MouseButton; it then emits the button event with the unsigned cast of the code and a flush; no key event is emitted |
| Events.MouseButtonPassesCodeThrough | src/eventhandlers/xtesteventhandler.cpp:105 | a non-negative button code reaches XTest unchanged, without being resolved |
| Events.HeldAppend | src/eventhandlers/xtesteventhandler.cpp:158-194 | running two event runs one after the other is running the second from the held keys the first left |
| Events.NonKeyEventsKeepHeld | src/eventhandlers/xtesteventhandler.cpp:103-128 | events that are not key events never change which keys are held |
| Events.KeyTapKeepsHeld | src/eventhandlers/xtesteventhandler.cpp:81-90 | under one key mapping, a press and then a release of the same keyboard slot leave the stack of outstanding presses as it was; either both emit (4 events) or neither does |
| Events.PointerEventsKeepHeld | src/eventhandlers/xtesteventhandler.cpp:94-128 | mouse-button, relative-motion and absolute-motion events never press or release a key |
| TextEntry.PressedModifiers | src/eventhandlers/xtesteventhandler.cpp:167-172 | a modifier is pressed iff its flag is set, and the pressed modifiers come strictly in the order Shift, Control, Alt, Meta |
| TextEntry.PressedModifierCount | src/eventhandlers/xtesteventhandler.cpp:167-172 | a character needing k modifier flags gets exactly k modifier presses |
| TextEntry.ModifierCodes | src/eventhandlers/xtesteventhandler.cpp:169-172 | the modifier part of the press list has one key code per pressed modifier |
| TextEntry.PressList | src/eventhandlers/xtesteventhandler.cpp:165-176 | the press list of a resolved character has one entry per modifier flag plus one, and ends with the character's own key code |
| TextEntry.ModifierCodesByFlag | src/eventhandlers/xtesteventhandler.cpp:167-172 | the modifier part of the press list holds one resolved left-hand key code per set flag, flag by flag in the fixed order |
| TextEntry.ModifierPressesByFlag | src/eventhandlers/xtesteventhandler.cpp:169-172 | the modifier presses are one press per set flag, flag by flag in the fixed order |
| TextEntry.Presses | src/eventhandlers/xtesteventhandler.cpp:175 | the press phase has one event per key of the press list, and every one of them is a key press |
| TextEntry.ReleasesAt | src/eventhandlers/xtesteventhandler.cpp:180-189 | the release phase has one event per pushed key, and its i-th release is of the i-th key from the end of the press list (last pressed, first released) |
| TextEntry.Releases | src/eventhandlers/xtesteventhandler.cpp:182-189 | the release phase holds one event per pushed key, and every one of them is a key release |
| TextEntry.HeldAfterPresses | src/eventhandlers/xtesteventhandler.cpp:169-176 | pressing the press list puts its keys on top of those already held, in order |
| TextEntry.HeldAfterReleases | src/eventhandlers/xtesteventhandler.cpp:180-189 | releasing the press list from its back undoes pressing it, with every release legal under the last-in-first-out rule |
| TextEntry.CharEvents | src/eventhandlers/xtesteventhandler.cpp:160-163 | a character emits nothing iff its key symbol resolves to code 0 |
| TextEntry.CharEventsShape | src/eventhandlers/xtesteventhandler.cpp:163-192 | a resolved character with k modifier flags emits 2k+4 events: the modifiers pressed in fixed order, its own key pressed, a flush, its own key released, the modifiers released in reverse order, and a final flush |
| TextEntry.UnresolvedModifierStillPressed | src/eventhandlers/xtesteventhandler.cpp:199-213 | a requested Shift whose key symbol has no key code is pressed first and released last, as key code 0 |
| TextEntry.CharEventsKeepHeld | src/eventhandlers/xtesteventhandler.cpp:163-192 | every key a character presses it also releases, in last-in-first-out order, so the stack of outstanding presses ends as it began |
| TextEntry.TextEntryEvents | src/eventhandlers/xtesteventhandler.cpp:153 | with no character mapper, or with empty text, nothing is emitted |
| TextEntry.TextEvents | src/eventhandlers/xtesteventhandler.cpp:158-163 | a string none of whose characters resolves to a key emits nothing |
| TextEntry.TextEventsAppend | src/eventhandlers/xtesteventhandler.cpp:158-194 | typing s then t emits the events of s followed by those of t; no state carries over between characters |
| TextEntry.TextEventsSnoc | src/eventhandlers/xtesteventhandler.cpp:158-160 | the events of a prefix one character longer are those of the prefix followed by that character's events |
| TextEntry.SkippedCharacterEmitsNothing | src/eventhandlers/xtesteventhandler.cpp:161-163 | a character whose key does not resolve is skipped, and typing continues with the next character |
| TextEntry.TextEventsKeepHeld | src/eventhandlers/xtesteventhandler.cpp:158-194 | typing any string leaves the stack of outstanding presses as it began and never releases a key out of order |
| TextEntry.TextEntryKeepsHeld | src/eventhandlers/xtesteventhandler.cpp:147-196 | the text-entry sender leaves the stack of outstanding presses as it found it, with or without a mapper |
| TextEntry.ShiftedCharEvents | src/eventhandlers/xtesteventhandler.cpp:163-192 | a resolved character needing Shift alone emits Shift down, its key down, flush, its key up, Shift up, flush |
| TextEntry.PlainCharEvents | src/eventhandlers/xtesteventhandler.cpp:163-192 | a resolved character needing no modifier emits its key down, flush, its key up, flush |
| TextEntry.TypingCapitalThenLower | src/eventhandlers/xtesteventhandler.cpp:158-192 | typing two characters such as "Ab", the first needing Shift and the second none, emits: Shift down, A down, flush, A up, Shift up, flush, b down, flush, b up, flush |
| XTestHandler.NameAndIdentifier | src/eventhandlers/xtesteventhandler.cpp:131-144 | `getName` returns "XTest" and `getIdentifier` returns "xtest", the name in ASCII lower case |
| XTestHandler.XTestEventHandler.constructor | src/eventhandlers/xtesteventhandler.cpp:36-40 | a new handler has emitted nothing |
| XTestHandler.XTestEventHandler.SendKeyboardEvent | src/eventhandlers/xtesteventhandler.cpp:72-91 | appends exactly `KeyboardEvents` to the display's events |
| XTestHandler.XTestEventHandler.SendMouseButtonEvent | src/eventhandlers/xtesteventhandler.cpp:94-108 | appends exactly `MouseButtonEvents` |
| XTestHandler.XTestEventHandler.SendMouseEvent | src/eventhandlers/xtesteventhandler.cpp:111-118 | appends one relative motion by (xDis, yDis) and a flush |
| XTestHandler.XTestEventHandler.SendMouseAbsEvent | src/eventhandlers/xtesteventhandler.cpp:121-128 | appends one absolute motion to (xDis, yDis) on `screen` and a flush |
| XTestHandler.XTestEventHandler.SendTextEntryEvent | src/eventhandlers/xtesteventhandler.cpp:147-196 | appends exactly `TextEntryEvents`; a loop invariant says the events so far are those of the characters typed so far |
| XTestHandler.XTestEventHandler.SendCharacter | src/eventhandlers/xtesteventhandler.cpp:160-192 | one pass of the text-entry loop appends exactly `CharEvents` of the mapped character |
| XTestHandler.XTestEventHandler.PressModifiers | src/eventhandlers/xtesteventhandler.cpp:165-173 | the press list holds the modifier key codes in the fixed order, and their presses were appended in that order |
| XTestHandler.XTestEventHandler.ReleaseInReverse | src/eventhandlers/xtesteventhandler.cpp:182-189 | walking the press list backwards appends exactly `Releases` of it |
| XTestHandler.XTestEventHandler.AppendModifierCode | src/eventhandlers/xtesteventhandler.cpp:199-214 | when the flag is tested, the resolved code (0 included) is pressed and pushed; otherwise nothing changes |
| XTestHandler.XTestEventHandler.SendMouseSpringEventInArea | src/eventhandlers/xtesteventhandler.cpp:217-225 | emits nothing |
| XTestHandler.XTestEventHandler.SendMouseSpringEvent | src/eventhandlers/xtesteventhandler.cpp:228-231 | emits nothing |
| XTestHandler.XTestEventHandler.PrintPostMessages | src/eventhandlers/xtesteventhandler.cpp:234-237 | emits nothing |

## Left out

- `qInstallMessageHandler`, called at the top of every member: logging plumbing with no effect on the emitted events.
- `init`, which resets the XTest pointer device's acceleration through the X11 extras singleton, and `cleanup`, which only returns true: both are display-configuration I/O outside event synthesis.
- The X11 extras singleton and its `Display*`: the display is modelled as the handler's `trace`. Each `XTestFake*Event` call appends one event, and each `XFlush` appends `Flush`.
- `XKeysymToKeycode`: it becomes the parameter `keycodeOf`. The cast from `int` to `KeySym` is folded into it, because the cast is injective on 32-bit ints. Key codes are X11 `KeyCode` values, 0 to 255.
- The character mapper (`AntKeyMapper`, `QtX11KeyMapper::getCharKeyInformation`): it becomes an `Option` of a function from characters to key symbol and modifier set. Its tables are not part of this model.
- The model assumes the key mapper is the X11 one. The code casts it with `qobject_cast<QtX11KeyMapper*>` (`src/eventhandlers/xtesteventhandler.cpp:156`). A mapper of another class would make that cast yield nullptr, and the call at :160 would go through a null pointer. The model has no such case.
- `QString` and its UTF-16 characters: text is a generic sequence of characters `C`.
- Qt's keypad and group-switch modifier flags: the model's modifier set holds only Shift, Control, Alt and Meta. In the code, a flag set holding only keypad or group-switch flags passes the `!= Qt::NoModifier` guard at `src/eventhandlers/xtesteventhandler.cpp:167`. All four `appendModifierCode` calls then run with `tested` false and emit nothing, so the emitted events are the same as for an empty set.
- The key mapping is one fixed `keycodeOf` per call. The code resolves again on every call (`src/eventhandlers/xtesteventhandler.cpp:83`), so if the X keyboard mapping changes between a press and its release, the release can go to another key or be dropped and leave a key stuck. `Events.KeyTapKeepsHeld` assumes one mapping for both calls.
- The X server keeps each key just up or down. A press of a key that is already down only repeats it, and one release puts it up. `Held` is a stack of presses instead. So `Events.KeyTapKeepsHeld`, `TextEntry.CharEventsKeepHeld` and `TextEntry.TextEntryKeepsHeld` say nothing about the server's key state when another slot already holds a key that the tap or the typed character presses. For example, a keyboard slot holds Shift_L and text entry then types 'A' with Shift: the server ends with Shift up, releasing the slot's Shift.
- The X server's own processing of the synthetic events (delays, rejection) is not modelled.
- The body of the text-entry loop is split into the methods `SendCharacter`, `PressModifiers` and `ReleaseInReverse`. The `QList<int>&` that `appendModifierCode` mutates is passed by value and returned.
