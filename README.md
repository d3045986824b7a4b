# piano_typer in Dafny

piano_typer turns a MIDI piano into a keyboard and mouse. A MIDI event
`(status, note number, velocity, data3)` is decoded into a keystroke: a note
name, an octave and a press/release flag. Its key name (`"C#5"`) is then
looked up in binding tables. A keyboard key or mouse button is pressed or
released, or a cursor direction is held and later turned into mouse moves.

The program exists in two revisions, and both are modelled:

- `packaging.py`, `midi.py` and `main.py` form the current revision. It has
  a `Keystroke` value type, a MIDI batch decoder, and a `Program` object. The
  `Program` handles one batch of keystrokes per logic tick and moves the
  cursor by the summed directions of the held keys. main.py:15 imports a
  module-level `NOTES` from packaging, which packaging.py defines only as the
  class attribute `Keystroke.NOTES` (packaging.py:31), so the three files as
  they stand do not import together; the model takes the note table to be
  that class attribute.
- `piano_control.py` is the older, single-file revision. It has module-level
  binding tables, a `read_input` decoder, and a global list of held
  directions changed in place. Its cursor loop moves the mouse once for each
  held direction whose exact opposite is not also held.

Files:

| file | module | models |
|---|---|---|
| `wrappers.dfy` | `Wrappers` | `Option` and `Result` |
| `directions.dfy` | `Directions` | cursor direction vectors, their opposite and their sum, used by both revisions' cursor code |
| `packaging.dfy` | `Packaging` | `Keystroke`: validating constructor, `full_note`, `__eq__`, `__hash__`, `inverted` |
| `midi.dfy` | `Midi` | `parse_event` and the filter and decoding of `get_keystrokes` |
| `main_program.dfy` | `MainProgram` | `Program.process_keystroke`, `process_cursor` and `_logic_tick`, as a class whose field `calls` records every keyboard, mouse and display call in order |
| `piano_control.dfy` | `PianoControl` | the binding tables, `read_input`, `update_held_queue`, `toggle_device`, `process_keypress` and one pass of `cursor_loop`, as a class holding `held_directions` and the call record |

Effects on the keyboard, mouse and display libraries are recorded in the
model as call records appended to a trace. What the program reads is given
as a parameter:

- the device poll and read;
- the display's held keystrokes;
- whether the window was closed;
- the keybinding file.

Behaviour of the code that is easy to misread, as the model states it:

- `process_cursor` (main.py:93-100) still calls `mouse.move(0, 0)` when held
  opposite directions cancel. It emits no call only when no held key is a
  cursor key. `LeftAndRightCancel` states this.
- main.py scales the cursor by `SENSITIVITY` (12) alone. There is no frame
  rate and no slow-key multiplier.
- Velocity 0 is not dropped by `parse_event`, which decodes it as a press.
  Only the batch filter of `get_keystrokes` drops it (midi.py:94).
  `read_input` does not drop it at all.
- `process_keypress` tests the stop key after dispatching. The stop key is
  bound in no table, so it only stops (`StopKeyOnlyStops`).
- `read_input`'s comment says it returns an empty keypress "if any step
  fails". In the code, an empty read list or data shorter than three values raises
  `IndexError` (`ReadInput` returns `Failure(IndexError)`). Only a missing
  poll or empty data gives the empty keypress.
- A negative octave is refused at packaging.py:50-51, but the message there
  reads `self.octave` before it is set. The raise is therefore an
  `AttributeError`, not the `ValueError` its docstring names. The model says only that
  construction fails, with `NegativeOctave`.
- The older revision's cursor loop excludes both members of an opposing
  pair, then moves once for each remaining direction. `CursorPassDisplacement`
  proves that, on a duplicate-free list, the total is still the plain sum of
  the held directions times `SENSITIVITY`.

## Model

| member | source | states |
|---|---|---|
| Packaging.NewKeystroke | packaging.py:33-54 | construction (with `Upper` modelling `str.upper`) succeeds exactly when the upper-cased note is one of the twelve names and the octave is not negative; a bad name fails with `InvalidNote` of the upper-cased name, else a negative octave fails with `NegativeOctave`; on success note (upper-cased), octave and press are kept and the key name is the note followed by the decimal octave |
| Packaging.PressByDefault | packaging.py:33 | a keystroke built without a press flag is a press |
| Packaging.PitchOf | packaging.py:46-49 | a name has a table position exactly when it is one of the twelve notes, and the position holds that name |
| Packaging.UpperFixesNotes | packaging.py:45 | upper-casing leaves every valid note name unchanged |
| Packaging.NotesDistinct | packaging.py:31 | no note name occurs twice in the table |
| Packaging.NoteShape | packaging.py:31 | no note name contains a digit |
| Packaging.DecimalString | packaging.py:54 | `str(octave)`: the decimal text of the octave is never empty, and has at least two characters from 10 on |
| Packaging.DecimalStringDigits | packaging.py:54 | `str(octave)` consists of decimal digits only |
| Packaging.DecimalStringInjective | packaging.py:54 | different octaves have different decimal texts |
| Packaging.FullNoteInjective | packaging.py:54 | two key names are equal exactly when note and octave are both equal |
| Packaging.EqualsMeansSameKey | packaging.py:67-73 | `Equals` models `__eq__` (key names compared, only against a keystroke); two keystrokes are equal exactly when they have the same note and octave, whatever their press flags; an object that is not a keystroke is never equal |
| Packaging.EqualsIsEquivalence | packaging.py:67-73 | keystroke equality is reflexive, symmetric and transitive |
| Packaging.HashAgreesWithEquals | packaging.py:75-79 | `Hash` models `__hash__` as a string hash of the key name; equal keystrokes have equal hashes, for any string hash |
| Packaging.Keystroke.Inverted | packaging.py:81-85 | inverting always succeeds, keeps note and octave and flips the press flag |
| Packaging.InvertedProperties | packaging.py:81-85 | the inverted keystroke equals the original, and inverting twice gives back the original, press flag included |
| Midi.ParseEvent | midi.py:58-64 | decoding succeeds exactly when the note number is not negative; the note is the table entry of the number mod 12, the octave its quotient by 12, and the keystroke is a press exactly when the velocity is not 64 |
| Midi.ParseEventRoundTrip | midi.py:62-64 | for a non-negative note number, 12 * octave + note position gives back the note number |
| Midi.Untimed | midi.py:89 | stripping timestamps keeps the length and the events in place |
| Midi.Filter | midi.py:91-95 | with `Kept` modelling the condition of midi.py:94, the kept events are exactly the input events that are neither clock events (status 248) nor of velocity 0, and there are never more of them than input events |
| Midi.FilterAppend | midi.py:91-95 | filtering a concatenation filters each part, so the filter never reorders events |
| Midi.FilterKeepsKeptBatch | midi.py:94 | a batch with no clock event and no velocity 0 passes unchanged |
| Midi.ParseAll | midi.py:91-98 | the batch decodes exactly when every note number is non-negative, and then gives one keystroke per event, each that event's decoding, in order |
| Midi.GetKeystrokes | midi.py:67-98 | nothing pending or a device error gives no keystrokes, and a batch never yields more keystrokes than events read |
| Midi.GetKeystrokesDecodesKept | midi.py:89-95 | each keystroke of a decoded batch is exactly `ParseEvent` of the kept event at the same position: a valid keystroke with that event's note, octave, press flag and key name (note followed by the decimal octave) |
| Midi.GetKeystrokesAllOrNothing | midi.py:91-98 | one kept event with a negative note number empties the whole batch |
| Midi.GetKeystrokesCountsKeptEvents | midi.py:89-95 | with well-formed note numbers, there is one keystroke per kept event |
| MainProgram.KeystrokeCalls | main.py:60-77 | none in piano mode or for an unbound key; a key in the keyboard table presses or releases its keyboard hotkey as the keystroke is a press or not; a key only in the mouse table presses or releases its mouse button likewise; so at most one call, never a move or display call |
| MainProgram.KeyboardBeforeMouse | main.py:71-77 | a key bound on the keyboard presses or releases its keyboard hotkey even when the mouse table binds it too |
| MainProgram.MouseAfterKeyboard | main.py:75-77 | a key bound only in the mouse table presses or releases its own mouse button and makes no keyboard call |
| MainProgram.InvertedKeystrokeUndoes | main.py:71-77 | the inverted keystroke makes the opposite call on the same hotkey |
| MainProgram.CursorCalls | main.py:79-100 | process_cursor makes no call or one move by the summed held directions times the sensitivity |
| MainProgram.HeldDirectionsEmptyIff | main.py:87-91 | `HeldDirections` models the comprehension (the cursor vectors of the held keys the cursor table binds, in held order); that list is empty exactly when no held keystroke is a cursor key |
| MainProgram.NoMoveIffNoCursorKeyHeld | main.py:84-94 | no move call exactly when no held keystroke is a cursor key, nothing held included; otherwise exactly one |
| MainProgram.HeldSumOrderFree | main.py:96-98 | swapping two runs of held keys does not change the summed direction (a case of `HeldSumPermutation`) |
| MainProgram.HeldSumPermutation | main.py:87-98 | any two arrangements of the same held keystrokes (equal multisets) give the same summed direction, so the order in which the display holds them does not matter |
| MainProgram.HeldSumAppend | main.py:96-98 | the summed direction of two runs of held keys is the sum of their summed directions |
| MainProgram.HeldSumAround | main.py:87-98 | a held cursor key adds its direction to the sum of the keys around it |
| MainProgram.OppositeKeysCancel | main.py:87-98 | two held keys bound to opposite directions leave the sum of the other held keys unchanged |
| MainProgram.LeftAndRightCancel | main.py:87-100 | holding (-1, 0) and (1, 0) gives a move of (0, 0): no horizontal motion, but a call is made |
| MainProgram.QuitIndex | main.py:110-113 | with `IsQuit` modelling the test of main.py:111 (outside piano mode, the key name is the quit key), the first quitting position lies within the batch, and in piano mode nothing quits |
| MainProgram.QuitIndexFindsFirst | main.py:110-113 | no keystroke before QuitIndex quits, and the one at it does |
| MainProgram.QuitIndexIsFirst | main.py:110-113 | any position with no quit before it and a quit or the end at it is QuitIndex |
| MainProgram.BatchDisplaysInOrder | main.py:109-116 | `BatchCalls` models the loop body run over a quit-free batch (each keystroke's device call, then its display update); every keystroke of a quit-free batch reaches the display once, in batch order |
| MainProgram.PianoModeBatchOnlyDisplays | main.py:109-116 | in piano mode a batch makes display calls only |
| MainProgram.TickDisplaysUpToQuit | main.py:107-119 | a tick displays exactly the keystrokes before the first quitting one, in order |
| MainProgram.PianoModeTick | main.py:109-119 | in piano mode a tick goes on unless the window was closed, and makes display calls only |
| MainProgram.Program.constructor | main.py:48-58 | piano mode (default on), sensitivity (default 12) and bindings are set and no call has been made |
| MainProgram.Program.ProcessKeystroke | main.py:60-77 | appends exactly the keystroke's calls to the trace |
| MainProgram.Program.ProcessCursor | main.py:79-100 | appends exactly the cursor calls for the held keystrokes |
| MainProgram.Program.HandleBatch | main.py:109-116 | reports a quit exactly when a keystroke of the batch quits, after processing and displaying, in order, each keystroke before it |
| MainProgram.Program.LogicTick | main.py:102-127 | appends the tick's calls (`TickCalls`: the batch up to the first quit, then the cursor move when nothing quit outside piano mode) and returns `TickContinues`: true exactly when nothing quit and the window is open |
| PianoControl.ButtonTablesDisjoint | piano_control.py:18-43 | no note is bound both to a keyboard key and to a mouse button |
| PianoControl.KeyboardCursorDisjoint | piano_control.py:18-54 | no note is bound both to a keyboard key and to a cursor direction |
| PianoControl.MouseCursorDisjoint | piano_control.py:43-54 | no note is bound both to a mouse button and to a cursor direction |
| PianoControl.StopKeyUnbound | piano_control.py:18-57 | the stop key is in none of the three tables |
| PianoControl.MergedLookup | piano_control.py:129 | the merged lookup finds exactly the button notes and gives each the hotkey of its own table |
| PianoControl.CursorDirectionsComeInPairs | piano_control.py:45-54 | each cursor direction's opposite is bound too |
| PianoControl.ReadInput | piano_control.py:75-96 | fails exactly on an empty read list or data of one or two values; gives the empty keypress exactly when nothing is polled or the data is empty; otherwise letter and octave split data1 by 12, with velocity data2 and the packet's timestamp |
| PianoControl.ReadInputAgreesWithParseEvent | piano_control.py:89-94 | for a non-negative data1, read_input's letter and octave equal the note and octave parse_event decodes |
| PianoControl.RemoveFirst | piano_control.py:151 | list.remove shortens the list by one when the value is present; for an absent value Python raises ValueError, which update_held_queue never meets because it removes only a held direction (piano_control.py:149), and the model leaves the list unchanged |
| PianoControl.RemoveFirstCounts | piano_control.py:151 | list.remove takes away exactly one occurrence of the value, when present, and nothing else |
| PianoControl.HeldAfterIsSetUpdate | piano_control.py:138-151 | `HeldAfter` models update_held_queue on the list (append when pressed and absent, remove when released and present); on a duplicate-free list, a press adds the direction, a release removes it, nothing else changes, and the list stays duplicate-free |
| PianoControl.PressIsIdempotent | piano_control.py:145-147 | pressing a direction twice gives the list of a single press |
| PianoControl.PressThenReleaseRestores | piano_control.py:145-151 | pressing then releasing a direction that was not held restores the list |
| PianoControl.ReleaseOfUnheldIsNoOp | piano_control.py:149-151 | releasing an unheld direction, or any other action, leaves the list unchanged |
| PianoControl.RouteOf | piano_control.py:112-119 | a note takes the keyboard, mouse or cursor branch exactly when that table binds it |
| PianoControl.ToggleCalls | piano_control.py:124-135 | a press presses, a release releases, and any other action does nothing, always on the given device with the hotkey of the note's own table |
| PianoControl.KeypressCalls | piano_control.py:99-119 | no call in piano mode; outside it, a keyboard note gives exactly `ToggleCalls` on the keyboard and a mouse note exactly `ToggleCalls` on the mouse, so a button note's other action makes no call; a cursor or unbound note makes no call; any call is a press or release on the device whose table binds the note |
| PianoControl.KeypressHasOneEffect | piano_control.py:112-119 | a keypress either calls a device or changes the held list, never both |
| PianoControl.PianoModeIsInert | piano_control.py:108-109 | in piano mode a keypress calls nothing and leaves the held list alone |
| PianoControl.StopKeyOnlyStops | piano_control.py:112-121 | the stop key calls nothing and leaves the held list alone |
| PianoControl.ReleaseUndoesPress | piano_control.py:124-135 | a bound button note's press and release reach the same device and hotkey, one pressing and one releasing |
| PianoControl.CursorMovesOnlyUnopposed | piano_control.py:188-194 | `CursorMoves` models the loop body over the held list, in order; a direction's move is emitted exactly when the direction is held and its opposite is not |
| PianoControl.OpposedSumsToZero | piano_control.py:188-194 | the held directions whose opposite is also held sum to zero on a duplicate-free list |
| PianoControl.DisplacementOfMoves | piano_control.py:188-194 | one pass moves the cursor by the sensitivity times the sum of the unopposed directions |
| PianoControl.CursorPassDisplacement | piano_control.py:188-194 | on a duplicate-free held list one pass moves the cursor by the sensitivity times the sum of all held directions |
| PianoControl.Controller.constructor | piano_control.py:65-69 | the held list starts empty and duplicate-free, with no call made |
| PianoControl.Controller.UpdateHeldQueue | piano_control.py:138-151 | the held list becomes its press/release update and stays duplicate-free; no device call |
| PianoControl.Controller.ToggleDevice | piano_control.py:124-135 | appends exactly the toggle's call; the held list is unchanged |
| PianoControl.Controller.ProcessKeypress | piano_control.py:99-121 | returns true exactly for the stop key outside piano mode; appends the keypress's device calls (`KeypressCalls`), updates the held list as dispatched (`HeldAfterKeypress`: `HeldAfter` of the note's direction for a cursor note outside piano mode, otherwise unchanged), and keeps it duplicate-free |
| PianoControl.Controller.CursorTick | piano_control.py:188-194 | appends, in held-list order, a scaled move for each held direction whose opposite is not held; the held list is unchanged |

## Left out

- `Program.run` (main.py:129-140) only repeats `_logic_tick` until it returns false or a keyboard interrupt arrives. One tick is modelled (`LogicTick`); the interrupt is not.
- Device setup and enumeration are not modelled (midi.py:20-55, piano_control.py:197-235, `Program.__init__` at main.py:57-58). The device poll and read are parameters: `DeviceRead` for `get_keystrokes` and `Poll` for `read_input`. The cap of `MIDI_READS` (3) events per read is not imposed on the `Events` list.
- A raw event with fewer than three values is not modelled. `MidiEvent` is a fixed four-field record. In the source, such an event is silently dropped when it is a clock event (status 248), because the `and` of midi.py:94 stops before reading the velocity. Any other short event, and an empty one, raises `IndexError` in the filter, and the handler turns the whole batch into an empty one.
- The keyboard and mouse libraries are represented as call records. Their effects on the operating system are not modelled.
- The display is not modelled. This covers `visuals.py`, `update_with`, `refresh`, `tick` and `is_closed`. Its held keystrokes and its closed state are inputs, and each display update is one call record.
- Loading the keybinding file (main.py:32-37) is not modelled. The three maps and the quit key are a `Keybinds` parameter. A cursor vector in the file that is not a pair of integers is not modelled.
- Console output is not modelled: `KEY_LOG` printing, `__str__`, `__repr__` and the exit messages.
- Python's string hash is a parameter of `Hash`.
- `Upper` folds ASCII letters only.
- `Keypress` and `Action` are imported by piano_control.py but are not part of this model's sources. A keypress is modelled as a note name and an action, and `read_input` returns the raw decoded fields. How a `Keypress` derives its note and action from letter, octave and velocity is not modelled.
- Threading in piano_control.py is not modelled: `input_loop`, `main`, the stop event, `clock.tick` rates, and the concurrent reads of `held_directions` by the cursor thread. `CursorTick` is one sequential pass of the loop body.
- `PianoControl.Controller.UpdateHeldQueue` and `PianoControl.Controller.ToggleDevice` require a note of their table. In the source, any other note raises `KeyError`, and neither function is ever called with one.
- CLI flag parsing is not modelled (main.py:143-167, piano_control.py:282-303). piano_control.py:299 sets `PIANO_MODE = True` unconditionally, so that script never emits controls; the model keeps piano mode as a constructor parameter.
- `piano_export.py` and `demo.py` are not modelled; they are image export and demonstration code.
