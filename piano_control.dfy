// The older, single-file controller of piano_control.py: binding tables,
// the decoding done by read_input, the dispatch of a keypress to the
// keyboard, the mouse or the held-direction list, and one pass of the
// cursor loop over that list.

module PianoControl {
  import opened Wrappers
  import opened Directions
  import Packaging
  import Midi

  /** Notes that press and release a keyboard key. */
  const KeyboardKeybinds: map<string, string> := map[
    "A#4" := "w", "A4" := "a", "B4" := "s", "C5" := "d", "D5" := " ",
    "F4" := "ctrl", "G4" := "shift", "G#4" := "q", "C#5" := "e", "E5" := "f",
    "F5" := "1", "F#5" := "2", "G5" := "3", "G#5" := "4", "A5" := "5",
    "A#5" := "6", "B5" := "7", "C6" := "8", "C#6" := "9", "D4" := "F3",
    "D#4" := "tab", "C#4" := "esc"]

  /** Notes that press and release a mouse button. */
  const MouseKeybinds: map<string, string> := map["G6" := "left", "A6" := "right", "G#6" := "middle"]

  /** Notes that, while held, move the cursor. */
  const CursorKeybinds: map<string, Direction> := map[
    "F6" := (-1, 0), "C7" := (1, 0), "A#6" := (0, -1), "B6" := (0, 1)]

  /** The note that stops the controller. */
  const StopKey: string := "C8"

  /** Note names by pitch class. */
  const Letters: seq<string> := ["C", "C#", "D", "D#", "E", "F", "F#", "G", "G#", "A", "A#", "B"]

  /** Pixels the cursor moves per held direction and cursor tick. */
  const Sensitivity: int := 10

  /** The lookup toggle_device uses: both button tables, the mouse one laid over the keyboard one. */
  const MergedKeybinds: map<string, string> := KeyboardKeybinds + MouseKeybinds

  /** No note both presses a key and clicks a mouse button. */
  lemma ButtonTablesDisjoint()
    ensures KeyboardKeybinds.Keys !! MouseKeybinds.Keys
  {
  }

  /** No cursor note is also a keyboard note. */
  lemma KeyboardCursorDisjoint()
    ensures KeyboardKeybinds.Keys !! CursorKeybinds.Keys
  {
  }

  /** No cursor note is also a mouse note. */
  lemma MouseCursorDisjoint()
    ensures MouseKeybinds.Keys !! CursorKeybinds.Keys
  {
  }

  /** The stop key is bound in none of the three tables. */
  lemma StopKeyUnbound()
    ensures StopKey !in KeyboardKeybinds && StopKey !in MouseKeybinds && StopKey !in CursorKeybinds
  {
  }

  /**
   * The merged lookup of toggle_device finds exactly the notes of the two
   * button tables, and gives each the hotkey of its own table.
   */
  lemma MergedLookup(note: string)
    ensures note in MergedKeybinds <==> note in KeyboardKeybinds || note in MouseKeybinds
    ensures note in KeyboardKeybinds ==> MergedKeybinds[note] == KeyboardKeybinds[note]
    ensures note in MouseKeybinds ==> MergedKeybinds[note] == MouseKeybinds[note]
  {
    ButtonTablesDisjoint();
  }

  /** The cursor table is closed under reversal: every direction's opposite is bound too. */
  lemma CursorDirectionsComeInPairs(note: string)
    requires note in CursorKeybinds
    ensures Neg(CursorKeybinds[note]) in CursorKeybinds.Values
  {
    assert CursorKeybinds["F6"] == (-1, 0) && CursorKeybinds["C7"] == (1, 0);
    assert CursorKeybinds["A#6"] == (0, -1) && CursorKeybinds["B6"] == (0, 1);
  }

  // ---------------------------------------------------------------------
  // read_input

  /** One entry of a device read: the data bytes and the timestamp. */
  datatype MidiPacket = MidiPacket(data: seq<int>, timestamp: int)

  /** What the device offers: nothing to poll, or the list read(1) returned. */
  datatype Poll = NotReady | Ready(packets: seq<MidiPacket>)

  /** The keypress read_input builds: from decoded fields, or the empty one. */
  datatype Decoded = Populated(letter: string, octave: int, velocity: int, timestamp: int) | EmptyKeypress

  /** Indexing past the end of the read list or of the data bytes. */
  datatype ReadError = IndexError

  /**
   * read_input: nothing to poll or empty data gives the empty keypress;
   * otherwise the first packet's data1 splits into letter and octave by
   * 12, with data2 as the velocity. An empty read list or data shorter
   * than three bytes raises.
   */
  function ReadInput(poll: Poll): (r: Result<Decoded, ReadError>)
    ensures r.Failure? <==> poll.Ready? && (poll.packets == [] || 0 < |poll.packets[0].data| < 3)
    ensures r == Success(EmptyKeypress) <==> poll.NotReady? || (poll.packets != [] && poll.packets[0].data == [])
    ensures r.Success? && r.value.Populated? ==>
      var p := poll.packets[0];
      r.value.letter == Packaging.Notes[p.data[1] % 12] &&
      12 * r.value.octave + p.data[1] % 12 == p.data[1] &&
      r.value.velocity == p.data[2] && r.value.timestamp == p.timestamp
  {
    if poll.NotReady? then Success(EmptyKeypress)
    else if poll.packets == [] then Failure(IndexError)
    else
      var p := poll.packets[0];
      if p.data == [] then Success(EmptyKeypress)
      else if |p.data| < 3 then Failure(IndexError)
      else Success(Populated(Letters[p.data[1] % 12], p.data[1] / 12, p.data[2], p.timestamp))
  }

  /**
   * The two revisions of the program decode a note alike: for a
   * non-negative data1, read_input's letter and octave are the note and
   * octave of the keystroke parse_event builds from the same bytes.
   */
  lemma ReadInputAgreesWithParseEvent(p: MidiPacket)
    requires |p.data| >= 4 && p.data[1] >= 0
    ensures var r := ReadInput(Ready([p]));
      var k := Midi.ParseEvent(Midi.MidiEvent(p.data[0], p.data[1], p.data[2], p.data[3]));
      r.Success? && r.value.Populated? && k.Success? &&
      r.value.letter == k.value.Note() && r.value.octave == k.value.octave
  {
  }

  // ---------------------------------------------------------------------
  // The held-direction list

  /** What a keypress does to its key. */
  datatype Action = Press | Release | OtherAction

  /** A keypress as the dispatcher sees it: the note name and the action. */
  datatype Keypress = Keypress(note: string, action: Action)

  predicate NoDuplicates(s: seq<Direction>)
  {
    forall x | x in s :: multiset(s)[x] <= 1
  }

  /**
   * Python's list.remove: drop the first occurrence of x. For an absent x
   * list.remove raises ValueError; update_held_queue only removes a
   * direction after checking that it is held, so that case never arises,
   * and here it leaves the list unchanged.
   */
  function RemoveFirst<T(==)>(s: seq<T>, x: T): (r: seq<T>)
    ensures x in s ==> |r| == |s| - 1
    ensures x !in s ==> r == s
  {
    if s == [] then []
    else if s[0] == x then s[1..]
    else [s[0]] + RemoveFirst(s[1..], x)
  }

  /** list.remove takes exactly one occurrence of x away, when there is one, and nothing else. */
  lemma {:induction false} RemoveFirstCounts<T>(s: seq<T>, x: T)
    ensures multiset(RemoveFirst(s, x)) == multiset(s) - multiset{x}
  {
    if s != [] {
      assert s == [s[0]] + s[1..];
      if s[0] != x {
        RemoveFirstCounts(s[1..], x);
      }
    }
  }

  /** Removing the first occurrence at index i cuts the list around i. */
  lemma {:induction false} RemoveFirstAt<T>(s: seq<T>, x: T, i: nat)
    requires i < |s| && s[i] == x && x !in s[..i]
    ensures RemoveFirst(s, x) == s[..i] + s[i + 1..]
    decreases i
  {
    if i > 0 {
      assert s[0] != x by {
        assert s[0] == s[..i][0];
      }
      assert s[1..][..i - 1] == s[..i][1..];
      RemoveFirstAt(s[1..], x, i - 1);
      assert [s[0]] + s[1..][..i - 1] == s[..i];
    }
  }

  /**
   * update_held_queue on the list: a press appends an absent direction, a
   * release removes a present one, and anything else leaves the list alone.
   */
  function HeldAfter(held: seq<Direction>, d: Direction, action: Action): seq<Direction>
  {
    if action == Press && d !in held then held + [d]
    else if action == Release && d in held then RemoveFirst(held, d)
    else held
  }

  /**
   * On a duplicate-free list, update_held_queue acts as a set: a press adds
   * the direction, a release takes it out, nothing else is touched, and the
   * list stays duplicate-free.
   */
  lemma HeldAfterIsSetUpdate(held: seq<Direction>, d: Direction, action: Action)
    requires NoDuplicates(held)
    ensures NoDuplicates(HeldAfter(held, d, action))
    ensures forall x :: x in HeldAfter(held, d, action) <==>
      (x in held && !(action == Release && x == d)) || (action == Press && x == d)
  {
    var after := HeldAfter(held, d, action);
    if action == Press && d !in held {
      assert multiset(after) == multiset(held) + multiset{d};
    } else if action == Release && d in held {
      RemoveFirstCounts(held, d);
      assert multiset(after) == multiset(held) - multiset{d};
      forall x
        ensures x in after <==> x in held && x != d
      {
        assert x in after <==> multiset(after)[x] > 0;
        assert x in held <==> multiset(held)[x] > 0;
      }
    }
  }

  /** Pressing a direction twice leaves the list as the first press did. */
  lemma PressIsIdempotent(held: seq<Direction>, d: Direction)
    ensures HeldAfter(HeldAfter(held, d, Press), d, Press) == HeldAfter(held, d, Press)
  {
    assert d in HeldAfter(held, d, Press) by {
      if d !in held {
        assert (held + [d])[|held|] == d;
      }
    }
  }

  /** Pressing and then releasing a direction that was not held restores the list. */
  lemma PressThenReleaseRestores(held: seq<Direction>, d: Direction)
    requires d !in held
    ensures HeldAfter(HeldAfter(held, d, Press), d, Release) == held
  {
    var pressed := held + [d];
    assert pressed[..|held|] == held;
    assert pressed[|held|] == d;
    RemoveFirstAt(pressed, d, |held|);
    assert pressed[|held| + 1..] == [];
  }

  /** Releasing a direction that is not held, or any other action, changes nothing. */
  lemma ReleaseOfUnheldIsNoOp(held: seq<Direction>, d: Direction, action: Action)
    requires action == OtherAction || (action == Release && d !in held)
    ensures HeldAfter(held, d, action) == held
  {
  }

  // ---------------------------------------------------------------------
  // Dispatch: process_keypress and toggle_device

  /** The emulated device toggle_device is handed. */
  datatype Device = Keyboard | Mouse

  /** A call on the emulated devices. */
  datatype DeviceCall =
    | DevicePress(device: Device, hotkey: string)
    | DeviceRelease(device: Device, hotkey: string)
    | Move(dx: int, dy: int)

  /** The branch of process_keypress a note takes. */
  datatype Route = ToKeyboard | ToMouse | ToCursor | Unbound

  /**
   * Keyboard table first, then mouse, then cursor. Since the tables are
   * disjoint, a note's branch is decided by the one table it is in.
   */
  function RouteOf(note: string): (r: Route)
    ensures r == ToKeyboard <==> note in KeyboardKeybinds
    ensures r == ToMouse <==> note in MouseKeybinds
    ensures r == ToCursor <==> note in CursorKeybinds
  {
    ButtonTablesDisjoint();
    KeyboardCursorDisjoint();
    MouseCursorDisjoint();
    if note in KeyboardKeybinds then ToKeyboard
    else if note in MouseKeybinds then ToMouse
    else if note in CursorKeybinds then ToCursor
    else Unbound
  }

  /** The hotkey of a button note, from the table that binds it. */
  function ButtonHotkey(note: string): string
    requires note in KeyboardKeybinds || note in MouseKeybinds
  {
    if note in KeyboardKeybinds then KeyboardKeybinds[note] else MouseKeybinds[note]
  }

  /**
   * toggle_device: a press presses the note's hotkey on the device, a
   * release releases it, any other action does nothing. The hotkey is the
   * one of the note's own table.
   */
  function ToggleCalls(device: Device, keypress: Keypress): (r: seq<DeviceCall>)
    requires keypress.note in MergedKeybinds
    ensures keypress.note in KeyboardKeybinds || keypress.note in MouseKeybinds
    ensures |r| <= 1
    ensures r == [] <==> keypress.action == OtherAction
    ensures r != [] ==> !r[0].Move? && r[0].device == device && r[0].hotkey == ButtonHotkey(keypress.note)
    ensures r != [] ==> (r[0].DevicePress? <==> keypress.action == Press)
  {
    MergedLookup(keypress.note);
    var hotkey := MergedKeybinds[keypress.note];
    match keypress.action
    case Press => [DevicePress(device, hotkey)]
    case Release => [DeviceRelease(device, hotkey)]
    case OtherAction => []
  }

  /** The device calls process_keypress makes for one keypress. */
  function KeypressCalls(pianoMode: bool, keypress: Keypress): (r: seq<DeviceCall>)
    ensures pianoMode ==> r == []
    ensures |r| <= 1
    ensures r != [] ==> !r[0].Move?
    ensures r != [] ==> RouteOf(keypress.note) == (if r[0].device == Keyboard then ToKeyboard else ToMouse)
    ensures !pianoMode && RouteOf(keypress.note) == ToKeyboard ==>
      keypress.note in MergedKeybinds && r == ToggleCalls(Keyboard, keypress)
    ensures !pianoMode && RouteOf(keypress.note) == ToMouse ==>
      keypress.note in MergedKeybinds && r == ToggleCalls(Mouse, keypress)
    ensures RouteOf(keypress.note) == ToCursor || RouteOf(keypress.note) == Unbound ==> r == []
  {
    if pianoMode then []
    else
      MergedLookup(keypress.note);
      match RouteOf(keypress.note)
      case ToKeyboard => ToggleCalls(Keyboard, keypress)
      case ToMouse => ToggleCalls(Mouse, keypress)
      case _ => []
  }

  /** The held-direction list after process_keypress. */
  function HeldAfterKeypress(pianoMode: bool, held: seq<Direction>, keypress: Keypress): seq<Direction>
  {
    if !pianoMode && RouteOf(keypress.note) == ToCursor then
      HeldAfter(held, CursorKeybinds[keypress.note], keypress.action)
    else held
  }

  /**
   * At most one branch of process_keypress runs: a keypress that makes a
   * device call leaves the held directions alone, and one that changes the
   * held directions makes no device call.
   */
  lemma KeypressHasOneEffect(pianoMode: bool, held: seq<Direction>, keypress: Keypress)
    ensures KeypressCalls(pianoMode, keypress) == [] || HeldAfterKeypress(pianoMode, held, keypress) == held
  {
  }

  /** In piano mode a keypress has no effect at all. */
  lemma PianoModeIsInert(held: seq<Direction>, keypress: Keypress)
    ensures KeypressCalls(true, keypress) == [] && HeldAfterKeypress(true, held, keypress) == held
  {
  }

  /** The stop key only stops: it presses nothing and moves no direction. */
  lemma StopKeyOnlyStops(pianoMode: bool, held: seq<Direction>, action: Action)
    ensures KeypressCalls(pianoMode, Keypress(StopKey, action)) == []
    ensures HeldAfterKeypress(pianoMode, held, Keypress(StopKey, action)) == held
  {
    StopKeyUnbound();
  }

  /**
   * A bound button note's release undoes its press: both reach the same
   * device and hotkey, the first pressing and the second releasing it.
   */
  lemma ReleaseUndoesPress(note: string)
    requires note in KeyboardKeybinds || note in MouseKeybinds
    ensures var pressed := KeypressCalls(false, Keypress(note, Press));
      var released := KeypressCalls(false, Keypress(note, Release));
      |pressed| == 1 && |released| == 1 && pressed[0].DevicePress? && released[0].DeviceRelease? &&
      pressed[0].device == released[0].device && pressed[0].hotkey == released[0].hotkey == ButtonHotkey(note)
  {
  }

  // ---------------------------------------------------------------------
  // One pass of cursor_loop

  /** A held direction's move: the direction scaled by the sensitivity. */
  function ScaledMove(d: Direction): DeviceCall
  {
    Move(d.0 * Sensitivity, d.1 * Sensitivity)
  }

  /** The moves one pass over ds emits while held is held. */
  function CursorMoves(ds: seq<Direction>, held: seq<Direction>): seq<DeviceCall>
  {
    if ds == [] then []
    else
      var d := ds[|ds| - 1];
      CursorMoves(ds[..|ds| - 1], held) + (if Neg(d) in held then [] else [ScaledMove(d)])
  }

  /**
   * A direction's move is emitted exactly when the direction is passed over
   * and its opposite is not held: an opposing pair never moves the cursor.
   */
  lemma {:induction false} CursorMovesOnlyUnopposed(ds: seq<Direction>, held: seq<Direction>, d: Direction)
    ensures ScaledMove(d) in CursorMoves(ds, held) <==> d in ds && Neg(d) !in held
    decreases |ds|
  {
    if ds != [] {
      var front := ds[..|ds| - 1];
      var last := ds[|ds| - 1];
      CursorMovesOnlyUnopposed(front, held, d);
      assert ds == front + [last];
      assert ScaledMove(last) == ScaledMove(d) <==> last == d;
    }
  }

  /** The total cursor displacement of a list of calls. */
  function Displacement(calls: seq<DeviceCall>): Direction
  {
    if calls == [] then (0, 0)
    else
      var c := calls[|calls| - 1];
      Plus(Displacement(calls[..|calls| - 1]), if c.Move? then (c.dx, c.dy) else (0, 0))
  }

  /** The directions of ds whose opposite is held (want is true) or not held (want is false). */
  function Opposed(ds: seq<Direction>, held: seq<Direction>, want: bool): seq<Direction>
  {
    if ds == [] then []
    else
      var d := ds[|ds| - 1];
      Opposed(ds[..|ds| - 1], held, want) + (if (Neg(d) in held) == want then [d] else [])
  }

  lemma DisplacementSnoc(calls: seq<DeviceCall>, c: DeviceCall)
    ensures Displacement(calls + [c]) == Plus(Displacement(calls), if c.Move? then (c.dx, c.dy) else (0, 0))
  {
    assert (calls + [c])[..|calls|] == calls;
  }

  /** Removing one occurrence of y takes y off the sum. */
  lemma {:induction false} SumRemoveFirst(s: seq<Direction>, y: Direction)
    requires y in s
    ensures Plus(Sum(RemoveFirst(s, y)), y) == Sum(s)
    decreases |s|
  {
    var x, t := s[0], s[1..];
    assert s == [x] + t;
    SumPrepend(x, t);
    if x != y {
      SumRemoveFirst(t, y);
      SumPrepend(x, RemoveFirst(t, y));
    }
  }

  /** The first direction of a duplicate-free list is not in its tail, which has no duplicates either. */
  lemma NoDuplicatesTail(s: seq<Direction>)
    requires s != [] && NoDuplicates(s)
    ensures s[0] !in s[1..] && NoDuplicates(s[1..])
  {
    assert s == [s[0]] + s[1..];
    assert multiset(s[1..]) == multiset(s) - multiset{s[0]};
    assert multiset(s)[s[0]] <= 1;
    forall y | y in s[1..]
      ensures multiset(s[1..])[y] <= 1
    {
      assert y in s;
    }
  }

  /** The list holds the opposite of each of its directions. */
  predicate NegClosed(s: seq<Direction>)
  {
    forall x {:trigger Neg(x)} | x in s :: Neg(x) in s
  }

  /** Removing a direction from a duplicate-free list removes it and only it. */
  lemma RemoveFromDuplicateFree(s: seq<Direction>, d: Direction)
    requires NoDuplicates(s) && d in s
    ensures NoDuplicates(RemoveFirst(s, d))
    ensures forall y :: y in RemoveFirst(s, d) <==> y in s && y != d
  {
    HeldAfterIsSetUpdate(s, d, Release);
  }

  /** Dropping a self-opposite head keeps the list closed under opposites. */
  lemma ClosedTailOfSelfOpposite(s: seq<Direction>)
    requires s != [] && NoDuplicates(s) && NegClosed(s) && Neg(s[0]) == s[0]
    ensures NoDuplicates(s[1..]) && NegClosed(s[1..])
  {
    NoDuplicatesTail(s);
    assert s == [s[0]] + s[1..];
    forall y | y in s[1..]
      ensures Neg(y) in s[1..]
    {
      assert Neg(y) in s;
    }
  }

  /** Dropping the head and its opposite keeps the list duplicate-free and closed under opposites. */
  lemma ClosedAfterPairRemoved(s: seq<Direction>)
    requires s != [] && NoDuplicates(s) && NegClosed(s) && Neg(s[0]) != s[0]
    ensures Neg(s[0]) in s[1..]
    ensures NoDuplicates(RemoveFirst(s[1..], Neg(s[0])))
    ensures NegClosed(RemoveFirst(s[1..], Neg(s[0])))
  {
    var x := s[0];
    var rest := s[1..];
    NoDuplicatesTail(s);
    assert s == [x] + rest;
    assert Neg(x) in s;
    RemoveFromDuplicateFree(rest, Neg(x));
    var rest' := RemoveFirst(rest, Neg(x));
    forall y | y in rest'
      ensures Neg(y) in rest'
    {
      assert Neg(y) in s;
    }
  }

  /** A duplicate-free list that holds the opposite of each of its directions sums to nothing. */
  lemma {:induction false} SumOfClosedIsZero(s: seq<Direction>)
    requires NoDuplicates(s)
    requires NegClosed(s)
    ensures Sum(s) == (0, 0)
    decreases |s|
  {
    if s != [] {
      var x := s[0];
      var rest := s[1..];
      assert s == [x] + rest;
      if Neg(x) == x {
        ClosedTailOfSelfOpposite(s);
        SumOfClosedIsZero(rest);
        SumPrepend(x, rest);
      } else {
        ClosedAfterPairRemoved(s);
        SumOfClosedIsZero(RemoveFirst(rest, Neg(x)));
        SumOfPair(x, rest);
      }
    }
  }

  /** A direction followed by a list holding its opposite sums to what remains once both are gone. */
  lemma SumOfPair(x: Direction, t: seq<Direction>)
    requires Neg(x) in t
    ensures Sum([x] + t) == Sum(RemoveFirst(t, Neg(x)))
  {
    var rest := Sum(RemoveFirst(t, Neg(x)));
    SumPrepend(x, t);
    SumRemoveFirst(t, Neg(x));
    PlusCancels(x, rest);
  }

  lemma PlusCancels(x: Direction, d: Direction)
    ensures Plus(x, Plus(d, Neg(x))) == d
  {
  }

  /** Every direction is either opposed or not: the two parts together sum to the whole. */
  lemma {:induction false} SumSplits(ds: seq<Direction>, held: seq<Direction>)
    ensures Sum(ds) == Plus(Sum(Opposed(ds, held, true)), Sum(Opposed(ds, held, false)))
    decreases |ds|
  {
    if ds != [] {
      var front := ds[..|ds| - 1];
      var d := ds[|ds| - 1];
      SumSplits(front, held);
      SumSnocIf(Opposed(front, held, true), d, Neg(d) in held);
      SumSnocIf(Opposed(front, held, false), d, Neg(d) !in held);
    }
  }

  /** Appending d when b holds adds d to the sum, and otherwise adds nothing. */
  lemma SumSnocIf(s: seq<Direction>, d: Direction, b: bool)
    ensures Sum(s + (if b then [d] else [])) == if b then Plus(Sum(s), d) else Sum(s)
  {
    if b {
      SumSnoc(s, d);
    } else {
      assert s + [] == s;
    }
  }

  /** A direction is in the opposed part when it is in ds and its opposite is held. */
  lemma {:induction false} OpposedMember(ds: seq<Direction>, held: seq<Direction>, x: Direction)
    ensures x in Opposed(ds, held, true) <==> x in ds && Neg(x) in held
    decreases |ds|
  {
    if ds != [] {
      var front := ds[..|ds| - 1];
      OpposedMember(front, held, x);
      assert ds == front + [ds[|ds| - 1]];
    }
  }

  /** The opposed part repeats no direction more often than ds does. */
  lemma {:induction false} OpposedSubMultiset(ds: seq<Direction>, held: seq<Direction>)
    ensures multiset(Opposed(ds, held, true)) <= multiset(ds)
    decreases |ds|
  {
    if ds != [] {
      var front := ds[..|ds| - 1];
      OpposedSubMultiset(front, held);
      assert ds == front + [ds[|ds| - 1]];
    }
  }

  /**
   * The directions of a duplicate-free list whose opposite it also holds
   * are duplicate-free and closed under opposites: they come in pairs.
   */
  lemma OpposedPairsUp(held: seq<Direction>)
    requires NoDuplicates(held)
    ensures NoDuplicates(Opposed(held, held, true))
    ensures NegClosed(Opposed(held, held, true))
  {
    var opposed := Opposed(held, held, true);
    OpposedSubMultiset(held, held);
    forall x | x in opposed
      ensures multiset(opposed)[x] <= 1
    {
      assert multiset(opposed)[x] <= multiset(held)[x];
    }
    forall x | x in opposed
      ensures Neg(x) in opposed
    {
      OpposedMember(held, held, x);
      OpposedMember(held, held, Neg(x));
    }
  }

  /** The opposed directions of a duplicate-free held list cancel out. */
  lemma OpposedSumsToZero(held: seq<Direction>)
    requires NoDuplicates(held)
    ensures Sum(Opposed(held, held, true)) == (0, 0)
  {
    OpposedPairsUp(held);
    SumOfClosedIsZero(Opposed(held, held, true));
  }

  /** The moves of a pass add up to the unopposed directions, scaled. */
  lemma {:induction false} DisplacementOfMoves(ds: seq<Direction>, held: seq<Direction>)
    ensures var u := Sum(Opposed(ds, held, false));
      Displacement(CursorMoves(ds, held)) == (Sensitivity * u.0, Sensitivity * u.1)
    decreases |ds|
  {
    if ds != [] {
      var front := ds[..|ds| - 1];
      var d := ds[|ds| - 1];
      var u := Sum(Opposed(front, held, false));
      var m := CursorMoves(front, held);
      DisplacementOfMoves(front, held);
      if Neg(d) in held {
        assert CursorMoves(ds, held) == m + [];
        assert m + [] == m;
        assert Opposed(ds, held, false) == Opposed(front, held, false) + [];
        assert Opposed(front, held, false) + [] == Opposed(front, held, false);
      } else {
        assert CursorMoves(ds, held) == m + [ScaledMove(d)];
        DisplacementSnoc(m, ScaledMove(d));
        assert Opposed(ds, held, false) == Opposed(front, held, false) + [d];
        SumSnoc(Opposed(front, held, false), d);
        assert Sensitivity * (u.0 + d.0) == Sensitivity * u.0 + d.0 * Sensitivity;
        assert Sensitivity * (u.1 + d.1) == Sensitivity * u.1 + d.1 * Sensitivity;
      }
    }
  }

  /**
   * One pass of cursor_loop over a duplicate-free held list moves the
   * cursor by the sensitivity times the sum of the held directions:
   * leaving out both members of each opposing pair changes nothing.
   */
  lemma CursorPassDisplacement(held: seq<Direction>)
    requires NoDuplicates(held)
    ensures var total := Sum(held);
      Displacement(CursorMoves(held, held)) == (Sensitivity * total.0, Sensitivity * total.1)
  {
    SumSplits(held, held);
    DisplacementOfMoves(held, held);
    OpposedSumsToZero(held);
  }

  // ---------------------------------------------------------------------
  // The controller's state

  /**
   * The state piano_control.py keeps in module globals: the piano-mode
   * switch, the list of held directions, and (standing for the emulated
   * devices) the calls made so far.
   */
  class Controller {
    const pianoMode: bool
    var heldDirections: seq<Direction>
    var calls: seq<DeviceCall>

    /** The held list has no duplicates; update_held_queue keeps it so. */
    ghost predicate Valid()
      reads this
    {
      NoDuplicates(heldDirections)
    }

    constructor (pianoMode: bool)
      ensures this.pianoMode == pianoMode && heldDirections == [] && calls == []
      ensures Valid()
    {
      this.pianoMode := pianoMode;
      heldDirections := [];
      calls := [];
    }

    /** update_held_queue, for a note of the cursor table. */
    method UpdateHeldQueue(keypress: Keypress)
      requires keypress.note in CursorKeybinds
      modifies this
      ensures heldDirections == HeldAfter(old(heldDirections), CursorKeybinds[keypress.note], keypress.action)
      ensures calls == old(calls)
      ensures old(Valid()) ==> Valid()
    {
      ghost var before := heldDirections;
      var direction := CursorKeybinds[keypress.note];
      if keypress.action == Press && direction !in heldDirections {
        heldDirections := heldDirections + [direction];
      } else if keypress.action == Release && direction in heldDirections {
        var i := 0;
        while heldDirections[i] != direction
          invariant 0 <= i < |heldDirections|
          invariant direction !in heldDirections[..i]
          invariant direction in heldDirections[i..]
          decreases |heldDirections| - i
        {
          assert heldDirections[i..] == [heldDirections[i]] + heldDirections[i + 1..];
          assert heldDirections[..i + 1] == heldDirections[..i] + [heldDirections[i]];
          i := i + 1;
        }
        RemoveFirstAt(heldDirections, direction, i);
        heldDirections := heldDirections[..i] + heldDirections[i + 1..];
      }
      if NoDuplicates(before) {
        HeldAfterIsSetUpdate(before, direction, keypress.action);
      }
    }

    /** toggle_device, for a note of one of the button tables. */
    method ToggleDevice(keypress: Keypress, device: Device)
      requires keypress.note in MergedKeybinds
      modifies this
      ensures calls == old(calls) + ToggleCalls(device, keypress)
      ensures heldDirections == old(heldDirections)
    {
      var hotkey := MergedKeybinds[keypress.note];
      if keypress.action == Press {
        calls := calls + [DevicePress(device, hotkey)];
      } else if keypress.action == Release {
        calls := calls + [DeviceRelease(device, hotkey)];
      }
    }

    /**
     * process_keypress: outside piano mode, hand the keypress to the
     * keyboard, the mouse or the held list, whichever binds its note; then
     * report whether it was the stop key. In piano mode, do nothing and go on.
     */
    method ProcessKeypress(keypress: Keypress) returns (stop: bool)
      modifies this
      ensures stop <==> !pianoMode && keypress.note == StopKey
      ensures calls == old(calls) + KeypressCalls(pianoMode, keypress)
      ensures heldDirections == HeldAfterKeypress(pianoMode, old(heldDirections), keypress)
      ensures old(Valid()) ==> Valid()
    {
      if pianoMode {
        return false;
      }
      MergedLookup(keypress.note);
      if keypress.note in KeyboardKeybinds {
        ToggleDevice(keypress, Keyboard);
      } else if keypress.note in MouseKeybinds {
        ToggleDevice(keypress, Mouse);
      } else if keypress.note in CursorKeybinds {
        UpdateHeldQueue(keypress);
      }
      return keypress.note == StopKey;
    }

    /**
     * One pass of cursor_loop: each held direction, in list order, moves
     * the cursor by the direction scaled by the sensitivity, unless its
     * opposite is held too.
     */
    method CursorTick()
      modifies this
      ensures calls == old(calls) + CursorMoves(heldDirections, heldDirections)
      ensures heldDirections == old(heldDirections)
    {
      for i := 0 to |heldDirections|
        invariant heldDirections == old(heldDirections)
        invariant calls == old(calls) + CursorMoves(heldDirections[..i], heldDirections)
      {
        var direction := heldDirections[i];
        if (-direction.0, -direction.1) !in heldDirections {
          calls := calls + [Move(direction.0 * Sensitivity, direction.1 * Sensitivity)];
        }
        assert heldDirections[..i + 1][..i] == heldDirections[..i];
      }
      assert heldDirections[..|heldDirections|] == heldDirections;
    }
  }
}
