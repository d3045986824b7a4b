/**
 * The dispatcher of main.py. A Program turns decoded keystrokes into calls
 * on the keyboard, mouse and display collaborators; the model records those
 * calls, in order, in a trace.
 */
module MainProgram {
  import opened Packaging
  import opened Midi
  import opened Directions

  /** Default piano mode: no device emulation, display only. */
  const DefaultPianoMode := true

  /** Default cursor step per held direction and tick. */
  const DefaultSensitivity := 12

  /**
   * The keybinding file, keyed by key name ("A#4"): keyboard hotkeys, mouse
   * buttons, cursor direction vectors, and the key name that quits.
   */
  datatype Keybinds = Keybinds(
    keyboard: map<string, string>,
    mouse: map<string, string>,
    cursor: map<string, Direction>,
    quit: string)

  /** A call on a collaborator: keyboard, mouse or display. */
  datatype Call =
    | KeyboardPress(hotkey: string)
    | KeyboardRelease(hotkey: string)
    | MousePress(button: string)
    | MouseRelease(button: string)
    | MouseMove(dx: int, dy: int)
    | DisplayUpdate(keystroke: Keystroke)

  /** What one logic tick sees: a device read, the display's held keys after the batch, and whether the window was closed. */
  datatype TickInput = TickInput(read: DeviceRead, held: seq<Keystroke>, closed: bool)

  /** The call that undoes a press or release; other calls are their own. */
  function Opposite(c: Call): Call
  {
    match c
    case KeyboardPress(h) => KeyboardRelease(h)
    case KeyboardRelease(h) => KeyboardPress(h)
    case MousePress(b) => MouseRelease(b)
    case MouseRelease(b) => MousePress(b)
    case _ => c
  }

  /**
   * process_keystroke: nothing in piano mode; otherwise the keyboard table is
   * consulted before the mouse table, and the bound hotkey is pressed or
   * released according to the keystroke.
   */
  function KeystrokeCalls(binds: Keybinds, pianoMode: bool, k: Keystroke): (r: seq<Call>)
    ensures |r| <= 1
    ensures pianoMode ==> r == []
    ensures k.fullNote !in binds.keyboard && k.fullNote !in binds.mouse ==> r == []
    ensures r != [] ==> !r[0].DisplayUpdate? && !r[0].MouseMove?
    ensures r != [] ==> (r[0].KeyboardPress? || r[0].MousePress? <==> k.press)
    ensures !pianoMode && k.fullNote in binds.keyboard ==>
      var hotkey := binds.keyboard[k.fullNote];
      r == [if k.press then KeyboardPress(hotkey) else KeyboardRelease(hotkey)]
    ensures !pianoMode && k.fullNote !in binds.keyboard && k.fullNote in binds.mouse ==>
      var button := binds.mouse[k.fullNote];
      r == [if k.press then MousePress(button) else MouseRelease(button)]
  {
    var name := k.fullNote;
    if pianoMode then []
    else if name in binds.keyboard then
      var hotkey := binds.keyboard[name];
      [if k.press then KeyboardPress(hotkey) else KeyboardRelease(hotkey)]
    else if name in binds.mouse then
      var button := binds.mouse[name];
      [if k.press then MousePress(button) else MouseRelease(button)]
    else []
  }

  /**
   * First match wins: a key bound on the keyboard acts on its keyboard hotkey
   * even when the mouse table binds it too, and never on the mouse.
   */
  lemma KeyboardBeforeMouse(binds: Keybinds, k: Keystroke)
    requires k.fullNote in binds.keyboard
    ensures KeystrokeCalls(binds, false, k) ==
      [if k.press then KeyboardPress(binds.keyboard[k.fullNote]) else KeyboardRelease(binds.keyboard[k.fullNote])]
  {
  }

  /**
   * A key bound only in the mouse table presses or releases its own mouse
   * button, and makes no keyboard call.
   */
  lemma MouseAfterKeyboard(binds: Keybinds, k: Keystroke)
    requires k.fullNote !in binds.keyboard && k.fullNote in binds.mouse
    ensures KeystrokeCalls(binds, false, k) ==
      [if k.press then MousePress(binds.mouse[k.fullNote]) else MouseRelease(binds.mouse[k.fullNote])]
  {
  }

  /**
   * A release undoes its press: the inverted keystroke acts on the same
   * hotkey with the opposite call.
   */
  lemma InvertedKeystrokeUndoes(binds: Keybinds, pianoMode: bool, k: Keystroke)
    requires k.Valid()
    ensures |KeystrokeCalls(binds, pianoMode, k.Inverted().value)| == |KeystrokeCalls(binds, pianoMode, k)|
    ensures forall i :: 0 <= i < |KeystrokeCalls(binds, pianoMode, k)| ==>
      KeystrokeCalls(binds, pianoMode, k.Inverted().value)[i] == Opposite(KeystrokeCalls(binds, pianoMode, k)[i])
  {
    var inv := k.Inverted().value;
    FullNoteInjective(k, inv);
  }

  /** The direction vectors of the held keys that the cursor table binds, in held order. */
  function HeldDirections(cursor: map<string, Direction>, held: seq<Keystroke>): seq<Direction>
  {
    if held == [] then []
    else
      HeldDirections(cursor, held[..|held| - 1]) +
      (if held[|held| - 1].fullNote in cursor then [cursor[held[|held| - 1].fullNote]] else [])
  }

  lemma {:induction false} HeldDirectionsAppend(cursor: map<string, Direction>, a: seq<Keystroke>, b: seq<Keystroke>)
    ensures HeldDirections(cursor, a + b) == HeldDirections(cursor, a) + HeldDirections(cursor, b)
    decreases |b|
  {
    if b == [] {
      assert a + b == a;
    } else {
      assert (a + b)[..|a + b| - 1] == a + b[..|b| - 1];
      HeldDirectionsAppend(cursor, a, b[..|b| - 1]);
    }
  }

  /** The summed direction of the held cursor keys. */
  function HeldSum(cursor: map<string, Direction>, held: seq<Keystroke>): Direction
  {
    Sum(HeldDirections(cursor, held))
  }

  /**
   * process_cursor: no call when no held key is a cursor key; otherwise one
   * relative move by the summed directions, each axis scaled by the
   * sensitivity. A zero sum still gives a move call.
   */
  function CursorCalls(cursor: map<string, Direction>, sensitivity: int, held: seq<Keystroke>): (r: seq<Call>)
    ensures r == [] || r == [MouseMove(HeldSum(cursor, held).0 * sensitivity, HeldSum(cursor, held).1 * sensitivity)]
  {
    if held == [] then []
    else
      var directions := HeldDirections(cursor, held);
      if directions == [] then []
      else
        var sum := Sum(directions);
        [MouseMove(sum.0 * sensitivity, sum.1 * sensitivity)]
  }

  /** A held key is a cursor key exactly when it contributes a direction. */
  lemma {:induction false} HeldDirectionsEmptyIff(cursor: map<string, Direction>, held: seq<Keystroke>)
    ensures HeldDirections(cursor, held) == [] <==> forall i :: 0 <= i < |held| ==> held[i].fullNote !in cursor
    decreases |held|
  {
    if held != [] {
      var front := held[..|held| - 1];
      HeldDirectionsEmptyIff(cursor, front);
      assert forall i :: 0 <= i < |front| ==> front[i] == held[i];
    }
  }

  /**
   * process_cursor makes no call exactly when none of the held keys is a
   * cursor key (in particular when nothing is held), and otherwise makes
   * one move call.
   */
  lemma NoMoveIffNoCursorKeyHeld(cursor: map<string, Direction>, sensitivity: int, held: seq<Keystroke>)
    ensures CursorCalls(cursor, sensitivity, held) == [] <==> forall i :: 0 <= i < |held| ==> held[i].fullNote !in cursor
    ensures |CursorCalls(cursor, sensitivity, held)| <= 1
  {
    HeldDirectionsEmptyIff(cursor, held);
  }

  /** The order in which keys are held does not change the move. */
  lemma HeldSumOrderFree(cursor: map<string, Direction>, a: seq<Keystroke>, b: seq<Keystroke>)
    ensures HeldSum(cursor, a + b) == HeldSum(cursor, b + a)
  {
    assert multiset(a + b) == multiset(b + a);
    HeldSumPermutation(cursor, a + b, b + a);
  }

  /** The held sum of two runs of keys is the sum of their held sums. */
  lemma HeldSumAppend(cursor: map<string, Direction>, a: seq<Keystroke>, b: seq<Keystroke>)
    ensures HeldSum(cursor, a + b) == Plus(HeldSum(cursor, a), HeldSum(cursor, b))
  {
    HeldDirectionsAppend(cursor, a, b);
    SumAppend(HeldDirections(cursor, a), HeldDirections(cursor, b));
  }

  /** Moving one held key to the front does not change the summed direction. */
  lemma HeldSumMoveToFront(cursor: map<string, Direction>, pre: seq<Keystroke>, k: Keystroke, post: seq<Keystroke>)
    ensures HeldSum(cursor, pre + [k] + post) == HeldSum(cursor, [k] + (pre + post))
  {
    HeldSumAppend(cursor, pre + [k], post);
    HeldSumAppend(cursor, pre, [k]);
    HeldSumAppend(cursor, [k], pre + post);
    HeldSumAppend(cursor, pre, post);
    PlusRotate(HeldSum(cursor, pre), HeldSum(cursor, [k]), HeldSum(cursor, post));
  }

  /**
   * The held keys form a collection without order: any two arrangements of
   * the same held keystrokes give the same summed direction.
   */
  lemma {:induction false} HeldSumPermutation(cursor: map<string, Direction>, a: seq<Keystroke>, b: seq<Keystroke>)
    requires multiset(a) == multiset(b)
    ensures HeldSum(cursor, a) == HeldSum(cursor, b)
    decreases |a|
  {
    if a == [] {
      assert |b| == |multiset(b)| == 0;
    } else {
      var k, tail := a[0], a[1..];
      assert a == [k] + tail;
      var pre, post := SplitAt(a, b);
      HeldSumPermutation(cursor, tail, pre + post);
      HeldSumMoveToFront(cursor, pre, k, post);
      HeldSumAppend(cursor, [k], tail);
      HeldSumAppend(cursor, [k], pre + post);
    }
  }

  /** Finds the first key of a in b, and splits b around it so that the rest of b is a rearrangement of the rest of a. */
  lemma SplitAt(a: seq<Keystroke>, b: seq<Keystroke>) returns (pre: seq<Keystroke>, post: seq<Keystroke>)
    requires a != [] && multiset(a) == multiset(b)
    ensures b == pre + [a[0]] + post
    ensures multiset(a[1..]) == multiset(pre + post)
  {
    assert a == [a[0]] + a[1..];
    assert a[0] in multiset(b);
    var i :| 0 <= i < |b| && b[i] == a[0];
    pre, post := b[..i], b[i + 1..];
    assert b == pre + [a[0]] + post;
    MultisetCancel(a[0], a[1..], pre, post);
  }

  lemma MultisetCancel(k: Keystroke, tail: seq<Keystroke>, pre: seq<Keystroke>, post: seq<Keystroke>)
    requires multiset([k] + tail) == multiset(pre + [k] + post)
    ensures multiset(tail) == multiset(pre + post)
  {
    assert multiset(pre + [k] + post) == multiset(pre + post) + multiset{k};
    assert multiset([k] + tail) == multiset(tail) + multiset{k};
    assert multiset(tail) == multiset([k] + tail) - multiset{k};
    assert multiset(pre + post) == multiset(pre + [k] + post) - multiset{k};
  }

  /** A held cursor key adds its direction to the sum of the keys around it. */
  lemma HeldSumAround(cursor: map<string, Direction>, pre: seq<Keystroke>, k: Keystroke, post: seq<Keystroke>)
    requires k.fullNote in cursor
    ensures var v := cursor[k.fullNote];
      HeldSum(cursor, pre + [k] + post) == Plus(HeldSum(cursor, pre + post), v)
  {
    var v := cursor[k.fullNote];
    HeldDirectionsAppend(cursor, pre + [k], post);
    HeldDirectionsAppend(cursor, pre, [k]);
    HeldDirectionsAppend(cursor, pre, post);
    HeldDirectionsSingle(cursor, k);
    SumAround(HeldDirections(cursor, pre), v, HeldDirections(cursor, post));
  }

  /** A direction in the middle of a list adds itself to the sum of the rest. */
  lemma SumAround(a: seq<Direction>, v: Direction, b: seq<Direction>)
    ensures Sum(a + [v] + b) == Plus(Sum(a + b), v)
  {
    SumAppend(a + [v], b);
    SumSnoc(a, v);
    SumAppend(a, b);
    PlusSwap(Sum(a), v, Sum(b));
  }

  lemma HeldDirectionsSingle(cursor: map<string, Direction>, k: Keystroke)
    requires k.fullNote in cursor
    ensures HeldDirections(cursor, [k]) == [cursor[k.fullNote]]
  {
    assert [k][..0] == [];
  }

  /**
   * Two held keys bound to opposite directions cancel: the sum is that of
   * the other held keys.
   */
  lemma OppositeKeysCancel(cursor: map<string, Direction>, pre: seq<Keystroke>, a: Keystroke,
                           mid: seq<Keystroke>, b: Keystroke, post: seq<Keystroke>)
    requires a.fullNote in cursor && b.fullNote in cursor
    requires cursor[b.fullNote] == Neg(cursor[a.fullNote])
    ensures HeldSum(cursor, pre + [a] + mid + [b] + post) == HeldSum(cursor, pre + mid + post)
  {
    HeldSumAround(cursor, pre + [a] + mid, b, post);
    assert pre + [a] + mid + post == pre + [a] + (mid + post);
    HeldSumAround(cursor, pre, a, mid + post);
    assert pre + (mid + post) == pre + mid + post;
    PlusNegCancels(HeldSum(cursor, pre + mid + post), cursor[a.fullNote]);
  }

  /** Holding a left key and a right key gives no horizontal motion, yet a move call is made. */
  lemma LeftAndRightCancel(cursor: map<string, Direction>, sensitivity: int, left: Keystroke, right: Keystroke)
    requires left.fullNote in cursor && cursor[left.fullNote] == (-1, 0)
    requires right.fullNote in cursor && cursor[right.fullNote] == (1, 0)
    ensures CursorCalls(cursor, sensitivity, [left, right]) == [MouseMove(0, 0)]
  {
    OppositeKeysCancel(cursor, [], left, [], right, []);
    assert [] + [left] + [] + [right] + [] == [left, right];
    assert HeldSum(cursor, [] + [] + []) == (0, 0);
  }

  /** The key that ends the loop; only outside piano mode. */
  predicate IsQuit(binds: Keybinds, pianoMode: bool, k: Keystroke)
  {
    k.fullNote == binds.quit && !pianoMode
  }

  /** The position of the first quitting keystroke of a batch, or its length if none quits. */
  function QuitIndex(binds: Keybinds, pianoMode: bool, ks: seq<Keystroke>): (q: nat)
    ensures q <= |ks|
    ensures pianoMode ==> q == |ks|
  {
    if ks == [] then 0
    else if IsQuit(binds, pianoMode, ks[0]) then 0
    else 1 + QuitIndex(binds, pianoMode, ks[1..])
  }

  /** No keystroke before QuitIndex quits, and the one at QuitIndex (if any) does. */
  lemma {:induction false} QuitIndexFindsFirst(binds: Keybinds, pianoMode: bool, ks: seq<Keystroke>)
    ensures var q := QuitIndex(binds, pianoMode, ks);
      (forall j :: 0 <= j < q ==> !IsQuit(binds, pianoMode, ks[j])) &&
      (q < |ks| ==> IsQuit(binds, pianoMode, ks[q]))
  {
    if ks != [] && !IsQuit(binds, pianoMode, ks[0]) {
      QuitIndexFindsFirst(binds, pianoMode, ks[1..]);
      var q := QuitIndex(binds, pianoMode, ks);
      forall j | 0 <= j < q
        ensures !IsQuit(binds, pianoMode, ks[j])
      {
        if j > 0 {
          assert ks[j] == ks[1..][j - 1];
        }
      }
    }
  }

  /** QuitIndex is the first quitting position: any position with no quit before it and a quit (or the end) at it. */
  lemma {:induction false} QuitIndexIsFirst(binds: Keybinds, pianoMode: bool, ks: seq<Keystroke>, i: nat)
    requires i <= |ks|
    requires forall j :: 0 <= j < i ==> !IsQuit(binds, pianoMode, ks[j])
    requires i < |ks| ==> IsQuit(binds, pianoMode, ks[i])
    ensures QuitIndex(binds, pianoMode, ks) == i
    decreases i
  {
    if i > 0 {
      assert !IsQuit(binds, pianoMode, ks[0]);
      QuitIndexIsFirst(binds, pianoMode, ks[1..], i - 1);
    }
  }

  /** Scanning past a keystroke that does not quit: the first quit lies further on. */
  lemma {:induction false} QuitIndexStep(binds: Keybinds, pianoMode: bool, ks: seq<Keystroke>, i: nat)
    requires i < |ks| && QuitIndex(binds, pianoMode, ks) >= i
    ensures if IsQuit(binds, pianoMode, ks[i]) then QuitIndex(binds, pianoMode, ks) == i
            else QuitIndex(binds, pianoMode, ks) > i
    decreases i
  {
    if i > 0 {
      QuitIndexStep(binds, pianoMode, ks[1..], i - 1);
      assert ks[1..][i - 1] == ks[i];
    }
  }

  /** The calls of a batch in which no keystroke quits: each keystroke's device call, then its display update. */
  function BatchCalls(binds: Keybinds, pianoMode: bool, ks: seq<Keystroke>): seq<Call>
  {
    if ks == [] then []
    else
      var k := ks[|ks| - 1];
      BatchCalls(binds, pianoMode, ks[..|ks| - 1]) + KeystrokeCalls(binds, pianoMode, k) + [DisplayUpdate(k)]
  }

  lemma BatchCallsStep(binds: Keybinds, pianoMode: bool, ks: seq<Keystroke>, i: nat)
    requires i < |ks|
    ensures BatchCalls(binds, pianoMode, ks[..i + 1]) ==
      BatchCalls(binds, pianoMode, ks[..i]) + KeystrokeCalls(binds, pianoMode, ks[i]) + [DisplayUpdate(ks[i])]
  {
    assert ks[..i + 1][..i] == ks[..i];
  }

  /** The keystrokes handed to the display, in call order. */
  function Displayed(calls: seq<Call>): seq<Keystroke>
  {
    if calls == [] then []
    else
      Displayed(calls[..|calls| - 1]) +
      (if calls[|calls| - 1].DisplayUpdate? then [calls[|calls| - 1].keystroke] else [])
  }

  lemma {:induction false} DisplayedAppend(a: seq<Call>, b: seq<Call>)
    ensures Displayed(a + b) == Displayed(a) + Displayed(b)
    decreases |b|
  {
    if b == [] {
      assert a + b == a;
    } else {
      assert (a + b)[..|a + b| - 1] == a + b[..|b| - 1];
      DisplayedAppend(a, b[..|b| - 1]);
    }
  }

  lemma DisplayedNone(calls: seq<Call>)
    requires forall c :: c in calls ==> !c.DisplayUpdate?
    ensures Displayed(calls) == []
  {
    if calls != [] {
      assert calls[|calls| - 1] in calls;
      DisplayedNone(calls[..|calls| - 1]);
    }
  }

  lemma DisplayedSnoc(calls: seq<Call>, c: Call)
    ensures Displayed(calls + [c]) == Displayed(calls) + (if c.DisplayUpdate? then [c.keystroke] else [])
  {
    assert (calls + [c])[..|calls|] == calls;
  }

  /** A keystroke's own device call shows nothing on the display. */
  lemma KeystrokeDisplaysNothing(binds: Keybinds, pianoMode: bool, k: Keystroke)
    ensures Displayed(KeystrokeCalls(binds, pianoMode, k)) == []
  {
    var calls := KeystrokeCalls(binds, pianoMode, k);
    assert forall c :: c in calls ==> c == calls[0];
    DisplayedNone(calls);
  }

  /** Every keystroke of a batch reaches the display, once each and in batch order. */
  lemma {:induction false} BatchDisplaysInOrder(binds: Keybinds, pianoMode: bool, ks: seq<Keystroke>)
    ensures Displayed(BatchCalls(binds, pianoMode, ks)) == ks
    decreases |ks|
  {
    if ks != [] {
      var k := ks[|ks| - 1];
      var front := BatchCalls(binds, pianoMode, ks[..|ks| - 1]);
      var own := KeystrokeCalls(binds, pianoMode, k);
      BatchDisplaysInOrder(binds, pianoMode, ks[..|ks| - 1]);
      KeystrokeDisplaysNothing(binds, pianoMode, k);
      DisplayedStep(front, own, k);
      assert ks[..|ks| - 1] + [k] == ks;
    }
  }

  /** Calls that display nothing, then a display update, add just that keystroke to the display. */
  lemma DisplayedStep(front: seq<Call>, own: seq<Call>, k: Keystroke)
    requires Displayed(own) == []
    ensures Displayed(front + own + [DisplayUpdate(k)]) == Displayed(front) + [k]
  {
    DisplayedAppend(front, own);
    DisplayedSnoc(front + own, DisplayUpdate(k));
    assert Displayed(front) + [] == Displayed(front);
  }

  /** In piano mode a batch only updates the display: no keyboard or mouse call at all. */
  lemma {:induction false} PianoModeBatchOnlyDisplays(binds: Keybinds, ks: seq<Keystroke>)
    ensures forall c :: c in BatchCalls(binds, true, ks) ==> c.DisplayUpdate?
    decreases |ks|
  {
    if ks != [] {
      PianoModeBatchOnlyDisplays(binds, ks[..|ks| - 1]);
    }
  }

  /**
   * _logic_tick's calls: the batch up to (not including) the first quitting
   * keystroke; then, when nothing quit and not in piano mode, the cursor move.
   */
  function TickCalls(binds: Keybinds, pianoMode: bool, sensitivity: int, t: TickInput): seq<Call>
  {
    var ks := GetKeystrokes(t.read);
    var q := QuitIndex(binds, pianoMode, ks);
    BatchCalls(binds, pianoMode, ks[..q]) +
    (if q == |ks| && !pianoMode then CursorCalls(binds.cursor, sensitivity, t.held) else [])
  }

  /** _logic_tick's result: the loop goes on unless a keystroke quit or the window was closed. */
  predicate TickContinues(binds: Keybinds, pianoMode: bool, t: TickInput)
  {
    var ks := GetKeystrokes(t.read);
    QuitIndex(binds, pianoMode, ks) == |ks| && !t.closed
  }

  /**
   * A tick displays exactly the keystrokes before the first quitting one,
   * in order; the quitting keystroke and everything after it are dropped.
   */
  lemma TickDisplaysUpToQuit(binds: Keybinds, pianoMode: bool, sensitivity: int, t: TickInput)
    ensures Displayed(TickCalls(binds, pianoMode, sensitivity, t)) ==
      GetKeystrokes(t.read)[..QuitIndex(binds, pianoMode, GetKeystrokes(t.read))]
  {
    var ks := GetKeystrokes(t.read);
    var q := QuitIndex(binds, pianoMode, ks);
    var cursorCalls := if q == |ks| && !pianoMode then CursorCalls(binds.cursor, sensitivity, t.held) else [];
    DisplayedAppend(BatchCalls(binds, pianoMode, ks[..q]), cursorCalls);
    BatchDisplaysInOrder(binds, pianoMode, ks[..q]);
    DisplayedNone(cursorCalls);
  }

  /** In piano mode the quit key does not stop the loop and the cursor is never moved. */
  lemma PianoModeTick(binds: Keybinds, sensitivity: int, t: TickInput)
    ensures TickContinues(binds, true, t) <==> !t.closed
    ensures forall c :: c in TickCalls(binds, true, sensitivity, t) ==> c.DisplayUpdate?
  {
    var ks := GetKeystrokes(t.read);
    PianoModeBatchOnlyDisplays(binds, ks);
    assert ks[..|ks|] == ks;
  }

  /**
   * The Program object of main.py. The keybindings, piano mode and
   * sensitivity are fixed at construction; the trace grows as calls are made.
   */
  class Program {
    const pianoMode: bool
    const sensitivity: int
    const binds: Keybinds
    var calls: seq<Call>

    constructor (binds: Keybinds, pianoMode: bool := DefaultPianoMode, sensitivity: int := DefaultSensitivity)
      ensures this.binds == binds && this.pianoMode == pianoMode && this.sensitivity == sensitivity
      ensures calls == []
    {
      this.binds := binds;
      this.pianoMode := pianoMode;
      this.sensitivity := sensitivity;
      calls := [];
    }

    /** process_keystroke. */
    method ProcessKeystroke(k: Keystroke)
      modifies this
      ensures calls == old(calls) + KeystrokeCalls(binds, pianoMode, k)
    {
      if pianoMode {
        return;
      }
      var name := k.fullNote;
      if name in binds.keyboard {
        var hotkey := binds.keyboard[name];
        calls := calls + [if k.press then KeyboardPress(hotkey) else KeyboardRelease(hotkey)];
      } else if name in binds.mouse {
        var button := binds.mouse[name];
        calls := calls + [if k.press then MousePress(button) else MouseRelease(button)];
      }
    }

    /** process_cursor, given the display's held keystrokes. */
    method ProcessCursor(held: seq<Keystroke>)
      modifies this
      ensures calls == old(calls) + CursorCalls(binds.cursor, sensitivity, held)
    {
      calls := calls + CursorCalls(binds.cursor, sensitivity, held);
    }

    /**
     * The loop of _logic_tick over one batch: each keystroke is processed
     * and then shown, in order, until a quitting keystroke, which is neither
     * processed nor shown. Reports whether a keystroke quit.
     */
    method HandleBatch(keystrokes: seq<Keystroke>) returns (quit: bool)
      modifies this
      ensures quit <==> QuitIndex(binds, pianoMode, keystrokes) < |keystrokes|
      ensures calls == old(calls) + BatchCalls(binds, pianoMode, keystrokes[..QuitIndex(binds, pianoMode, keystrokes)])
    {
      var i := 0;
      while i < |keystrokes|
        invariant 0 <= i <= |keystrokes|
        invariant QuitIndex(binds, pianoMode, keystrokes) >= i
        invariant calls == old(calls) + BatchCalls(binds, pianoMode, keystrokes[..i])
      {
        var k := keystrokes[i];
        QuitIndexStep(binds, pianoMode, keystrokes, i);
        if IsQuit(binds, pianoMode, k) {
          assert QuitIndex(binds, pianoMode, keystrokes) == i;
          return true;
        }
        ProcessKeystroke(k);
        calls := calls + [DisplayUpdate(k)];
        BatchCallsStep(binds, pianoMode, keystrokes, i);
        i := i + 1;
      }
      assert keystrokes[..|keystrokes|] == keystrokes;
      return false;
    }

    /**
     * _logic_tick: handle the batch read from the device; then move the
     * cursor outside piano mode; then report whether the loop should go on.
     */
    method LogicTick(t: TickInput) returns (keepRunning: bool)
      modifies this
      ensures calls == old(calls) + TickCalls(binds, pianoMode, sensitivity, t)
      ensures keepRunning == TickContinues(binds, pianoMode, t)
    {
      var keystrokes := GetKeystrokes(t.read);
      var quit := HandleBatch(keystrokes);
      if quit {
        return false;
      }
      if !pianoMode {
        ProcessCursor(t.held);
      }
      if t.closed {
        return false;
      }
      return true;
    }
  }
}
