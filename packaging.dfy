/**
 * The keystroke value type of packaging.py: a validated note/octave/press
 * record whose identity is its note name and octave only.
 */
module Packaging {
  import opened Wrappers

  /** The twelve pitch classes, in the order the MIDI decoder indexes them. */
  const Notes: seq<string> := ["C", "C#", "D", "D#", "E", "F", "F#", "G", "G#", "A", "A#", "B"]

  /** A position in the note table. */
  type PitchClass = i: nat | i < 12

  /**
   * A keystroke's attributes as the constructor sets them. The note is kept
   * as its position in the note table, so it is always one of the twelve
   * names, and the octave is never negative: the types carry the
   * constructor's checks. The key name (full_note) is stored, as the
   * constructor stores it; Valid says it was computed from the note and
   * octave.
   */
  datatype Keystroke = Keystroke(pitch: PitchClass, octave: nat, press: bool, fullNote: string)
  {
    /** The upper-case note name, e.g. "C#". */
    function Note(): string
    {
      Notes[pitch]
    }

    /** The key name is the note name followed by the octave in decimal, e.g. "C#5". */
    predicate Valid()
    {
      fullNote == Note() + DecimalString(octave)
    }

    /** A fresh keystroke for the same key with the action flipped. */
    function Inverted(): (r: Result<Keystroke, KeystrokeError>)
      ensures r.Success? && r.value.Valid()
      ensures r.value.Note() == Note() && r.value.octave == octave && r.value.press == !press
    {
      NewKeystroke(Note(), octave, !press)
    }
  }

  /** Why construction fails. */
  datatype KeystrokeError =
    | InvalidNote(note: string)
    | NegativeOctave(octave: int)

  /** Upper-cases ASCII letters and leaves every other character alone. */
  function UpperChar(c: char): char
  {
    if 'a' <= c <= 'z' then (c as int - 32) as char else c
  }

  function Upper(s: string): string
  {
    seq(|s|, i requires 0 <= i < |s| => UpperChar(s[i]))
  }

  lemma UpperFixesNotes(n: string)
    ensures n in Notes ==> Upper(n) == n
  {
  }

  /** No name appears twice in the note table. */
  lemma NotesDistinct(i: nat, j: nat)
    requires i < 12 && j < 12 && Notes[i] == Notes[j]
    ensures i == j
  {
  }

  /** The table position of a note name, if it is one. */
  function PitchOf(name: string): (r: Option<PitchClass>)
    ensures r.Some? <==> name in Notes
    ensures r.Some? ==> Notes[r.value] == name
  {
    if name == "C" then Some(0) else if name == "C#" then Some(1) else if name == "D" then Some(2)
    else if name == "D#" then Some(3) else if name == "E" then Some(4) else if name == "F" then Some(5)
    else if name == "F#" then Some(6) else if name == "G" then Some(7) else if name == "G#" then Some(8)
    else if name == "A" then Some(9) else if name == "A#" then Some(10) else if name == "B" then Some(11)
    else None
  }

  /**
   * The validating constructor: the note is upper-cased and must then be one
   * of the twelve names; a negative octave is refused after that. The press
   * flag defaults to a press.
   */
  function NewKeystroke(note: string, octave: int, press: bool := true): (r: Result<Keystroke, KeystrokeError>)
    ensures r.Success? <==> Upper(note) in Notes && octave >= 0
    ensures Upper(note) !in Notes ==> r == Failure(InvalidNote(Upper(note)))
    ensures Upper(note) in Notes && octave < 0 ==> r == Failure(NegativeOctave(octave))
    ensures r.Success? ==> r.value.Valid()
    ensures r.Success? ==> r.value.Note() == Upper(note) && r.value.octave == octave && r.value.press == press
    ensures forall i :: 0 <= i < 12 && note == Notes[i] && octave >= 0 ==>
      r == Success(Keystroke(i, octave, press, note + DecimalString(octave)))
  {
    var upper := Upper(note);
    UpperFixesNotes(note);
    match PitchOf(upper)
    case None => Failure(InvalidNote(upper))
    case Some(pitch) =>
      if octave < 0 then
        Failure(NegativeOctave(octave))
      else
        assert forall i :: 0 <= i < 12 && note == Notes[i] ==> i == pitch by {
          forall i | 0 <= i < 12 && note == Notes[i] { NotesDistinct(i, pitch); }
        }
        Success(Keystroke(pitch, octave, press, Notes[pitch] + DecimalString(octave)))
  }

  /** Without a press flag the constructor makes a press. */
  lemma PressByDefault(note: string, octave: int)
    requires Upper(note) in Notes && octave >= 0
    ensures NewKeystroke(note, octave).Success? && NewKeystroke(note, octave).value.press
  {
  }

  predicate IsDigit(c: char)
  {
    '0' <= c <= '9'
  }

  function DigitChar(d: nat): (c: char)
    requires d < 10
    ensures IsDigit(c)
  {
    ('0' as int + d) as char
  }

  /** The decimal text of a natural number, as Python's str() writes it. */
  function DecimalString(n: nat): (r: string)
    ensures |r| >= 1
    ensures n >= 10 ==> |r| >= 2
    decreases n
  {
    if n < 10 then [DigitChar(n)] else DecimalString(n / 10) + [DigitChar(n % 10)]
  }

  /** The decimal text is made of digits only. */
  lemma {:induction false} DecimalStringDigits(n: nat)
    ensures forall i :: 0 <= i < |DecimalString(n)| ==> IsDigit(DecimalString(n)[i])
    decreases n
  {
    if n >= 10 {
      DecimalStringDigits(n / 10);
    }
  }

  /** Different numbers have different decimal texts. */
  lemma {:induction false} DecimalStringInjective(a: nat, b: nat)
    requires DecimalString(a) == DecimalString(b)
    ensures a == b
    decreases a
  {
    var s := DecimalString(a);
    if a < 10 && b < 10 {
      assert [DigitChar(a)] == [DigitChar(b)];
    } else if a >= 10 && b >= 10 {
      var n := |s|;
      assert DecimalString(a / 10) == s[..n - 1] == DecimalString(b / 10);
      assert DigitChar(a % 10) == s[n - 1] == DigitChar(b % 10);
      DecimalStringInjective(a / 10, b / 10);
    }
  }

  /** No note name holds a digit. */
  lemma NoteShape(p: PitchClass)
    ensures forall i :: 0 <= i < |Notes[p]| ==> !IsDigit(Notes[p][i])
  {
  }

  /** The length of the longest prefix of s without a digit. */
  function LeadingNonDigits(s: string): nat
  {
    if s == [] || IsDigit(s[0]) then 0 else 1 + LeadingNonDigits(s[1..])
  }

  /** In a key name the note is exactly the part before the first digit. */
  lemma {:induction false} LeadingNonDigitsOfKey(name: string, digits: string)
    requires forall i :: 0 <= i < |name| ==> !IsDigit(name[i])
    requires |digits| >= 1 && IsDigit(digits[0])
    ensures LeadingNonDigits(name + digits) == |name|
  {
    if name == [] {
      assert name + digits == digits;
    } else {
      assert (name + digits)[1..] == name[1..] + digits;
      LeadingNonDigitsOfKey(name[1..], digits);
    }
  }

  /**
   * The key name determines note and octave: two keystrokes have the same
   * full_note text exactly when they have the same note and octave.
   */
  lemma FullNoteInjective(a: Keystroke, b: Keystroke)
    requires a.Valid() && b.Valid()
    ensures a.fullNote == b.fullNote <==> a.pitch == b.pitch && a.octave == b.octave
  {
    if a.fullNote == b.fullNote {
      var s := a.fullNote;
      var na, nb := a.Note(), b.Note();
      var da, db := DecimalString(a.octave), DecimalString(b.octave);
      NoteShape(a.pitch);
      NoteShape(b.pitch);
      DecimalStringDigits(a.octave);
      DecimalStringDigits(b.octave);
      LeadingNonDigitsOfKey(na, da);
      LeadingNonDigitsOfKey(nb, db);
      assert na == s[..|na|] == nb;
      assert da == s[|na|..] == db;
      NotesDistinct(a.pitch, b.pitch);
      DecimalStringInjective(a.octave, b.octave);
    }
  }

  /** The right-hand operand of __eq__: a keystroke or any other object. */
  datatype Operand = KeystrokeOperand(keystroke: Keystroke) | OtherOperand

  /** Keystroke equality as __eq__ decides it: by key name, and only against another keystroke. */
  predicate Equals(self: Keystroke, other: Operand)
  {
    if other.KeystrokeOperand? then self.fullNote == other.keystroke.fullNote else false
  }

  /**
   * Two keystrokes are equal exactly when they share note and octave: the
   * press flag plays no part. Nothing but a keystroke is ever equal to one.
   */
  lemma EqualsMeansSameKey(a: Keystroke, b: Keystroke)
    requires a.Valid() && b.Valid()
    ensures Equals(a, KeystrokeOperand(b)) <==> a.pitch == b.pitch && a.octave == b.octave
    ensures !Equals(a, OtherOperand)
  {
    FullNoteInjective(a, b);
  }

  /** Equality on keystrokes is an equivalence relation. */
  lemma EqualsIsEquivalence(a: Keystroke, b: Keystroke, c: Keystroke)
    ensures Equals(a, KeystrokeOperand(a))
    ensures Equals(a, KeystrokeOperand(b)) ==> Equals(b, KeystrokeOperand(a))
    ensures Equals(a, KeystrokeOperand(b)) && Equals(b, KeystrokeOperand(c)) ==> Equals(a, KeystrokeOperand(c))
  {
  }

  /**
   * __hash__: Python's string hash, given here as a parameter, applied to
   * the key name.
   */
  function Hash(k: Keystroke, stringHash: string -> int): int
  {
    stringHash(k.fullNote)
  }

  /** Equal keystrokes hash alike, whatever the string hash is. */
  lemma HashAgreesWithEquals(a: Keystroke, b: Keystroke, stringHash: string -> int)
    requires Equals(a, KeystrokeOperand(b))
    ensures Hash(a, stringHash) == Hash(b, stringHash)
  {
  }

  /**
   * An inverted keystroke equals the original, and inverting twice gives
   * back the original keystroke, press flag included.
   */
  lemma InvertedProperties(k: Keystroke)
    requires k.Valid()
    ensures Equals(k, KeystrokeOperand(k.Inverted().value))
    ensures k.Inverted().value.Inverted() == Success(k)
  {
  }
}
