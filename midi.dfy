/**
 * The MIDI decoding of midi.py: one raw event becomes a keystroke, and a
 * batch read from the device is filtered and decoded in order.
 */
module Midi {
  import opened Wrappers
  import opened Packaging

  /** Status byte of the MIDI timing clock, which the batch filter drops. */
  const ClockStatus := 248

  /** The controller reports a key release as velocity 64. */
  const ReleaseVelocity := 64

  /** One raw event: status, note number, velocity and a fourth data value. */
  datatype MidiEvent = MidiEvent(status: int, data1: int, data2: int, data3: int)

  /** An event as the device delivers it, with its timestamp. */
  datatype TimedEvent = TimedEvent(event: MidiEvent, timestamp: int)

  /**
   * What one attempt to read the device gives: nothing pending, a device
   * call that raised, or the events read.
   */
  datatype DeviceRead = NothingPending | DeviceError | Events(events: seq<TimedEvent>)

  /**
   * parse_event: the note number splits into octave (quotient by 12) and
   * note (remainder by 12); velocity 64 is a release and anything else a
   * press. Python's // and % floor, which for the divisor 12 agrees with
   * Dafny's / and %. A negative note number gives a negative octave, which
   * the keystroke constructor refuses.
   */
  function ParseEvent(e: MidiEvent): (r: Result<Keystroke, KeystrokeError>)
    ensures r.Success? <==> e.data1 >= 0
    ensures r.Success? ==> r.value.Valid()
    ensures r.Success? ==> r.value.Note() == Notes[e.data1 % 12] && r.value.octave == e.data1 / 12
    ensures r.Success? ==> (r.value.press <==> e.data2 != ReleaseVelocity)
  {
    NewKeystroke(Notes[e.data1 % 12], e.data1 / 12, e.data2 != ReleaseVelocity)
  }

  /**
   * Decoding loses nothing: the stored note is the remainder's table entry,
   * so octave and note position give back the note number.
   */
  lemma ParseEventRoundTrip(e: MidiEvent)
    requires e.data1 >= 0
    ensures ParseEvent(e).Success?
    ensures ParseEvent(e).value.pitch == e.data1 % 12
    ensures 12 * ParseEvent(e).value.octave + ParseEvent(e).value.pitch == e.data1
  {
  }

  /** The filter condition of get_keystrokes: not a clock event and not velocity 0. */
  predicate Kept(e: MidiEvent)
  {
    e.status != ClockStatus && e.data2 != 0
  }

  /** The events without their timestamps. */
  function Untimed(ts: seq<TimedEvent>): (r: seq<MidiEvent>)
    ensures |r| == |ts|
    ensures forall i :: 0 <= i < |ts| ==> r[i] == ts[i].event
  {
    seq(|ts|, i requires 0 <= i < |ts| => ts[i].event)
  }

  /** The events the comprehension keeps, in their original order. */
  function Filter(es: seq<MidiEvent>): (r: seq<MidiEvent>)
    ensures |r| <= |es|
    ensures forall e :: e in r <==> e in es && Kept(e)
  {
    if es == [] then [] else (if Kept(es[0]) then [es[0]] else []) + Filter(es[1..])
  }

  /** Filtering works piecewise, so it never reorders events. */
  lemma {:induction false} FilterAppend(a: seq<MidiEvent>, b: seq<MidiEvent>)
    ensures Filter(a + b) == Filter(a) + Filter(b)
  {
    if a == [] {
      assert a + b == b;
    } else {
      assert (a + b)[1..] == a[1..] + b;
      FilterAppend(a[1..], b);
    }
  }

  /** A batch without clock events or zero velocities passes unchanged. */
  lemma {:induction false} FilterKeepsKeptBatch(es: seq<MidiEvent>)
    requires forall i :: 0 <= i < |es| ==> Kept(es[i])
    ensures Filter(es) == es
  {
    if es != [] {
      FilterKeepsKeptBatch(es[1..]);
    }
  }

  /**
   * Decodes every event of a batch in order. The comprehension raises at the
   * first event the constructor refuses, so the whole batch then gives None.
   */
  function ParseAll(es: seq<MidiEvent>): (r: Option<seq<Keystroke>>)
    ensures r.Some? <==> forall i :: 0 <= i < |es| ==> es[i].data1 >= 0
    ensures r.Some? ==> |r.value| == |es|
    ensures r.Some? ==> forall i :: 0 <= i < |es| ==> ParseEvent(es[i]) == Success(r.value[i])
  {
    if es == [] then Some([])
    else
      match ParseEvent(es[0])
      case Failure(_) => None
      case Success(k) =>
        match ParseAll(es[1..])
        case None => None
        case Some(ks) => Some([k] + ks)
  }

  /**
   * get_keystrokes: nothing pending or a device error gives the empty list;
   * otherwise the kept events are decoded in order, and an event that the
   * decoder refuses turns the whole batch into the empty list.
   */
  function GetKeystrokes(read: DeviceRead): (r: seq<Keystroke>)
    ensures !read.Events? ==> r == []
    ensures read.Events? ==> |r| <= |read.events|
  {
    match read
    case NothingPending => []
    case DeviceError => []
    case Events(ts) =>
      match ParseAll(Filter(Untimed(ts)))
      case None => []
      case Some(ks) => ks
  }

  /**
   * Each keystroke of a batch is the decoding of the kept event at the same
   * position: a valid keystroke whose note is the table entry of the note
   * number's remainder by 12, whose octave is the quotient, whose key name
   * is that note followed by the decimal octave, and which is a press
   * unless the velocity is 64.
   */
  lemma GetKeystrokesDecodesKept(ts: seq<TimedEvent>)
    requires ParseAll(Filter(Untimed(ts))).Some?
    ensures var r, kept := GetKeystrokes(Events(ts)), Filter(Untimed(ts));
      |r| == |kept| &&
      forall i :: 0 <= i < |r| ==>
        ParseEvent(kept[i]) == Success(r[i]) && r[i].Valid() &&
        r[i].Note() == Notes[kept[i].data1 % 12] && r[i].octave == kept[i].data1 / 12 &&
        r[i].fullNote == Notes[kept[i].data1 % 12] + DecimalString(kept[i].data1 / 12) &&
        (r[i].press <==> kept[i].data2 != ReleaseVelocity)
  {
  }

  /** One note number the decoder refuses empties the whole batch. */
  lemma GetKeystrokesAllOrNothing(ts: seq<TimedEvent>)
    requires exists e :: e in Filter(Untimed(ts)) && e.data1 < 0
    ensures GetKeystrokes(Events(ts)) == []
  {
    var kept := Filter(Untimed(ts));
    var e :| e in kept && e.data1 < 0;
    var i :| 0 <= i < |kept| && kept[i] == e;
  }

  /**
   * For a batch of well-formed note numbers, the result has one keystroke
   * per event that is neither a clock event nor of velocity 0.
   */
  lemma GetKeystrokesCountsKeptEvents(ts: seq<TimedEvent>)
    requires forall i :: 0 <= i < |ts| ==> ts[i].event.data1 >= 0
    ensures |GetKeystrokes(Events(ts))| == |Filter(Untimed(ts))|
  {
    var kept := Filter(Untimed(ts));
    forall i | 0 <= i < |kept|
      ensures kept[i].data1 >= 0
    {
      assert kept[i] in Untimed(ts);
    }
  }
}
