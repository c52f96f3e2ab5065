/**
 * The lifecycle states of a guarded cell and their one-byte encoding
 * (`StateManuallyDropData`). Every function here is a plain `match`.
 */
module StateData {
  import opened Ints
  import opened Wrappers

  /** What has already happened to the guarded value. */
  datatype State =
    | Empty              // nothing yet: every operation is still allowed
    | TakeModeTrig       // the value was moved out by `take`
    | DropModeTrig       // the value was released by `drop`
    | IntoInnerModeTrig  // the cell was unwrapped by `into_inner`
    | IgnoreTrigWhenDrop // the caller asked for the end-of-scope release to be skipped

  /** The `#[repr(u8)]` discriminant: `self as u8`. */
  function ToByte(s: State): (b: u8)
    ensures b in {1, 5, 15, 25, 30}
    ensures b == 1 <==> s == Empty
  {
    match s
    case Empty => 1
    case TakeModeTrig => 5
    case DropModeTrig => 15
    case IntoInnerModeTrig => 25
    case IgnoreTrigWhenDrop => 30
  }

  /** A byte is valid when it is the discriminant of one of the five states. */
  predicate IsValidByte(b: u8)
    ensures IsValidByte(b) <==> b in {1, 5, 15, 25, 30}
  {
    b == ToByte(Empty)
    || b == ToByte(TakeModeTrig)
    || b == ToByte(DropModeTrig)
    || b == ToByte(IntoInnerModeTrig)
    || b == ToByte(IgnoreTrigWhenDrop)
  }

  /** The unchecked decoder (`force_from`, a transmute); callers guarantee a valid byte. */
  function ForceFrom(b: u8): (s: State)
    requires IsValidByte(b)
    ensures ToByte(s) == b
  {
    if b == 1 then Empty
    else if b == 5 then TakeModeTrig
    else if b == 15 then DropModeTrig
    else if b == 25 then IntoInnerModeTrig
    else IgnoreTrigWhenDrop
  }

  /** The checked decoder `from`: `None` for every byte that encodes no state. */
  function FromByte(b: u8): (r: Option<State>)
    ensures r.Some? <==> IsValidByte(b)
    ensures r.Some? ==> ToByte(r.value) == b
  {
    if IsValidByte(b) then Some(ForceFrom(b)) else None
  }

  /** `from_or_empty` (also the `From<u8>` impl): invalid bytes decode as `Empty`. */
  function FromOrEmpty(b: u8): (s: State)
    ensures IsValidByte(b) ==> ToByte(s) == b
    ensures !IsValidByte(b) ==> s == Empty
  {
    if IsValidByte(b) then ForceFrom(b) else Empty
  }

  /** Whether a later operation from this state must fire the trigger. */
  predicate IsNextTrig(s: State)
    ensures IsNextTrig(s) <==> s != Empty
  {
    match s
    case Empty => false
    case _ => true
  }

  /** Whether the state is that of a new, unused cell. */
  predicate IsEmpty(s: State)
    ensures IsEmpty(s) <==> s == Empty
  {
    match s
    case Empty => true
    case _ => false
  }

  /** The `Display` name of a state. */
  function Name(s: State): (name: string)
    ensures |name| > 0
    ensures name == "Empty" <==> s == Empty
  {
    match s
    case Empty => "Empty"
    case TakeModeTrig => "TakeModeTrig"
    case DropModeTrig => "DropModeTrig"
    case IntoInnerModeTrig => "IntoInnerModeTrig"
    case IgnoreTrigWhenDrop => "IgnoreTrigWhenDrop"
  }

  /** The default state (`empty`, `no_panic_state`, `Default`). */
  function EmptyState(): (s: State)
    ensures IsEmpty(s) && !IsNextTrig(s)
  {
    Empty
  }

  /** Encoding and then decoding gives the state back, through all three decoders. */
  lemma RoundTrip(s: State)
    ensures IsValidByte(ToByte(s))
    ensures FromByte(ToByte(s)) == Some(s)
    ensures FromOrEmpty(ToByte(s)) == s
    ensures ForceFrom(ToByte(s)) == s
  {
  }

  /** A byte is valid exactly when some state encodes to it. */
  lemma ValidByteIsEncoding(b: u8)
    ensures IsValidByte(b) <==> exists s :: ToByte(s) == b
  {
    if IsValidByte(b) {
      assert ToByte(ForceFrom(b)) == b;
    }
  }

  /** Every other byte is rejected by `from`, defaults under `from_or_empty`, and is invalid. */
  lemma InvalidByte(b: u8)
    requires b !in {1, 5, 15, 25, 30}
    ensures FromByte(b) == None
    ensures FromOrEmpty(b) == Empty
    ensures !IsValidByte(b)
  {
  }

  /** Distinct states have distinct bytes and distinct names. */
  lemma EncodingsAreDistinct(s: State, t: State)
    ensures ToByte(s) == ToByte(t) ==> s == t
    ensures Name(s) == Name(t) ==> s == t
  {
  }

  /** `is_next_trig` is the negation of `is_empty`, and `Empty` is the only quiet state. */
  lemma NextTrigIsNotEmpty(s: State)
    ensures IsNextTrig(s) <==> !IsEmpty(s)
    ensures IsEmpty(s) <==> s == Empty
  {
  }
}
