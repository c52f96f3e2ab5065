/** The looping trigger: it records that it ran, then never returns. */
module Loop {
  import opened Trig

  /** The flag after one fire: it is stored as `true` only when the feature is on. */
  function LoopedAfter(istrigLoop: bool, looped: bool): (r: bool)
    ensures r == (looped || istrigLoop)
  {
    if istrigLoop then true else looped
  }

  /** What `is_trig_next_invalid_beh` reports. */
  function VisibleLooped(istrigLoop: bool, looped: bool): (r: bool)
    ensures r ==> looped
    ensures !istrigLoop ==> !r
    ensures istrigLoop ==> r == looped
  {
    istrigLoop && looped
  }

  /** The flag is sticky: once set, no fire clears it. */
  lemma {:induction false} LoopedIsSticky(istrigLoop: bool, looped: bool, n: nat)
    requires looped
    ensures LoopedAfterTimes(istrigLoop, looped, n)
  {
    if n > 0 {
      LoopedIsSticky(istrigLoop, looped, n - 1);
    }
  }

  /** The flag after `n` fires. */
  function LoopedAfterTimes(istrigLoop: bool, looped: bool, n: nat): bool
    decreases n
  {
    if n == 0 then looped else LoopedAfter(istrigLoop, LoopedAfterTimes(istrigLoop, looped, n - 1))
  }

  /** The process-wide `IS_TRIG_LOOPSAFEMANUALLYDROP`. */
  class LoopStatic {
    var looped: bool

    /** The flag starts `false`. */
    constructor ()
      ensures !looped
    {
      looped := false;
    }

    /**
     * `EmptyLoopTrigManuallyDrop::trig_next_invalid_beh`: store `true` when the
     * feature is on, then spin forever; the spin is the `Diverges` outcome.
     */
    method Trig(istrigLoop: bool) returns (o: Outcome)
      modifies this
      ensures o == Diverges
      ensures looped == LoopedAfter(istrigLoop, old(looped))
    {
      if istrigLoop {
        looped := true;
      }
      o := Diverges;
    }

    /** `is_trig_next_invalid_beh`: the flag, or always `false` without the feature. */
    method IsTrig(istrigLoop: bool) returns (r: bool)
      ensures r == VisibleLooped(istrigLoop, looped)
      ensures istrigLoop ==> r == looped
    {
      r := istrigLoop && looped;
    }
  }
}
