/** The counting trigger: the only one that returns to its caller. */
module Counter {
  import opened Ints
  import opened Wrappers
  import opened Trig

  /** The counter after one fire: `fetch_add(1)` in safe mode, nothing otherwise. */
  function Bumped(safeMode: bool, count: u32): (r: u32)
    ensures !safeMode ==> r == count
    ensures safeMode && count < U32_LIMIT - 1 ==> r == count + 1
    ensures safeMode && count == U32_LIMIT - 1 ==> r == 0
  {
    if safeMode then WrappingAdd(count, 1) else count
  }

  /** The counter after `n` fires. */
  function BumpedTimes(safeMode: bool, count: u32, n: nat): u32
    decreases n
  {
    if n == 0 then count else Bumped(safeMode, BumpedTimes(safeMode, count, n - 1))
  }

  /** `n` fires in safe mode add `n` to the counter, modulo 2^32. */
  lemma {:induction false} BumpedTimesAdds(count: u32, n: nat)
    ensures BumpedTimes(true, count, n) == (count + n) % U32_LIMIT
  {
    if n > 0 {
      var prev := BumpedTimes(true, count, n - 1);
      BumpedTimesAdds(count, n - 1);
      assert BumpedTimes(true, count, n) == (prev + 1) % U32_LIMIT;
      SuccessorModulo(count + n - 1);
    }
  }

  /** Adding one after reducing modulo 2^32 is the same as reducing after adding one. */
  lemma SuccessorModulo(x: nat)
    ensures (x % U32_LIMIT + 1) % U32_LIMIT == (x + 1) % U32_LIMIT
  {
    var q, r := x / U32_LIMIT, x % U32_LIMIT;
    assert x == q * U32_LIMIT + r;
    if r + 1 < U32_LIMIT {
      assert x + 1 == q * U32_LIMIT + (r + 1);
    } else {
      assert x + 1 == (q + 1) * U32_LIMIT;
    }
  }

  /** What `get_count_trig_safemanuallydrop` reports. */
  function VisibleCount(safeMode: bool, count: u32): u32 {
    if safeMode then count else 0
  }

  /** What `get_optioncount_trig_safemanuallydrop` reports. */
  function VisibleOptionCount(safeMode: bool, count: u32): Option<u32> {
    if safeMode then Some(count) else None
  }

  /** The two getters agree: the optional one is `Some` exactly in safe mode. */
  lemma GettersAgree(safeMode: bool, count: u32)
    ensures VisibleOptionCount(safeMode, count).Some? <==> safeMode
    ensures VisibleOptionCount(safeMode, count).GetOr(0) == VisibleCount(safeMode, count)
  {
  }

  /** The process-wide `COUNT_TRIG_SAFEMANUALLYDROP`. */
  class CounterStatic {
    var count: u32

    /** The static starts at 0. */
    constructor ()
      ensures count == 0
    {
      count := 0;
    }

    /** `CounterTrigManuallyDrop::trig_next_invalid_beh`: count the event, then return. */
    method Trig(safeMode: bool) returns (o: Outcome)
      modifies this
      ensures o == Continues
      ensures count == Bumped(safeMode, old(count))
    {
      if safeMode {
        count := WrappingAdd(count, 1);
      }
      o := Continues;
    }

    /** `get_count_trig_safemanuallydrop`. */
    method GetCount(safeMode: bool) returns (r: u32)
      ensures r == VisibleCount(safeMode, count)
      ensures safeMode ==> r == count
      ensures !safeMode ==> r == 0
    {
      r := if safeMode then count else 0;
    }

    /** `get_optioncount_trig_safemanuallydrop`. */
    method GetOptionCount(safeMode: bool) returns (r: Option<u32>)
      ensures r == VisibleOptionCount(safeMode, count)
      ensures r.Some? <==> safeMode
      ensures r.Some? ==> r.value == count
    {
      r := if safeMode then Some(count) else None;
    }
  }
}
