/**
 * The lifecycle state cell (`StateManuallyDrop`): one byte that every
 * transition swaps first and inspects afterwards. The source's atomic
 * load/swap is a plain field read/write here.
 */
module StateCell {
  import opened Ints
  import opened Wrappers
  import opened StateData
  import opened Trig
  import opened Triggers

  /** The check made by every transition, on the state it replaced. */
  function ReplaceCheck(previous: State): Option<Diagnostic> {
    if IsNextTrig(previous) then Some(Diagnostic(ComboReplace, previous)) else None
  }

  /** The check made by `deref`/`deref_mut`, on the current state. */
  function DerefCheck(current: State): Option<Diagnostic> {
    if IsNextTrig(current) then Some(Diagnostic(DerefAccess, current)) else None
  }

  /** The end-of-scope check: it fires when the state is still `Empty`. */
  function EndOfScopeCheck(exp: string, current: State): Option<Diagnostic> {
    if IsEmpty(current) then Some(Diagnostic(EndOfScope(exp), current)) else None
  }

  /**
   * When each check fires, and that its diagnostic names the state it observed:
   * transitions and reads fire exactly on a non-`Empty` state, the end-of-scope
   * check exactly on `Empty`.
   */
  lemma CheckConditions(s: State, exp: string)
    ensures ReplaceCheck(s).Some? <==> s != Empty
    ensures DerefCheck(s).Some? <==> s != Empty
    ensures EndOfScopeCheck(exp, s).Some? <==> s == Empty
    ensures ReplaceCheck(s).Some? ==> ReplaceCheck(s).value.found == s
    ensures DerefCheck(s).Some? ==> DerefCheck(s).value.found == s
    ensures EndOfScopeCheck(exp, s).Some? ==> EndOfScopeCheck(exp, s).value == Diagnostic(EndOfScope(exp), Empty)
  {
  }

  class StateCell {
    var byte: u8

    /** The byte always holds a valid discriminant. */
    ghost predicate Valid()
      reads this
    {
      IsValidByte(byte)
    }

    /** `StateManuallyDrop::empty`: a new cell in state `Empty`. */
    constructor Empty()
      ensures Valid() && Read() == State.Empty
      ensures IsEmptyNow() && !IsNextTrigNow()
    {
      byte := ToByte(State.Empty);
    }

    /** `read`: load the byte and decode it without a check. */
    function Read(): (s: State)
      reads this
      requires Valid()
      ensures ToByte(s) == byte
    {
      ForceFrom(byte)
    }

    /** `is_empty`. */
    function IsEmptyNow(): (r: bool)
      reads this
      requires Valid()
      ensures r <==> Read() == State.Empty
    {
      IsEmpty(Read())
    }

    /** `is_next_trig`. */
    function IsNextTrigNow(): (r: bool)
      reads this
      requires Valid()
      ensures r <==> Read() != State.Empty
    {
      IsNextTrig(Read())
    }

    /** `__force_write`: swap in `s` and return the state it replaced. */
    method ForceWrite(s: State) returns (previous: State)
      requires Valid()
      modifies this
      ensures Valid() && Read() == s
      ensures previous == old(Read())
    {
      previous := ForceFrom(byte);
      byte := ToByte(s);
      RoundTrip(s);
    }

    /** `get_and_reset` (test only): force the state back to `Empty`, returning the old one. */
    method GetAndReset() returns (previous: State)
      requires Valid()
      modifies this
      ensures Valid() && Read() == State.Empty
      ensures previous == old(Read())
    {
      previous := ForceWrite(State.Empty);
    }

    /**
     * `__safe_replace_mutstate`: install `target` first, then fire if the state it
     * replaced was not `Empty`. A diverging trigger leaves `target` installed.
     */
    method SafeReplace(target: State, kind: TrigKind, reg: Registry) returns (o: Outcome)
      requires Valid() && reg.Valid()
      requires IsNextTrig(target)
      modifies this, reg.Repr
      ensures Valid() && reg.Valid()
      ensures Read() == target
      ensures (o, reg.Snapshot()) == MaybeFire(kind, reg.cfg, old(reg.Snapshot()), ReplaceCheck(old(Read())))
    {
      var previous := ForceWrite(target);
      if IsNextTrig(previous) {
        o := reg.Fire(kind, Diagnostic(ComboReplace, previous));
      } else {
        o := Continues;
      }
    }

    /** `to_dropmode_or_trig`. */
    method ToDropModeOrTrig(kind: TrigKind, reg: Registry) returns (o: Outcome)
      requires Valid() && reg.Valid()
      modifies this, reg.Repr
      ensures Valid() && reg.Valid()
      ensures Read() == DropModeTrig
      ensures (o, reg.Snapshot()) == MaybeFire(kind, reg.cfg, old(reg.Snapshot()), ReplaceCheck(old(Read())))
    {
      o := SafeReplace(DropModeTrig, kind, reg);
    }

    /** `to_takemode_or_trig`. */
    method ToTakeModeOrTrig(kind: TrigKind, reg: Registry) returns (o: Outcome)
      requires Valid() && reg.Valid()
      modifies this, reg.Repr
      ensures Valid() && reg.Valid()
      ensures Read() == TakeModeTrig
      ensures (o, reg.Snapshot()) == MaybeFire(kind, reg.cfg, old(reg.Snapshot()), ReplaceCheck(old(Read())))
    {
      o := SafeReplace(TakeModeTrig, kind, reg);
    }

    /** `to_ignore_trig_when_drop`. */
    method ToIgnoreTrigWhenDrop(kind: TrigKind, reg: Registry) returns (o: Outcome)
      requires Valid() && reg.Valid()
      modifies this, reg.Repr
      ensures Valid() && reg.Valid()
      ensures Read() == IgnoreTrigWhenDrop
      ensures (o, reg.Snapshot()) == MaybeFire(kind, reg.cfg, old(reg.Snapshot()), ReplaceCheck(old(Read())))
    {
      o := SafeReplace(IgnoreTrigWhenDrop, kind, reg);
    }

    /** `to_intoinnermode_or_trig`. */
    method ToIntoInnerModeOrTrig(kind: TrigKind, reg: Registry) returns (o: Outcome)
      requires Valid() && reg.Valid()
      modifies this, reg.Repr
      ensures Valid() && reg.Valid()
      ensures Read() == IntoInnerModeTrig
      ensures (o, reg.Snapshot()) == MaybeFire(kind, reg.cfg, old(reg.Snapshot()), ReplaceCheck(old(Read())))
    {
      o := SafeReplace(IntoInnerModeTrig, kind, reg);
    }

    /** `deref_or_trig`: fire if the current state is not `Empty`; the state is untouched. */
    method DerefOrTrig(kind: TrigKind, reg: Registry) returns (o: Outcome)
      requires Valid() && reg.Valid()
      modifies reg.Repr
      ensures reg.Valid()
      ensures (o, reg.Snapshot()) == MaybeFire(kind, reg.cfg, old(reg.Snapshot()), DerefCheck(Read()))
    {
      var current := Read();
      if IsNextTrig(current) {
        o := reg.Fire(kind, Diagnostic(DerefAccess, current));
      } else {
        o := Continues;
      }
    }

    /**
     * `if_empty_then_run_trigfn`: when the state is `Empty`, run the closure and
     * then fire; otherwise do nothing. The closure `fnTrig` is given its captured
     * environment `env` explicitly and returns it updated. The state is untouched.
     */
    method IfEmptyThenRunTrigfn<E>(exp: string, fnTrig: E -> E, env: E, kind: TrigKind, reg: Registry)
      returns (env': E, o: Outcome)
      requires Valid() && reg.Valid()
      modifies reg.Repr
      ensures reg.Valid()
      ensures env' == if IsEmpty(Read()) then fnTrig(env) else env
      ensures (o, reg.Snapshot()) == MaybeFire(kind, reg.cfg, old(reg.Snapshot()), EndOfScopeCheck(exp, Read()))
    {
      var current := Read();
      if IsEmpty(current) {
        env' := fnTrig(env);
        o := reg.Fire(kind, Diagnostic(EndOfScope(exp), current));
      } else {
        env', o := env, Continues;
      }
    }
  }

  /**
   * The `test_reset` sequence: a fresh cell reads `Empty`, a drop-mode transition
   * fires nothing, and `get_and_reset` then returns `DropModeTrig` and leaves `Empty`.
   */
  method ResetAfterDrop(kind: TrigKind, reg: Registry) returns (previous: State)
    requires reg.Valid()
    modifies reg.Repr
    ensures reg.Valid() && reg.Snapshot() == old(reg.Snapshot())
    ensures previous == DropModeTrig
  {
    var cell := new StateCell.Empty();
    var o := cell.DerefOrTrig(kind, reg);
    o := cell.ToDropModeOrTrig(kind, reg);
    assert !cell.IsEmptyNow() && cell.IsNextTrigNow();
    previous := cell.GetAndReset();
    assert cell.IsEmptyNow() && !cell.IsNextTrigNow();
  }
}
