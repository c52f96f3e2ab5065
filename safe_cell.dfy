/**
 * The checked cell as the source builds it: a lifecycle `StateCell` (the
 * `state` field), the trigger type parameter `Trig` (here the `kind` field, fixed
 * when the cell is made) and the raw payload slot. Every operation is proved to have exactly
 * the effect `Guarded.Apply` gives it.
 */
module SafeCell {
  import opened Wrappers
  import opened StateData
  import opened Trig
  import opened Triggers
  import Raw
  import Guarded
  import StateCell

  class SafeCell<T> {
    const state: StateCell.StateCell
    /** The `Trig` type parameter: fixed for the cell's lifetime. */
    const kind: TrigKind
    var slot: Raw.Slot<T>
    /** Set once `self` has been moved into `into_inner` or dropped at end of scope. */
    ghost var consumed: bool

    ghost predicate Valid()
      reads this, state
    {
      state.Valid()
    }

    /** The cell as a value: its lifecycle state and its slot. */
    function Snapshot(): Guarded.Checked<T>
      reads this, state
      requires Valid()
    {
      Guarded.Checked(state.Read(), slot)
    }

    /** `new(value)`; `Default` is `new` applied to the payload type's default value. */
    constructor New(value: T, kind: TrigKind)
      ensures Valid() && fresh(state) && !consumed && this.kind == kind
      ensures Snapshot() == Guarded.Fresh(value)
    {
      state := new StateCell.StateCell.Empty();
      slot := Raw.New(value);
      this.kind := kind;
      consumed := false;
    }

    /** `Deref::deref`: check that the state is readable, then hand out the payload regardless. */
    method Deref(reg: Registry) returns (r: Guarded.Flow<T>)
      requires Valid() && reg.Valid() && !consumed
      modifies reg.Repr
      ensures reg.Valid()
      ensures var s := Guarded.Apply(kind, reg.cfg, Guarded.Deref, old(Snapshot()), old(reg.Snapshot()));
        Snapshot() == s.cell && reg.Snapshot() == s.g && r == s.flow
    {
      var o := state.DerefOrTrig(kind, reg);
      if o == Diverges {
        r := Guarded.Diverged;
      } else {
        r := Guarded.Returned(Some(slot.value));
      }
    }

    /** `DerefMut::deref_mut`, with the write made through the returned reference as `update`. */
    method DerefMut(update: T -> T, reg: Registry) returns (r: Guarded.Flow<T>)
      requires Valid() && reg.Valid() && !consumed
      modifies this, reg.Repr
      ensures Valid() && reg.Valid() && !consumed
      ensures var s := Guarded.Apply(kind, reg.cfg, Guarded.DerefMut(update), old(Snapshot()), old(reg.Snapshot()));
        Snapshot() == s.cell && reg.Snapshot() == s.g && r == s.flow
    {
      var o := state.DerefOrTrig(kind, reg);
      if o == Diverges {
        r := Guarded.Diverged;
      } else {
        slot := Raw.Update(slot, update);
        r := Guarded.Returned(None);
      }
    }

    /** `drop`: mark `DropModeTrig`, then run the payload's destructor unless the trigger diverged. */
    method Drop(reg: Registry) returns (r: Guarded.Flow<T>)
      requires Valid() && reg.Valid() && !consumed
      modifies this, state, reg.Repr
      ensures Valid() && reg.Valid() && !consumed
      ensures var s := Guarded.Apply(kind, reg.cfg, Guarded.Drop, old(Snapshot()), old(reg.Snapshot()));
        Snapshot() == s.cell && reg.Snapshot() == s.g && r == s.flow
    {
      var o := state.ToDropModeOrTrig(kind, reg);
      if o == Diverges {
        r := Guarded.Diverged;
      } else {
        slot := Raw.Drop(slot);
        r := Guarded.Returned(None);
      }
    }

    /** `take`: mark `TakeModeTrig`, then move the payload out unless the trigger diverged. */
    method Take(reg: Registry) returns (r: Guarded.Flow<T>)
      requires Valid() && reg.Valid() && !consumed
      modifies this, state, reg.Repr
      ensures Valid() && reg.Valid() && !consumed
      ensures var s := Guarded.Apply(kind, reg.cfg, Guarded.Take, old(Snapshot()), old(reg.Snapshot()));
        Snapshot() == s.cell && reg.Snapshot() == s.g && r == s.flow
    {
      var o := state.ToTakeModeOrTrig(kind, reg);
      if o == Diverges {
        r := Guarded.Diverged;
      } else {
        var moved := Raw.Take(slot);
        slot := moved.1;
        r := Guarded.Returned(Some(moved.0));
      }
    }

    /**
     * `into_core_inner`: mark `IntoInnerModeTrig`, move the payload out and
     * forget the cell, so that its own destructor does not run.
     */
    method IntoCoreInner(reg: Registry) returns (r: Guarded.Flow<T>)
      requires Valid() && reg.Valid() && !consumed
      modifies this, state, reg.Repr
      ensures Valid() && reg.Valid() && consumed
      ensures var s := Guarded.Apply(kind, reg.cfg, Guarded.IntoInner, old(Snapshot()), old(reg.Snapshot()));
        Snapshot() == s.cell && reg.Snapshot() == s.g && r == s.flow
    {
      var o := state.ToIntoInnerModeOrTrig(kind, reg);
      consumed := true;
      if o == Diverges {
        r := Guarded.Diverged;
      } else {
        var moved := Raw.Take(slot);
        slot := moved.1;
        r := Guarded.Returned(Some(moved.0));
      }
    }

    /** `into_inner`: `into_core_inner`, then unwrap the raw wrapper, which does nothing more. */
    method IntoInner(reg: Registry) returns (r: Guarded.Flow<T>)
      requires Valid() && reg.Valid() && !consumed
      modifies this, state, reg.Repr
      ensures Valid() && reg.Valid() && consumed
      ensures var s := Guarded.Apply(kind, reg.cfg, Guarded.IntoInner, old(Snapshot()), old(reg.Snapshot()));
        Snapshot() == s.cell && reg.Snapshot() == s.g && r == s.flow
    {
      r := IntoCoreInner(reg);
    }

    /** `ignore_drop`: mark `IgnoreTrigWhenDrop`; the payload is untouched. */
    method IgnoreDrop(reg: Registry) returns (r: Guarded.Flow<T>)
      requires Valid() && reg.Valid() && !consumed
      modifies state, reg.Repr
      ensures Valid() && reg.Valid()
      ensures var s := Guarded.Apply(kind, reg.cfg, Guarded.IgnoreDrop, old(Snapshot()), old(reg.Snapshot()));
        Snapshot() == s.cell && reg.Snapshot() == s.g && r == s.flow
    {
      var o := state.ToIgnoreTrigWhenDrop(kind, reg);
      r := if o == Diverges then Guarded.Diverged else Guarded.Returned(None);
    }

    /**
     * `Drop::drop` at end of scope: if the state is still `Empty`, release the
     * payload and then fire; otherwise do nothing.
     */
    method EndOfScope(reg: Registry) returns (r: Guarded.Flow<T>)
      requires Valid() && reg.Valid() && !consumed
      modifies this, reg.Repr
      ensures Valid() && reg.Valid() && consumed
      ensures var s := Guarded.Apply(kind, reg.cfg, Guarded.ScopeEnd, old(Snapshot()), old(reg.Snapshot()));
        Snapshot() == s.cell && reg.Snapshot() == s.g && r == s.flow
    {
      var released, o := state.IfEmptyThenRunTrigfn(Guarded.DestructorLabel, (s: Raw.Slot<T>) => Raw.Drop(s), slot, kind, reg);
      slot := released;
      consumed := true;
      r := if o == Diverges then Guarded.Diverged else Guarded.Returned(None);
    }

    /** `get_state`: always `Some` in the checked cell. */
    function GetState(): (r: Option<State>)
      reads this, state
      requires Valid()
      ensures r == Guarded.GetState(Snapshot())
    {
      Some(state.Read())
    }

    /** `is_empty_state`. */
    function IsEmptyState(): (r: Option<bool>)
      reads this, state
      requires Valid()
      ensures r == Guarded.IsEmptyState(Snapshot())
    {
      Some(state.IsEmptyNow())
    }

    /** `is_next_trig`. */
    function IsNextTrig(): (r: bool)
      reads this, state
      requires Valid()
      ensures r == Guarded.IsNextTrigCell(Snapshot())
    {
      state.IsNextTrigNow()
    }

    /** `is_next_trig_optionresult`. */
    function IsNextTrigOptionResult(): (r: Option<bool>)
      reads this, state
      requires Valid()
      ensures r == Guarded.IsNextTrigOptionResult(Snapshot())
    {
      Some(state.IsNextTrigNow())
    }

    /** `as_value`: the payload, with no check. */
    function AsValue(): (v: T)
      reads this, state
      requires Valid()
      ensures v == Guarded.AsValue(Snapshot())
    {
      slot.value
    }

    /** `as_mut_value`: a write to the payload, with no check and no state change. */
    method AsMutValue(update: T -> T)
      requires Valid()
      modifies this
      ensures Valid() && consumed == old(consumed)
      ensures Snapshot() == old(Snapshot()).(slot := Raw.Update(old(slot), update))
    {
      slot := Raw.Update(slot, update);
    }
  }

  /** `forget(value)`: `new`, `ignore_drop` and the end of scope; it never fires. */
  method Forget<T>(value: T, kind: TrigKind, reg: Registry)
    requires reg.Valid()
    modifies reg.Repr
    ensures reg.Valid() && reg.Snapshot() == old(reg.Snapshot())
  {
    var cell := new SafeCell.New(value, kind);
    var r := cell.IgnoreDrop(reg);
    r := cell.EndOfScope(reg);
  }

  /**
   * The combo-drop example with the counting trigger: the second drop fires once,
   * both drops release the payload, and the count is one higher.
   */
  method CountedComboDrop<T>(value: T, reg: Registry)
    requires reg.Valid() && reg.cfg.safeMode && reg.Snapshot().count == 0
    modifies reg.Repr
    ensures reg.Valid() && reg.Snapshot().count == 1
  {
    var cell := new SafeCell.New(value, Count);
    var r := cell.Drop(reg);
    assert reg.Snapshot().count == 0;
    r := cell.Drop(reg);
    assert r.Returned? && cell.slot.dropped == 2;
    r := cell.EndOfScope(reg);
  }
}
