/**
 * The unchecked cell (`UnsafeManuallyDrop`, generated with `is_safe: false`):
 * the payload slot and a zero-size trigger marker, no lifecycle state and no
 * destructor. Every operation is the raw operation; none ever fires.
 */
module UnsafeCell {
  import opened Wrappers
  import opened StateData
  import opened Trig
  import opened Triggers
  import Raw
  import Guarded

  datatype UnsafeCell<T> = UnsafeCell(slot: Raw.Slot<T>)

  /** `new(value)`. */
  function New<T>(value: T): (u: UnsafeCell<T>)
    ensures u.slot.value == value && Raw.Releases(u.slot) == 0
  {
    UnsafeCell(Raw.New(value))
  }

  /** Any operation: the raw operation of the slot, and the payload it hands out. */
  function Apply<T>(op: Guarded.Op<T>, u: UnsafeCell<T>): (r: (UnsafeCell<T>, Option<T>))
    ensures op.ScopeEnd? ==> r == (u, None)
    ensures op.DerefMut? || r.0.slot.value == u.slot.value
    ensures Raw.Releases(r.0.slot) == Raw.Releases(u.slot) + (if GivesUp(op) then 1 else 0)
    ensures r.1.Some? ==> r.1.value == u.slot.value
  {
    var (slot', out) := Guarded.RawStep(op, u.slot);
    (UnsafeCell(slot'), out)
  }

  /** Operations by which the payload's ownership is given up: a drop or a move out. */
  predicate GivesUp<T>(op: Guarded.Op<T>) {
    op.Drop? || op.Take? || op.IntoInner?
  }

  /** `get_state`: the unchecked cell has no state. */
  function GetState<T>(u: UnsafeCell<T>): Option<State> {
    None
  }

  /** `is_empty_state`. */
  function IsEmptyState<T>(u: UnsafeCell<T>): Option<bool> {
    None
  }

  /** `is_next_trig`: never. */
  function IsNextTrig<T>(u: UnsafeCell<T>): bool {
    false
  }

  /** `is_next_trig_optionresult`. */
  function IsNextTrigOptionResult<T>(u: UnsafeCell<T>): Option<bool> {
    None
  }

  /** The derived `PartialEq`: the marker carries nothing, so only payloads are compared. */
  function Eq<T(==)>(a: UnsafeCell<T>, b: UnsafeCell<T>): bool {
    a.slot.value == b.slot.value
  }

  /** The derived `Hash`, given the payload's own hash. */
  function Hash<T>(a: UnsafeCell<T>, hash: T -> int): int {
    hash(a.slot.value)
  }

  /** A run of the unchecked cell: its slot, whether it is gone, every payload handed out. */
  datatype URun<T> = URun(cell: UnsafeCell<T>, status: Guarded.Status, yielded: seq<T>)

  /** Operations applied in order until one consumes the cell; nothing ever halts it. */
  function RunUnchecked<T>(ops: seq<Guarded.Op<T>>, u: UnsafeCell<T>): (r: URun<T>)
    ensures r.status != Guarded.Halted
    ensures |r.yielded| <= |ops|
    decreases |ops|
  {
    if ops == [] then URun(u, Guarded.Live, [])
    else
      var (u', out) := Apply(ops[0], u);
      if Guarded.Consumes(ops[0]) then URun(u', Guarded.Gone, Guarded.Elements(out))
      else
        var r := RunUnchecked(ops[1..], u');
        r.(yielded := Guarded.Elements(out) + r.yielded)
  }

  /**
   * The queries of the unchecked cell report no state, and it never expects a
   * violation; going out of scope does nothing to the payload.
   */
  lemma NoStateNoChecks<T>(u: UnsafeCell<T>)
    ensures GetState(u) == None && IsEmptyState(u) == None && IsNextTrigOptionResult(u) == None
    ensures !IsNextTrig(u)
    ensures Apply(Guarded.ScopeEnd, u) == (u, None)
  {
  }

  /** How many operations of a run give up the payload, up to the one that consumes the cell. */
  function Releasing<T>(ops: seq<Guarded.Op<T>>): nat
    decreases |ops|
  {
    if ops == [] then 0
    else (if GivesUp(ops[0]) then 1 else 0) + (if Guarded.Consumes(ops[0]) then 0 else Releasing(ops[1..]))
  }

  /**
   * Nothing stops the unchecked cell from giving its payload up again: every
   * drop, take and `into_inner` of a run reaches the payload, however many
   * came before.
   */
  lemma {:induction false} UncheckedReleases<T>(ops: seq<Guarded.Op<T>>, u: UnsafeCell<T>)
    ensures Raw.Releases(RunUnchecked(ops, u).cell.slot) == Raw.Releases(u.slot) + Releasing(ops)
    decreases |ops|
  {
    if ops != [] && !Guarded.Consumes(ops[0]) {
      UncheckedReleases(ops[1..], Apply(ops[0], u).0);
    }
  }

  /** A double drop of the unchecked cell runs the payload's destructor twice, unnoticed. */
  lemma UncheckedDoubleDrop<T>(v: T)
    ensures var r := RunUnchecked([Guarded.Drop, Guarded.Drop], New(v));
      r.cell.slot.dropped == 2 && r.status == Guarded.Live
  {
    var rest: seq<Guarded.Op<T>> := [Guarded.Drop];
    assert [Guarded.Drop, Guarded.Drop][1..] == rest;
    assert rest[1..] == [];
  }

  /**
   * With the counting trigger, the checked cell does to its payload exactly what
   * the unchecked cell does, hands out the same values and ends the same way, for
   * any sequence of explicit operations from any state; only the counter differs.
   */
  lemma {:induction false} CounterMatchesUnchecked<T>(cfg: Config, ops: seq<Guarded.Op<T>>, c: Guarded.Checked<T>, g: Globals)
    requires forall i :: 0 <= i < |ops| ==> !ops[i].ScopeEnd?
    ensures var r := Guarded.Run(Count, cfg, ops, c, g);
      var u := RunUnchecked(ops, UnsafeCell(c.slot));
      r.cell.slot == u.cell.slot && r.status == u.status && r.yielded == u.yielded
    decreases |ops|
  {
    if ops != [] {
      var s := Guarded.Apply(Count, cfg, ops[0], c, g);
      Guarded.RawOperationAlwaysRuns(Count, cfg, ops[0], c, g);
      Guarded.StepStatics(Count, cfg, ops[0], c, g);
      if !Guarded.Consumes(ops[0]) {
        CounterMatchesUnchecked(cfg, ops[1..], s.cell, s.g);
      }
    }
  }

  /** The derived comparisons see only the payload. */
  lemma DerivedViewsSeePayload<T>(a: UnsafeCell<T>, b: UnsafeCell<T>, hash: T -> int)
    ensures Eq(a, b) <==> a.slot.value == b.slot.value
    ensures a.slot.value == b.slot.value ==> Hash(a, hash) == Hash(b, hash)
  {
  }
}
