/**
 * The checked cell (`SafeManuallyDrop`, generated with `is_safe: true`) as a
 * value: its lifecycle state and its raw slot. `Apply` is one public operation,
 * `Run` a sequence of them; the lemmas state what the cell promises.
 */
module Guarded {
  import opened Ints
  import opened Wrappers
  import opened StateData
  import opened Trig
  import opened Hook
  import opened Triggers
  import opened StateCell
  import Raw
  import Counter

  /** The state of a checked cell: the lifecycle state beside the raw payload. */
  datatype Checked<T> = Checked(state: State, slot: Raw.Slot<T>)

  /** `new(v)`: a cell in state `Empty` holding `v`. */
  function Fresh<T>(v: T): (c: Checked<T>)
    ensures c.state == Empty && c.slot.value == v && Raw.Releases(c.slot) == 0
  {
    Checked(Empty, Raw.New(v))
  }

  /** The operations on a cell. `ScopeEnd` is the destructor (`Drop::drop`) at end of scope. */
  datatype Op<!T> =
    | Deref
    | DerefMut(update: T -> T)
    | Drop
    | Take
    | IntoInner
    | IgnoreDrop
    | ScopeEnd

  /** The four lifecycle transitions. */
  predicate IsTransition<T>(op: Op<T>) {
    op.Drop? || op.Take? || op.IntoInner? || op.IgnoreDrop?
  }

  /** Operations after which the cell no longer exists (`self` is consumed). */
  predicate Consumes<T>(op: Op<T>) {
    op.IntoInner? || op.ScopeEnd?
  }

  /** The state each transition installs. */
  function Target<T>(op: Op<T>): (s: State)
    requires IsTransition(op)
    ensures IsNextTrig(s)
  {
    match op
    case Drop => DropModeTrig
    case Take => TakeModeTrig
    case IntoInner => IntoInnerModeTrig
    case IgnoreDrop => IgnoreTrigWhenDrop
  }

  /** The raw operation behind each public one, and the payload it hands back. */
  function RawStep<T>(op: Op<T>, s: Raw.Slot<T>): (r: (Raw.Slot<T>, Option<T>))
    ensures op.DerefMut? || r.0.value == s.value
    ensures Raw.Releases(r.0) == Raw.Releases(s) + (if op.Drop? || op.Take? || op.IntoInner? then 1 else 0)
    ensures r.1.Some? <==> op.Deref? || op.Take? || op.IntoInner?
    ensures r.1.Some? ==> r.1.value == s.value
  {
    match op
    case Deref => (s, Some(s.value))
    case DerefMut(f) => (Raw.Update(s, f), None)
    case Drop => (Raw.Drop(s), None)
    case Take => var (v, s') := Raw.Take(s); (s', Some(v))
    case IntoInner => var (v, s') := Raw.Take(s); (s', Some(v))
    case IgnoreDrop => (s, None)
    case ScopeEnd => (s, None)
  }

  /** The label the destructor passes; the call site in the source supplies none. */
  const DestructorLabel: string := ""

  /** The check each operation makes on the state it finds. */
  function Check<T>(op: Op<T>, current: State): (d: Option<Diagnostic>)
    ensures op.ScopeEnd? ==> (d.Some? <==> current == Empty)
    ensures !op.ScopeEnd? ==> (d.Some? <==> current != Empty)
    ensures d.Some? ==> d.value.found == current
    ensures d.Some? ==> d.value.site == (if op.ScopeEnd? then EndOfScope(DestructorLabel)
                                         else if op.Deref? || op.DerefMut? then DerefAccess
                                         else ComboReplace)
  {
    match op
    case Deref => DerefCheck(current)
    case DerefMut(_) => DerefCheck(current)
    case ScopeEnd => EndOfScopeCheck(DestructorLabel, current)
    case _ => ReplaceCheck(current)
  }

  /** How an operation ended: the trigger diverged, or it returned (maybe with a payload). */
  datatype Flow<T> = Diverged | Returned(out: Option<T>)

  /** One operation's effect: the cell and statics after it, how it ended, what it detected. */
  datatype Step<T> = Step(cell: Checked<T>, g: Globals, flow: Flow<T>, fired: Option<Diagnostic>)

  /**
   * One operation on a checked cell. A transition installs its target state,
   * then checks the state it replaced; reads check the current state. Unless the
   * trigger diverged, the raw operation then runs regardless of the check. The
   * destructor instead releases the payload when the state is still `Empty` and
   * only then fires.
   */
  function Apply<T>(kind: TrigKind, cfg: Config, op: Op<T>, c: Checked<T>, g: Globals): (s: Step<T>)
    ensures s.fired == Check(op, c.state)
    ensures s.flow.Diverged? ==> s.fired.Some?
    ensures s.cell.state == if IsTransition(op) then Target(op) else c.state
    ensures s.g.hook == g.hook
  {
    var d := Check(op, c.state);
    if op.ScopeEnd? then
      if d.None? then Step(c, g, Returned(None), None)
      else
        var (o, g') := FireEffect(kind, cfg, g, d.value);
        Step(c.(slot := Raw.Drop(c.slot)), g', if o == Diverges then Diverged else Returned(None), d)
    else
      var c1 := if IsTransition(op) then c.(state := Target(op)) else c;
      var (o, g') := MaybeFire(kind, cfg, g, d);
      if o == Diverges then Step(c1, g', Diverged, d)
      else
        var (slot', out) := RawStep(op, c1.slot);
        Step(c1.(slot := slot'), g', Returned(out), d)
  }

  /** Whether a lifecycle run is still going, the cell is gone, or a trigger diverged. */
  datatype Status = Live | Gone | Halted

  /** The result of a run: final cell and statics, every diagnostic fired, every payload handed out. */
  datatype RunResult<T> = RunResult(cell: Checked<T>, g: Globals, status: Status, detected: seq<Diagnostic>, yielded: seq<T>)

  /** The elements of an option, as a sequence. */
  function Elements<X>(o: Option<X>): (s: seq<X>)
    ensures |s| <= 1
  {
    if o.Some? then [o.value] else []
  }

  /** Operations applied in order until one diverges or consumes the cell. */
  function Run<T>(kind: TrigKind, cfg: Config, ops: seq<Op<T>>, c: Checked<T>, g: Globals): (r: RunResult<T>)
    ensures |r.detected| <= |ops| && |r.yielded| <= |ops|
    ensures r.status == Halted ==> r.detected != []
    ensures r.g.hook == g.hook
    decreases |ops|
  {
    if ops == [] then RunResult(c, g, Live, [], [])
    else
      var s := Apply(kind, cfg, ops[0], c, g);
      if s.flow.Diverged? then RunResult(s.cell, s.g, Halted, Elements(s.fired), [])
      else if Consumes(ops[0]) then RunResult(s.cell, s.g, Gone, Elements(s.fired), Elements(s.flow.out))
      else
        var r := Run(kind, cfg, ops[1..], s.cell, s.g);
        r.(detected := Elements(s.fired) + r.detected, yielded := Elements(s.flow.out) + r.yielded)
  }

  // ---------------------------------------------------------------------------
  // One operation

  /**
   * Only one lifecycle transition is allowed: on a fresh cell any transition
   * installs its state without firing, and any second transition fires with a
   * diagnostic naming the first one's state, and still installs its own.
   */
  lemma OneTransitionAllowed<T>(kind: TrigKind, cfg: Config, first: Op<T>, second: Op<T>, v: T, g: Globals)
    requires IsTransition(first) && IsTransition(second)
    ensures var s1 := Apply(kind, cfg, first, Fresh(v), g);
      && s1.fired == None && s1.g == g && s1.flow.Returned?
      && s1.cell.state == Target(first)
      && var s2 := Apply(kind, cfg, second, s1.cell, g);
        && s2.fired == Some(Diagnostic(ComboReplace, Target(first)))
        && s2.g == FireEffect(kind, cfg, g, Diagnostic(ComboReplace, Target(first))).1
        && s2.cell.state == Target(second)
  {
  }

  /**
   * Reads (`deref` and `deref_mut`) never change the cell's state; they fire
   * exactly when the state is not `Empty`, so never on a fresh cell and always
   * after any transition.
   */
  lemma ReadGating<T>(kind: TrigKind, cfg: Config, op: Op<T>, update: T -> T, c: Checked<T>, g: Globals)
    ensures Apply(kind, cfg, Deref, c, g).cell == c
    ensures Apply(kind, cfg, Deref, c, g).fired.Some? <==> c.state != Empty
    ensures Apply(kind, cfg, DerefMut(update), c, g).cell.state == c.state
    ensures Apply(kind, cfg, DerefMut(update), c, g).fired.Some? <==> c.state != Empty
    ensures c.state == Empty ==> Apply(kind, cfg, Deref, c, g).fired == None && Apply(kind, cfg, DerefMut(update), c, g).fired == None
    ensures IsTransition(op) ==>
      var s := Apply(kind, cfg, op, c, g);
      && Apply(kind, cfg, Deref, s.cell, s.g).fired == Some(Diagnostic(DerefAccess, Target(op)))
      && Apply(kind, cfg, DerefMut(update), s.cell, s.g).fired == Some(Diagnostic(DerefAccess, Target(op)))
  {
  }

  /**
   * Observe, don't prevent: unless the trigger diverged, every operation other
   * than the destructor performs exactly the raw operation, whether or not it fired.
   */
  lemma RawOperationAlwaysRuns<T>(kind: TrigKind, cfg: Config, op: Op<T>, c: Checked<T>, g: Globals)
    requires !op.ScopeEnd?
    ensures var s := Apply(kind, cfg, op, c, g);
      s.flow.Returned? ==> (s.cell.slot, s.flow.out) == RawStep(op, c.slot)
    ensures var s := Apply(kind, cfg, op, c, g);
      s.flow.Diverged? <==> s.fired.Some? && FireEffect(kind, cfg, g, s.fired.value).0 == Diverges
  {
  }

  /**
   * The destructor: with state `Empty` it releases the payload and then fires
   * (the release happens even if the trigger diverges); with any other state it
   * neither releases nor fires.
   */
  lemma DestructorBehaviour<T>(kind: TrigKind, cfg: Config, c: Checked<T>, g: Globals)
    ensures var s := Apply(kind, cfg, ScopeEnd, c, g);
      && (c.state == Empty ==>
            && s.cell == c.(slot := Raw.Drop(c.slot))
            && s.fired == Some(Diagnostic(EndOfScope(DestructorLabel), Empty))
            && s.g == FireEffect(kind, cfg, g, s.fired.value).1)
      && (c.state != Empty ==> s == Step(c, g, Returned(None), None))
  {
  }

  /**
   * A diverging trigger never leaves the cell `Empty` (except in the destructor
   * itself), so the destructor that runs while unwinding does nothing.
   */
  lemma UnwindIsQuiet<T>(kind: TrigKind, cfg: Config, op: Op<T>, c: Checked<T>, g: Globals)
    requires !op.ScopeEnd?
    ensures var s := Apply(kind, cfg, op, c, g);
      s.flow.Diverged? ==> Apply(kind, cfg, ScopeEnd, s.cell, s.g) == Step(s.cell, s.g, Returned(None), None)
  {
  }

  /** The statics a step leaves: a fire's effect when it fired, nothing otherwise; the hook stays. */
  lemma StepStatics<T>(kind: TrigKind, cfg: Config, op: Op<T>, c: Checked<T>, g: Globals)
    ensures var s := Apply(kind, cfg, op, c, g);
      && (s.fired.None? ==> s.g == g && s.flow.Returned?)
      && (s.fired.Some? ==> s.g == FireEffect(kind, cfg, g, s.fired.value).1)
      && s.g.hook == g.hook
  {
    var s := Apply(kind, cfg, op, c, g);
    if s.fired.Some? {
      FireFootprint(kind, cfg, g, s.fired.value);
    }
  }

  // ---------------------------------------------------------------------------
  // Runs

  /** `forget(v)` is `new(v)`, `ignore_drop()` and the end of scope: it never fires or releases. */
  lemma ForgetIsQuiet<T>(kind: TrigKind, cfg: Config, v: T, g: Globals)
    ensures Run(kind, cfg, [IgnoreDrop, ScopeEnd], Fresh(v), g)
         == RunResult(Checked(IgnoreTrigWhenDrop, Raw.New(v)), g, Gone, [], [])
  {
    var s1 := Apply(kind, cfg, IgnoreDrop, Fresh(v), g);
    assert s1 == Step(Checked(IgnoreTrigWhenDrop, Raw.New(v)), g, Returned(None), None);
  }

  /** The model of a well-behaved cell: released at most once, and not at all while `Empty`. */
  ghost predicate Sound<T>(c: Checked<T>) {
    Raw.Releases(c.slot) <= 1 && (c.state == Empty ==> Raw.Releases(c.slot) == 0)
  }

  /**
   * With a diverging trigger, a step from a sound cell releases the payload at
   * most once in all; it returns normally only from an unreleased `Empty` cell
   * (so no read after release ever hands out the payload) and leaves a sound cell.
   */
  lemma DivergingStepIsSafe<T>(kind: TrigKind, cfg: Config, op: Op<T>, c: Checked<T>, g: Globals)
    requires Diverging(kind, g.hook) && Sound(c)
    ensures var s := Apply(kind, cfg, op, c, g);
      && Raw.Releases(s.cell.slot) <= 1
      && (s.fired.Some? <==> s.flow.Diverged?)
      && (s.flow.Returned? && !op.ScopeEnd? ==> c.state == Empty && Raw.Releases(c.slot) == 0 && Sound(s.cell))
      && s.g.hook == g.hook
  {
    var s := Apply(kind, cfg, op, c, g);
    StepStatics(kind, cfg, op, c, g);
    if s.fired.Some? {
      OnlyCounterContinues(kind, cfg, g, s.fired.value);
    }
  }

  /**
   * The point of the checked cell: with a diverging trigger no sequence of
   * operations releases the payload twice, and a run stops exactly at the first
   * violation it detects.
   */
  lemma {:induction false} DivergingRunIsSafe<T>(kind: TrigKind, cfg: Config, ops: seq<Op<T>>, c: Checked<T>, g: Globals)
    requires Diverging(kind, g.hook) && Sound(c)
    ensures var r := Run(kind, cfg, ops, c, g);
      && Raw.Releases(r.cell.slot) <= 1
      && (r.status == Live ==> Sound(r.cell))
      && (r.detected != [] <==> r.status == Halted)
      && |r.detected| <= 1
    decreases |ops|
  {
    if ops != [] {
      var s := Apply(kind, cfg, ops[0], c, g);
      DivergingStepIsSafe(kind, cfg, ops[0], c, g);
      if s.flow.Returned? && !Consumes(ops[0]) {
        DivergingRunIsSafe(kind, cfg, ops[1..], s.cell, s.g);
      }
    }
  }

  /**
   * Counter fidelity: with the counting trigger a run never halts, the counter
   * advances once per detected violation and nothing else in the statics changes.
   */
  lemma {:induction false} CounterRun<T>(cfg: Config, ops: seq<Op<T>>, c: Checked<T>, g: Globals)
    ensures var r := Run(Count, cfg, ops, c, g);
      && r.status != Halted
      && r.g == g.(count := Counter.BumpedTimes(cfg.safeMode, g.count, |r.detected|))
    decreases |ops|
  {
    if ops != [] {
      var s := Apply(Count, cfg, ops[0], c, g);
      CounterStep(cfg, ops[0], c, g);
      if !Consumes(ops[0]) {
        var r := Run(Count, cfg, ops[1..], s.cell, s.g);
        CounterRun(cfg, ops[1..], s.cell, s.g);
        assert Run(Count, cfg, ops, c, g) == r.(detected := Elements(s.fired) + r.detected, yielded := Elements(s.flow.out) + r.yielded);
        BumpedTimesSplit(cfg.safeMode, g.count, |Elements(s.fired)|, |r.detected|);
      }
    }
  }

  /** One step with the counting trigger returns, and bumps the counter once per diagnostic. */
  lemma CounterStep<T>(cfg: Config, op: Op<T>, c: Checked<T>, g: Globals)
    ensures var s := Apply(Count, cfg, op, c, g);
      s.flow.Returned? && s.g == g.(count := Counter.BumpedTimes(cfg.safeMode, g.count, |Elements(s.fired)|))
  {
    StepStatics(Count, cfg, op, c, g);
  }

  /** Counting `m` fires and then `n` more is counting `m + n`, when `m` is at most one. */
  lemma BumpedTimesSplit(safeMode: bool, count: u32, m: nat, n: nat)
    requires m <= 1
    ensures Counter.BumpedTimes(safeMode, Counter.BumpedTimes(safeMode, count, m), n)
         == Counter.BumpedTimes(safeMode, count, m + n)
    decreases n
  {
    if n > 0 {
      BumpedTimesSplit(safeMode, count, m, n - 1);
    }
  }

  /** In safe mode, after `n` violations the count is `n` higher (modulo 2^32). */
  lemma CounterRunCounts<T>(cfg: Config, ops: seq<Op<T>>, c: Checked<T>, g: Globals)
    requires cfg.safeMode
    ensures var r := Run(Count, cfg, ops, c, g);
      r.g.count == (g.count + |r.detected|) % U32_LIMIT
  {
    CounterRun(cfg, ops, c, g);
    Counter.BumpedTimesAdds(g.count, |Run(Count, cfg, ops, c, g).detected|);
  }

  // ---------------------------------------------------------------------------
  // Scenarios of the source's tests

  /**
   * `test_counter_trig_manuallydrop`: three drops of one counted cell leave the
   * counter at 0, 1 and 2; the payload's destructor ran three times, one more
   * than the count; and the cell's own end of scope then does nothing.
   */
  lemma CounterTripleDrop<T>(cfg: Config, v: T, g: Globals)
    requires cfg.safeMode && g.count == 0
    ensures Run(Count, cfg, [Drop], Fresh(v), g).g.count == 0
    ensures Run(Count, cfg, [Drop, Drop], Fresh(v), g).g.count == 1
    ensures var r := Run(Count, cfg, [Drop, Drop, Drop], Fresh(v), g);
      r.g.count == 2 && r.cell.slot.dropped == r.g.count + 1 && r.status == Live
    ensures var r := Run(Count, cfg, [Drop, Drop, Drop, ScopeEnd], Fresh(v), g);
      r.g.count == 2 && r.cell.slot.dropped == 3 && r.status == Gone
  {
    var c1 := Checked(DropModeTrig, Raw.Slot(v, 1, 0));
    var c2 := Checked(DropModeTrig, Raw.Slot(v, 2, 0));
    var c3 := Checked(DropModeTrig, Raw.Slot(v, 3, 0));
    assert Apply(Count, cfg, Drop, Fresh(v), g).cell == c1;
    assert Apply(Count, cfg, Drop, c1, g).cell == c2;
    assert Apply(Count, cfg, Drop, c2, g.(count := 1)).cell == c3;
  }

  // The five panic scenarios of `tests/all.rs`, with the panicking trigger: each
  // run halts at the marked operation with exactly one diagnostic, after the
  // earlier reads handed out the payload, and the payload was released once.

  /** Scenario 1: read, drop, drop again. */
  lemma ComboDropPanics<T>(cfg: Config, v: T, g: Globals)
    ensures Run(Panic, cfg, [Deref, Drop, Drop], Fresh(v), g)
         == RunResult(Checked(DropModeTrig, Raw.Slot(v, 1, 0)), g, Halted, [Diagnostic(ComboReplace, DropModeTrig)], [v])
  {
    var dropped := Checked(DropModeTrig, Raw.Slot(v, 1, 0));
    assert Apply(Panic, cfg, Drop, Fresh(v), g).cell == dropped;
    assert Run(Panic, cfg, [Drop], dropped, g) == RunResult(dropped, g, Halted, [Diagnostic(ComboReplace, DropModeTrig)], []);
    var rest: seq<Op<T>> := [Drop, Drop];
    assert rest[1..] == [Drop];
  }

  /** Scenario 2: two reads, drop, read. */
  lemma DropAndReadPanics<T>(cfg: Config, v: T, g: Globals)
    ensures Run(Panic, cfg, [Deref, Deref, Drop, Deref], Fresh(v), g)
         == RunResult(Checked(DropModeTrig, Raw.Slot(v, 1, 0)), g, Halted, [Diagnostic(DerefAccess, DropModeTrig)], [v, v])
  {
    var dropped := Checked(DropModeTrig, Raw.Slot(v, 1, 0));
    assert Apply(Panic, cfg, Drop, Fresh(v), g).cell == dropped;
    assert Run(Panic, cfg, [Deref], dropped, g) == RunResult(dropped, g, Halted, [Diagnostic(DerefAccess, DropModeTrig)], []);
    var rest: seq<Op<T>> := [Drop, Deref];
    assert rest[1..] == [Deref];
    assert Run(Panic, cfg, [Drop, Deref], Fresh(v), g) == RunResult(dropped, g, Halted, [Diagnostic(DerefAccess, DropModeTrig)], []);
  }

  /** Scenario 3: two reads, take, read. */
  lemma TakeAndReadPanics<T>(cfg: Config, v: T, g: Globals)
    ensures Run(Panic, cfg, [Deref, Deref, Take, Deref], Fresh(v), g)
         == RunResult(Checked(TakeModeTrig, Raw.Slot(v, 0, 1)), g, Halted, [Diagnostic(DerefAccess, TakeModeTrig)], [v, v, v])
  {
    var taken := Checked(TakeModeTrig, Raw.Slot(v, 0, 1));
    assert Apply(Panic, cfg, Take, Fresh(v), g).cell == taken;
    assert Run(Panic, cfg, [Deref], taken, g) == RunResult(taken, g, Halted, [Diagnostic(DerefAccess, TakeModeTrig)], []);
    var rest: seq<Op<T>> := [Take, Deref];
    assert rest[1..] == [Deref];
    assert Run(Panic, cfg, [Take, Deref], Fresh(v), g) == RunResult(taken, g, Halted, [Diagnostic(DerefAccess, TakeModeTrig)], [v]);
  }

  /** Scenario 4: two reads, take, drop. */
  lemma TakeAndDropPanics<T>(cfg: Config, v: T, g: Globals)
    ensures Run(Panic, cfg, [Deref, Deref, Take, Drop], Fresh(v), g)
         == RunResult(Checked(DropModeTrig, Raw.Slot(v, 0, 1)), g, Halted, [Diagnostic(ComboReplace, TakeModeTrig)], [v, v, v])
  {
    var taken := Checked(TakeModeTrig, Raw.Slot(v, 0, 1));
    var end := Checked(DropModeTrig, Raw.Slot(v, 0, 1));
    assert Apply(Panic, cfg, Take, Fresh(v), g).cell == taken;
    assert Run(Panic, cfg, [Drop], taken, g) == RunResult(end, g, Halted, [Diagnostic(ComboReplace, TakeModeTrig)], []);
    var rest: seq<Op<T>> := [Take, Drop];
    assert rest[1..] == [Drop];
    assert Run(Panic, cfg, [Take, Drop], Fresh(v), g) == RunResult(end, g, Halted, [Diagnostic(ComboReplace, TakeModeTrig)], [v]);
  }

  /** Scenario 5: two reads, drop, `into_inner`. */
  lemma DropAndIntoInnerPanics<T>(cfg: Config, v: T, g: Globals)
    ensures Run(Panic, cfg, [Deref, Deref, Drop, IntoInner], Fresh(v), g)
         == RunResult(Checked(IntoInnerModeTrig, Raw.Slot(v, 1, 0)), g, Halted, [Diagnostic(ComboReplace, DropModeTrig)], [v, v])
  {
    var dropped := Checked(DropModeTrig, Raw.Slot(v, 1, 0));
    var end := Checked(IntoInnerModeTrig, Raw.Slot(v, 1, 0));
    assert Apply(Panic, cfg, Drop, Fresh(v), g).cell == dropped;
    assert Run(Panic, cfg, [IntoInner], dropped, g) == RunResult(end, g, Halted, [Diagnostic(ComboReplace, DropModeTrig)], []);
    var rest: seq<Op<T>> := [Drop, IntoInner];
    assert rest[1..] == [IntoInner];
    assert Run(Panic, cfg, [Drop, IntoInner], Fresh(v), g) == RunResult(end, g, Halted, [Diagnostic(ComboReplace, DropModeTrig)], []);
  }

  /**
   * A custom hook that does not return, installed before a double drop, is
   * called once with a diagnostic naming `DropModeTrig`.
   */
  lemma HookedDoubleDrop<T>(cfg: Config, v: T, g: Globals, id: nat)
    requires g.hook == UserFn(id, false)
    ensures var r := Run(HookFn, cfg, [Drop, Drop], Fresh(v), g);
      && r.status == Halted
      && r.g.calls == g.calls + [Call(UserFn(id, false), Diagnostic(ComboReplace, DropModeTrig))]
      && r.detected == [Diagnostic(ComboReplace, DropModeTrig)]
  {
    assert Apply(HookFn, cfg, Drop, Fresh(v), g).cell == Checked(DropModeTrig, Raw.Slot(v, 1, 0));
  }

  // ---------------------------------------------------------------------------
  // Queries and value-only views

  /** `get_state`: the checked cell always reports its state. */
  function GetState<T>(c: Checked<T>): Option<State> {
    Some(c.state)
  }

  /** `is_empty_state`. */
  function IsEmptyState<T>(c: Checked<T>): Option<bool> {
    Some(IsEmpty(c.state))
  }

  /** `is_next_trig`. */
  function IsNextTrigCell<T>(c: Checked<T>): bool {
    IsNextTrig(c.state)
  }

  /** `is_next_trig_optionresult`. */
  function IsNextTrigOptionResult<T>(c: Checked<T>): Option<bool> {
    Some(IsNextTrig(c.state))
  }

  /** The queries agree with each other, and "next trig" means "not `Empty`". */
  lemma QueriesAgree<T>(c: Checked<T>)
    ensures GetState(c).Some? && IsEmptyState(c).Some? && IsNextTrigOptionResult(c).Some?
    ensures IsNextTrigOptionResult(c) == Some(IsNextTrigCell(c))
    ensures IsEmptyState(c) == Some(!IsNextTrigCell(c))
    ensures IsNextTrigCell(c) <==> GetState(c) != Some(Empty)
  {
  }

  /** `Ordering`, for the `Ord`/`PartialOrd` delegations. */
  datatype Ordering = Less | Equal | Greater

  /**
   * `PartialEq` between two cells, taken as a comparison of their payloads. The
   * source hands the whole right-hand operand to the payload's `PartialEq<Rhs>`,
   * which a payload type such as `usize` does not implement for cells.
   */
  function Eq<T(==)>(a: Checked<T>, b: Checked<T>): bool {
    a.slot.value == b.slot.value
  }

  /** `PartialEq<T>`: compare the payload with a plain value, through the raw slot. */
  function EqValue<T(==)>(a: Checked<T>, x: T): bool {
    a.slot.value == x
  }

  /** `PartialOrd<T>`: the payload's own partial ordering against a plain value, through the raw slot. */
  function PartialCmpValue<T>(a: Checked<T>, x: T, pcmp: (T, T) -> Option<Ordering>): Option<Ordering> {
    pcmp(a.slot.value, x)
  }

  /**
   * `Ord::cmp`, given the payload's own ordering. The left payload is read
   * through the raw slot, but the right operand is turned into `&T` by the
   * checked `Deref`, so its state is checked first, exactly as a read would.
   * The ordering is `None` when that check's trigger diverged.
   */
  function Cmp<T>(kind: TrigKind, cfg: Config, a: Checked<T>, b: Checked<T>, g: Globals, cmp: (T, T) -> Ordering): (r: (Option<Ordering>, Globals))
    ensures b.state == Empty ==> r == (Some(cmp(a.slot.value, b.slot.value)), g)
    ensures r.0.Some? ==> r.0.value == cmp(a.slot.value, b.slot.value)
    ensures r.1.hook == g.hook
  {
    var s := Apply(kind, cfg, Deref, b, g);
    if s.flow.Diverged? then (None, s.g) else (Some(cmp(a.slot.value, b.slot.value)), s.g)
  }

  /** `Hash`, given the payload's own hash. */
  function Hash<T>(a: Checked<T>, hash: T -> int): int {
    hash(a.slot.value)
  }

  /** `Debug` as the generated impl writes it: the payload's own formatting. */
  function DebugFmt<T>(a: Checked<T>, fmt: T -> string): string {
    fmt(a.slot.value)
  }

  /** `as_value`: the payload, without consulting the state. */
  function AsValue<T>(a: Checked<T>): T {
    a.slot.value
  }

  /**
   * Equality, the partial ordering against a value, hash, `Debug` and `as_value`
   * see only the payload: two cells with the same payload agree on all of them
   * whatever their states, and none of them takes or changes the statics.
   */
  lemma ValueViewsIgnoreState<T>(a: Checked<T>, a': Checked<T>, b: Checked<T>, pcmp: (T, T) -> Option<Ordering>, hash: T -> int, fmt: T -> string)
    requires a.slot.value == a'.slot.value
    ensures Eq(a, b) == Eq(a', b) && EqValue(a, b.slot.value) == Eq(a, b)
    ensures PartialCmpValue(a, b.slot.value, pcmp) == PartialCmpValue(a', b.slot.value, pcmp)
    ensures Hash(a, hash) == Hash(a', hash) && DebugFmt(a, fmt) == DebugFmt(a', fmt)
    ensures AsValue(a) == AsValue(a')
  {
  }

  /**
   * `Ord::cmp` checks the right operand and only it: the left operand's state
   * never matters, and a right operand that is not `Empty` fires a read
   * diagnostic naming its state; the ordering is missing exactly when that
   * fire diverges.
   */
  lemma CmpChecksRightOperand<T>(kind: TrigKind, cfg: Config, a: Checked<T>, a': Checked<T>, b: Checked<T>, g: Globals, cmp: (T, T) -> Ordering)
    requires a.slot.value == a'.slot.value
    ensures Cmp(kind, cfg, a, b, g, cmp) == Cmp(kind, cfg, a', b, g, cmp)
    ensures b.state != Empty ==>
      var (o, g') := FireEffect(kind, cfg, g, Diagnostic(DerefAccess, b.state));
      && Cmp(kind, cfg, a, b, g, cmp).1 == g'
      && (Cmp(kind, cfg, a, b, g, cmp).0.None? <==> o == Diverges)
  {
  }

  /**
   * Comparing against a dropped cell: with the panicking trigger the comparison
   * never produces an ordering; with the counter it does, and counts one violation.
   */
  lemma CmpWithDroppedRight<T>(cfg: Config, v: T, w: T, g: Globals, cmp: (T, T) -> Ordering)
    ensures var b := Apply(Panic, cfg, Drop, Fresh(w), g).cell;
      Cmp(Panic, cfg, Fresh(v), b, g, cmp).0 == None
    ensures var b := Apply(Count, cfg, Drop, Fresh(w), g).cell;
      Cmp(Count, cfg, Fresh(v), b, g, cmp) == (Some(cmp(v, w)), g.(count := Counter.Bumped(cfg.safeMode, g.count)))
  {
    FreshDrop(Panic, cfg, w, g);
    FreshDrop(Count, cfg, w, g);
  }

  /** A drop on a fresh cell fires nothing and releases the payload once. */
  lemma FreshDrop<T>(kind: TrigKind, cfg: Config, v: T, g: Globals)
    ensures Apply(kind, cfg, Drop, Fresh(v), g) == Step(Checked(DropModeTrig, Raw.Slot(v, 1, 0)), g, Returned(None), None)
  {
  }

  /** `compare_api`: two cells holding 10 are equal to each other and to 10, before and after being dropped. */
  lemma CompareTen(kind: TrigKind, cfg: Config, g: Globals)
    ensures Eq(Fresh(10), Fresh(10)) && EqValue(Fresh(10), 10)
    ensures var s := Apply(kind, cfg, Drop, Fresh(10), g);
      s.flow.Returned? && EqValue(s.cell, 10) && Eq(s.cell, Fresh(10))
  {
    FreshDrop(kind, cfg, 10, g);
  }
}
