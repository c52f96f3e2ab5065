/**
 * Trigger selection. The source picks the trigger through a type parameter
 * (`Trig: TrigManuallyDrop`); here it is a `TrigKind` value, and the
 * process-wide statics the triggers use are gathered in one `Registry`.
 */
module Triggers {
  import opened Ints
  import opened Wrappers
  import opened Trig
  import opened Hook
  import Counter
  import Loop

  /** The trigger implementations. `Anonymous(f)` is the blanket impl for a `Default + FnOnce` type. */
  datatype TrigKind = Panic | Abort | HookFn | Count | EmptyLoop | Anonymous(f: Callback)

  /** The values of the process-wide statics. */
  datatype Globals = Globals(count: u32, looped: bool, hook: Callback, calls: seq<Call>)

  /** The statics at process start: counter 0, flag clear, panicking default hook, no calls. */
  function Initial(): Globals {
    Globals(0, false, DefaultHook, [])
  }

  /** Firing a trigger with a diagnostic: its outcome and the statics afterwards. */
  function FireEffect(kind: TrigKind, cfg: Config, g: Globals, d: Diagnostic): (r: (Outcome, Globals))
    ensures r.0 == Continues <==> !Diverging(kind, g.hook)
    ensures r.1.hook == g.hook
  {
    match kind
    case Panic => (Diverges, g)
    case Abort => (Diverges, g)
    case HookFn => (CallOutcome(g.hook), g.(calls := g.calls + [Call(g.hook, d)]))
    case Count => (Continues, g.(count := Counter.Bumped(cfg.safeMode, g.count)))
    case EmptyLoop => (Diverges, g.(looped := Loop.LoopedAfter(cfg.istrigLoop, g.looped)))
    case Anonymous(f) => (Diverges, g.(calls := g.calls + [Call(f, d)]))
  }

  /** Fire when a check produced a diagnostic; otherwise carry on with nothing changed. */
  function MaybeFire(kind: TrigKind, cfg: Config, g: Globals, d: Option<Diagnostic>): (r: (Outcome, Globals))
    ensures r.0 == Diverges ==> d.Some?
    ensures d.None? ==> r.1 == g
    ensures r.1.hook == g.hook
  {
    if d.Some? then FireEffect(kind, cfg, g, d.value) else (Continues, g)
  }

  /** Whether a trigger of this kind never returns, given the installed hook. */
  predicate Diverging(kind: TrigKind, hook: Callback)
    ensures kind.Count? ==> !Diverging(kind, hook)
    ensures hook == DefaultHook ==> (Diverging(kind, hook) <==> !kind.Count?)
  {
    !kind.Count? && !(kind.HookFn? && hook.UserFn? && hook.comesBack)
  }

  /**
   * Only the counter returns, apart from a user hook that returns (possible only
   * when the trigger return type is `()`); with the default hook, only the counter.
   */
  lemma OnlyCounterContinues(kind: TrigKind, cfg: Config, g: Globals, d: Diagnostic)
    ensures FireEffect(kind, cfg, g, d).0 == Continues <==> !Diverging(kind, g.hook)
    ensures g.hook == DefaultHook ==> (FireEffect(kind, cfg, g, d).0 == Continues <==> kind == Count)
  {
  }

  /**
   * What each fire changes: the counter moves only on a counter fire and by one
   * (modulo 2^32, in safe mode), the loop flag is only ever set, the hook slot is
   * never replaced, and a callback is recorded only by the hook-based triggers.
   */
  lemma FireFootprint(kind: TrigKind, cfg: Config, g: Globals, d: Diagnostic)
    ensures var g' := FireEffect(kind, cfg, g, d).1;
      && g'.hook == g.hook
      && (g.looped ==> g'.looped)
      && (g'.looped != g.looped <==> kind == EmptyLoop && cfg.istrigLoop && !g.looped)
      && (kind == Count && cfg.safeMode ==> g'.count == (g.count + 1) % U32_LIMIT)
      && (kind != Count || !cfg.safeMode ==> g'.count == g.count)
      && (kind == HookFn ==> g'.calls == g.calls + [Call(g.hook, d)])
      && (!kind.HookFn? && !kind.Anonymous? ==> g'.calls == g.calls)
  {
  }

  /** All the process-wide statics, plus the build configuration. */
  class Registry {
    const cfg: Config
    const counter: Counter.CounterStatic
    const loopState: Loop.LoopStatic
    const hookSlot: HookSlot
    ghost const Repr: set<object>

    ghost predicate Valid()
      reads this
    {
      Repr == {counter, loopState, hookSlot}
    }

    /** The statics' values. */
    ghost function Snapshot(): Globals
      reads this, Repr
      requires Valid()
    {
      Globals(counter.count, loopState.looped, hookSlot.hook, hookSlot.calls)
    }

    /** The statics as they are at process start. */
    constructor (cfg: Config)
      ensures Valid() && fresh(Repr)
      ensures this.cfg == cfg && Snapshot() == Initial()
    {
      this.cfg := cfg;
      var c := new Counter.CounterStatic();
      var l := new Loop.LoopStatic();
      var h := new HookSlot();
      counter, loopState, hookSlot := c, l, h;
      Repr := {c, l, h};
    }

    /** `Trig::trig_next_invalid_beh(diagnostic)` for the selected trigger. */
    method Fire(kind: TrigKind, d: Diagnostic) returns (o: Outcome)
      requires Valid()
      modifies Repr
      ensures Valid()
      ensures (o, Snapshot()) == FireEffect(kind, cfg, old(Snapshot()), d)
    {
      match kind
      case Panic =>
        o := Diverges;
      case Abort =>
        o := Diverges;
      case HookFn =>
        o := hookSlot.RunHook(d);
      case Count =>
        o := counter.Trig(cfg.safeMode);
      case EmptyLoop =>
        o := loopState.Trig(cfg.istrigLoop);
      case Anonymous(f) =>
        o := hookSlot.AnonymousTrig(f, d);
    }

    /** `set_hook` on the process-wide slot. */
    method SetHook(f: Callback)
      requires Valid()
      modifies hookSlot
      ensures Valid()
      ensures Snapshot() == old(Snapshot()).(hook := f)
    {
      hookSlot.SetHook(f);
    }
  }
}
