/** The hook trigger: a process-wide, replaceable callback slot. */
module Hook {
  import opened Trig

  /**
   * A hook function. `DefaultHook` is the initial closure, which panics with the
   * diagnostic. A `UserFn` is told apart by `id`; `comesBack` says whether it comes
   * back, which only type-checks when the trigger return type is `()`.
   */
  datatype Callback = DefaultHook | UserFn(id: nat, comesBack: bool)

  /** One invocation of a callback, with the diagnostic it was given. */
  datatype Call = Call(callee: Callback, arg: Diagnostic)

  /** The control outcome of calling a callback. */
  function CallOutcome(f: Callback): (o: Outcome)
    ensures o == Continues <==> f.UserFn? && f.comesBack
    ensures f == DefaultHook ==> o == Diverges
  {
    match f
    case DefaultHook => Diverges
    case UserFn(_, comesBack) => if comesBack then Continues else Diverges
  }

  /** The slot after a sequence of `set_hook` calls. */
  function AfterSets(initial: Callback, sets: seq<Callback>): Callback
    decreases |sets|
  {
    if sets == [] then initial else AfterSets(sets[0], sets[1..])
  }

  /** Last writer wins: after several `set_hook` calls the slot holds the last one. */
  lemma {:induction false} LastWriterWins(initial: Callback, sets: seq<Callback>)
    ensures sets == [] ==> AfterSets(initial, sets) == initial
    ensures sets != [] ==> AfterSets(initial, sets) == sets[|sets| - 1]
    decreases |sets|
  {
    if |sets| > 1 {
      LastWriterWins(sets[0], sets[1..]);
      assert sets[1..][|sets[1..]| - 1] == sets[|sets| - 1];
    }
  }

  /** The `static mut HOOK` slot; `calls` records every callback invocation. */
  class HookSlot {
    var hook: Callback
    ghost var calls: seq<Call>

    /** The slot starts with the panicking default hook. */
    constructor ()
      ensures hook == DefaultHook && calls == []
    {
      hook := DefaultHook;
      calls := [];
    }

    /** `set_hook`: replace the slot in full. */
    method SetHook(f: Callback)
      modifies this
      ensures hook == f && calls == old(calls)
    {
      hook := f;
    }

    /** `take_hook`: read the slot; unlike its name suggests, the slot keeps the hook. */
    method TakeHook() returns (f: Callback)
      ensures f == hook
    {
      f := hook;
    }

    /** `run_hook`: call the installed hook with the diagnostic. */
    method RunHook(d: Diagnostic) returns (o: Outcome)
      modifies this
      ensures o == CallOutcome(old(hook))
      ensures hook == old(hook)
      ensures calls == old(calls) + [Call(old(hook), d)]
    {
      var f := TakeHook();
      calls := calls + [Call(f, d)];
      o := CallOutcome(f);
    }

    /**
     * The blanket trigger for a `Default + FnOnce` type `F`: call `F::default()`
     * with the diagnostic, and panic if that call returns. It does not touch the
     * `HOOK` static (`hook` is unchanged); it lives here only because `calls`,
     * the record of every callback invocation, is kept beside the slot.
     */
    method AnonymousTrig(f: Callback, d: Diagnostic) returns (o: Outcome)
      modifies this
      ensures o == Diverges
      ensures hook == old(hook)
      ensures calls == old(calls) + [Call(f, d)]
    {
      calls := calls + [Call(f, d)];
      o := Diverges;
    }
  }
}
