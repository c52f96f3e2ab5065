# SafeManuallyDrop, modelled in Dafny

SafeManuallyDrop is a Rust crate. It wraps `core::mem::ManuallyDrop<T>`, whose value is released only when the caller asks for it. The checked wrapper remembers what has already happened to the value in a one-byte lifecycle state. Five states exist: `Empty`, `TakeModeTrig`, `DropModeTrig`, `IntoInnerModeTrig` and `IgnoreTrigWhenDrop`.

The wrapper "fires a trigger" when an operation is illegal for its state:

- **A second transition** (`drop`, `take`, `into_inner`, `ignore_drop` after any of them). The new state is installed first, then the state it replaced is checked.
- **A read after a transition** (`deref`, `deref_mut`).
- **The end of scope while the state is still `Empty`.** The destructor releases the payload first, then fires.

The trigger decides what happens next:

- **panic**, **abort** and the **empty loop** never return. The loop trigger can record that it ran in a process-wide flag.
- **The counter** increments a process-wide `u32` and returns. For every operation except the end of scope, the wrapper then behaves like the raw `ManuallyDrop` while counting violations. At the end of scope, an `Empty` cell still releases its payload, which the raw `ManuallyDrop` never does.
- **The hook** calls a process-wide, replaceable function.
- **An anonymous `Default + FnOnce` type** is called and then panics.

The unchecked wrapper has no state and never fires.

The module layout:

| module | what it models |
|---|---|
| `StateData` | the lifecycle states and their byte codec; pure |
| `StateCell` | the state cell (`StateManuallyDrop`): a class over one byte, with the transition, read and end-of-scope checks as methods |
| `Counter`, `Loop`, `Hook` | the triggers with process-wide statics; each static is a class |
| `Triggers` | dispatch to the chosen trigger (`TrigKind`) over a `Registry` of those statics |
| `Raw` | the raw `ManuallyDrop` slot |
| `Guarded` | the checked cell as a value. `Apply` and `Run` are the reference semantics, and the lemmas state what the cell promises. |
| `SafeCell` | the checked cell, as a class whose methods are proved to act exactly as `Guarded.Apply` |
| `UnsafeCell` | the unchecked cell |

### Parameters of the model

- **Which trigger runs.** The source chooses it through the `Trig` type parameter. Here it is a `TrigKind` value. In the `Guarded` functions it is an argument. In the `SafeCell` class it is the `kind` field, fixed by the constructor.
- **Build features.** The source's `cfg` switches are a `Config` value:
  - `safeMode` is the `cfg_if_safemode` switch behind `is_safe_mode`.
  - `istrigLoop` is the `support_istrig_loop` feature.
- **A trigger that never returns** (a panic, an abort, an endless loop) is the outcome `Diverges`.
- **The raw slot's bookkeeping.** Besides the payload, it counts how many times the payload's destructor ran and how many times it was moved out. That is what lets the model state "released at most once".

### Where the model follows the code rather than the description

- **The counter is not monotonic.** It is an `AtomicU32` incremented with `fetch_add`, which wraps to 0 after 2^32 - 1 (src/core/trig/counter.rs:25). It is not a counter that only increases. `Counter.Bumped` and `Guarded.CounterRunCounts` state the wrap-around.
- **`take_hook` does not take.** It only reads the slot, and the installed hook stays in place (src/core/trig/hook.rs:38-41).
- **The destructor passes no label.** The destructor calls `if_empty_then_run_trigfn` with the closure alone (src/beh/safe.rs:92-97). The method takes a label string and the closure (src/core/state.rs:367), so that call does not match its signature. The model passes the empty string `Guarded.DestructorLabel` as the label.
- **Two decoders.** The `From<u8>` impl decodes invalid bytes as `Empty` (src/core/state.rs:84-89). The inherent `from` returns `None` for them. Both are modelled.

## Model

| member | source | states |
|---|---|---|
| Ints.WrappingAdd | src/core/trig/counter.rs:25 | `fetch_add` on a `u32` adds exactly when there is no overflow, and otherwise wraps by 2^32 |
| StateData.ToByte | src/core/state.rs:98-103 | the encoding of a state is one of the five valid bytes, and is 1 exactly for `Empty` |
| StateData.IsValidByte | src/core/state.rs:153-177 | the valid bytes are exactly 1, 5, 15, 25 and 30 |
| StateData.ForceFrom | src/core/state.rs:179-200 | the unchecked decoder, defined on valid bytes only, returns the state whose discriminant is that byte |
| StateData.FromByte | src/core/state.rs:118-132 | `from` returns `Some` exactly for the five valid bytes, and then a state that encodes back to the byte |
| StateData.FromOrEmpty | src/core/state.rs:105-116 | `from_or_empty` decodes every valid byte faithfully and every other byte as `Empty` |
| StateData.IsNextTrig | src/core/state.rs:202-210 | a state requires a trigger exactly when it is not `Empty` |
| StateData.IsEmpty | src/core/state.rs:211-218 | a state is empty exactly when it is `Empty` |
| StateData.Name | src/core/state.rs:67-82 | every state has a non-empty `Display` name, and the name is "Empty" only for `Empty` |
| StateData.EmptyState | src/core/state.rs:134-151 | the default state is empty and does not require a trigger |
| StateData.RoundTrip | src/core/state.rs:98-103 | encoding a state as its byte and decoding it gives the state back, through each of the three decoders |
| StateData.ValidByteIsEncoding | src/core/state.rs:153-166 | a byte is valid if and only if some state encodes to it |
| StateData.InvalidByte | src/core/state.rs:118-132 | every other byte is invalid: `from` rejects it and `from_or_empty` maps it to `Empty` |
| StateData.EncodingsAreDistinct | src/core/state.rs:44-82 | distinct states have distinct discriminants and distinct `Display` names |
| StateData.NextTrigIsNotEmpty | src/core/state.rs:202-218 | `is_next_trig` is the negation of `is_empty`, and `Empty` is the only state that is empty |
| Counter.Bumped | src/core/trig/counter.rs:20-29 | one fire adds one to the counter in safe mode, wrapping 2^32 - 1 to 0, and changes nothing otherwise |
| Counter.BumpedTimesAdds | src/core/trig/counter.rs:20-29 | in safe mode, `n` fires add `n` to the counter modulo 2^32 |
| Counter.SuccessorModulo | src/core/trig/counter.rs:25 | incrementing commutes with reduction modulo 2^32 |
| Counter.GettersAgree | src/core/trig/counter.rs:31-52 | the optional getter is `Some` exactly in safe mode, and agrees with the plain getter, which reports 0 otherwise |
| Counter.CounterStatic.constructor | src/core/trig/counter.rs:9 | the static counter starts at 0 |
| Counter.CounterStatic.Trig | src/core/trig/counter.rs:20-29 | the counting trigger returns, and bumps the counter as `Bumped` says |
| Counter.CounterStatic.GetCount | src/core/trig/counter.rs:31-41 | `get_count_trig_safemanuallydrop` reports the counter in safe mode and 0 otherwise |
| Counter.CounterStatic.GetOptionCount | src/core/trig/counter.rs:43-52 | `get_optioncount_trig_safemanuallydrop` is `Some(counter)` in safe mode and `None` otherwise |
| Loop.LoopedAfter | src/core/trig/loop.rs:32-52 | after a loop fire the flag is set if it was set before or the feature is on |
| Loop.VisibleLooped | src/core/trig/loop.rs:54-68 | with the feature, the flag query reports exactly the flag; without it, it always reports `false` |
| Loop.LoopedIsSticky | src/core/trig/loop.rs:45-52 | once set, the flag stays set through any number of fires |
| Loop.LoopStatic.constructor | src/core/trig/loop.rs:10 | the static flag starts cleared |
| Loop.LoopStatic.Trig | src/core/trig/loop.rs:32-43 | the loop trigger never returns, and stores `true` only when the feature is on |
| Loop.LoopStatic.IsTrig | src/core/trig/loop.rs:54-77 | `is_trig_next_invalid_beh` is the flag with the feature and `false` without it |
| Hook.CallOutcome | src/core/trig/hook.rs:23-25 | a callback returns only if it is a user function that comes back; the default hook panics |
| Hook.LastWriterWins | src/core/trig/hook.rs:31-33 | after a sequence of `set_hook` calls, the slot holds the last function set, or the initial one if there were none |
| Hook.HookSlot.constructor | src/core/trig/hook.rs:23-25 | the slot starts with the panicking default hook, and nothing has been called |
| Hook.HookSlot.SetHook | src/core/trig/hook.rs:31-33 | `set_hook` replaces the slot in full |
| Hook.HookSlot.TakeHook | src/core/trig/hook.rs:38-41 | `take_hook` returns the installed hook and leaves it installed |
| Hook.HookSlot.RunHook | src/core/trig/hook.rs:46-56 | `run_hook` calls the installed hook once with the diagnostic. Its outcome is that hook's, and the slot is unchanged. |
| Hook.HookSlot.AnonymousTrig | src/core/trig/hook.rs:66-74 | the anonymous trigger calls its function once with the diagnostic and then never returns |
| Triggers.FireEffect | src/core/trig/mod.rs:45-49 | a fire of the selected trigger returns exactly when that trigger does not diverge, and never replaces the hook |
| Triggers.MaybeFire | src/core/state.rs:286-363 | nothing fires and nothing changes without a diagnostic; only a diagnostic can make a check diverge |
| Triggers.Diverging | src/core/trig/mod.rs:4-24 | the counter never diverges; with the default hook, every other trigger diverges |
| Triggers.OnlyCounterContinues | src/core/trig/mod.rs:4-24 | a fire returns if and only if the trigger is the counter or a user hook that comes back; with the default hook, only the counter returns |
| Triggers.FireFootprint | src/core/trig/counter.rs:20-29 | each fire changes only its own static. The counter moves by one, modulo 2^32, and only on a counter fire. The loop flag is only ever set. No fire replaces the hook. |
| Triggers.Registry.constructor | src/core/trig/hook.rs:23-25 | the statics start at process-start values: counter 0, flag cleared, default hook, no calls |
| Triggers.Registry.Fire | src/core/trig/mod.rs:45-49 | `trig_next_invalid_beh` dispatches to the selected trigger, with that trigger's outcome and effect on the statics |
| Triggers.Registry.SetHook | src/core/trig/hook.rs:31-33 | installing a hook changes the hook static and nothing else |
| StateCell.CheckConditions | src/core/state.rs:286-381 | a transition and a read fire exactly on a non-`Empty` state, and the end-of-scope check fires exactly on `Empty`. Each diagnostic names the state it found. |
| StateCell.StateCell.Empty | src/core/state.rs:224-242 | a new state cell reads `Empty`, is empty and does not require a trigger |
| StateCell.StateCell.Read | src/core/state.rs:250-263 | `read` decodes the stored byte to the state whose encoding it is |
| StateCell.StateCell.IsEmptyNow | src/core/state.rs:244-248 | `is_empty` holds exactly when the stored state is `Empty` |
| StateCell.StateCell.IsNextTrigNow | src/core/state.rs:383-387 | `is_next_trig` holds exactly when the stored state is not `Empty` |
| StateCell.StateCell.ForceWrite | src/core/state.rs:265-273 | the swap installs the new state and returns the one it replaced |
| StateCell.StateCell.GetAndReset | src/core/state.rs:275-284 | `get_and_reset` leaves `Empty` and returns the previous state |
| StateCell.StateCell.SafeReplace | src/core/state.rs:286-303 | the target is installed, and the trigger fires with a combo-replace diagnostic exactly when the replaced state was not `Empty` |
| StateCell.StateCell.ToDropModeOrTrig | src/core/state.rs:305-314 | installs `DropModeTrig`, and fires if the replaced state was not `Empty` |
| StateCell.StateCell.ToTakeModeOrTrig | src/core/state.rs:316-325 | installs `TakeModeTrig`, and fires if the replaced state was not `Empty` |
| StateCell.StateCell.ToIgnoreTrigWhenDrop | src/core/state.rs:327-336 | installs `IgnoreTrigWhenDrop`, and fires if the replaced state was not `Empty` |
| StateCell.StateCell.ToIntoInnerModeOrTrig | src/core/state.rs:338-347 | installs `IntoInnerModeTrig`, and fires if the replaced state was not `Empty` |
| StateCell.StateCell.DerefOrTrig | src/core/state.rs:349-363 | the state is left alone, and the trigger fires with a read diagnostic exactly when the state is not `Empty` |
| StateCell.StateCell.IfEmptyThenRunTrigfn | src/core/state.rs:365-381 | when the state is `Empty`, the closure runs and then the trigger fires; otherwise neither happens |
| StateCell.ResetAfterDrop | src/core/state.rs:418-439 | the `test_reset` sequence fires nothing and `get_and_reset` returns `DropModeTrig` |
| Guarded.Fresh | src/macro_codegen.rs:55-75 | `new(v)` is in state `Empty`, holds `v`, and has not been released |
| Guarded.Target | src/core/state.rs:305-347 | every transition installs a state that makes any later transition or dereference fire |
| Guarded.RawStep | src/macro_codegen.rs:152-285 | the raw operation behind each wrapper operation. Only `deref_mut` changes the payload. A drop, a take and `into_inner` each give it up once. Exactly the reads, takes and `into_inner` hand the payload out. |
| Guarded.Check | src/core/state.rs:286-381 | the end-of-scope check fires exactly on `Empty`. Every other check fires exactly on a state that is not `Empty`. The diagnostic names the state found and the site of the check. |
| Guarded.Apply | src/macro_codegen.rs:152-285 | one operation fires exactly the diagnostic its check produces. It diverges only if something fired. A transition installs its target state, and the hook is never replaced. |
| Guarded.Run | src/beh/safe.rs:79-99 | a run detects and hands out at most one value per operation. It halts only at a detected violation, and keeps the hook. |
| Guarded.OneTransitionAllowed | src/core/state.rs:286-303 | on a fresh cell, a transition installs its state without firing. Any second transition fires with a diagnostic naming the first one's state, and still installs its own. |
| Guarded.ReadGating | src/macro_codegen.rs:259-285 | `deref` and `deref_mut` never change the state. Each fires exactly when the state is not `Empty`. So neither fires on a fresh cell, and both always fire after any transition. |
| Guarded.RawOperationAlwaysRuns | src/macro_codegen.rs:178-187 | unless the trigger diverged, every operation performs exactly the raw operation, whether or not it fired; it diverges exactly when a fire diverges |
| Guarded.DestructorBehaviour | src/beh/safe.rs:79-99 | at end of scope an `Empty` cell releases its payload and then fires; a cell in any other state does nothing |
| Guarded.UnwindIsQuiet | src/beh/safe.rs:79-99 | after a diverging trigger the cell is never `Empty`, so the destructor that runs during unwinding does nothing |
| Guarded.StepStatics | src/core/state.rs:286-381 | an operation changes the statics only by one fire's effect, and never replaces the hook |
| Guarded.ForgetIsQuiet | src/macro_codegen.rs:77-86 | `forget(v)` never fires, never releases the payload and leaves the statics unchanged |
| Guarded.DivergingStepIsSafe | src/core/state.rs:286-381 | with a diverging trigger, an operation on a sound cell releases at most once in total, returns only from an unreleased `Empty` cell, and leaves the cell sound |
| Guarded.DivergingRunIsSafe | src/beh/safe.rs:79-99 | with a diverging trigger, no sequence of operations releases the payload twice; a run halts exactly at its first detected violation, and only there |
| Guarded.CounterRun | src/core/trig/counter.rs:14-29 | with the counter, a run never halts, and the counter advances once per detected violation with nothing else changed |
| Guarded.CounterStep | src/core/trig/counter.rs:20-29 | one operation with the counter always returns, and bumps the counter exactly once per diagnostic it fires |
| Guarded.BumpedTimesSplit | src/core/trig/counter.rs:20-29 | counting one fire and then `n` more is counting `n + 1` |
| Guarded.CounterRunCounts | src/core/trig/counter.rs:20-29 | in safe mode, a run adds the number of its violations to the counter, modulo 2^32 |
| Guarded.CounterTripleDrop | src/core/trig/counter.rs:66-97 | three drops of one counted cell leave the counter at 0, 1 and 2. The payload's destructor ran once more than the count. The end of scope then does nothing. |
| Guarded.ComboDropPanics | tests/all.rs:20-36 | read, drop, drop halts at the second drop with one combo-replace diagnostic naming `DropModeTrig`, after one release |
| Guarded.DropAndReadPanics | tests/all.rs:38-55 | two reads, a drop and a read halt at that read with one diagnostic naming `DropModeTrig`, after one release |
| Guarded.TakeAndReadPanics | tests/all.rs:57-76 | two reads, a take and a read halt at that read with one diagnostic naming `TakeModeTrig`; the take handed out the payload once |
| Guarded.TakeAndDropPanics | tests/all.rs:78-99 | two reads, a take and a drop halt at the drop with one combo-replace diagnostic naming `TakeModeTrig`; the payload was moved once and never dropped |
| Guarded.DropAndIntoInnerPanics | tests/all.rs:101-118 | two reads, a drop and `into_inner` halt at `into_inner` with one combo-replace diagnostic naming `DropModeTrig`, after one release |
| Guarded.HookedDoubleDrop | src/core/trig/hook.rs:46-56 | a double drop under a hook that does not return calls that hook once, with a diagnostic naming `DropModeTrig` |
| Guarded.QueriesAgree | src/macro_codegen.rs:98-227 | the checked cell's queries always answer `Some` and agree with one another; "next trig" means "not `Empty`" |
| Guarded.ValueViewsIgnoreState | src/beh/safe.rs:33-77 | `Eq`, `EqValue`, `PartialCmpValue`, `Hash`, `DebugFmt` and `AsValue` see only the payload, whatever the state (equality, the partial ordering against a value, hash, `Debug` and `as_value`) |
| Guarded.Cmp | src/macro_codegen.rs:316-322 | `Ord::cmp` against an `Empty` cell is the payloads' ordering, with nothing fired. Any ordering it produces is the payloads' ordering, and it never replaces the hook. |
| Guarded.CmpChecksRightOperand | src/beh/safe.rs:55-61 | `cmp` reads the right operand through the checked `Deref`. The left operand's state never matters. A right operand that is not `Empty` fires a read diagnostic naming its state, and no ordering comes back exactly when that fire diverges. |
| Guarded.CmpWithDroppedRight | src/macro_codegen.rs:259-272 | comparing with a dropped cell never yields an ordering under the panicking trigger. Under the counter it yields the ordering and counts one violation. |
| Guarded.FreshDrop | src/macro_codegen.rs:239-250 | a drop on a fresh cell fires nothing, installs `DropModeTrig` and runs the payload's destructor once |
| Guarded.CompareTen | tests/compare.rs:5-13 | two cells holding 10 are equal to each other and to 10. The model adds its own claim: they still are after a drop. The test never compares after its drops. |
| SafeCell.SafeCell.New | src/beh/safe.rs:24-31 | `new(v)`, and `default()` as `new` applied to the default value: the cell is `Fresh(v)` |
| SafeCell.SafeCell.Deref | src/macro_codegen.rs:259-272 | `deref` has exactly the effect `Guarded.Apply` gives a read |
| SafeCell.SafeCell.DerefMut | src/macro_codegen.rs:274-285 | `deref_mut`, followed by a write through the reference, has exactly the effect `Guarded.Apply` gives it |
| SafeCell.SafeCell.Drop | src/macro_codegen.rs:239-250 | `drop` has exactly the effect `Guarded.Apply` gives a drop |
| SafeCell.SafeCell.Take | src/macro_codegen.rs:178-187 | `take` has exactly the effect `Guarded.Apply` gives a take, and returns the payload |
| SafeCell.SafeCell.IntoCoreInner | src/macro_codegen.rs:159-176 | `into_core_inner` has exactly the effect `Guarded.Apply` gives `into_inner`, and consumes the cell without running its destructor |
| SafeCell.SafeCell.IntoInner | src/macro_codegen.rs:152-157 | `into_inner` is `into_core_inner` followed by unwrapping the raw slot |
| SafeCell.SafeCell.IgnoreDrop | src/macro_codegen.rs:229-236 | `ignore_drop` has exactly the effect `Guarded.Apply` gives it, and leaves the payload alone |
| SafeCell.SafeCell.EndOfScope | src/beh/safe.rs:79-99 | the destructor has exactly the effect `Guarded.Apply` gives the end of scope |
| SafeCell.SafeCell.GetState | src/macro_codegen.rs:98-109 | `get_state` is `Some` of the current state |
| SafeCell.SafeCell.IsEmptyState | src/macro_codegen.rs:117-128 | `is_empty_state` is `Some` of whether the state is `Empty` |
| SafeCell.SafeCell.IsNextTrig | src/macro_codegen.rs:201-210 | `is_next_trig` is whether the state requires a trigger |
| SafeCell.SafeCell.IsNextTrigOptionResult | src/macro_codegen.rs:218-227 | `is_next_trig_optionresult` is `Some` of `is_next_trig` |
| SafeCell.SafeCell.AsValue | src/macro_codegen.rs:142-145 | `as_value` returns the payload without a check |
| SafeCell.SafeCell.AsMutValue | src/macro_codegen.rs:147-150 | a write through `as_mut_value` changes the payload and nothing else, without a check |
| SafeCell.Forget | src/macro_codegen.rs:77-86 | `forget` leaves the statics exactly as they were |
| SafeCell.CountedComboDrop | src/core/trig/counter.rs:78-87 | two drops of a counted cell set the counter from 0 to 1 |
| UnsafeCell.New | src/beh/unsafe.rs:9-17 | the unchecked `new(v)` holds `v`, unreleased |
| UnsafeCell.Apply | src/macro_codegen.rs:152-285 | an unchecked operation is the raw one. Only `deref_mut` changes the payload, a drop, a take and `into_inner` each give it up once, and the end of scope does nothing. |
| UnsafeCell.RunUnchecked | src/beh/unsafe.rs:14-17 | no run of the unchecked cell ever halts, and it hands out at most one value per operation |
| UnsafeCell.NoStateNoChecks | src/macro_codegen.rs:98-227 | `GetState`, `IsEmptyState` and `IsNextTrigOptionResult` of the unchecked cell are `None`, and `IsNextTrig` is false. The end of scope does nothing. |
| UnsafeCell.UncheckedReleases | src/beh/unsafe.rs:14-17 | every drop, take and `into_inner` in a run reaches the payload, however many came before |
| UnsafeCell.UncheckedDoubleDrop | src/macro_codegen.rs:239-250 | a double drop of the unchecked cell runs the payload's destructor twice and goes unnoticed |
| UnsafeCell.CounterMatchesUnchecked | src/core/trig/counter.rs:14-15 | with the counter, for any explicit operations, the checked cell does to its payload what the unchecked cell does. It hands out the same values and ends the same way. |
| UnsafeCell.DerivedViewsSeePayload | src/beh/unsafe.rs:8-12 | the derived `Eq` and `Hash` of the unchecked cell see only the payload |

## Left out

- **Atomics and memory orderings.** The `AtomicU8` state and the `AtomicU32`/`AtomicBool` statics are plain fields. The `SeqCst`/`Relaxed` orderings and concurrent access are not modelled.
- **Abort's output.** The abort trigger's write to stderr is I/O and is not modelled; only its outcome is (it never returns).
- **Panic formatting.** The diagnostic text built with `format_args!` becomes a `Diagnostic` value naming the site and the state found.
- **Raw-pointer accessors.** `as_ptr`, `as_mut_ptr`, `as_unsafestd_manuallydrop` and `as_mut_unsafestd_manuallydrop` hand out pointers or references, which this model has no notion of. `as_value` and `as_mut_value` are modelled.
- **Deprecated aliases.** `is_def_state`, `is_maybe_next_panic`, `is_next_panic` and `is_next_panic_optionresult` forward to the modelled queries and have no entry of their own.
- **`is_safe_mode`.** It is the `safeMode` field of `Config`.
- **`Clone`.** `Clone` of the state cell and of the checked cell is not modelled.
- **Trigger return type.** Switching it between `!` and `()` is represented only by which callbacks may come back.
- **Duplicated trait impls.** `Default`, `PartialEq`, `Eq`, `Ord`, `PartialOrd`, `Hash` and `Debug` are written in src/beh/safe.rs and are also produced by the generated block in src/macro_codegen.rs. The unchecked cell likewise derives them (src/beh/unsafe.rs:8) as well as getting the generated ones. Each is modelled once, in `Guarded` or `UnsafeCell`. The derived `Debug` of the checked cell (src/beh/safe.rs:10) also prints `state`, while the generated one prints only the payload. `Guarded.DebugFmt` follows the generated one.
- Guarded.Eq: cell-to-cell equality is modelled as payload equality. In the source, `PartialEq<Rhs>` passes the whole right-hand cell to `T: PartialEq<Rhs>` (src/beh/safe.rs:33-45, src/macro_codegen.rs:294-306). So comparing two cells needs `T: PartialEq<SafeManuallyDrop<T, Trig>>`, and the cell-to-cell asserts of tests/compare.rs:10 and :13 do not type-check for `usize`.
- Guarded.PartialCmpValue: `PartialOrd<Rhs>` is modelled only against a plain value, for the same reason as `Guarded.Eq`.
- **Ordering comparisons.** The payload's `Ord` and `PartialOrd` are comparators handed in as parameters.
- **Unsized payloads.** `?Sized` payloads are not modelled; every payload is a Dafny value.
- SafeCell.SafeCell.IntoCoreInner: the payload comes back as a plain value, not wrapped in a fresh raw `ManuallyDrop`. That wrapper is inert.
- **Payload destructor.** The payload's own destructor is a count of runs in `Raw.Slot`; its side effects are not modelled.
- **Default trigger and the `auto` wrapper.** The choice of the default trigger by build features and the `auto` wrapper are not part of this model.
