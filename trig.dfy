/**
 * What every trigger shares: the diagnostic it is handed and whether control
 * comes back from it. In the source the trigger's return type is `!`, or `()`
 * when the counter feature is on; here that is an explicit `Outcome`.
 */
module Trig {
  import opened StateData

  /** `Diverges`: the trigger panicked, aborted or spins; `Continues`: it returned. */
  datatype Outcome = Continues | Diverges

  /** Which check produced a diagnostic. */
  datatype Site =
    | ComboReplace        // a second lifecycle transition (`__safe_replace_mutstate`)
    | DerefAccess         // a read or write through `deref`/`deref_mut` (`deref_or_trig`)
    | EndOfScope(operation: string) // the destructor found the cell still `Empty` (`if_empty_then_run_trigfn`)

  /** The formatted message, kept as the check that fired and the state it observed. */
  datatype Diagnostic = Diagnostic(site: Site, found: State)

  /** Build-time switches that change trigger behaviour. */
  datatype Config = Config(
    safeMode: bool,   // `always_safe_manuallydrop`, or debug assertions with `always_check_in_case_debug_assertions`
    istrigLoop: bool  // `support_istrig_loop`
  )
}
