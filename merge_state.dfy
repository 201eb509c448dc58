/**
 * The move decision of approved_PR/index.js:122: a card is moved only when the
 * pull request's `mergeable_state`, as GitHub reports it, is strictly equal to
 * "unstable" or to "clean". The field may be `null` while GitHub is still
 * computing it, and GitHub documents a closed set of values for it.
 */
module MergeState {
  import opened Wrappers

  /** The values GitHub documents for `mergeable_state`. */
  datatype MergeableState = Behind | Blocked | Clean | Dirty | Draft | HasHooks | Unknown | Unstable

  /** The string GitHub sends for each documented value. */
  function StateName(s: MergeableState): string {
    match s
    case Behind => "behind"
    case Blocked => "blocked"
    case Clean => "clean"
    case Dirty => "dirty"
    case Draft => "draft"
    case HasHooks => "has_hooks"
    case Unknown => "unknown"
    case Unstable => "unstable"
  }

  /** The documented value a string names, if it names one. */
  function ParseState(name: string): (s: Option<MergeableState>)
    ensures s.Some? ==> StateName(s.value) == name
  {
    if name == "behind" then Some(Behind)
    else if name == "blocked" then Some(Blocked)
    else if name == "clean" then Some(Clean)
    else if name == "dirty" then Some(Dirty)
    else if name == "draft" then Some(Draft)
    else if name == "has_hooks" then Some(HasHooks)
    else if name == "unknown" then Some(Unknown)
    else if name == "unstable" then Some(Unstable)
    else None
  }

  /** Every documented value is read back from its name. */
  lemma ParseStateName(s: MergeableState)
    ensures ParseState(StateName(s)) == Some(s)
  {
  }

  /**
   * `mergeable_state === 'unstable' || mergeable_state === 'clean'`, with `null`
   * (or an absent field) as None.
   */
  predicate ShouldMove(mergeableState: Option<string>) {
    mergeableState == Some("unstable") || mergeableState == Some("clean")
  }

  /** Of the documented values exactly Clean and Unstable lead to a move. */
  lemma ShouldMoveDocumented(s: MergeableState)
    ensures ShouldMove(Some(StateName(s))) <==> s == Clean || s == Unstable
  {
    ParseStateName(s);
  }

  /** A missing state, or one that names no documented value, never leads to a move. */
  lemma ShouldMoveOnlyOnKnownState(mergeableState: Option<string>)
    ensures ShouldMove(mergeableState) ==>
      mergeableState.Some? && ParseState(mergeableState.value) in {Some(Clean), Some(Unstable)}
  {
  }
}
