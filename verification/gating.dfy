/**
 * The reject-column gate both boards apply before a drag-and-drop move: the
 * source and target containers must be known columns, and neither may be a
 * reject column that is switched off.
 */
module DropGating {
  import opened Options

  /** The two optional flags of a column; an absent flag reads as false. */
  datatype RejectFlags = RejectFlags(isRejectColumn: bool, isRejectEnabled: bool)

  /** Which check of `drop` decided the outcome. */
  datatype Verdict =
    | UnknownContainer
    | TargetRejectOff
    | SourceRejectOff
    | ReorderRejectOff
    | Accepted

  /** A reject column that is switched off. */
  predicate RejectOff(f: RejectFlags)
  {
    f.isRejectColumn && !f.isRejectEnabled
  }

  /** The guard chain of `drop`, check for check: `previous` and `current` are
      the columns found for the source and target containers, and `currentIsSource`
      says whether the target column's id is the source container's id. */
  function DropGate(previous: Option<RejectFlags>, current: Option<RejectFlags>, currentIsSource: bool): (v: Verdict)
    ensures v == UnknownContainer <==> previous.None? || current.None?
    ensures v == Accepted <==> previous.Some? && current.Some? && !RejectOff(previous.value) && !RejectOff(current.value)
    ensures v == TargetRejectOff ==> RejectOff(current.value)
    ensures v == SourceRejectOff ==> RejectOff(previous.value) && !RejectOff(current.value)
    ensures v != ReorderRejectOff
  {
    if previous.None? || current.None? then
      UnknownContainer
    else if current.value.isRejectColumn && !current.value.isRejectEnabled then
      TargetRejectOff
    else if previous.value.isRejectColumn && !previous.value.isRejectEnabled then
      SourceRejectOff
    else if current.value.isRejectColumn && currentIsSource && !current.value.isRejectEnabled then
      // Already refused by the target check above: this one never fires.
      ReorderRejectOff
    else
      Accepted
  }
}
