/**
  The backends' abstract branch conditions (`BC`), as the index into their
  condition-code tables: 19 conditions, the last of which is the
  unconditional branch. The names of the other 18 are not part of this
  model; only their positions are used.
*/
module BranchCondition {
  const UNCONDITIONAL: nat := 18

  /** A branch condition the tables are defined for (the backends assert this bound). */
  type BC = b: nat | b <= UNCONDITIONAL
}
