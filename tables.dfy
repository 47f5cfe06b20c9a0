/**
 * The three input tables, as the engine loads them. Every cell may be NULL:
 * the engine itself makes no assumption about its inputs, and the
 * data-quality battery exists to report the cells that break expectations.
 */
module Tables {
  import opened Sql

  /** A policy identifier; NULL when the source row has none. */
  type Id = Option<string>

  /** One row of `policies`. */
  datatype PolicyRow = PolicyRow(
    policyId: Id,
    effectiveDate: Option<string>,
    writtenPremium: Option<real>,
    product: Option<string>,
    state: Option<string>,
    broker: Option<string>)

  /** One row of `accounting_gl`. */
  datatype GlRow = GlRow(
    policyId: Id,
    bookingDate: Option<string>,
    premiumBooked: Option<real>,
    taxes: Option<real>,
    fees: Option<real>)

  /** One row of `claims`. */
  datatype ClaimRow = ClaimRow(
    claimId: Option<string>,
    policyId: Id,
    state: Option<string>,
    lossDate: Option<string>,
    incurredLoss: Option<real>,
    paidLoss: Option<real>,
    reserve: Option<real>)

  /** The read-only snapshot every stage of the run works on. */
  datatype Snapshot = Snapshot(
    policies: seq<PolicyRow>,
    gl: seq<GlRow>,
    claims: seq<ClaimRow>)

  /** The `policy_id` column of `policies`, in row order. */
  function PolicyIds(policies: seq<PolicyRow>): (r: seq<Id>)
    ensures |r| == |policies|
    ensures forall i :: 0 <= i < |policies| ==> r[i] == policies[i].policyId
  {
    seq(|policies|, i requires 0 <= i < |policies| => policies[i].policyId)
  }

  /** The `policy_id` column of `accounting_gl`, in row order. */
  function GlIds(gl: seq<GlRow>): (r: seq<Id>)
    ensures |r| == |gl|
    ensures forall i :: 0 <= i < |gl| ==> r[i] == gl[i].policyId
  {
    seq(|gl|, i requires 0 <= i < |gl| => gl[i].policyId)
  }
}
