/**
 * The data-quality battery: eight fixed checks, run in a fixed order, each a
 * query over one table whose result rows are appended, one issue per result
 * row, to a single shared issue list.
 */
module DataQuality {
  import opened Sql
  import opened Tables

  /** The three input tables, by the names the issue list records. */
  datatype TableName = Policies | AccountingGl | Claims {
    function Label(): string {
      match this
      case Policies => "policies"
      case AccountingGl => "accounting_gl"
      case Claims => "claims"
    }
  }

  /** The checks of the battery; the two null checks share one label. */
  datatype Check =
    | DuplicatePolicyId
    | NullPolicyKeyOrPremium
    | NullGlKeyOrPremium
    | NegativePremiumBooked
    | NullClaimOrPolicyId
    | NegativeIncurredLoss
    | PaidGreaterThanIncurred
    | ReserveMismatch
  {
    /** The table the check scans. */
    function Table(): TableName {
      match this
      case DuplicatePolicyId | NullPolicyKeyOrPremium => Policies
      case NullGlKeyOrPremium | NegativePremiumBooked => AccountingGl
      case _ => Claims
    }

    /** The `check_name` recorded with each of its issues. */
    function Label(): string {
      match this
      case DuplicatePolicyId => "duplicate_policy_id"
      case NullPolicyKeyOrPremium | NullGlKeyOrPremium => "null_key_or_premium"
      case NegativePremiumBooked => "negative_premium_booked"
      case NullClaimOrPolicyId => "null_claim_or_policy_id"
      case NegativeIncurredLoss => "negative_incurred_loss"
      case PaidGreaterThanIncurred => "paid_greater_than_incurred"
      case ReserveMismatch => "reserve_mismatch"
    }
  }

  /** The order in which the run performs the checks. */
  const Battery: seq<Check> := [
    DuplicatePolicyId, NullPolicyKeyOrPremium, NullGlKeyOrPremium, NegativePremiumBooked,
    NullClaimOrPolicyId, NegativeIncurredLoss, PaidGreaterThanIncurred, ReserveMismatch]

  /** Absolute tolerance of the reserve check, in currency units. */
  const ReserveTolerance: real := 0.01

  /**
   * One row of a check's query result. A row-level check returns whole
   * table rows; the duplicate check returns `(policy_id, cnt)` groups.
   */
  datatype ResultRow =
    | PolicyResult(policy: PolicyRow)
    | GlResult(entry: GlRow)
    | ClaimResult(claim: ClaimRow)
    | DuplicateResult(id: Id, cnt: nat)

  /** The `policy_id` column of a result row (every result has one). */
  function PolicyIdOf(x: ResultRow): Id {
    match x
    case PolicyResult(p) => p.policyId
    case GlResult(g) => g.policyId
    case ClaimResult(c) => c.policyId
    case DuplicateResult(id, _) => id
  }

  /**
   * One data-quality issue. `issueDetail` is the offending result row
   * itself; its rendering as text is not part of this model.
   */
  datatype Issue = Issue(check: Check, policyId: Id, issueDetail: ResultRow) {
    function TableName(): string { check.Table().Label() }
    function CheckName(): string { check.Label() }
  }

  /** A table's rows, as the result rows a `SELECT *` over it yields. */
  function TableRows(db: Snapshot, t: TableName): (r: seq<ResultRow>)
    ensures t == Policies ==> |r| == |db.policies| && forall i :: 0 <= i < |r| ==> r[i] == PolicyResult(db.policies[i])
    ensures t == AccountingGl ==> |r| == |db.gl| && forall i :: 0 <= i < |r| ==> r[i] == GlResult(db.gl[i])
    ensures t == Claims ==> |r| == |db.claims| && forall i :: 0 <= i < |r| ==> r[i] == ClaimResult(db.claims[i])
  {
    match t
    case Policies => seq(|db.policies|, i requires 0 <= i < |db.policies| => PolicyResult(db.policies[i]))
    case AccountingGl => seq(|db.gl|, i requires 0 <= i < |db.gl| => GlResult(db.gl[i]))
    case Claims => seq(|db.claims|, i requires 0 <= i < |db.claims| => ClaimResult(db.claims[i]))
  }

  /**
   * The WHERE clause of a row-level check, evaluated in SQL's three-valued
   * logic. A check only reads columns of its own table; a row of another
   * table never satisfies it.
   */
  function Condition(c: Check, x: ResultRow): Truth {
    match (c, x)
    case (NullPolicyKeyOrPremium, PolicyResult(p)) =>
      Or(IsNull(p.policyId), IsNull(p.writtenPremium))
    case (NullGlKeyOrPremium, GlResult(g)) =>
      Or(IsNull(g.policyId), IsNull(g.premiumBooked))
    case (NegativePremiumBooked, GlResult(g)) =>
      Lt(g.premiumBooked, Some(0.0))
    case (NullClaimOrPolicyId, ClaimResult(k)) =>
      Or(IsNull(k.claimId), IsNull(k.policyId))
    case (NegativeIncurredLoss, ClaimResult(k)) =>
      Lt(k.incurredLoss, Some(0.0))
    case (PaidGreaterThanIncurred, ClaimResult(k)) =>
      Gt(k.paidLoss, k.incurredLoss)
    case (ReserveMismatch, ClaimResult(k)) =>
      Gt(AbsN(Sub(k.reserve, Sub(k.incurredLoss, k.paidLoss))), Some(ReserveTolerance))
    case _ => False
  }

  /** `SELECT * FROM t WHERE cond`: the rows whose condition is TRUE, in table order. */
  function Where(rows: seq<ResultRow>, c: Check): (r: seq<ResultRow>)
    ensures forall x :: multiset(r)[x] == if Condition(c, x) == True then multiset(rows)[x] else 0
    ensures |r| <= |rows|
  {
    if rows == [] then []
    else
      assert rows == [rows[0]] + rows[1..];
      (if Condition(c, rows[0]) == True then [rows[0]] else []) + Where(rows[1..], c)
  }

  /** `HAVING COUNT(*) > 1` over the groups of `ids`. */
  function Having(groups: seq<Id>, ids: seq<Id>): seq<ResultRow> {
    if groups == [] then []
    else
      var n := multiset(ids)[groups[0]];
      (if n > 1 then [DuplicateResult(groups[0], n)] else []) + Having(groups[1..], ids)
  }

  /**
   * `SELECT policy_id, COUNT(*) AS cnt FROM policies GROUP BY policy_id
   * HAVING COUNT(*) > 1`. NULL ids form one group. The query fixes no
   * order; the model lists groups by first occurrence.
   */
  function DuplicateGroups(policies: seq<PolicyRow>): seq<ResultRow> {
    var ids := PolicyIds(policies);
    Having(Distinct(ids), ids)
  }

  /** The result of check `c`'s query against the snapshot. */
  function Query(db: Snapshot, c: Check): seq<ResultRow> {
    if c == DuplicatePolicyId then DuplicateGroups(db.policies)
    else Where(TableRows(db, c.Table()), c)
  }

  /** The issues `add_issues` appends for a query result: one per row, in order. */
  function IssuesFor(rows: seq<ResultRow>, c: Check): (r: seq<Issue>)
    ensures |r| == |rows|
  {
    if rows == [] then []
    else [Issue(c, PolicyIdOf(rows[0]), rows[0])] + IssuesFor(rows[1..], c)
  }

  lemma {:induction false} IssuesForAt(rows: seq<ResultRow>, c: Check, k: nat)
    requires k < |rows|
    ensures |IssuesFor(rows, c)| == |rows|
    ensures IssuesFor(rows, c)[k] == Issue(c, PolicyIdOf(rows[k]), rows[k])
  {
    if k > 0 {
      IssuesForAt(rows[1..], c, k - 1);
    } else if |rows| > 1 {
      IssuesForAt(rows[1..], c, 0);
    }
  }

  /**
   * `add_issues`: walks the query result and appends one issue per row to
   * the issue list, leaving the issues already there untouched.
   */
  method AddIssues(issues: seq<Issue>, rows: seq<ResultRow>, c: Check) returns (out: seq<Issue>)
    ensures |out| == |issues| + |rows|
    ensures out[..|issues|] == issues
    ensures forall k :: 0 <= k < |rows| ==>
      out[|issues| + k] == Issue(c, PolicyIdOf(rows[k]), rows[k])
    ensures out == issues + IssuesFor(rows, c)
  {
    out := issues;
    var k := 0;
    while k < |rows|
      invariant 0 <= k <= |rows|
      invariant |out| == |issues| + k
      invariant out[..|issues|] == issues
      invariant forall j :: 0 <= j < k ==> out[|issues| + j] == Issue(c, PolicyIdOf(rows[j]), rows[j])
    {
      out := out + [Issue(c, PolicyIdOf(rows[k]), rows[k])];
      k := k + 1;
    }
    if rows != [] {
      IssuesForAt(rows, c, 0);
    }
    forall j | 0 <= j < |rows|
      ensures out[|issues| + j] == IssuesFor(rows, c)[j]
    {
      IssuesForAt(rows, c, j);
    }
    assert out == issues + IssuesFor(rows, c);
  }

  /**
   * The issues the eight checks record, in battery order, given each
   * check's query result.
   */
  function RunIssues(r0: seq<ResultRow>, r1: seq<ResultRow>, r2: seq<ResultRow>, r3: seq<ResultRow>, r4: seq<ResultRow>, r5: seq<ResultRow>, r6: seq<ResultRow>, r7: seq<ResultRow>): seq<Issue> {
    IssuesFor(r0, DuplicatePolicyId) +
    IssuesFor(r1, NullPolicyKeyOrPremium) +
    IssuesFor(r2, NullGlKeyOrPremium) +
    IssuesFor(r3, NegativePremiumBooked) +
    IssuesFor(r4, NullClaimOrPolicyId) +
    IssuesFor(r5, NegativeIncurredLoss) +
    IssuesFor(r6, PaidGreaterThanIncurred) +
    IssuesFor(r7, ReserveMismatch)
  }

  /** The issue list of a whole run. */
  function DqIssues(db: Snapshot): seq<Issue> {
    RunIssues(Query(db, DuplicatePolicyId), Query(db, NullPolicyKeyOrPremium), Query(db, NullGlKeyOrPremium), Query(db, NegativePremiumBooked), Query(db, NullClaimOrPolicyId), Query(db, NegativeIncurredLoss), Query(db, PaidGreaterThanIncurred), Query(db, ReserveMismatch))
  }

  /**
   * The data-quality stage of the run: the eight checks, one after the
   * other, all appending to one list that starts empty.
   */
  method Evaluate(db: Snapshot) returns (issues: seq<Issue>)
    ensures issues == DqIssues(db)
  {
    issues := [];
    issues := AddIssues(issues, Query(db, DuplicatePolicyId), DuplicatePolicyId);
    issues := AddIssues(issues, Query(db, NullPolicyKeyOrPremium), NullPolicyKeyOrPremium);
    issues := AddIssues(issues, Query(db, NullGlKeyOrPremium), NullGlKeyOrPremium);
    issues := AddIssues(issues, Query(db, NegativePremiumBooked), NegativePremiumBooked);
    issues := AddIssues(issues, Query(db, NullClaimOrPolicyId), NullClaimOrPolicyId);
    issues := AddIssues(issues, Query(db, NegativeIncurredLoss), NegativeIncurredLoss);
    issues := AddIssues(issues, Query(db, PaidGreaterThanIncurred), PaidGreaterThanIncurred);
    issues := AddIssues(issues, Query(db, ReserveMismatch), ReserveMismatch);
  }

  // ---------------------------------------------------------------------
  // What the battery promises, stated without SQL's three-valued logic.
  // ---------------------------------------------------------------------

  /**
   * When a row-level check flags a row, in plain two-valued terms: a
   * comparison with a NULL operand never holds. The duplicate check is not
   * row-level and flags no row.
   */
  predicate Flags(c: Check, x: ResultRow) {
    match c
    case DuplicatePolicyId => false
    case NullPolicyKeyOrPremium =>
      x.PolicyResult? && (x.policy.policyId.None? || x.policy.writtenPremium.None?)
    case NullGlKeyOrPremium =>
      x.GlResult? && (x.entry.policyId.None? || x.entry.premiumBooked.None?)
    case NegativePremiumBooked =>
      x.GlResult? && x.entry.premiumBooked.Some? && x.entry.premiumBooked.value < 0.0
    case NullClaimOrPolicyId =>
      x.ClaimResult? && (x.claim.claimId.None? || x.claim.policyId.None?)
    case NegativeIncurredLoss =>
      x.ClaimResult? && x.claim.incurredLoss.Some? && x.claim.incurredLoss.value < 0.0
    case PaidGreaterThanIncurred =>
      x.ClaimResult? && x.claim.paidLoss.Some? && x.claim.incurredLoss.Some?
      && x.claim.paidLoss.value > x.claim.incurredLoss.value
    case ReserveMismatch =>
      x.ClaimResult? && x.claim.reserve.Some? && x.claim.incurredLoss.Some? && x.claim.paidLoss.Some?
      && Abs(x.claim.reserve.value - (x.claim.incurredLoss.value - x.claim.paidLoss.value)) > ReserveTolerance
  }

  /** The table a row of a row-level query comes from. */
  function RowTable(x: ResultRow): TableName {
    match x
    case PolicyResult(_) => Policies
    case GlResult(_) => AccountingGl
    case ClaimResult(_) => Claims
    case DuplicateResult(_, _) => Policies
  }

  /** A WHERE clause in three-valued logic keeps exactly the rows `Flags` describes. */
  lemma ConditionMeaning(c: Check, x: ResultRow)
    ensures Condition(c, x) == True <==> Flags(c, x)
    ensures Flags(c, x) ==> c.Table() == RowTable(x) && !x.DuplicateResult?
  {
  }

  /** A NULL `premium_booked` is not a negative premium. */
  lemma NullPremiumIsNotNegative(g: GlRow)
    requires g.premiumBooked.None?
    ensures Condition(NegativePremiumBooked, GlResult(g)) == Unknown
    ensures !Flags(NegativePremiumBooked, GlResult(g))
  {
  }

  /**
   * A reserve gap of exactly the tolerance, in either direction, is not a
   * mismatch: the comparison is strict.
   */
  lemma ReserveGapAtToleranceIsNotMismatch(k: ClaimRow)
    requires k.reserve.Some? && k.incurredLoss.Some? && k.paidLoss.Some?
    requires Abs(k.reserve.value - (k.incurredLoss.value - k.paidLoss.value)) == ReserveTolerance
    ensures Condition(ReserveMismatch, ClaimResult(k)) == False
    ensures !Flags(ReserveMismatch, ClaimResult(k))
  {
  }

  /** The rows of a row-level check's query: every flagged table row, as often as it occurs. */
  lemma QueryCount(db: Snapshot, c: Check, x: ResultRow)
    requires c != DuplicatePolicyId
    ensures multiset(Query(db, c))[x] == if Flags(c, x) then multiset(TableRows(db, c.Table()))[x] else 0
  {
    ConditionMeaning(c, x);
  }

  /** How many issues of check `c` carry `x` as their detail. */
  function CountOf(issues: seq<Issue>, c: Check, x: ResultRow): nat {
    if issues == [] then 0
    else (if issues[0].check == c && issues[0].issueDetail == x then 1 else 0) + CountOf(issues[1..], c, x)
  }

  /** How many issues, of any check, carry `x` as their detail. */
  function CountDetail(issues: seq<Issue>, x: ResultRow): nat {
    if issues == [] then 0
    else (if issues[0].issueDetail == x then 1 else 0) + CountDetail(issues[1..], x)
  }

  /** How many issues of check `c` carry the policy id `id`. */
  function CountId(issues: seq<Issue>, c: Check, id: Id): nat {
    if issues == [] then 0
    else (if issues[0].check == c && issues[0].policyId == id then 1 else 0) + CountId(issues[1..], c, id)
  }

  lemma {:induction false} CountOfAppend(a: seq<Issue>, b: seq<Issue>, c: Check, x: ResultRow)
    ensures CountOf(a + b, c, x) == CountOf(a, c, x) + CountOf(b, c, x)
  {
    if a == [] {
      assert a + b == b;
    } else {
      assert (a + b)[1..] == a[1..] + b;
      CountOfAppend(a[1..], b, c, x);
    }
  }

  lemma {:induction false} CountDetailAppend(a: seq<Issue>, b: seq<Issue>, x: ResultRow)
    ensures CountDetail(a + b, x) == CountDetail(a, x) + CountDetail(b, x)
  {
    if a == [] {
      assert a + b == b;
    } else {
      assert (a + b)[1..] == a[1..] + b;
      CountDetailAppend(a[1..], b, x);
    }
  }

  lemma {:induction false} CountIdAppend(a: seq<Issue>, b: seq<Issue>, c: Check, id: Id)
    ensures CountId(a + b, c, id) == CountId(a, c, id) + CountId(b, c, id)
  {
    if a == [] {
      assert a + b == b;
    } else {
      assert (a + b)[1..] == a[1..] + b;
      CountIdAppend(a[1..], b, c, id);
    }
  }


  /** The `policy_id` column of a query result. */
  function ResultIds(rows: seq<ResultRow>): (r: seq<Id>)
    ensures |r| == |rows|
  {
    if rows == [] then [] else [PolicyIdOf(rows[0])] + ResultIds(rows[1..])
  }

  /**
   * `add_issues` records each result row once, under its own check and with
   * the row as detail.
   */
  lemma {:induction false} IssuesForCountOf(rows: seq<ResultRow>, c: Check, d: Check, x: ResultRow)
    ensures CountOf(IssuesFor(rows, c), d, x) == if c == d then multiset(rows)[x] else 0
  {
    if rows != [] {
      var issues := IssuesFor(rows, c);
      assert issues[0] == Issue(c, PolicyIdOf(rows[0]), rows[0]);
      assert issues[1..] == IssuesFor(rows[1..], c);
      IssuesForCountOf(rows[1..], c, d, x);
      assert rows == [rows[0]] + rows[1..];
      assert multiset(rows)[x] == multiset([rows[0]])[x] + multiset(rows[1..])[x];
    }
  }

  lemma {:induction false} IssuesForCountDetail(rows: seq<ResultRow>, c: Check, x: ResultRow)
    ensures CountDetail(IssuesFor(rows, c), x) == multiset(rows)[x]
  {
    if rows != [] {
      var issues := IssuesFor(rows, c);
      assert issues[0] == Issue(c, PolicyIdOf(rows[0]), rows[0]);
      assert issues[1..] == IssuesFor(rows[1..], c);
      IssuesForCountDetail(rows[1..], c, x);
      assert rows == [rows[0]] + rows[1..];
      assert multiset(rows)[x] == multiset([rows[0]])[x] + multiset(rows[1..])[x];
    }
  }

  /** Each issue `add_issues` records carries the `policy_id` of its result row. */
  lemma {:induction false} IssuesForCountId(rows: seq<ResultRow>, c: Check, d: Check, id: Id)
    ensures CountId(IssuesFor(rows, c), d, id) == if c == d then multiset(ResultIds(rows))[id] else 0
  {
    if rows != [] {
      var issues := IssuesFor(rows, c);
      assert issues[0] == Issue(c, PolicyIdOf(rows[0]), rows[0]);
      assert issues[1..] == IssuesFor(rows[1..], c);
      IssuesForCountId(rows[1..], c, d, id);
      var ids := ResultIds(rows);
      assert ids == [PolicyIdOf(rows[0])] + ResultIds(rows[1..]);
      assert multiset(ids)[id] == multiset([PolicyIdOf(rows[0])])[id] + multiset(ResultIds(rows[1..]))[id];
    }
  }

  /** Issues of check `c` with detail `x` in a run: the rows of `c`'s own query equal to `x`. */
  lemma RunCountOf(r0: seq<ResultRow>, r1: seq<ResultRow>, r2: seq<ResultRow>, r3: seq<ResultRow>, r4: seq<ResultRow>, r5: seq<ResultRow>, r6: seq<ResultRow>, r7: seq<ResultRow>, c: Check, x: ResultRow)
    ensures CountOf(RunIssues(r0, r1, r2, r3, r4, r5, r6, r7), c, x) ==
      (if c == DuplicatePolicyId then multiset(r0)[x] else 0)
      + (if c == NullPolicyKeyOrPremium then multiset(r1)[x] else 0)
      + (if c == NullGlKeyOrPremium then multiset(r2)[x] else 0)
      + (if c == NegativePremiumBooked then multiset(r3)[x] else 0)
      + (if c == NullClaimOrPolicyId then multiset(r4)[x] else 0)
      + (if c == NegativeIncurredLoss then multiset(r5)[x] else 0)
      + (if c == PaidGreaterThanIncurred then multiset(r6)[x] else 0)
      + (if c == ReserveMismatch then multiset(r7)[x] else 0)
  {
    var q0 := IssuesFor(r0, DuplicatePolicyId);
    var q1 := IssuesFor(r1, NullPolicyKeyOrPremium);
    var q2 := IssuesFor(r2, NullGlKeyOrPremium);
    var q3 := IssuesFor(r3, NegativePremiumBooked);
    var q4 := IssuesFor(r4, NullClaimOrPolicyId);
    var q5 := IssuesFor(r5, NegativeIncurredLoss);
    var q6 := IssuesFor(r6, PaidGreaterThanIncurred);
    var q7 := IssuesFor(r7, ReserveMismatch);
    CountOfAppend(q0, q1, c, x);
    CountOfAppend(q0 + q1, q2, c, x);
    CountOfAppend(q0 + q1 + q2, q3, c, x);
    CountOfAppend(q0 + q1 + q2 + q3, q4, c, x);
    CountOfAppend(q0 + q1 + q2 + q3 + q4, q5, c, x);
    CountOfAppend(q0 + q1 + q2 + q3 + q4 + q5, q6, c, x);
    CountOfAppend(q0 + q1 + q2 + q3 + q4 + q5 + q6, q7, c, x);
    IssuesForCountOf(r0, DuplicatePolicyId, c, x);
    IssuesForCountOf(r1, NullPolicyKeyOrPremium, c, x);
    IssuesForCountOf(r2, NullGlKeyOrPremium, c, x);
    IssuesForCountOf(r3, NegativePremiumBooked, c, x);
    IssuesForCountOf(r4, NullClaimOrPolicyId, c, x);
    IssuesForCountOf(r5, NegativeIncurredLoss, c, x);
    IssuesForCountOf(r6, PaidGreaterThanIncurred, c, x);
    IssuesForCountOf(r7, ReserveMismatch, c, x);
  }

  /** Issues with detail `x` in a run, of any check: the rows equal to `x` over all eight queries. */
  lemma RunCountDetail(r0: seq<ResultRow>, r1: seq<ResultRow>, r2: seq<ResultRow>, r3: seq<ResultRow>, r4: seq<ResultRow>, r5: seq<ResultRow>, r6: seq<ResultRow>, r7: seq<ResultRow>, x: ResultRow)
    ensures CountDetail(RunIssues(r0, r1, r2, r3, r4, r5, r6, r7), x) ==
      multiset(r0)[x] + multiset(r1)[x] + multiset(r2)[x] + multiset(r3)[x] + multiset(r4)[x] + multiset(r5)[x] + multiset(r6)[x] + multiset(r7)[x]
  {
    var q0 := IssuesFor(r0, DuplicatePolicyId);
    var q1 := IssuesFor(r1, NullPolicyKeyOrPremium);
    var q2 := IssuesFor(r2, NullGlKeyOrPremium);
    var q3 := IssuesFor(r3, NegativePremiumBooked);
    var q4 := IssuesFor(r4, NullClaimOrPolicyId);
    var q5 := IssuesFor(r5, NegativeIncurredLoss);
    var q6 := IssuesFor(r6, PaidGreaterThanIncurred);
    var q7 := IssuesFor(r7, ReserveMismatch);
    CountDetailAppend(q0, q1, x);
    CountDetailAppend(q0 + q1, q2, x);
    CountDetailAppend(q0 + q1 + q2, q3, x);
    CountDetailAppend(q0 + q1 + q2 + q3, q4, x);
    CountDetailAppend(q0 + q1 + q2 + q3 + q4, q5, x);
    CountDetailAppend(q0 + q1 + q2 + q3 + q4 + q5, q6, x);
    CountDetailAppend(q0 + q1 + q2 + q3 + q4 + q5 + q6, q7, x);
    IssuesForCountDetail(r0, DuplicatePolicyId, x);
    IssuesForCountDetail(r1, NullPolicyKeyOrPremium, x);
    IssuesForCountDetail(r2, NullGlKeyOrPremium, x);
    IssuesForCountDetail(r3, NegativePremiumBooked, x);
    IssuesForCountDetail(r4, NullClaimOrPolicyId, x);
    IssuesForCountDetail(r5, NegativeIncurredLoss, x);
    IssuesForCountDetail(r6, PaidGreaterThanIncurred, x);
    IssuesForCountDetail(r7, ReserveMismatch, x);
  }

  /** Issues of check `c` with policy id `id` in a run: the rows of `c`'s own query with that id. */
  lemma RunCountId(r0: seq<ResultRow>, r1: seq<ResultRow>, r2: seq<ResultRow>, r3: seq<ResultRow>, r4: seq<ResultRow>, r5: seq<ResultRow>, r6: seq<ResultRow>, r7: seq<ResultRow>, c: Check, id: Id)
    ensures CountId(RunIssues(r0, r1, r2, r3, r4, r5, r6, r7), c, id) ==
      (if c == DuplicatePolicyId then multiset(ResultIds(r0))[id] else 0)
      + (if c == NullPolicyKeyOrPremium then multiset(ResultIds(r1))[id] else 0)
      + (if c == NullGlKeyOrPremium then multiset(ResultIds(r2))[id] else 0)
      + (if c == NegativePremiumBooked then multiset(ResultIds(r3))[id] else 0)
      + (if c == NullClaimOrPolicyId then multiset(ResultIds(r4))[id] else 0)
      + (if c == NegativeIncurredLoss then multiset(ResultIds(r5))[id] else 0)
      + (if c == PaidGreaterThanIncurred then multiset(ResultIds(r6))[id] else 0)
      + (if c == ReserveMismatch then multiset(ResultIds(r7))[id] else 0)
  {
    var q0 := IssuesFor(r0, DuplicatePolicyId);
    var q1 := IssuesFor(r1, NullPolicyKeyOrPremium);
    var q2 := IssuesFor(r2, NullGlKeyOrPremium);
    var q3 := IssuesFor(r3, NegativePremiumBooked);
    var q4 := IssuesFor(r4, NullClaimOrPolicyId);
    var q5 := IssuesFor(r5, NegativeIncurredLoss);
    var q6 := IssuesFor(r6, PaidGreaterThanIncurred);
    var q7 := IssuesFor(r7, ReserveMismatch);
    CountIdAppend(q0, q1, c, id);
    CountIdAppend(q0 + q1, q2, c, id);
    CountIdAppend(q0 + q1 + q2, q3, c, id);
    CountIdAppend(q0 + q1 + q2 + q3, q4, c, id);
    CountIdAppend(q0 + q1 + q2 + q3 + q4, q5, c, id);
    CountIdAppend(q0 + q1 + q2 + q3 + q4 + q5, q6, c, id);
    CountIdAppend(q0 + q1 + q2 + q3 + q4 + q5 + q6, q7, c, id);
    IssuesForCountId(r0, DuplicatePolicyId, c, id);
    IssuesForCountId(r1, NullPolicyKeyOrPremium, c, id);
    IssuesForCountId(r2, NullGlKeyOrPremium, c, id);
    IssuesForCountId(r3, NegativePremiumBooked, c, id);
    IssuesForCountId(r4, NullClaimOrPolicyId, c, id);
    IssuesForCountId(r5, NegativeIncurredLoss, c, id);
    IssuesForCountId(r6, PaidGreaterThanIncurred, c, id);
    IssuesForCountId(r7, ReserveMismatch, c, id);
  }

  /** The counts of a whole run add up over the eight checks. */
  lemma RunCounts(r0: seq<ResultRow>, r1: seq<ResultRow>, r2: seq<ResultRow>, r3: seq<ResultRow>, r4: seq<ResultRow>, r5: seq<ResultRow>, r6: seq<ResultRow>, r7: seq<ResultRow>, c: Check, x: ResultRow, id: Id)
    ensures CountOf(RunIssues(r0, r1, r2, r3, r4, r5, r6, r7), c, x) ==
      (if c == DuplicatePolicyId then multiset(r0)[x] else 0)
      + (if c == NullPolicyKeyOrPremium then multiset(r1)[x] else 0)
      + (if c == NullGlKeyOrPremium then multiset(r2)[x] else 0)
      + (if c == NegativePremiumBooked then multiset(r3)[x] else 0)
      + (if c == NullClaimOrPolicyId then multiset(r4)[x] else 0)
      + (if c == NegativeIncurredLoss then multiset(r5)[x] else 0)
      + (if c == PaidGreaterThanIncurred then multiset(r6)[x] else 0)
      + (if c == ReserveMismatch then multiset(r7)[x] else 0)
    ensures CountDetail(RunIssues(r0, r1, r2, r3, r4, r5, r6, r7), x) ==
      multiset(r0)[x] + multiset(r1)[x] + multiset(r2)[x] + multiset(r3)[x] + multiset(r4)[x] + multiset(r5)[x] + multiset(r6)[x] + multiset(r7)[x]
    ensures CountId(RunIssues(r0, r1, r2, r3, r4, r5, r6, r7), c, id) ==
      (if c == DuplicatePolicyId then multiset(ResultIds(r0))[id] else 0)
      + (if c == NullPolicyKeyOrPremium then multiset(ResultIds(r1))[id] else 0)
      + (if c == NullGlKeyOrPremium then multiset(ResultIds(r2))[id] else 0)
      + (if c == NegativePremiumBooked then multiset(ResultIds(r3))[id] else 0)
      + (if c == NullClaimOrPolicyId then multiset(ResultIds(r4))[id] else 0)
      + (if c == NegativeIncurredLoss then multiset(ResultIds(r5))[id] else 0)
      + (if c == PaidGreaterThanIncurred then multiset(ResultIds(r6))[id] else 0)
      + (if c == ReserveMismatch then multiset(ResultIds(r7))[id] else 0)
  {
    RunCountOf(r0, r1, r2, r3, r4, r5, r6, r7, c, x);
    RunCountDetail(r0, r1, r2, r3, r4, r5, r6, r7, x);
    RunCountId(r0, r1, r2, r3, r4, r5, r6, r7, c, id);
  }



  /**
   * A row-level check records one issue for every occurrence of a row it
   * flags, and none for a row it does not flag, whatever the other checks
   * find.
   */
  lemma RowLevelCheck(db: Snapshot, c: Check, x: ResultRow)
    requires c != DuplicatePolicyId
    ensures CountOf(DqIssues(db), c, x) == if Flags(c, x) then multiset(TableRows(db, c.Table()))[x] else 0
  {
    RunCounts(Query(db, DuplicatePolicyId), Query(db, NullPolicyKeyOrPremium), Query(db, NullGlKeyOrPremium), Query(db, NegativePremiumBooked), Query(db, NullClaimOrPolicyId), Query(db, NegativeIncurredLoss), Query(db, PaidGreaterThanIncurred), Query(db, ReserveMismatch), c, x, None);
    QueryCount(db, c, x);
  }

  lemma {:induction false} HavingCount(groups: seq<Id>, ids: seq<Id>, x: ResultRow)
    requires NoDuplicates(groups)
    ensures multiset(Having(groups, ids))[x] ==
      if x.DuplicateResult? && x.id in groups && x.cnt == multiset(ids)[x.id] && x.cnt > 1 then 1 else 0
  {
    if groups != [] {
      HavingCount(groups[1..], ids, x);
      var n := multiset(ids)[groups[0]];
      var head: seq<ResultRow> := if n > 1 then [DuplicateResult(groups[0], n)] else [];
      assert Having(groups, ids) == head + Having(groups[1..], ids);
      assert multiset(Having(groups, ids))[x] == multiset(head)[x] + multiset(Having(groups[1..], ids))[x];
      assert x.DuplicateResult? && x.id == groups[0] ==> x.id !in groups[1..];
      assert x.DuplicateResult? ==> (x.id in groups <==> x.id == groups[0] || x.id in groups[1..]);
    }
  }

  lemma {:induction false} HavingIds(groups: seq<Id>, ids: seq<Id>, id: Id)
    requires NoDuplicates(groups)
    ensures multiset(ResultIds(Having(groups, ids)))[id] ==
      if id in groups && multiset(ids)[id] > 1 then 1 else 0
  {
    if groups != [] {
      HavingIds(groups[1..], ids, id);
      var n := multiset(ids)[groups[0]];
      var head: seq<ResultRow> := if n > 1 then [DuplicateResult(groups[0], n)] else [];
      assert Having(groups, ids) == head + Having(groups[1..], ids);
      ResultIdsAppend(head, Having(groups[1..], ids));
      assert id == groups[0] ==> id !in groups[1..];
    }
  }

  lemma {:induction false} ResultIdsAppend(a: seq<ResultRow>, b: seq<ResultRow>)
    ensures ResultIds(a + b) == ResultIds(a) + ResultIds(b)
  {
    if a == [] {
      assert a + b == b;
    } else {
      assert (a + b)[1..] == a[1..] + b;
      ResultIdsAppend(a[1..], b);
    }
  }

  /**
   * The duplicate check records exactly one issue per `policy_id` value
   * that occurs on more than one policy row, NULL included, carrying that
   * value and its row count; it records nothing else.
   */
  lemma DuplicateCheck(db: Snapshot, id: Id, x: ResultRow)
    ensures CountId(DqIssues(db), DuplicatePolicyId, id) ==
      if multiset(PolicyIds(db.policies))[id] > 1 then 1 else 0
    ensures CountOf(DqIssues(db), DuplicatePolicyId, x) ==
      if x.DuplicateResult? && x.cnt == multiset(PolicyIds(db.policies))[x.id] && x.cnt > 1 then 1 else 0
  {
    RunCounts(Query(db, DuplicatePolicyId), Query(db, NullPolicyKeyOrPremium), Query(db, NullGlKeyOrPremium), Query(db, NegativePremiumBooked), Query(db, NullClaimOrPolicyId), Query(db, NegativeIncurredLoss), Query(db, PaidGreaterThanIncurred), Query(db, ReserveMismatch), DuplicatePolicyId, x, id);
    var ids := PolicyIds(db.policies);
    HavingIds(Distinct(ids), ids, id);
    HavingCount(Distinct(ids), ids, x);
  }

  /** The number of checks of `cs` that flag row `x`. */
  function FailCount(cs: seq<Check>, x: ResultRow): nat {
    if cs == [] then 0 else (if Flags(cs[0], x) then 1 else 0) + FailCount(cs[1..], x)
  }

  /** The duplicate check's result holds groups, never table rows. */
  lemma DuplicateGroupsHoldNoRows(policies: seq<PolicyRow>, x: ResultRow)
    requires !x.DuplicateResult?
    ensures multiset(DuplicateGroups(policies))[x] == 0
  {
    var ids := PolicyIds(policies);
    HavingCount(Distinct(ids), ids, x);
  }

  /**
   * A table row that `k` checks of the battery flag appears `k` times in
   * the issue list for each time it occurs in its table: a defect never
   * short-circuits the checks after it.
   */
  lemma RowAppearsOncePerFailedCheck(db: Snapshot, x: ResultRow)
    requires !x.DuplicateResult?
    ensures CountDetail(DqIssues(db), x) == multiset(TableRows(db, RowTable(x)))[x] * FailCount(Battery, x)
  {
    var m := multiset(TableRows(db, RowTable(x)))[x];
    var q0 := Query(db, DuplicatePolicyId);
    var q1 := Query(db, NullPolicyKeyOrPremium);
    var q2 := Query(db, NullGlKeyOrPremium);
    var q3 := Query(db, NegativePremiumBooked);
    var q4 := Query(db, NullClaimOrPolicyId);
    var q5 := Query(db, NegativeIncurredLoss);
    var q6 := Query(db, PaidGreaterThanIncurred);
    var q7 := Query(db, ReserveMismatch);
    RunCounts(q0, q1, q2, q3, q4, q5, q6, q7, DuplicatePolicyId, x, None);
    assert multiset(q0)[x] == 0 by {
      DuplicateGroupsHoldNoRows(db.policies, x);
    }
    assert multiset(q1)[x] == if Flags(NullPolicyKeyOrPremium, x) then m else 0 by {
      QueryCount(db, NullPolicyKeyOrPremium, x);
      ConditionMeaning(NullPolicyKeyOrPremium, x);
    }
    assert multiset(q2)[x] == if Flags(NullGlKeyOrPremium, x) then m else 0 by {
      QueryCount(db, NullGlKeyOrPremium, x);
      ConditionMeaning(NullGlKeyOrPremium, x);
    }
    assert multiset(q3)[x] == if Flags(NegativePremiumBooked, x) then m else 0 by {
      QueryCount(db, NegativePremiumBooked, x);
      ConditionMeaning(NegativePremiumBooked, x);
    }
    assert multiset(q4)[x] == if Flags(NullClaimOrPolicyId, x) then m else 0 by {
      QueryCount(db, NullClaimOrPolicyId, x);
      ConditionMeaning(NullClaimOrPolicyId, x);
    }
    assert multiset(q5)[x] == if Flags(NegativeIncurredLoss, x) then m else 0 by {
      QueryCount(db, NegativeIncurredLoss, x);
      ConditionMeaning(NegativeIncurredLoss, x);
    }
    assert multiset(q6)[x] == if Flags(PaidGreaterThanIncurred, x) then m else 0 by {
      QueryCount(db, PaidGreaterThanIncurred, x);
      ConditionMeaning(PaidGreaterThanIncurred, x);
    }
    assert multiset(q7)[x] == if Flags(ReserveMismatch, x) then m else 0 by {
      QueryCount(db, ReserveMismatch, x);
      ConditionMeaning(ReserveMismatch, x);
    }
    FailCountOfBattery(x);
    assert !Flags(DuplicatePolicyId, x);
    assert DqIssues(db) == RunIssues(q0, q1, q2, q3, q4, q5, q6, q7);
    Combine(CountDetail(DqIssues(db), x), m, FailCount(Battery, x),
      multiset(q0)[x], multiset(q1)[x], multiset(q2)[x], multiset(q3)[x], multiset(q4)[x], multiset(q5)[x], multiset(q6)[x], multiset(q7)[x],
      Flags(DuplicatePolicyId, x), Flags(NullPolicyKeyOrPremium, x), Flags(NullGlKeyOrPremium, x), Flags(NegativePremiumBooked, x), Flags(NullClaimOrPolicyId, x), Flags(NegativeIncurredLoss, x), Flags(PaidGreaterThanIncurred, x), Flags(ReserveMismatch, x));
  }

  /** Adding up `m` for each of the true flags gives `m` times their number. */
  lemma Combine(total: int, m: int, k: int, n0: int, n1: int, n2: int, n3: int, n4: int, n5: int, n6: int, n7: int,
                f0: bool, f1: bool, f2: bool, f3: bool, f4: bool, f5: bool, f6: bool, f7: bool)
    requires total == n0 + n1 + n2 + n3 + n4 + n5 + n6 + n7
    requires k == (if f0 then 1 else 0) + (if f1 then 1 else 0) + (if f2 then 1 else 0) + (if f3 then 1 else 0)
                 + (if f4 then 1 else 0) + (if f5 then 1 else 0) + (if f6 then 1 else 0) + (if f7 then 1 else 0)
    requires n0 == if f0 then m else 0
    requires n1 == if f1 then m else 0
    requires n2 == if f2 then m else 0
    requires n3 == if f3 then m else 0
    requires n4 == if f4 then m else 0
    requires n5 == if f5 then m else 0
    requires n6 == if f6 then m else 0
    requires n7 == if f7 then m else 0
    ensures total == m * k
  {
  }

  /** The battery's flag count, check by check. */
  lemma FailCountOfBattery(x: ResultRow)
    ensures FailCount(Battery, x) == (if Flags(DuplicatePolicyId, x) then 1 else 0) + (if Flags(NullPolicyKeyOrPremium, x) then 1 else 0) + (if Flags(NullGlKeyOrPremium, x) then 1 else 0) + (if Flags(NegativePremiumBooked, x) then 1 else 0) + (if Flags(NullClaimOrPolicyId, x) then 1 else 0) + (if Flags(NegativeIncurredLoss, x) then 1 else 0) + (if Flags(PaidGreaterThanIncurred, x) then 1 else 0) + (if Flags(ReserveMismatch, x) then 1 else 0)
  {
    var b := Battery;
    assert b[0..][0] == DuplicatePolicyId && b[0..][1..] == b[1..];
    assert b[1..][0] == NullPolicyKeyOrPremium && b[1..][1..] == b[2..];
    assert b[2..][0] == NullGlKeyOrPremium && b[2..][1..] == b[3..];
    assert b[3..][0] == NegativePremiumBooked && b[3..][1..] == b[4..];
    assert b[4..][0] == NullClaimOrPolicyId && b[4..][1..] == b[5..];
    assert b[5..][0] == NegativeIncurredLoss && b[5..][1..] == b[6..];
    assert b[6..][0] == PaidGreaterThanIncurred && b[6..][1..] == b[7..];
    assert b[7..][0] == ReserveMismatch && b[7..][1..] == b[8..];
    assert b[8..] == [];
    assert FailCount(b[7..], x) == (if Flags(ReserveMismatch, x) then 1 else 0) + FailCount(b[8..], x);
    assert FailCount(b[6..], x) == (if Flags(PaidGreaterThanIncurred, x) then 1 else 0) + FailCount(b[7..], x);
    assert FailCount(b[5..], x) == (if Flags(NegativeIncurredLoss, x) then 1 else 0) + FailCount(b[6..], x);
    assert FailCount(b[4..], x) == (if Flags(NullClaimOrPolicyId, x) then 1 else 0) + FailCount(b[5..], x);
    assert FailCount(b[3..], x) == (if Flags(NegativePremiumBooked, x) then 1 else 0) + FailCount(b[4..], x);
    assert FailCount(b[2..], x) == (if Flags(NullGlKeyOrPremium, x) then 1 else 0) + FailCount(b[3..], x);
    assert FailCount(b[1..], x) == (if Flags(NullPolicyKeyOrPremium, x) then 1 else 0) + FailCount(b[2..], x);
    assert FailCount(b[0..], x) == (if Flags(DuplicatePolicyId, x) then 1 else 0) + FailCount(b[1..], x);
    assert b[0..] == b;
  }

  /** The issue list holds, in all, one issue per row of each check's query. */
  lemma TotalIssues(db: Snapshot)
    ensures |DqIssues(db)| == |Query(db, Battery[0])| + |Query(db, Battery[1])| + |Query(db, Battery[2])| + |Query(db, Battery[3])| + |Query(db, Battery[4])| + |Query(db, Battery[5])| + |Query(db, Battery[6])| + |Query(db, Battery[7])|
  {
  }

  /** The position of a check in the battery. */
  function Position(c: Check): (p: nat)
    ensures p < |Battery| && Battery[p] == c
  {
    match c
    case DuplicatePolicyId => 0
    case NullPolicyKeyOrPremium => 1
    case NullGlKeyOrPremium => 2
    case NegativePremiumBooked => 3
    case NullClaimOrPolicyId => 4
    case NegativeIncurredLoss => 5
    case PaidGreaterThanIncurred => 6
    case ReserveMismatch => 7
  }

  /** Issues appear grouped by check, the checks in battery order. */
  predicate InBatteryOrder(issues: seq<Issue>) {
    forall i, j :: 0 <= i < j < |issues| ==> Position(issues[i].check) <= Position(issues[j].check)
  }

  /** Every issue of the list belongs to a check at position `p` or earlier. */
  predicate NotPast(issues: seq<Issue>, p: nat) {
    forall i :: 0 <= i < |issues| ==> Position(issues[i].check) <= p
  }

  lemma {:induction false} IssuesForAll(rows: seq<ResultRow>, c: Check)
    ensures forall i :: 0 <= i < |IssuesFor(rows, c)| ==> IssuesFor(rows, c)[i].check == c
  {
    forall i | 0 <= i < |IssuesFor(rows, c)| ensures IssuesFor(rows, c)[i].check == c {
      IssuesForAt(rows, c, i);
    }
  }

  /**
   * Appending one check's block to issues of that check or earlier ones
   * keeps battery order, and the result holds nothing past check `next`.
   */
  lemma AppendBlock(issues: seq<Issue>, rows: seq<ResultRow>, c: Check, next: Check)
    requires InBatteryOrder(issues) && NotPast(issues, Position(c))
    requires Position(c) <= Position(next)
    ensures InBatteryOrder(issues + IssuesFor(rows, c))
    ensures NotPast(issues + IssuesFor(rows, c), Position(next))
  {
    IssuesForAll(rows, c);
  }

  /** The first four checks' blocks are in order and go no further than check 5. */
  lemma FirstHalfInBatteryOrder(r0: seq<ResultRow>, r1: seq<ResultRow>, r2: seq<ResultRow>, r3: seq<ResultRow>)
    ensures InBatteryOrder(IssuesFor(r0, DuplicatePolicyId) + IssuesFor(r1, NullPolicyKeyOrPremium) + IssuesFor(r2, NullGlKeyOrPremium) + IssuesFor(r3, NegativePremiumBooked))
    ensures NotPast(IssuesFor(r0, DuplicatePolicyId) + IssuesFor(r1, NullPolicyKeyOrPremium) + IssuesFor(r2, NullGlKeyOrPremium) + IssuesFor(r3, NegativePremiumBooked), Position(NullClaimOrPolicyId))
  {
    var a0: seq<Issue> := [];
    var a1 := a0 + IssuesFor(r0, DuplicatePolicyId);
    assert InBatteryOrder(a1) && NotPast(a1, Position(NullPolicyKeyOrPremium)) by {
      AppendBlock(a0, r0, DuplicatePolicyId, NullPolicyKeyOrPremium);
    }
    var a2 := a1 + IssuesFor(r1, NullPolicyKeyOrPremium);
    assert InBatteryOrder(a2) && NotPast(a2, Position(NullGlKeyOrPremium)) by {
      AppendBlock(a1, r1, NullPolicyKeyOrPremium, NullGlKeyOrPremium);
    }
    var a3 := a2 + IssuesFor(r2, NullGlKeyOrPremium);
    assert InBatteryOrder(a3) && NotPast(a3, Position(NegativePremiumBooked)) by {
      AppendBlock(a2, r2, NullGlKeyOrPremium, NegativePremiumBooked);
    }
    var a4 := a3 + IssuesFor(r3, NegativePremiumBooked);
    assert InBatteryOrder(a4) && NotPast(a4, Position(NullClaimOrPolicyId)) by {
      AppendBlock(a3, r3, NegativePremiumBooked, NullClaimOrPolicyId);
    }
    assert a4 == IssuesFor(r0, DuplicatePolicyId) + IssuesFor(r1, NullPolicyKeyOrPremium) + IssuesFor(r2, NullGlKeyOrPremium) + IssuesFor(r3, NegativePremiumBooked);
  }

  lemma RunInBatteryOrder(r0: seq<ResultRow>, r1: seq<ResultRow>, r2: seq<ResultRow>, r3: seq<ResultRow>, r4: seq<ResultRow>, r5: seq<ResultRow>, r6: seq<ResultRow>, r7: seq<ResultRow>)
    ensures InBatteryOrder(RunIssues(r0, r1, r2, r3, r4, r5, r6, r7))
  {
    var a4 := IssuesFor(r0, DuplicatePolicyId) + IssuesFor(r1, NullPolicyKeyOrPremium) + IssuesFor(r2, NullGlKeyOrPremium) + IssuesFor(r3, NegativePremiumBooked);
    FirstHalfInBatteryOrder(r0, r1, r2, r3);
    var a5 := a4 + IssuesFor(r4, NullClaimOrPolicyId);
    assert InBatteryOrder(a5) && NotPast(a5, Position(NegativeIncurredLoss)) by {
      AppendBlock(a4, r4, NullClaimOrPolicyId, NegativeIncurredLoss);
    }
    var a6 := a5 + IssuesFor(r5, NegativeIncurredLoss);
    assert InBatteryOrder(a6) && NotPast(a6, Position(PaidGreaterThanIncurred)) by {
      AppendBlock(a5, r5, NegativeIncurredLoss, PaidGreaterThanIncurred);
    }
    var a7 := a6 + IssuesFor(r6, PaidGreaterThanIncurred);
    assert InBatteryOrder(a7) && NotPast(a7, Position(ReserveMismatch)) by {
      AppendBlock(a6, r6, PaidGreaterThanIncurred, ReserveMismatch);
    }
    var a8 := a7 + IssuesFor(r7, ReserveMismatch);
    assert InBatteryOrder(a8) && NotPast(a8, Position(ReserveMismatch)) by {
      AppendBlock(a7, r7, ReserveMismatch, ReserveMismatch);
    }
    assert a8 == RunIssues(r0, r1, r2, r3, r4, r5, r6, r7);
  }

  /**
   * The run records all issues of check 1 first, then all of check 2, and
   * so on: no re-sort mixes the checks.
   */
  lemma IssuesInBatteryOrder(db: Snapshot)
    ensures InBatteryOrder(DqIssues(db))
  {
    RunInBatteryOrder(Query(db, DuplicatePolicyId), Query(db, NullPolicyKeyOrPremium), Query(db, NullGlKeyOrPremium), Query(db, NegativePremiumBooked), Query(db, NullClaimOrPolicyId), Query(db, NegativeIncurredLoss), Query(db, PaidGreaterThanIncurred), Query(db, ReserveMismatch));
  }
}
