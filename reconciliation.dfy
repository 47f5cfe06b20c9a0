/**
 * Reconciliation of written premium (the policy admin table) against booked
 * premium (the general ledger). Both sides are summed per `policy_id`, the
 * two aggregates are outer-joined on the union of their ids, records with a
 * NULL id are dropped, and every record gets a difference, a relative
 * difference and a label.
 */
module Reconciliation {
  import opened Sql
  import opened Tables

  /** The label of a reconciliation record. */
  datatype FlagReason = MissingInPolicies | MissingInGl | LargeDifference | Ok {
    function Label(): string {
      match this
      case MissingInPolicies => "Missing in policies"
      case MissingInGl => "Missing in GL"
      case LargeDifference => "Large difference"
      case Ok => "OK"
    }
  }

  /** A difference strictly above this, in either direction, is large. */
  const LargeDifferenceThreshold: real := 50.0

  /** One output record; the id is never NULL. */
  datatype ReconRecord = ReconRecord(
    policyId: string,
    premiumPolicy: Option<real>,
    premiumGl: Option<real>,
    diff: Option<real>,
    diffPct: Option<real>,
    flagReason: FlagReason)

  /** One row of a `GROUP BY policy_id` aggregate: the key and its SUM. */
  datatype Group = Group(key: Id, total: Option<real>)

  function Keys(groups: seq<Group>): (r: seq<Id>)
    ensures |r| == |groups|
    ensures forall i :: 0 <= i < |groups| ==> r[i] == groups[i].key
  {
    seq(|groups|, i requires 0 <= i < |groups| => groups[i].key)
  }

  /** The `written_premium` cells of the policy rows whose id is `k`, in row order. */
  function WrittenPremiumsOf(policies: seq<PolicyRow>, k: Id): seq<Option<real>> {
    if policies == [] then []
    else
      (if policies[0].policyId == k then [policies[0].writtenPremium] else [])
        + WrittenPremiumsOf(policies[1..], k)
  }

  /** The `premium_booked` cells of the GL rows whose id is `k`, in row order. */
  function BookedPremiumsOf(gl: seq<GlRow>, k: Id): seq<Option<real>> {
    if gl == [] then []
    else
      (if gl[0].policyId == k then [gl[0].premiumBooked] else [])
        + BookedPremiumsOf(gl[1..], k)
  }

  /** The SUM for id `k` has one input per policy row with that id. */
  lemma {:induction false} WrittenPremiumsOfLength(policies: seq<PolicyRow>, k: Id)
    ensures |WrittenPremiumsOf(policies, k)| == multiset(PolicyIds(policies))[k]
  {
    if policies != [] {
      assert PolicyIds(policies) == [policies[0].policyId] + PolicyIds(policies[1..]);
      WrittenPremiumsOfLength(policies[1..], k);
    }
  }

  /** The SUM for id `k` has one input per GL row with that id. */
  lemma {:induction false} BookedPremiumsOfLength(gl: seq<GlRow>, k: Id)
    ensures |BookedPremiumsOf(gl, k)| == multiset(GlIds(gl))[k]
  {
    if gl != [] {
      assert GlIds(gl) == [gl[0].policyId] + GlIds(gl[1..]);
      BookedPremiumsOfLength(gl[1..], k);
    }
  }

  /** A cell is in the group's column exactly when some policy row with that id holds it. */
  lemma {:induction false} WrittenPremiumsOfMember(policies: seq<PolicyRow>, k: Id, v: Option<real>)
    ensures v in WrittenPremiumsOf(policies, k) <==>
      exists i :: 0 <= i < |policies| && policies[i].policyId == k && policies[i].writtenPremium == v
  {
    if policies != [] {
      var t := policies[1..];
      WrittenPremiumsOfMember(t, k, v);
      if exists i :: 0 <= i < |policies| && policies[i].policyId == k && policies[i].writtenPremium == v {
        var i :| 0 <= i < |policies| && policies[i].policyId == k && policies[i].writtenPremium == v;
        if i > 0 {
          assert t[i - 1] == policies[i];
        }
      }
      if exists i :: 0 <= i < |t| && t[i].policyId == k && t[i].writtenPremium == v {
        var i :| 0 <= i < |t| && t[i].policyId == k && t[i].writtenPremium == v;
        assert policies[i + 1] == t[i];
      }
    }
  }

  /** A cell is in the group's column exactly when some GL row with that id holds it. */
  lemma {:induction false} BookedPremiumsOfMember(gl: seq<GlRow>, k: Id, v: Option<real>)
    ensures v in BookedPremiumsOf(gl, k) <==>
      exists i :: 0 <= i < |gl| && gl[i].policyId == k && gl[i].premiumBooked == v
  {
    if gl != [] {
      var t := gl[1..];
      BookedPremiumsOfMember(t, k, v);
      if exists i :: 0 <= i < |gl| && gl[i].policyId == k && gl[i].premiumBooked == v {
        var i :| 0 <= i < |gl| && gl[i].policyId == k && gl[i].premiumBooked == v;
        if i > 0 {
          assert t[i - 1] == gl[i];
        }
      }
      if exists i :: 0 <= i < |t| && t[i].policyId == k && t[i].premiumBooked == v {
        var i :| 0 <= i < |t| && t[i].policyId == k && t[i].premiumBooked == v;
        assert gl[i + 1] == t[i];
      }
    }
  }

  lemma {:induction false} WrittenPremiumsOfAppend(a: seq<PolicyRow>, b: seq<PolicyRow>, k: Id)
    ensures WrittenPremiumsOf(a + b, k) == WrittenPremiumsOf(a, k) + WrittenPremiumsOf(b, k)
  {
    if a == [] {
      assert a + b == b;
    } else {
      var h := if a[0].policyId == k then [a[0].writtenPremium] else [];
      assert (a + b)[0] == a[0] && (a + b)[1..] == a[1..] + b;
      assert WrittenPremiumsOf(a + b, k) == h + WrittenPremiumsOf(a[1..] + b, k);
      WrittenPremiumsOfAppend(a[1..], b, k);
      assert WrittenPremiumsOf(a, k) == h + WrittenPremiumsOf(a[1..], k);
    }
  }

  lemma {:induction false} BookedPremiumsOfAppend(a: seq<GlRow>, b: seq<GlRow>, k: Id)
    ensures BookedPremiumsOf(a + b, k) == BookedPremiumsOf(a, k) + BookedPremiumsOf(b, k)
  {
    if a == [] {
      assert a + b == b;
    } else {
      var h := if a[0].policyId == k then [a[0].premiumBooked] else [];
      assert (a + b)[0] == a[0] && (a + b)[1..] == a[1..] + b;
      assert BookedPremiumsOf(a + b, k) == h + BookedPremiumsOf(a[1..] + b, k);
      BookedPremiumsOfAppend(a[1..], b, k);
      assert BookedPremiumsOf(a, k) == h + BookedPremiumsOf(a[1..], k);
    }
  }

  lemma WrittenRowsStep(policies: seq<PolicyRow>, k: Id, v: Option<real>, n: nat)
    requires 0 < n <= |policies|
    ensures |set i | 0 <= i < n && policies[i].policyId == k && policies[i].writtenPremium == v| ==
      |set i | 0 <= i < n - 1 && policies[i].policyId == k && policies[i].writtenPremium == v|
      + (if policies[n - 1].policyId == k && policies[n - 1].writtenPremium == v then 1 else 0)
  {
    var s1 := set i | 0 <= i < n && policies[i].policyId == k && policies[i].writtenPremium == v;
    var s0 := set i | 0 <= i < n - 1 && policies[i].policyId == k && policies[i].writtenPremium == v;
    if policies[n - 1].policyId == k && policies[n - 1].writtenPremium == v {
      assert s1 == s0 + {n - 1};
    } else {
      assert s1 == s0;
    }
  }

  lemma BookedRowsStep(gl: seq<GlRow>, k: Id, v: Option<real>, n: nat)
    requires 0 < n <= |gl|
    ensures |set i | 0 <= i < n && gl[i].policyId == k && gl[i].premiumBooked == v| ==
      |set i | 0 <= i < n - 1 && gl[i].policyId == k && gl[i].premiumBooked == v|
      + (if gl[n - 1].policyId == k && gl[n - 1].premiumBooked == v then 1 else 0)
  {
    var s1 := set i | 0 <= i < n && gl[i].policyId == k && gl[i].premiumBooked == v;
    var s0 := set i | 0 <= i < n - 1 && gl[i].policyId == k && gl[i].premiumBooked == v;
    if gl[n - 1].policyId == k && gl[n - 1].premiumBooked == v {
      assert s1 == s0 + {n - 1};
    } else {
      assert s1 == s0;
    }
  }

  /** Extending the prefix by one row adds one to the count of its amount exactly when its id is `k`. */
  lemma WrittenPremiumsOfSnoc(policies: seq<PolicyRow>, k: Id, v: Option<real>, n: nat)
    requires 0 < n <= |policies|
    ensures multiset(WrittenPremiumsOf(policies[..n], k))[v] ==
      multiset(WrittenPremiumsOf(policies[..n - 1], k))[v]
      + (if policies[n - 1].policyId == k && policies[n - 1].writtenPremium == v then 1 else 0)
  {
    var p := policies[n - 1];
    assert policies[..n] == policies[..n - 1] + [p];
    WrittenPremiumsOfAppend(policies[..n - 1], [p], k);
    assert [p][1..] == [];
    assert WrittenPremiumsOf([p], k) == if p.policyId == k then [p.writtenPremium] else [];
  }

  lemma {:induction false} WrittenPremiumsOfPrefixCount(policies: seq<PolicyRow>, k: Id, v: Option<real>, n: nat)
    requires n <= |policies|
    ensures multiset(WrittenPremiumsOf(policies[..n], k))[v] ==
      |set i | 0 <= i < n && policies[i].policyId == k && policies[i].writtenPremium == v|
  {
    if n > 0 {
      WrittenPremiumsOfPrefixCount(policies, k, v, n - 1);
      WrittenRowsStep(policies, k, v, n);
      WrittenPremiumsOfSnoc(policies, k, v, n);
    }
  }

  /** Extending the prefix by one row adds one to the count of its amount exactly when its id is `k`. */
  lemma BookedPremiumsOfSnoc(gl: seq<GlRow>, k: Id, v: Option<real>, n: nat)
    requires 0 < n <= |gl|
    ensures multiset(BookedPremiumsOf(gl[..n], k))[v] ==
      multiset(BookedPremiumsOf(gl[..n - 1], k))[v]
      + (if gl[n - 1].policyId == k && gl[n - 1].premiumBooked == v then 1 else 0)
  {
    var g := gl[n - 1];
    assert gl[..n] == gl[..n - 1] + [g];
    BookedPremiumsOfAppend(gl[..n - 1], [g], k);
    assert [g][1..] == [];
    assert BookedPremiumsOf([g], k) == if g.policyId == k then [g.premiumBooked] else [];
  }

  lemma {:induction false} BookedPremiumsOfPrefixCount(gl: seq<GlRow>, k: Id, v: Option<real>, n: nat)
    requires n <= |gl|
    ensures multiset(BookedPremiumsOf(gl[..n], k))[v] ==
      |set i | 0 <= i < n && gl[i].policyId == k && gl[i].premiumBooked == v|
  {
    if n > 0 {
      BookedPremiumsOfPrefixCount(gl, k, v, n - 1);
      BookedRowsStep(gl, k, v, n);
      BookedPremiumsOfSnoc(gl, k, v, n);
    }
  }

  /**
   * The SUM's input for id `k` holds each written premium exactly as often
   * as the policy rows with id `k` carry it.
   */
  lemma WrittenPremiumsOfCount(policies: seq<PolicyRow>, k: Id, v: Option<real>)
    ensures multiset(WrittenPremiumsOf(policies, k))[v] ==
      |set i | 0 <= i < |policies| && policies[i].policyId == k && policies[i].writtenPremium == v|
  {
    WrittenPremiumsOfPrefixCount(policies, k, v, |policies|);
    assert policies[..|policies|] == policies;
  }

  /**
   * The SUM's input for id `k` holds each booked premium exactly as often
   * as the GL rows with id `k` carry it.
   */
  lemma BookedPremiumsOfCount(gl: seq<GlRow>, k: Id, v: Option<real>)
    ensures multiset(BookedPremiumsOf(gl, k))[v] ==
      |set i | 0 <= i < |gl| && gl[i].policyId == k && gl[i].premiumBooked == v|
  {
    BookedPremiumsOfPrefixCount(gl, k, v, |gl|);
    assert gl[..|gl|] == gl;
  }

  /** `policy_premium`: one group per distinct id, NULL included. */
  function PolicyPremium(policies: seq<PolicyRow>): (r: seq<Group>)
    ensures Keys(r) == Distinct(PolicyIds(policies))
  {
    var ks := Distinct(PolicyIds(policies));
    seq(|ks|, i requires 0 <= i < |ks| => Group(ks[i], Sum(WrittenPremiumsOf(policies, ks[i]))))
  }

  /** `gl_premium`: one group per distinct id, NULL included. */
  function GlPremium(gl: seq<GlRow>): (r: seq<Group>)
    ensures Keys(r) == Distinct(GlIds(gl))
  {
    var ks := Distinct(GlIds(gl));
    seq(|ks|, i requires 0 <= i < |ks| => Group(ks[i], Sum(BookedPremiumsOf(gl, ks[i]))))
  }

  /**
   * The aggregate a LEFT JOIN attaches to id `a`: the total of the group
   * whose key equals `a`, or NULL when there is none. NULL equals nothing,
   * so a NULL id never finds a group.
   */
  function Lookup(groups: seq<Group>, a: Id): (r: Option<real>)
    ensures a.None? || a !in Keys(groups) ==> r.None?
    ensures a.Some? && NoDuplicates(Keys(groups)) ==>
      forall i :: 0 <= i < |groups| && groups[i].key == a ==> r == groups[i].total
  {
    if a.None? || groups == [] then None
    else
      assert Keys(groups) == [groups[0].key] + Keys(groups[1..]);
      assert forall i :: 1 <= i < |groups| ==> groups[i] == groups[1..][i - 1];
      if groups[0].key == a then groups[0].total else Lookup(groups[1..], a)
  }

  /**
   * `diff / premium_policy` with a zero denominator replaced by NULL:
   * NULL when either operand is NULL or the denominator is zero.
   */
  function DiffPct(diff: Option<real>, premiumPolicy: Option<real>): (r: Option<real>)
    ensures r.None? <==> diff.None? || premiumPolicy.None? || premiumPolicy.value == 0.0
    ensures r.Some? ==> r.value * premiumPolicy.value == diff.value
  {
    if diff.None? || premiumPolicy.None? || premiumPolicy.value == 0.0 then None
    else Some(diff.value / premiumPolicy.value)
  }

  /** The label, by first match. A NULL difference is not above the threshold. */
  function Flag(premiumPolicy: Option<real>, premiumGl: Option<real>, diff: Option<real>): (r: FlagReason)
    ensures r == MissingInPolicies <==> premiumPolicy.None?
    ensures r == MissingInGl <==> premiumPolicy.Some? && premiumGl.None?
    ensures r == LargeDifference <==>
      premiumPolicy.Some? && premiumGl.Some? && diff.Some? && Abs(diff.value) > LargeDifferenceThreshold
    ensures r == Ok <==>
      premiumPolicy.Some? && premiumGl.Some? && (diff.None? || Abs(diff.value) <= LargeDifferenceThreshold)
  {
    if premiumPolicy.None? then MissingInPolicies
    else if premiumGl.None? then MissingInGl
    else if diff.Some? && Abs(diff.value) > LargeDifferenceThreshold then LargeDifference
    else Ok
  }

  /** One row of the SQL query's result, before the NULL-id filter. */
  datatype QueryRow = QueryRow(
    policyId: Id,
    premiumPolicy: Option<real>,
    premiumGl: Option<real>,
    diff: Option<real>)

  function QueryIds(rows: seq<QueryRow>): (r: seq<Id>)
    ensures |r| == |rows|
    ensures forall i :: 0 <= i < |rows| ==> r[i] == rows[i].policyId
  {
    seq(|rows|, i requires 0 <= i < |rows| => rows[i].policyId)
  }

  /** `all_ids`: the UNION of the two aggregates' keys, duplicates removed. */
  function AllIds(db: Snapshot): (r: seq<Id>)
    ensures NoDuplicates(r)
    ensures forall a :: a in r <==> a in PolicyIds(db.policies) || a in GlIds(db.gl)
  {
    Distinct(Keys(PolicyPremium(db.policies)) + Keys(GlPremium(db.gl)))
  }

  /**
   * The SQL query: for each id of `all_ids`, what the two LEFT JOINs attach
   * to it and `premium_gl - premium_policy`.
   */
  function ReconQuery(db: Snapshot): (r: seq<QueryRow>)
    ensures QueryIds(r) == AllIds(db)
  {
    var ids := AllIds(db);
    var pp := PolicyPremium(db.policies);
    var gp := GlPremium(db.gl);
    seq(|ids|, i requires 0 <= i < |ids| =>
      QueryRow(ids[i], Lookup(pp, ids[i]), Lookup(gp, ids[i]), Sub(Lookup(gp, ids[i]), Lookup(pp, ids[i]))))
  }

  /** The filter on a non-NULL `policy_id`: the rows that have one, in order. */
  function DropNullIds(rows: seq<QueryRow>): (r: seq<QueryRow>)
    ensures forall x :: x in r <==> x in rows && x.policyId.Some?
    ensures NoDuplicates(rows) ==> NoDuplicates(r)
  {
    if rows == [] then []
    else
      var rest := DropNullIds(rows[1..]);
      assert forall x :: x in rows <==> x == rows[0] || x in rows[1..];
      assert NoDuplicates(rows) ==> NoDuplicates(rows[1..]) && rows[0] !in rows[1..];
      if rows[0].policyId.None? then rest
      else
        assert forall j :: 0 < j <= |rest| ==> ([rows[0]] + rest)[j] == rest[j - 1];
        [rows[0]] + rest
  }

  /** Adds `diff_pct` and `flag_reason` to a query row with a non-NULL id. */
  function Finish(q: QueryRow): ReconRecord
    requires q.policyId.Some?
  {
    ReconRecord(q.policyId.value, q.premiumPolicy, q.premiumGl, q.diff,
      DiffPct(q.diff, q.premiumPolicy), Flag(q.premiumPolicy, q.premiumGl, q.diff))
  }

  /** `diff_pct` and `flag_reason` added to every row. */
  function FinishAll(kept: seq<QueryRow>): (r: seq<ReconRecord>)
    requires forall x :: x in kept ==> x.policyId.Some?
    ensures |r| == |kept|
  {
    seq(|kept|, i requires 0 <= i < |kept| => assert kept[i] in kept; Finish(kept[i]))
  }

  /** The reconciliation result, before the CSV export. */
  function Reconcile(db: Snapshot): seq<ReconRecord> {
    FinishAll(DropNullIds(ReconQuery(db)))
  }

  function RecordIds(rs: seq<ReconRecord>): (r: seq<string>)
    ensures |r| == |rs|
    ensures forall i :: 0 <= i < |rs| ==> r[i] == rs[i].policyId
  {
    seq(|rs|, i requires 0 <= i < |rs| => rs[i].policyId)
  }

  /**
   * Exactly one record per distinct non-NULL id found in either table, and
   * no id twice.
   */
  lemma ReconcileKeys(db: Snapshot)
    ensures forall id :: id in RecordIds(Reconcile(db)) <==>
      Some(id) in PolicyIds(db.policies) || Some(id) in GlIds(db.gl)
    ensures NoDuplicates(RecordIds(Reconcile(db)))
  {
    var rows := ReconQuery(db);
    RecordIdsAreQueryIds(rows);
    RecordIdsDistinct(rows);
  }

  /** The records' ids are the non-NULL ids of the query's rows. */
  lemma RecordIdsAreQueryIds(rows: seq<QueryRow>)
    ensures forall id :: id in RecordIds(FinishAll(DropNullIds(rows))) <==> Some(id) in QueryIds(rows)
  {
    var kept := DropNullIds(rows);
    var ids := RecordIds(FinishAll(kept));
    forall id ensures id in ids <==> Some(id) in QueryIds(rows) {
      if id in ids {
        var i :| 0 <= i < |ids| && ids[i] == id;
        assert kept[i] in kept;
        var j :| 0 <= j < |rows| && rows[j] == kept[i];
        assert QueryIds(rows)[j] == Some(id);
      }
      if Some(id) in QueryIds(rows) {
        var j :| 0 <= j < |rows| && QueryIds(rows)[j] == Some(id);
        assert rows[j] in kept;
        var i :| 0 <= i < |kept| && kept[i] == rows[j];
        assert ids[i] == id;
      }
    }
  }

  /** Rows with distinct ids keep distinct ids through the filter. */
  lemma RecordIdsDistinct(rows: seq<QueryRow>)
    requires NoDuplicates(QueryIds(rows))
    ensures NoDuplicates(RecordIds(FinishAll(DropNullIds(rows))))
  {
    var kept := DropNullIds(rows);
    var ids := RecordIds(FinishAll(kept));
    assert NoDuplicates(kept) by {
      assert NoDuplicates(rows) by {
        forall i, j | 0 <= i < j < |rows| ensures rows[i] != rows[j] {
          assert QueryIds(rows)[i] != QueryIds(rows)[j];
        }
      }
    }
    forall i, j | 0 <= i < j < |ids| ensures ids[i] != ids[j] {
      assert kept[i] in kept && kept[j] in kept;
      var m :| 0 <= m < |rows| && rows[m] == kept[i];
      var n :| 0 <= n < |rows| && rows[n] == kept[j];
      assert QueryIds(rows)[m] == kept[i].policyId;
      assert QueryIds(rows)[n] == kept[j].policyId;
    }
  }

  /** Record `k` is a query row with its relative difference and label added. */
  lemma ReconcileRow(db: Snapshot, k: nat)
    requires k < |Reconcile(db)|
    ensures var r := Reconcile(db)[k];
      r.premiumPolicy == Lookup(PolicyPremium(db.policies), Some(r.policyId))
      && r.premiumGl == Lookup(GlPremium(db.gl), Some(r.policyId))
      && r.diff == Sub(r.premiumGl, r.premiumPolicy)
      && r.diffPct == DiffPct(r.diff, r.premiumPolicy)
      && r.flagReason == Flag(r.premiumPolicy, r.premiumGl, r.diff)
  {
    var rows := ReconQuery(db);
    var kept := DropNullIds(rows);
    assert kept[k] in kept;
    var j :| 0 <= j < |rows| && rows[j] == kept[k];
    assert QueryIds(rows)[j] == AllIds(db)[j];
  }

  /**
   * Each record's difference is present exactly when both premiums are; its
   * relative difference exactly when, in addition, the policy side is
   * non-zero; and exactly one label applies, by first match on the two
   * premiums.
   */
  lemma ReconcileDerived(db: Snapshot, k: nat)
    requires k < |Reconcile(db)|
    ensures var r := Reconcile(db)[k];
      (r.diff.Some? <==> r.premiumPolicy.Some? && r.premiumGl.Some?)
      && (r.diff.Some? ==> r.diff.value == r.premiumGl.value - r.premiumPolicy.value)
    ensures var r := Reconcile(db)[k];
      (r.diffPct.Some? <==> r.premiumPolicy.Some? && r.premiumGl.Some? && r.premiumPolicy.value != 0.0)
      && (r.diffPct.Some? ==> r.diffPct.value == (r.premiumGl.value - r.premiumPolicy.value) / r.premiumPolicy.value)
    ensures var r := Reconcile(db)[k];
      (r.flagReason == MissingInPolicies <==> r.premiumPolicy.None?)
      && (r.flagReason == MissingInGl <==> r.premiumPolicy.Some? && r.premiumGl.None?)
      && (r.flagReason == LargeDifference <==>
            r.premiumPolicy.Some? && r.premiumGl.Some?
            && Abs(r.premiumGl.value - r.premiumPolicy.value) > LargeDifferenceThreshold)
      && (r.flagReason == Ok <==>
            r.premiumPolicy.Some? && r.premiumGl.Some?
            && Abs(r.premiumGl.value - r.premiumPolicy.value) <= LargeDifferenceThreshold)
  {
    ReconcileRow(db, k);
  }

  /** The left join attaches to a non-NULL id exactly the SUM over its policy rows. */
  lemma PolicyLookup(policies: seq<PolicyRow>, id: string)
    ensures Lookup(PolicyPremium(policies), Some(id)) == Sum(WrittenPremiumsOf(policies, Some(id)))
  {
    var g := PolicyPremium(policies);
    if Some(id) in PolicyIds(policies) {
      var i :| 0 <= i < |Keys(g)| && Keys(g)[i] == Some(id);
      assert g[i].key == Some(id);
    } else {
      WrittenPremiumsOfLength(policies, Some(id));
    }
  }

  /** The left join attaches to a non-NULL id exactly the SUM over its GL rows. */
  lemma GlLookup(gl: seq<GlRow>, id: string)
    ensures Lookup(GlPremium(gl), Some(id)) == Sum(BookedPremiumsOf(gl, Some(id)))
  {
    var g := GlPremium(gl);
    if Some(id) in GlIds(gl) {
      var i :| 0 <= i < |Keys(g)| && Keys(g)[i] == Some(id);
      assert g[i].key == Some(id);
    } else {
      BookedPremiumsOfLength(gl, Some(id));
    }
  }

  /**
   * Each record's two premiums follow SUM semantics over the rows with its
   * id: NULL when that table has no such row or only NULL amounts for it,
   * and otherwise the sum of the non-NULL amounts.
   */
  lemma {:induction false} ReconcilePremiums(db: Snapshot, k: nat)
    requires k < |Reconcile(db)|
    ensures var r := Reconcile(db)[k];
      r.premiumPolicy == Sum(WrittenPremiumsOf(db.policies, Some(r.policyId)))
      && r.premiumGl == Sum(BookedPremiumsOf(db.gl, Some(r.policyId)))
    ensures var r := Reconcile(db)[k];
      (r.premiumPolicy.None? <==> AllNull(WrittenPremiumsOf(db.policies, Some(r.policyId))))
      && (r.premiumPolicy.Some? ==> r.premiumPolicy.value == Total(NonNull(WrittenPremiumsOf(db.policies, Some(r.policyId)))))
    ensures var r := Reconcile(db)[k];
      (r.premiumGl.None? <==> AllNull(BookedPremiumsOf(db.gl, Some(r.policyId))))
      && (r.premiumGl.Some? ==> r.premiumGl.value == Total(NonNull(BookedPremiumsOf(db.gl, Some(r.policyId)))))
  {
    var r := Reconcile(db)[k];
    ReconcileRow(db, k);
    PolicyLookup(db.policies, r.policyId);
    GlLookup(db.gl, r.policyId);
    SumMeaning(WrittenPremiumsOf(db.policies, Some(r.policyId)));
    SumMeaning(BookedPremiumsOf(db.gl, Some(r.policyId)));
  }

  /**
   * A policy that exists but whose rows all have a NULL written premium
   * sums to NULL and is therefore labelled "Missing in policies".
   */
  lemma AllNullPremiumsAreMissingInPolicies(db: Snapshot, id: string)
    requires Some(id) in PolicyIds(db.policies)
    requires forall i :: 0 <= i < |db.policies| && db.policies[i].policyId == Some(id) ==>
      db.policies[i].writtenPremium.None?
    ensures exists k ::
      0 <= k < |Reconcile(db)| && Reconcile(db)[k].policyId == id && Reconcile(db)[k].flagReason == MissingInPolicies
  {
    ReconcileKeys(db);
    var rs := Reconcile(db);
    var k :| 0 <= k < |RecordIds(rs)| && RecordIds(rs)[k] == id;
    ReconcilePremiums(db, k);
    var ws := WrittenPremiumsOf(db.policies, Some(id));
    forall j | 0 <= j < |ws| ensures ws[j].None? {
      WrittenPremiumsOfMember(db.policies, Some(id), ws[j]);
    }
  }
}
