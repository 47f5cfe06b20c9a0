/**
 * Small worked examples of the whole run: a policy booked twice in the GL,
 * a policy known only to the GL, and a claim that fails two checks.
 */
module Scenarios {
  import opened Sql
  import opened Tables
  import opened DataQuality
  import opened Reconciliation
  import opened Reporting

  const P1: PolicyRow := PolicyRow(Some("P1"), Some("2024-01-01"), Some(1000.0), Some("Auto"), Some("CA"), Some("B1"))
  const G1: GlRow := GlRow(Some("P1"), Some("2024-01-15"), Some(600.0), Some(0.0), Some(0.0))
  const G2: GlRow := GlRow(Some("P1"), Some("2024-01-15"), Some(500.0), Some(0.0), Some(0.0))
  const G3: GlRow := GlRow(Some("P2"), Some("2024-01-20"), Some(750.0), Some(0.0), Some(0.0))
  const C1: ClaimRow := ClaimRow(Some("C1"), Some("P1"), Some("CA"), Some("2024-02-01"), Some(100.0), Some(150.0), Some(50.0))

  const Db: Snapshot := Snapshot([P1], [G1, G2, G3], [C1])

  /** The policy-side aggregate: P1 sums to 1000. */
  lemma PolicyPremiumExample()
    ensures PolicyPremium(Db.policies) == [Group(Some("P1"), Some(1000.0))]
  {
    var ps := Db.policies;
    assert PolicyIds(ps) == [Some("P1")];
    assert Distinct([Some("P1")]) == [Some("P1")];
    assert WrittenPremiumsOf(ps, Some("P1")) == [Some(1000.0)] by {
      assert ps[1..] == [];
    }
    assert Sum([Some(1000.0)]) == Some(1000.0) by {
      assert [Some(1000.0)][1..] == [];
    }
  }

  /** The GL amounts per id: 600 and 500 for P1, 750 for P2. */
  lemma BookedPremiumsExample()
    ensures Distinct(GlIds(Db.gl)) == [Some("P1"), Some("P2")]
    ensures BookedPremiumsOf(Db.gl, Some("P1")) == [Some(600.0), Some(500.0)]
    ensures BookedPremiumsOf(Db.gl, Some("P2")) == [Some(750.0)]
  {
    var id1, id2 := Some("P1"), Some("P2");
    var gl := Db.gl;
    assert GlIds(gl) == [id1, id1, id2];
    assert Distinct([id1, id1, id2]) == [id1, id2] by {
      assert [id1, id1, id2][..2] == [id1, id1];
      assert [id1, id1][..1] == [id1];
    }
    assert gl[1..][1..] == gl[2..] && gl[2..][1..] == gl[3..] && gl[3..] == [];
    assert BookedPremiumsOf(gl[2..], id1) == [];
    assert BookedPremiumsOf(gl[2..], id2) == [Some(750.0)];
  }

  /** The GL-side aggregate: P1 sums to 600 + 500, P2 to 750. */
  lemma GlPremiumExample()
    ensures GlPremium(Db.gl) == [Group(Some("P1"), Some(1100.0)), Group(Some("P2"), Some(750.0))]
  {
    BookedPremiumsExample();
    assert Sum([Some(600.0), Some(500.0)]) == Some(1100.0) by {
      assert [Some(600.0), Some(500.0)][1..] == [Some(500.0)];
      assert [Some(500.0)][1..] == [];
    }
    assert Sum([Some(750.0)]) == Some(750.0) by {
      assert [Some(750.0)][1..] == [];
    }
  }

  /** The rows the SQL query returns for the example. */
  const Q1: QueryRow := QueryRow(Some("P1"), Some(1000.0), Some(1100.0), Some(100.0))
  const Q2: QueryRow := QueryRow(Some("P2"), None, Some(750.0), None)

  /**
   * P1 appears on both sides with a difference of 100; P2, booked but
   * never written, has no policy premium and so no difference.
   */
  lemma ReconQueryExample()
    ensures ReconQuery(Db) == [Q1, Q2]
  {
    var id1, id2 := Some("P1"), Some("P2");
    var pp := PolicyPremium(Db.policies);
    var gp := GlPremium(Db.gl);
    PolicyPremiumExample();
    GlPremiumExample();
    assert AllIds(Db) == [id1, id2] by {
      assert Keys(pp) + Keys(gp) == [id1, id1, id2];
      assert Distinct([id1, id1, id2]) == [id1, id2] by {
        assert [id1, id1, id2][..2] == [id1, id1];
        assert [id1, id1][..1] == [id1];
      }
    }
    assert Lookup(pp, id1) == Some(1000.0);
    assert Lookup(pp, id2) == None by {
      assert pp[1..] == [];
    }
    assert Lookup(gp, id1) == Some(1100.0);
    assert Lookup(gp, id2) == Some(750.0) by {
      assert gp[1..] == [Group(id2, Some(750.0))];
    }
  }

  /** Neither query row has a NULL id, so the filter keeps both. */
  lemma DropNullIdsExample()
    ensures DropNullIds([Q1, Q2]) == [Q1, Q2]
  {
    assert [Q1, Q2][1..] == [Q2];
    assert [Q2][1..] == [];
    assert DropNullIds([]) == [];
    assert DropNullIds([Q2]) == [Q2];
  }

  /** The records the two query rows finish to. */
  lemma FinishAllExample()
    ensures FinishAll([Q1, Q2]) == [
      ReconRecord("P1", Some(1000.0), Some(1100.0), Some(100.0), Some(0.1), LargeDifference),
      ReconRecord("P2", None, Some(750.0), None, None, MissingInPolicies)]
  {
    assert Finish(Q1).diffPct == Some(0.1);
  }

  /**
   * P1 (1000 written, 600 + 500 booked) is a large difference; P2 is
   * missing in policies, with neither a difference nor a relative one.
   */
  lemma ReconcileExample()
    ensures Reconcile(Db) == [
      ReconRecord("P1", Some(1000.0), Some(1100.0), Some(100.0), Some(0.1), LargeDifference),
      ReconRecord("P2", None, Some(750.0), None, None, MissingInPolicies)]
  {
    ReconQueryExample();
    DropNullIdsExample();
    FinishAllExample();
  }

  /** The claim fails exactly two checks of the battery. */
  lemma ClaimExampleFailCount()
    ensures FailCount(Battery, ClaimResult(C1)) == 2
  {
    var x := ClaimResult(C1);
    FailCountOfBattery(x);
    assert Flags(PaidGreaterThanIncurred, x) && Flags(ReserveMismatch, x);
    assert !Flags(NullClaimOrPolicyId, x) && !Flags(NegativeIncurredLoss, x);
  }

  /**
   * The claim with incurred 100, paid 150 and reserve 50 fails both the
   * paid-versus-incurred check and the reserve check (expected reserve
   * -50), so a claims table holding it once reports it twice.
   */
  lemma ClaimFailingTwoChecks(db: Snapshot)
    requires db.claims == [C1]
    ensures CountDetail(DqIssues(db), ClaimResult(C1)) == 2
  {
    var x := ClaimResult(C1);
    assert multiset(TableRows(db, RowTable(x)))[x] == 1 by {
      var rows := TableRows(db, Claims);
      assert RowTable(x) == Claims;
      assert |rows| == 1 && rows[0] == x;
      assert rows == [x];
    }
    ClaimExampleFailCount();
    RowAppearsOncePerFailedCheck(db, x);
  }

  /** P1 joins twice, so its 1000 enters the policy total twice. */
  lemma ReportExample()
    ensures Report(Db) == [ReportRecord(Some("2024-01-15"), Some("CA"), Some(2000.0), Some(1100.0), Some(-900.0))]
  {
    var gl := Db.gl;
    var j1 := Joined(P1, G1);
    var j2 := Joined(P1, G2);
    var rows := Join(Db.policies, gl);
    assert rows == [j1, j2] by {
      assert JoinOne(P1, gl[3..]) == [];
      assert JoinOne(P1, gl[2..]) == [] by {
        assert gl[2..][1..] == gl[3..];
      }
      assert JoinOne(P1, gl[1..]) == [j2] by {
        assert gl[1..][1..] == gl[2..];
      }
      assert JoinOne(P1, gl) == [j1, j2];
      assert Db.policies[0] == P1 && Db.policies[1..] == [];
      assert Join(Db.policies[1..], gl) == [];
      assert rows == JoinOne(P1, gl) + Join(Db.policies[1..], gl);
    }
    var k := GroupKey(Some("2024-01-15"), Some("CA"));
    assert SortKeys(JoinKeys(rows)) == [k] by {
      assert JoinKeys(rows) == [k, k];
      assert SortKeys([k]) == [k] by {
        assert [k][1..] == [];
      }
      assert [k, k][1..] == [k];
    }
    assert Aggregate(rows, k) == ReportRecord(Some("2024-01-15"), Some("CA"), Some(2000.0), Some(1100.0), Some(-900.0)) by {
      assert WrittenOfKey(rows, k) == [Some(1000.0), Some(1000.0)] by {
        assert rows[1..] == [j2];
        assert rows[1..][1..] == [];
        assert KeyOf(j1) == k && KeyOf(j2) == k;
        assert WrittenOfKey(rows[1..], k) == [j2.writtenPremium];
      }
      assert BookedOfKey(rows, k) == [Some(600.0), Some(500.0)] by {
        assert rows[1..] == [j2];
        assert rows[1..][1..] == [];
        assert KeyOf(j1) == k && KeyOf(j2) == k;
        assert BookedOfKey(rows[1..], k) == [j2.premiumBooked];
      }
      assert Sum([Some(1000.0), Some(1000.0)]) == Some(2000.0) by {
        assert [Some(1000.0), Some(1000.0)][1..] == [Some(1000.0)];
        assert [Some(1000.0)][1..] == [];
      }
      assert Sum([Some(600.0), Some(500.0)]) == Some(1100.0) by {
        assert [Some(600.0), Some(500.0)][1..] == [Some(500.0)];
        assert [Some(500.0)][1..] == [];
      }
    }
  }

  /** A difference of exactly 50 is not large; one just above it is. */
  lemma DifferenceAtThresholdIsOk()
    ensures Finish(QueryRow(Some("P3"), Some(100.0), Some(150.0), Some(50.0))).flagReason == Ok
    ensures Finish(QueryRow(Some("P3"), Some(100.0), Some(150.01), Some(50.01))).flagReason == LargeDifference
    ensures Finish(QueryRow(Some("P3"), Some(100.0), Some(49.99), Some(-50.01))).flagReason == LargeDifference
  {
  }

  /** A zero policy premium gives a difference but no relative difference. */
  lemma ZeroPolicyPremiumHasNoDiffPct()
    ensures Finish(QueryRow(Some("P4"), Some(0.0), Some(20.0), Some(20.0))).diffPct.None?
    ensures Finish(QueryRow(Some("P4"), Some(0.0), Some(20.0), Some(20.0))).flagReason == Ok
  {
  }
}
