/**
 * The reporting dataset: policies inner-joined with their GL entries,
 * grouped by (booking_date, state) with both premium columns summed, and
 * sorted by booking_date, then state. `booking_date` is taken as already
 * normalised to a date string; NULL sorts before every value, as in SQLite.
 */
module Reporting {
  import opened Sql
  import opened Tables

  /** One row of the `joined` CTE. */
  datatype JoinedRow = JoinedRow(
    policyId: string,
    state: Option<string>,
    bookingDate: Option<string>,
    writtenPremium: Option<real>,
    premiumBooked: Option<real>)

  /** `p.policy_id = gl.policy_id`: NULL on either side matches nothing. */
  predicate Matches(p: PolicyRow, g: GlRow) {
    p.policyId.Some? && g.policyId == p.policyId
  }

  function Joined(p: PolicyRow, g: GlRow): JoinedRow
    requires Matches(p, g)
  {
    JoinedRow(p.policyId.value, p.state, g.bookingDate, p.writtenPremium, g.premiumBooked)
  }

  /** The joined rows of one policy row: one per GL entry with its id. */
  function JoinOne(p: PolicyRow, gl: seq<GlRow>): seq<JoinedRow> {
    if gl == [] then []
    else (if Matches(p, gl[0]) then [Joined(p, gl[0])] else []) + JoinOne(p, gl[1..])
  }

  /**
   * A policy row joins once with each GL entry carrying its id, and every
   * joined row carries the policy's id, state and written premium.
   */
  lemma {:induction false} JoinOneShape(p: PolicyRow, gl: seq<GlRow>)
    ensures |JoinOne(p, gl)| == if p.policyId.None? then 0 else multiset(GlIds(gl))[p.policyId]
    ensures forall j :: j in JoinOne(p, gl) ==>
      Some(j.policyId) == p.policyId && j.state == p.state && j.writtenPremium == p.writtenPremium
  {
    if gl != [] {
      assert GlIds(gl) == [gl[0].policyId] + GlIds(gl[1..]);
      JoinOneShape(p, gl[1..]);
    }
  }

  /** The inner join, policy row by policy row. */
  function Join(policies: seq<PolicyRow>, gl: seq<GlRow>): seq<JoinedRow> {
    if policies == [] then []
    else JoinOne(policies[0], gl) + Join(policies[1..], gl)
  }

  lemma {:induction false} JoinOneAppend(p: PolicyRow, a: seq<GlRow>, b: seq<GlRow>)
    ensures JoinOne(p, a + b) == JoinOne(p, a) + JoinOne(p, b)
  {
    if a == [] {
      assert a + b == b;
    } else {
      assert (a + b)[1..] == a[1..] + b;
      JoinOneAppend(p, a[1..], b);
    }
  }

  lemma {:induction false} JoinAppend(a: seq<PolicyRow>, b: seq<PolicyRow>, gl: seq<GlRow>)
    ensures Join(a + b, gl) == Join(a, gl) + Join(b, gl)
  {
    if a == [] {
      assert a + b == b;
    } else {
      assert (a + b)[1..] == a[1..] + b;
      JoinAppend(a[1..], b, gl);
    }
  }

  /** A GL entry whose id no policy row has adds nothing to the join. */
  lemma {:induction false} UnmatchedGlEntryContributesNothing(policies: seq<PolicyRow>, a: seq<GlRow>, g: GlRow, b: seq<GlRow>)
    requires g.policyId.None? || g.policyId !in PolicyIds(policies)
    ensures Join(policies, a + [g] + b) == Join(policies, a + b)
  {
    if policies != [] {
      var p := policies[0];
      assert PolicyIds(policies) == [p.policyId] + PolicyIds(policies[1..]);
      UnmatchedGlEntryContributesNothing(policies[1..], a, g, b);
      JoinOneAppend(p, a + [g], b);
      JoinOneAppend(p, a, [g]);
      JoinOneAppend(p, a, b);
      assert JoinOne(p, [g]) == [] by {
        assert [g][1..] == [];
      }
    }
  }

  /** A policy row whose id no GL entry has adds nothing to the join. */
  lemma UnmatchedPolicyContributesNothing(a: seq<PolicyRow>, p: PolicyRow, b: seq<PolicyRow>, gl: seq<GlRow>)
    requires p.policyId.None? || p.policyId !in GlIds(gl)
    ensures Join(a + [p] + b, gl) == Join(a + b, gl)
  {
    JoinAppend(a + [p], b, gl);
    JoinAppend(a, [p], gl);
    JoinAppend(a, b, gl);
    assert [p][1..] == [];
    JoinOneShape(p, gl);
  }

  /**
   * The joined rows of one policy row are exactly its pairings with the GL
   * entries that carry its id; the entry supplies the booking date and
   * the booked premium.
   */
  lemma {:induction false} JoinOneMember(p: PolicyRow, gl: seq<GlRow>, j: JoinedRow)
    ensures j in JoinOne(p, gl) <==> exists i :: 0 <= i < |gl| && Matches(p, gl[i]) && j == Joined(p, gl[i])
  {
    if gl != [] {
      var t := gl[1..];
      JoinOneMember(p, t, j);
      if exists i :: 0 <= i < |gl| && Matches(p, gl[i]) && j == Joined(p, gl[i]) {
        var i :| 0 <= i < |gl| && Matches(p, gl[i]) && j == Joined(p, gl[i]);
        if i > 0 {
          assert t[i - 1] == gl[i];
        }
      }
      if exists i :: 0 <= i < |t| && Matches(p, t[i]) && j == Joined(p, t[i]) {
        var i :| 0 <= i < |t| && Matches(p, t[i]) && j == Joined(p, t[i]);
        assert gl[i + 1] == t[i];
      }
    }
  }

  /** The policy row and GL entry a joined row comes from. */
  lemma {:induction false} JoinRowOrigin(policies: seq<PolicyRow>, gl: seq<GlRow>, j: JoinedRow) returns (a: nat, b: nat)
    requires j in Join(policies, gl)
    ensures a < |policies| && b < |gl| && Matches(policies[a], gl[b]) && j == Joined(policies[a], gl[b])
  {
    var t := policies[1..];
    assert Join(policies, gl) == JoinOne(policies[0], gl) + Join(t, gl);
    if j in JoinOne(policies[0], gl) {
      JoinOneMember(policies[0], gl, j);
      var i :| 0 <= i < |gl| && Matches(policies[0], gl[i]) && j == Joined(policies[0], gl[i]);
      a, b := 0, i;
    } else {
      var a', b' := JoinRowOrigin(t, gl, j);
      a, b := a' + 1, b';
    }
  }

  /** Every matching pair yields a joined row. */
  lemma {:induction false} JoinHasPair(policies: seq<PolicyRow>, gl: seq<GlRow>, a: nat, b: nat)
    requires a < |policies| && b < |gl| && Matches(policies[a], gl[b])
    ensures Joined(policies[a], gl[b]) in Join(policies, gl)
  {
    var t := policies[1..];
    assert Join(policies, gl) == JoinOne(policies[0], gl) + Join(t, gl);
    if a == 0 {
      JoinOneMember(policies[0], gl, Joined(policies[0], gl[b]));
    } else {
      assert t[a - 1] == policies[a];
      JoinHasPair(t, gl, a - 1, b);
    }
  }

  /**
   * The inner join holds exactly the pairings of a policy row with a GL
   * entry whose id equals its own non-NULL id.
   */
  lemma {:induction false} JoinMember(policies: seq<PolicyRow>, gl: seq<GlRow>, j: JoinedRow)
    ensures j in Join(policies, gl) <==>
      exists a, b :: 0 <= a < |policies| && 0 <= b < |gl| && Matches(policies[a], gl[b]) && j == Joined(policies[a], gl[b])
  {
    if j in Join(policies, gl) {
      var a, b := JoinRowOrigin(policies, gl, j);
    }
    if exists a, b :: 0 <= a < |policies| && 0 <= b < |gl| && Matches(policies[a], gl[b]) && j == Joined(policies[a], gl[b]) {
      var a, b :| 0 <= a < |policies| && 0 <= b < |gl| && Matches(policies[a], gl[b]) && j == Joined(policies[a], gl[b]);
      JoinHasPair(policies, gl, a, b);
    }
  }


  /** A grouping key. */
  datatype GroupKey = GroupKey(bookingDate: Option<string>, state: Option<string>)

  function KeyOf(j: JoinedRow): GroupKey {
    GroupKey(j.bookingDate, j.state)
  }

  function JoinKeys(rows: seq<JoinedRow>): (r: seq<GroupKey>)
    ensures |r| == |rows|
    ensures forall i :: 0 <= i < |rows| ==> r[i] == KeyOf(rows[i])
  {
    seq(|rows|, i requires 0 <= i < |rows| => KeyOf(rows[i]))
  }

  /** Binary string order: a proper prefix first, else the first differing character decides. */
  predicate StrLess(a: string, b: string) {
    if a == [] then b != []
    else if b == [] then false
    else if a[0] == b[0] then StrLess(a[1..], b[1..])
    else a[0] < b[0]
  }

  lemma {:induction false} StrLessIrreflexive(a: string)
    ensures !StrLess(a, a)
  {
    if a != [] {
      StrLessIrreflexive(a[1..]);
    }
  }

  lemma {:induction false} StrLessTransitive(a: string, b: string, c: string)
    requires StrLess(a, b) && StrLess(b, c)
    ensures StrLess(a, c)
  {
    if a != [] && b != [] && c != [] && a[0] == b[0] && b[0] == c[0] {
      StrLessTransitive(a[1..], b[1..], c[1..]);
    }
  }

  lemma {:induction false} StrLessTotal(a: string, b: string)
    ensures a == b || StrLess(a, b) || StrLess(b, a)
  {
    if a != [] && b != [] && a[0] == b[0] {
      StrLessTotal(a[1..], b[1..]);
      if a[1..] == b[1..] {
        assert a == [a[0]] + a[1..] && b == [b[0]] + b[1..];
      }
    }
  }

  /** Ascending order on a nullable text column: NULL first. */
  predicate OptLess(a: Option<string>, b: Option<string>) {
    match (a, b)
    case (None, Some(_)) => true
    case (Some(x), Some(y)) => StrLess(x, y)
    case _ => false
  }

  /** `ORDER BY booking_date, state`. */
  predicate KeyLess(x: GroupKey, y: GroupKey) {
    OptLess(x.bookingDate, y.bookingDate)
    || (x.bookingDate == y.bookingDate && OptLess(x.state, y.state))
  }

  lemma OptLessIrreflexive(a: Option<string>)
    ensures !OptLess(a, a)
  {
    if a.Some? {
      StrLessIrreflexive(a.value);
    }
  }

  lemma OptLessTransitive(a: Option<string>, b: Option<string>, c: Option<string>)
    requires OptLess(a, b) && OptLess(b, c)
    ensures OptLess(a, c)
  {
    if a.Some? {
      StrLessTransitive(a.value, b.value, c.value);
    }
  }

  lemma OptLessTotal(a: Option<string>, b: Option<string>)
    ensures a == b || OptLess(a, b) || OptLess(b, a)
  {
    if a.Some? && b.Some? {
      StrLessTotal(a.value, b.value);
    }
  }

  /** The report order is a strict total order on keys. */
  lemma KeyLessIrreflexive(x: GroupKey)
    ensures !KeyLess(x, x)
  {
    OptLessIrreflexive(x.bookingDate);
    OptLessIrreflexive(x.state);
  }

  lemma KeyLessTransitive(x: GroupKey, y: GroupKey, z: GroupKey)
    requires KeyLess(x, y) && KeyLess(y, z)
    ensures KeyLess(x, z)
  {
    if OptLess(x.bookingDate, y.bookingDate) && OptLess(y.bookingDate, z.bookingDate) {
      OptLessTransitive(x.bookingDate, y.bookingDate, z.bookingDate);
    } else if x.bookingDate == y.bookingDate && y.bookingDate == z.bookingDate {
      OptLessTransitive(x.state, y.state, z.state);
    }
  }

  lemma KeyLessTotal(x: GroupKey, y: GroupKey)
    ensures x == y || KeyLess(x, y) || KeyLess(y, x)
  {
    OptLessTotal(x.bookingDate, y.bookingDate);
    OptLessTotal(x.state, y.state);
  }

  predicate StrictlySorted(s: seq<GroupKey>) {
    forall i, j :: 0 <= i < j < |s| ==> KeyLess(s[i], s[j])
  }

  /** Adds `k` to a sorted list of distinct keys, unless it is already there. */
  function Insert(s: seq<GroupKey>, k: GroupKey): (r: seq<GroupKey>)
    requires StrictlySorted(s)
    ensures StrictlySorted(r)
    ensures forall x :: x in r <==> x in s || x == k
  {
    if s == [] then [k]
    else if k == s[0] then s
    else if KeyLess(k, s[0]) then
      assert forall j :: 0 <= j < |s| ==> KeyLess(k, s[j]) by {
        forall j | 0 < j < |s| ensures KeyLess(k, s[j]) {
          KeyLessTransitive(k, s[0], s[j]);
        }
      }
      [k] + s
    else
      KeyLessTotal(k, s[0]);
      var t := Insert(s[1..], k);
      assert forall x :: x in s <==> x == s[0] || x in s[1..];
      assert forall x :: x in t ==> KeyLess(s[0], x);
      [s[0]] + t
  }

  /** The distinct keys of `ks`, sorted. */
  function SortKeys(ks: seq<GroupKey>): (r: seq<GroupKey>)
    ensures StrictlySorted(r)
    ensures forall x :: x in r <==> x in ks
  {
    if ks == [] then []
    else
      assert forall x :: x in ks <==> x == ks[0] || x in ks[1..];
      Insert(SortKeys(ks[1..]), ks[0])
  }

  /** The first key of a strictly sorted list comes before every other key in it. */
  lemma SortedHeadIsLeast(s: seq<GroupKey>, x: GroupKey)
    requires StrictlySorted(s) && x in s && x != s[0]
    ensures KeyLess(s[0], x)
  {
    var i :| 0 <= i < |s| && s[i] == x;
  }

  /**
   * A set of keys has only one strictly sorted listing, so the sorted
   * groups are exactly the order ORDER BY produces.
   */
  lemma {:induction false} SortedUnique(a: seq<GroupKey>, b: seq<GroupKey>)
    requires StrictlySorted(a) && StrictlySorted(b)
    requires forall x :: x in a <==> x in b
    ensures a == b
  {
    if a != [] && b != [] {
      assert a[0] in a && b[0] in b;
      if a[0] != b[0] {
        SortedHeadIsLeast(a, b[0]);
        SortedHeadIsLeast(b, a[0]);
        KeyLessTransitive(a[0], b[0], a[0]);
        KeyLessIrreflexive(a[0]);
        assert false;
      }
      forall x ensures x in a[1..] <==> x in b[1..] {
        KeyLessIrreflexive(x);
        assert x in a <==> x == a[0] || x in a[1..];
        assert x in b <==> x == b[0] || x in b[1..];
      }
      SortedUnique(a[1..], b[1..]);
      assert a == [a[0]] + a[1..] && b == [b[0]] + b[1..];
    } else {
      SameMembersBothEmpty(a, b);
    }
  }

  lemma SameMembersBothEmpty<T>(a: seq<T>, b: seq<T>)
    requires forall x :: x in a <==> x in b
    ensures a == [] <==> b == []
  {
    if a != [] {
      assert a[0] in b;
    }
    if b != [] {
      assert b[0] in a;
    }
  }

  /** One row of the reporting dataset. */
  datatype ReportRecord = ReportRecord(
    bookingDate: Option<string>,
    state: Option<string>,
    totalPolicyPremium: Option<real>,
    totalGlPremium: Option<real>,
    variance: Option<real>)

  /** The `written_premium` cells of the joined rows with key `k`. */
  function WrittenOfKey(rows: seq<JoinedRow>, k: GroupKey): seq<Option<real>> {
    if rows == [] then []
    else
      (if KeyOf(rows[0]) == k then [rows[0].writtenPremium] else []) + WrittenOfKey(rows[1..], k)
  }

  /** The `premium_booked` cells of the joined rows with key `k`. */
  function BookedOfKey(rows: seq<JoinedRow>, k: GroupKey): seq<Option<real>> {
    if rows == [] then []
    else
      (if KeyOf(rows[0]) == k then [rows[0].premiumBooked] else []) + BookedOfKey(rows[1..], k)
  }

  /** A group has one cell in each column per joined row with its key. */
  lemma {:induction false} OfKeyLength(rows: seq<JoinedRow>, k: GroupKey)
    ensures |WrittenOfKey(rows, k)| == multiset(JoinKeys(rows))[k]
    ensures |BookedOfKey(rows, k)| == multiset(JoinKeys(rows))[k]
  {
    if rows != [] {
      assert JoinKeys(rows) == [KeyOf(rows[0])] + JoinKeys(rows[1..]);
      OfKeyLength(rows[1..], k);
    }
  }

  lemma {:induction false} OfKeyAppend(a: seq<JoinedRow>, b: seq<JoinedRow>, k: GroupKey)
    ensures WrittenOfKey(a + b, k) == WrittenOfKey(a, k) + WrittenOfKey(b, k)
    ensures BookedOfKey(a + b, k) == BookedOfKey(a, k) + BookedOfKey(b, k)
  {
    if a == [] {
      assert a + b == b;
    } else {
      assert (a + b)[0] == a[0] && (a + b)[1..] == a[1..] + b;
      OfKeyAppend(a[1..], b, k);
    }
  }

  /** A row at which a cell of group `k`'s `premium_booked` column sits. */
  lemma {:induction false} BookedCellRow(rows: seq<JoinedRow>, k: GroupKey, v: Option<real>) returns (i: nat)
    requires v in BookedOfKey(rows, k)
    ensures i < |rows| && KeyOf(rows[i]) == k && rows[i].premiumBooked == v
  {
    if KeyOf(rows[0]) == k && rows[0].premiumBooked == v {
      i := 0;
    } else {
      var t := BookedCellRow(rows[1..], k, v);
      i := t + 1;
    }
  }

  /** A row at which a cell of group `k`'s `written_premium` column sits. */
  lemma {:induction false} WrittenCellRow(rows: seq<JoinedRow>, k: GroupKey, v: Option<real>) returns (i: nat)
    requires v in WrittenOfKey(rows, k)
    ensures i < |rows| && KeyOf(rows[i]) == k && rows[i].writtenPremium == v
  {
    if KeyOf(rows[0]) == k && rows[0].writtenPremium == v {
      i := 0;
    } else {
      var t := WrittenCellRow(rows[1..], k, v);
      i := t + 1;
    }
  }

  /** Every joined row with key `k` puts its two amounts into group `k`. */
  lemma {:induction false} RowCells(rows: seq<JoinedRow>, k: GroupKey, i: nat)
    requires i < |rows| && KeyOf(rows[i]) == k
    ensures rows[i].premiumBooked in BookedOfKey(rows, k)
    ensures rows[i].writtenPremium in WrittenOfKey(rows, k)
  {
    if i > 0 {
      RowCells(rows[1..], k, i - 1);
      assert rows[1..][i - 1] == rows[i];
    }
  }


  /** The position in the join of the row a matching pair yields. */
  lemma PairRow(policies: seq<PolicyRow>, gl: seq<GlRow>, a: nat, b: nat) returns (i: nat)
    requires a < |policies| && b < |gl| && Matches(policies[a], gl[b])
    ensures i < |Join(policies, gl)| && Join(policies, gl)[i] == Joined(policies[a], gl[b])
  {
    JoinHasPair(policies, gl, a, b);
    var rows := Join(policies, gl);
    i :| 0 <= i < |rows| && rows[i] == Joined(policies[a], gl[b]);
  }

  /** The matching pair behind a cell of group `k`'s `premium_booked` column. */
  lemma BookedCellPair(policies: seq<PolicyRow>, gl: seq<GlRow>, k: GroupKey, v: Option<real>) returns (a: nat, b: nat)
    requires v in BookedOfKey(Join(policies, gl), k)
    ensures 0 <= a < |policies| && 0 <= b < |gl| && Matches(policies[a], gl[b])
      && gl[b].bookingDate == k.bookingDate && policies[a].state == k.state && gl[b].premiumBooked == v
  {
    var rows := Join(policies, gl);
    var i := BookedCellRow(rows, k, v);
    a, b := JoinRowOrigin(policies, gl, rows[i]);
  }

  /** A matching pair in group `k` puts its amount into that group's `premium_booked` column. */
  lemma BookedCellOfPair(policies: seq<PolicyRow>, gl: seq<GlRow>, k: GroupKey, v: Option<real>, a: nat, b: nat)
    requires 0 <= a < |policies| && 0 <= b < |gl| && Matches(policies[a], gl[b])
      && gl[b].bookingDate == k.bookingDate && policies[a].state == k.state && gl[b].premiumBooked == v
    ensures v in BookedOfKey(Join(policies, gl), k)
  {
    var i := PairRow(policies, gl, a, b);
    RowCells(Join(policies, gl), k, i);
  }

  /**
   * A group's `premium_booked` cells are exactly the amounts of the GL
   * entries that matched a policy row, where the entry's booking date and
   * the policy's state make up the group key.
   */
  lemma BookedGroupMember(policies: seq<PolicyRow>, gl: seq<GlRow>, k: GroupKey, v: Option<real>)
    ensures v in BookedOfKey(Join(policies, gl), k) <==>
      exists a, b :: (0 <= a < |policies| && 0 <= b < |gl| && Matches(policies[a], gl[b])
        && gl[b].bookingDate == k.bookingDate && policies[a].state == k.state && gl[b].premiumBooked == v)
  {
    if v in BookedOfKey(Join(policies, gl), k) {
      var a, b := BookedCellPair(policies, gl, k, v);
    }
    if exists a, b :: (0 <= a < |policies| && 0 <= b < |gl| && Matches(policies[a], gl[b])
        && gl[b].bookingDate == k.bookingDate && policies[a].state == k.state && gl[b].premiumBooked == v) {
      var a, b :| (0 <= a < |policies| && 0 <= b < |gl| && Matches(policies[a], gl[b])
        && gl[b].bookingDate == k.bookingDate && policies[a].state == k.state && gl[b].premiumBooked == v);
      BookedCellOfPair(policies, gl, k, v, a, b);
    }
  }

  /** The matching pair behind a cell of group `k`'s `written_premium` column. */
  lemma WrittenCellPair(policies: seq<PolicyRow>, gl: seq<GlRow>, k: GroupKey, v: Option<real>) returns (a: nat, b: nat)
    requires v in WrittenOfKey(Join(policies, gl), k)
    ensures 0 <= a < |policies| && 0 <= b < |gl| && Matches(policies[a], gl[b])
      && gl[b].bookingDate == k.bookingDate && policies[a].state == k.state && policies[a].writtenPremium == v
  {
    var rows := Join(policies, gl);
    var i := WrittenCellRow(rows, k, v);
    a, b := JoinRowOrigin(policies, gl, rows[i]);
  }

  /** A matching pair in group `k` puts its amount into that group's `written_premium` column. */
  lemma WrittenCellOfPair(policies: seq<PolicyRow>, gl: seq<GlRow>, k: GroupKey, v: Option<real>, a: nat, b: nat)
    requires 0 <= a < |policies| && 0 <= b < |gl| && Matches(policies[a], gl[b])
      && gl[b].bookingDate == k.bookingDate && policies[a].state == k.state && policies[a].writtenPremium == v
    ensures v in WrittenOfKey(Join(policies, gl), k)
  {
    var i := PairRow(policies, gl, a, b);
    RowCells(Join(policies, gl), k, i);
  }

  /**
   * A group's `written_premium` cells are exactly the premiums of the
   * policy rows that matched a GL entry, where the entry's booking date and
   * the policy's state make up the group key.
   */
  lemma WrittenGroupMember(policies: seq<PolicyRow>, gl: seq<GlRow>, k: GroupKey, v: Option<real>)
    ensures v in WrittenOfKey(Join(policies, gl), k) <==>
      exists a, b :: (0 <= a < |policies| && 0 <= b < |gl| && Matches(policies[a], gl[b])
        && gl[b].bookingDate == k.bookingDate && policies[a].state == k.state && policies[a].writtenPremium == v)
  {
    if v in WrittenOfKey(Join(policies, gl), k) {
      var a, b := WrittenCellPair(policies, gl, k, v);
    }
    if exists a, b :: (0 <= a < |policies| && 0 <= b < |gl| && Matches(policies[a], gl[b])
        && gl[b].bookingDate == k.bookingDate && policies[a].state == k.state && policies[a].writtenPremium == v) {
      var a, b :| (0 <= a < |policies| && 0 <= b < |gl| && Matches(policies[a], gl[b])
        && gl[b].bookingDate == k.bookingDate && policies[a].state == k.state && policies[a].writtenPremium == v);
      WrittenCellOfPair(policies, gl, k, v, a, b);
    }
  }

  /** How many GL entries match policy row `p` and fall into group `k`. */
  function FanOut(p: PolicyRow, gl: seq<GlRow>, k: GroupKey): nat {
    |set i | 0 <= i < |gl| && Matches(p, gl[i]) && GroupKey(gl[i].bookingDate, p.state) == k|
  }

  lemma FanOutStep(p: PolicyRow, gl: seq<GlRow>, k: GroupKey, n: nat)
    requires 0 < n <= |gl|
    ensures |set i | 0 <= i < n && Matches(p, gl[i]) && GroupKey(gl[i].bookingDate, p.state) == k| ==
      |set i | 0 <= i < n - 1 && Matches(p, gl[i]) && GroupKey(gl[i].bookingDate, p.state) == k|
      + (if Matches(p, gl[n - 1]) && GroupKey(gl[n - 1].bookingDate, p.state) == k then 1 else 0)
  {
    var s1 := set i | 0 <= i < n && Matches(p, gl[i]) && GroupKey(gl[i].bookingDate, p.state) == k;
    var s0 := set i | 0 <= i < n - 1 && Matches(p, gl[i]) && GroupKey(gl[i].bookingDate, p.state) == k;
    if Matches(p, gl[n - 1]) && GroupKey(gl[n - 1].bookingDate, p.state) == k {
      assert s1 == s0 + {n - 1};
    } else {
      assert s1 == s0;
    }
  }

  lemma {:induction false} PolicyFanOutPrefix(p: PolicyRow, gl: seq<GlRow>, k: GroupKey, n: nat)
    requires n <= |gl|
    ensures WrittenOfKey(JoinOne(p, gl[..n]), k) ==
      Repeat(|set i | 0 <= i < n && Matches(p, gl[i]) && GroupKey(gl[i].bookingDate, p.state) == k|, p.writtenPremium)
  {
    if n > 0 {
      var m := n - 1;
      var g := gl[m];
      var c := |set i | 0 <= i < m && Matches(p, gl[i]) && GroupKey(gl[i].bookingDate, p.state) == k|;
      PolicyFanOutPrefix(p, gl, k, m);
      FanOutStep(p, gl, k, n);
      assert gl[..n] == gl[..m] + [g];
      JoinOneAppend(p, gl[..m], [g]);
      OfKeyAppend(JoinOne(p, gl[..m]), JoinOne(p, [g]), k);
      assert [g][1..] == [];
      if Matches(p, g) && GroupKey(g.bookingDate, p.state) == k {
        assert JoinOne(p, [g]) == [Joined(p, g)];
        assert WrittenOfKey([Joined(p, g)], k) == [p.writtenPremium];
        assert Repeat(c, p.writtenPremium) + [p.writtenPremium] == Repeat(c + 1, p.writtenPremium);
      } else {
        assert WrittenOfKey(JoinOne(p, [g]), k) == [];
      }
    }
  }

  /**
   * A policy row contributes its written premium to group `k` once per GL
   * entry that matches it and is booked in that group.
   */
  lemma PolicyFanOut(p: PolicyRow, gl: seq<GlRow>, k: GroupKey)
    ensures WrittenOfKey(JoinOne(p, gl), k) == Repeat(FanOut(p, gl, k), p.writtenPremium)
  {
    PolicyFanOutPrefix(p, gl, k, |gl|);
    assert gl[..|gl|] == gl;
  }

  /** How a group's two columns split around policy `p`. */
  lemma JoinColumnSplit(a: seq<PolicyRow>, p: PolicyRow, b: seq<PolicyRow>, gl: seq<GlRow>, k: GroupKey)
    ensures WrittenOfKey(Join(a + [p] + b, gl), k) ==
      WrittenOfKey(Join(a, gl), k) + WrittenOfKey(JoinOne(p, gl), k) + WrittenOfKey(Join(b, gl), k)
    ensures WrittenOfKey(Join(a + b, gl), k) == WrittenOfKey(Join(a, gl), k) + WrittenOfKey(Join(b, gl), k)
    ensures BookedOfKey(Join(a + [p] + b, gl), k) ==
      BookedOfKey(Join(a, gl), k) + BookedOfKey(JoinOne(p, gl), k) + BookedOfKey(Join(b, gl), k)
    ensures BookedOfKey(Join(a + b, gl), k) == BookedOfKey(Join(a, gl), k) + BookedOfKey(Join(b, gl), k)
  {
    var x, y, z := Join(a, gl), JoinOne(p, gl), Join(b, gl);
    JoinAppend(a + [p], b, gl);
    JoinAppend(a, [p], gl);
    JoinAppend(a, b, gl);
    assert [p][1..] == [];
    assert Join([p], gl) == y;
    OfKeyAppend(x + y, z, k);
    OfKeyAppend(x, y, k);
    OfKeyAppend(x, z, k);
  }

  /** A group's policy total splits into the total without policy `p` and `p`'s own joined cells. */
  lemma GroupTotalSplit(a: seq<PolicyRow>, p: PolicyRow, b: seq<PolicyRow>, gl: seq<GlRow>, k: GroupKey)
    ensures Sum(WrittenOfKey(Join(a + [p] + b, gl), k)) ==
      Add(Sum(WrittenOfKey(Join(a + b, gl), k)), Sum(WrittenOfKey(JoinOne(p, gl), k)))
  {
    var wx, wy, wz := WrittenOfKey(Join(a, gl), k), WrittenOfKey(JoinOne(p, gl), k), WrittenOfKey(Join(b, gl), k);
    JoinColumnSplit(a, p, b, gl, k);
    SumAppend(wx + wy, wz);
    SumAppend(wx, wy);
    SumAppend(wx, wz);
    AddAssociative(Sum(wx), Sum(wy), Sum(wz));
    AddCommutative(Sum(wy), Sum(wz));
    AddAssociative(Sum(wx), Sum(wz), Sum(wy));
  }

  /**
   * The policy total of group `k` over `a + [p] + b` is the total without
   * row `p`, plus `p`'s written premium times the number of its matching
   * GL entries in that group (with SUM's NULL rules).
   */
  lemma PolicyGroupContribution(a: seq<PolicyRow>, p: PolicyRow, b: seq<PolicyRow>, gl: seq<GlRow>, k: GroupKey)
    ensures FanOut(p, gl, k) == 0 || p.writtenPremium.None? ==>
      Sum(WrittenOfKey(Join(a + [p] + b, gl), k)) == Sum(WrittenOfKey(Join(a + b, gl), k))
    ensures FanOut(p, gl, k) > 0 && p.writtenPremium.Some? ==>
      Sum(WrittenOfKey(Join(a + [p] + b, gl), k)) ==
      Add(Sum(WrittenOfKey(Join(a + b, gl), k)), Some(FanOut(p, gl, k) as real * p.writtenPremium.value))
  {
    GroupTotalSplit(a, p, b, gl, k);
    PolicyFanOut(p, gl, k);
    SumRepeat(FanOut(p, gl, k), p.writtenPremium);
  }
  /** GL entry `g` matches `p`, lands in group `k` and books the amount `v`. */
  predicate BooksInto(p: PolicyRow, g: GlRow, k: GroupKey, v: Option<real>) {
    Matches(p, g) && GroupKey(g.bookingDate, p.state) == k && g.premiumBooked == v
  }

  /** The GL entries matching `p` that land in group `k` and book the amount `v`. */
  function BookedFanOut(p: PolicyRow, gl: seq<GlRow>, k: GroupKey, v: Option<real>): nat {
    |set i | 0 <= i < |gl| && BooksInto(p, gl[i], k, v)|
  }

  lemma BookedFanOutStep(p: PolicyRow, gl: seq<GlRow>, k: GroupKey, v: Option<real>, n: nat)
    requires 0 < n <= |gl|
    ensures |set i | 0 <= i < n && BooksInto(p, gl[i], k, v)| ==
      |set i | 0 <= i < n - 1 && BooksInto(p, gl[i], k, v)|
      + (if BooksInto(p, gl[n - 1], k, v) then 1 else 0)
  {
    var s1 := set i | 0 <= i < n && BooksInto(p, gl[i], k, v);
    var s0 := set i | 0 <= i < n - 1 && BooksInto(p, gl[i], k, v);
    if BooksInto(p, gl[n - 1], k, v) {
      assert s1 == s0 + {n - 1};
    } else {
      assert s1 == s0;
    }
  }

  /** One more GL entry adds one cell `v` to `p`'s part of group `k`'s booked column exactly when it matches, lands in `k` and books `v`. */
  lemma PolicyBookedSnoc(p: PolicyRow, gl: seq<GlRow>, k: GroupKey, v: Option<real>, n: nat)
    requires 0 < n <= |gl|
    ensures multiset(BookedOfKey(JoinOne(p, gl[..n]), k))[v] ==
      multiset(BookedOfKey(JoinOne(p, gl[..n - 1]), k))[v]
      + (if BooksInto(p, gl[n - 1], k, v) then 1 else 0)
  {
    var g := gl[n - 1];
    assert gl[..n] == gl[..n - 1] + [g];
    JoinOneAppend(p, gl[..n - 1], [g]);
    OfKeyAppend(JoinOne(p, gl[..n - 1]), JoinOne(p, [g]), k);
    assert [g][1..] == [];
    if Matches(p, g) && GroupKey(g.bookingDate, p.state) == k {
      assert JoinOne(p, [g]) == [Joined(p, g)];
      assert BookedOfKey([Joined(p, g)], k) == [g.premiumBooked];
    } else {
      assert BookedOfKey(JoinOne(p, [g]), k) == [];
    }
  }

  lemma {:induction false} PolicyBookedPrefix(p: PolicyRow, gl: seq<GlRow>, k: GroupKey, v: Option<real>, n: nat)
    requires n <= |gl|
    ensures multiset(BookedOfKey(JoinOne(p, gl[..n]), k))[v] == |set i | 0 <= i < n && BooksInto(p, gl[i], k, v)|
  {
    if n > 0 {
      PolicyBookedPrefix(p, gl, k, v, n - 1);
      BookedFanOutStep(p, gl, k, v, n);
      PolicyBookedSnoc(p, gl, k, v, n);
    }
  }

  /**
   * A policy row puts the booked amount `v` into group `k`'s
   * `premium_booked` column once per GL entry that matches it, lands in
   * that group and books `v`.
   */
  lemma PolicyBookedCount(p: PolicyRow, gl: seq<GlRow>, k: GroupKey, v: Option<real>)
    ensures multiset(BookedOfKey(JoinOne(p, gl), k))[v] == BookedFanOut(p, gl, k, v)
  {
    PolicyBookedPrefix(p, gl, k, v, |gl|);
    assert gl[..|gl|] == gl;
  }

  /** The matching (policy row, GL entry) pairs in group `k` whose entry books `v`, counted policy row by policy row. */
  function BookedPairs(policies: seq<PolicyRow>, gl: seq<GlRow>, k: GroupKey, v: Option<real>): nat {
    if policies == [] then 0 else BookedFanOut(policies[0], gl, k, v) + BookedPairs(policies[1..], gl, k, v)
  }

  /**
   * Group `k`'s `premium_booked` column holds `v` once per matching
   * (policy row, GL entry) pair in that group whose entry books `v`: a GL
   * entry matched by M policy rows counts M times.
   */
  lemma {:induction false} BookedColumnCount(policies: seq<PolicyRow>, gl: seq<GlRow>, k: GroupKey, v: Option<real>)
    ensures multiset(BookedOfKey(Join(policies, gl), k))[v] == BookedPairs(policies, gl, k, v)
  {
    if policies != [] {
      var x, y := JoinOne(policies[0], gl), Join(policies[1..], gl);
      assert Join(policies, gl) == x + y;
      OfKeyAppend(x, y, k);
      PolicyBookedCount(policies[0], gl, k, v);
      BookedColumnCount(policies[1..], gl, k, v);
    }
  }

  /** A group's GL total splits into the total without policy `p` and the GL amounts `p` joins to. */
  lemma GlGroupTotalSplit(a: seq<PolicyRow>, p: PolicyRow, b: seq<PolicyRow>, gl: seq<GlRow>, k: GroupKey)
    ensures Sum(BookedOfKey(Join(a + [p] + b, gl), k)) ==
      Add(Sum(BookedOfKey(Join(a + b, gl), k)), Sum(BookedOfKey(JoinOne(p, gl), k)))
  {
    var cx, cy, cz := BookedOfKey(Join(a, gl), k), BookedOfKey(JoinOne(p, gl), k), BookedOfKey(Join(b, gl), k);
    JoinColumnSplit(a, p, b, gl, k);
    SumAppend(cx + cy, cz);
    SumAppend(cx, cy);
    SumAppend(cx, cz);
    AddAssociative(Sum(cx), Sum(cy), Sum(cz));
    AddCommutative(Sum(cy), Sum(cz));
    AddAssociative(Sum(cx), Sum(cz), Sum(cy));
  }


  /**
   * The aggregate row of group `k`; its variance is present exactly when
   * both totals are, and is then the GL total less the policy total.
   */
  function Aggregate(rows: seq<JoinedRow>, k: GroupKey): (r: ReportRecord)
    ensures r.bookingDate == k.bookingDate && r.state == k.state
    ensures r.variance.Some? <==> r.totalPolicyPremium.Some? && r.totalGlPremium.Some?
    ensures r.variance.Some? ==> r.variance.value == r.totalGlPremium.value - r.totalPolicyPremium.value
  {
    var tp := Sum(WrittenOfKey(rows, k));
    var tg := Sum(BookedOfKey(rows, k));
    ReportRecord(k.bookingDate, k.state, tp, tg, Sub(tg, tp))
  }

  function ReportKeys(rs: seq<ReportRecord>): (r: seq<GroupKey>)
    ensures |r| == |rs|
    ensures forall i :: 0 <= i < |rs| ==> r[i] == GroupKey(rs[i].bookingDate, rs[i].state)
  {
    seq(|rs|, i requires 0 <= i < |rs| => GroupKey(rs[i].bookingDate, rs[i].state))
  }

  /** The reporting dataset, before the CSV export. */
  function Report(db: Snapshot): seq<ReportRecord> {
    var rows := Join(db.policies, db.gl);
    var ks := SortKeys(JoinKeys(rows));
    seq(|ks|, i requires 0 <= i < |ks| => Aggregate(rows, ks[i]))
  }

  /**
   * One record per distinct (booking_date, state) of the joined rows and no
   * other, strictly ascending by booking_date and then state.
   */
  lemma ReportGroups(db: Snapshot)
    ensures StrictlySorted(ReportKeys(Report(db)))
    ensures forall k :: k in ReportKeys(Report(db)) <==> k in JoinKeys(Join(db.policies, db.gl))
  {
    var rows := Join(db.policies, db.gl);
    var ks := SortKeys(JoinKeys(rows));
    assert ReportKeys(Report(db)) == ks;
  }

  /**
   * Each record's totals are the SUMs of the joined rows of its group: NULL
   * when every amount there is NULL, and otherwise the sum of the non-NULL
   * ones.
   */
  lemma ReportTotals(db: Snapshot, i: nat)
    requires i < |Report(db)|
    ensures var r := Report(db)[i];
      var rows := Join(db.policies, db.gl);
      var k := GroupKey(r.bookingDate, r.state);
      r.totalPolicyPremium == Sum(WrittenOfKey(rows, k))
      && r.totalGlPremium == Sum(BookedOfKey(rows, k))
      && |WrittenOfKey(rows, k)| > 0
    ensures var r := Report(db)[i];
      var k := GroupKey(r.bookingDate, r.state);
      var ws := WrittenOfKey(Join(db.policies, db.gl), k);
      (r.totalPolicyPremium.None? <==> AllNull(ws))
      && (r.totalPolicyPremium.Some? ==> r.totalPolicyPremium.value == Total(NonNull(ws)))
    ensures var r := Report(db)[i];
      var k := GroupKey(r.bookingDate, r.state);
      var bs := BookedOfKey(Join(db.policies, db.gl), k);
      (r.totalGlPremium.None? <==> AllNull(bs))
      && (r.totalGlPremium.Some? ==> r.totalGlPremium.value == Total(NonNull(bs)))
  {
    var rows := Join(db.policies, db.gl);
    var ks := SortKeys(JoinKeys(rows));
    var k := ks[i];
    assert Report(db)[i] == Aggregate(rows, k);
    assert k in JoinKeys(rows);
    OfKeyLength(rows, k);
    SumMeaning(WrittenOfKey(rows, k));
    SumMeaning(BookedOfKey(rows, k));
  }
}
