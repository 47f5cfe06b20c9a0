# Premium reconciliation engine — a verified model

This project models the batch engine of an insurance premium pipeline. It reads
three tables and produces three datasets:

- **Inputs:**
  - `policies` — the policy administration system;
  - `accounting_gl` — the general ledger;
  - `claims`.
- **Outputs:**
  - a **data-quality issue list**, from a battery of eight checks run in a fixed order;
  - a **reconciliation** of written premium against booked premium, one record per policy id;
  - a **reporting dataset** of premium totals per booking date and state.

The engine states its logic as SQL queries over the loaded tables, with a little
column arithmetic afterwards. The model follows the same structure:

- **Values:**
  - every cell is nullable (`Option`);
  - amounts are exact `real`s;
  - a table is a `seq` of row datatypes.
- **SQL semantics** (module `Sql`):
  - three-valued logic in `WHERE`;
  - `SUM` skips NULLs and is NULL over all-NULL input;
  - `GROUP BY` and `UNION` treat NULL as one value;
  - an equality join never matches NULL.
- **`Tables`**: the three row types and the snapshot.
- **`DataQuality`**:
  - each check is a query;
  - `add_issues` is the loop method `AddIssues`, which appends one issue per result row to the running list;
  - the run of the eight checks is the method `Evaluate`.
- **`Reconciliation`** (pure):
  - the two `GROUP BY policy_id` sums;
  - their union of ids and the two left joins;
  - the `notna` filter;
  - `diff_pct` and `flag_reason`.
- **`Reporting`** (pure):
  - the inner join of policies with GL entries;
  - the `(booking_date, state)` grouping;
  - the `ORDER BY`, with NULL sorting first as in SQLite.
- **`Scenarios`**: a small snapshot worked through the whole run.

## Model

| member | source | states |
|---|---|---|
| DataQuality.AddIssues | dq_and_reconcile.py:41-51 | The list grows by exactly one issue per result row, in row order. Each issue carries the check, the row's `policy_id` and the row itself. The issues already in the list are untouched. |
| DataQuality.Evaluate | dq_and_reconcile.py:39-137 | Starting from an empty list and running the eight checks through `AddIssues` yields `DqIssues`, the concatenation of the eight checks' issues in battery order. |
| DataQuality.Where | dq_and_reconcile.py:66-137 | A row-level `SELECT * … WHERE` keeps each row exactly as often as it occurs when its condition is TRUE, and never otherwise. |
| DataQuality.ConditionMeaning | dq_and_reconcile.py:65-137 | Specifies `Condition`, the WHERE clauses of checks 2-8: each three-valued `WHERE` clause is TRUE exactly when the two-valued predicate `Flags` holds. In that predicate, a comparison with a NULL operand never holds. A check only flags rows of its own table. |
| DataQuality.NullPremiumIsNotNegative | dq_and_reconcile.py:88-96 | A NULL `premium_booked` makes `premium_booked < 0` UNKNOWN, so the negative-premium check does not flag the row. |
| DataQuality.ReserveGapAtToleranceIsNotMismatch | dq_and_reconcile.py:129-137 | A reserve gap of exactly 0.01 in either direction (reserve above or below incurred − paid) is not a mismatch, because the comparison is strict. |
| DataQuality.QueryCount | dq_and_reconcile.py:66-137 | A row-level check's result holds each table row as many times as the table holds it when the check flags it, and otherwise not at all. |
| DataQuality.RowLevelCheck | dq_and_reconcile.py:41-137 | In the whole issue list, a row-level check records a row exactly once per occurrence in its table when the check flags it, and never otherwise. |
| DataQuality.DuplicateCheck | dq_and_reconcile.py:53-63 | Specifies `DuplicateGroups`, the query of check 1, through the issues it yields: the duplicate check records exactly one issue per `policy_id` value (NULL included) that occurs on more than one policy row, carrying that row count. It records nothing for any other id. |
| DataQuality.DuplicateGroupsHoldNoRows | dq_and_reconcile.py:54-62 | The duplicate query returns `(policy_id, cnt)` groups, never whole table rows. |
| DataQuality.RowAppearsOncePerFailedCheck | dq_and_reconcile.py:39-137 | A table row appears in the issue list (number of its occurrences) × (number of checks that flag it) times. |
| DataQuality.TotalIssues | dq_and_reconcile.py:39-144 | The total number of issues is the sum of the eight checks' result sizes. |
| DataQuality.IssuesInBatteryOrder | dq_and_reconcile.py:63-137 | Issues appear in the list grouped by check, following the fixed order 1→8. |
| DataQuality.RunInBatteryOrder | dq_and_reconcile.py:63-137 | Concatenating the eight checks' issue blocks in battery order never places an issue of a later check before one of an earlier check. |
| Sql.SumMeaning | dq_and_reconcile.py:150-155 | `SUM` is NULL exactly when every input is NULL, and otherwise equals the total of the non-NULL inputs. |
| Sql.SumAppend | dq_and_reconcile.py:212-213 | `SUM` over a concatenation equals the NULL-aware addition of the two partial `SUM`s. |
| Sql.SumRepeat | dq_and_reconcile.py:203-212 | `SUM` of n copies of an amount is n times that amount. It is NULL when n is 0 or the amount is NULL. |
| Sql.Distinct | dq_and_reconcile.py:159-163 | Grouping or `UNION` yields each value of the input exactly once, and nothing else. |
| Reconciliation.PolicyPremium | dq_and_reconcile.py:149-153 | The policy aggregate has one group per distinct `policy_id` of `policies`. |
| Reconciliation.GlPremium | dq_and_reconcile.py:154-158 | The GL aggregate has one group per distinct `policy_id` of `accounting_gl`. |
| Reconciliation.WrittenPremiumsOfMember | dq_and_reconcile.py:150-152 | A value is summed for an id exactly when some policy row with that id carries it. |
| Reconciliation.BookedPremiumsOfMember | dq_and_reconcile.py:155-157 | A value is summed for an id exactly when some GL row with that id carries it. |
| Reconciliation.WrittenPremiumsOfCount | dq_and_reconcile.py:149-153 | The `SUM`'s input for an id holds each written premium exactly as many times as the policy rows with that id carry it. |
| Reconciliation.BookedPremiumsOfCount | dq_and_reconcile.py:154-158 | The `SUM`'s input for an id holds each booked premium exactly as many times as the GL rows with that id carry it. |
| Reconciliation.WrittenPremiumsOfLength | dq_and_reconcile.py:149-153 | The `SUM`'s input for an id has one entry per policy row with that id. |
| Reconciliation.BookedPremiumsOfLength | dq_and_reconcile.py:154-158 | The `SUM`'s input for an id has one entry per GL row with that id. |
| Reconciliation.AllIds | dq_and_reconcile.py:159-163 | The union holds each id found in either table exactly once. |
| Reconciliation.Lookup | dq_and_reconcile.py:170-171 | The left join attaches NULL to a NULL id or a missing id. For a present id, it attaches that id's own group total. |
| Reconciliation.ReconQuery | dq_and_reconcile.py:164-171 | The query's rows carry exactly the union's ids. |
| Reconciliation.DropNullIds | dq_and_reconcile.py:177 | The filter keeps exactly the rows whose id is not NULL, and it keeps ids distinct. |
| Reconciliation.PolicyLookup | dq_and_reconcile.py:149-170 | The premium joined to a non-NULL id is the `SUM` over that id's policy rows. |
| Reconciliation.GlLookup | dq_and_reconcile.py:154-171 | The premium joined to a non-NULL id is the `SUM` over that id's GL rows. |
| Reconciliation.ReconcileKeys | dq_and_reconcile.py:159-177 | Specifies the records of `Reconcile`, the whole reconciliation: the output holds one record per distinct non-NULL `policy_id` found in policies or GL, and no other record. |
| Reconciliation.RecordIdsAreQueryIds | dq_and_reconcile.py:174-177 | After the filter, a record exists for an id exactly when the query returned it as a non-NULL id. |
| Reconciliation.RecordIdsDistinct | dq_and_reconcile.py:174-177 | Distinct query ids stay distinct after the filter. |
| Reconciliation.ReconcileRow | dq_and_reconcile.py:164-191 | Each record's premiums are the two joined aggregates of its id. Its `diff`, `diff_pct` and label are derived from them. |
| Reconciliation.ReconcilePremiums | dq_and_reconcile.py:149-158 | Each record's two premiums follow `SUM` semantics over the rows with its id. A premium is NULL when that table has no row for the id, or only NULL amounts. Otherwise it is the sum of the non-NULL amounts. |
| Reconciliation.ReconcileDerived | dq_and_reconcile.py:168-189 | `diff = premium_gl − premium_policy`, NULL exactly when either premium is NULL. `diff_pct` is NULL when either is NULL or the policy premium is 0, and `diff / premium_policy` otherwise. Exactly one label applies, by strict first-match precedence, with `\|diff\| > 50` strict. |
| Reconciliation.DiffPct | dq_and_reconcile.py:180 | `diff_pct` is NULL exactly when `diff` or the policy premium is NULL, or the policy premium is 0. Otherwise it is the quotient: multiplied by the policy premium, it gives back `diff`. |
| Reconciliation.Flag | dq_and_reconcile.py:182-189 | Exactly one label, by first match: "Missing in policies" iff the policy premium is NULL; "Missing in GL" iff only the GL premium is NULL; "Large difference" iff both are present and \|diff\| > 50 (strict); "OK" otherwise. A NULL `diff` is never a large difference. |
| Reconciliation.AllNullPremiumsAreMissingInPolicies | dq_and_reconcile.py:150-184 | A policy id that exists, but whose `written_premium` values are all NULL, is labelled "Missing in policies". |
| Reporting.JoinOneShape | dq_and_reconcile.py:198-208 | One policy row joins once per GL entry with its id, and never when its id is NULL. Each joined row carries that policy's id, state and written premium. |
| Reporting.JoinOneMember | dq_and_reconcile.py:198-208 | A row is in one policy's join exactly when it is that policy paired with one of its matching GL entries. |
| Reporting.JoinMember | dq_and_reconcile.py:198-208 | Specifies `Join`, the `joined` CTE: a row is in the inner join exactly when it pairs some policy row with some GL entry whose id equals the policy's non-NULL id. Its `booking_date` and `premium_booked` are that GL entry's; its state and written premium are that policy's. |
| Reporting.JoinRowOrigin | dq_and_reconcile.py:198-208 | Every joined row comes from a matching (policy row, GL entry) pair, which the lemma names. |
| Reporting.JoinHasPair | dq_and_reconcile.py:198-208 | Every matching (policy row, GL entry) pair yields a joined row. |
| Reporting.BookedGroupMember | dq_and_reconcile.py:202-216 | An amount is in group `(d, s)`'s `premium_booked` column exactly when some matching pair has a GL entry booked on `d` with that amount and a policy in state `s`. |
| Reporting.WrittenGroupMember | dq_and_reconcile.py:202-216 | An amount is in group `(d, s)`'s `written_premium` column exactly when some matching pair has a GL entry booked on `d` and a policy in state `s` with that written premium. |
| Reporting.OfKeyLength | dq_and_reconcile.py:209-216 | Each group's two columns hold one cell per joined row with the group's key. |
| Reporting.UnmatchedGlEntryContributesNothing | dq_and_reconcile.py:205-207 | Removing a GL entry whose id is NULL or absent from `policies` leaves the join unchanged. |
| Reporting.UnmatchedPolicyContributesNothing | dq_and_reconcile.py:205-207 | Removing a policy whose id is NULL or absent from the GL leaves the join unchanged. |
| Reporting.PolicyFanOut | dq_and_reconcile.py:203-216 | A policy with N matching GL entries in group `k` contributes its `written_premium` exactly N times to that group's column, and nothing else. |
| Reporting.GroupTotalSplit | dq_and_reconcile.py:203-216 | A group's policy total over all policy rows is the NULL-aware sum of its total without policy `p` and `p`'s own contribution. |
| Reporting.PolicyGroupContribution | dq_and_reconcile.py:203-216 | Adding policy `p` to the policy rows adds N × its `written_premium` to group `k`'s policy total, where N counts its matching GL entries in `k`. With N = 0 or a NULL premium, the total is unchanged. |
| Reporting.JoinColumnSplit | dq_and_reconcile.py:198-216 | Both group columns over `a + [p] + b` are the columns over `a`, then `p`'s own joined rows, then `b`. Without `p` they are the columns over `a` then `b`. |
| Reporting.PolicyBookedCount | dq_and_reconcile.py:198-213 | A policy row puts the booked amount v into group k's `premium_booked` column once per GL entry that matches it, lands in k and books v. |
| Reporting.BookedColumnCount | dq_and_reconcile.py:198-216 | Group k's `premium_booked` column holds v exactly once per matching (policy row, GL entry) pair in k whose entry books v. So a GL entry matched by M policy rows with the same id counts M times in `total_gl_premium`. |
| Reporting.GlGroupTotalSplit | dq_and_reconcile.py:203-216 | A group's GL total over `a + [p] + b` is the NULL-aware sum of its GL total without `p` and the GL amounts `p` joins to in that group. |
| Reporting.KeyLessTransitive | dq_and_reconcile.py:217 | The `(booking_date, state)` order, with NULL first, is transitive. |
| Reporting.KeyLessTotal | dq_and_reconcile.py:217 | The `(booking_date, state)` order is total: any two distinct keys are ordered. |
| Reporting.KeyLessIrreflexive | dq_and_reconcile.py:217 | No key sorts before itself. |
| Reporting.SortKeys | dq_and_reconcile.py:216-217 | The group keys are strictly ascending and hold exactly the keys of the joined rows. |
| Reporting.SortedUnique | dq_and_reconcile.py:216-217 | Two strictly sorted key lists with the same members are equal, so the report's row order is fully determined. |
| Reporting.Aggregate | dq_and_reconcile.py:209-214 | A report row carries its group key. `variance` is NULL exactly when either total is, and otherwise equals GL total − policy total. |
| Reporting.ReportGroups | dq_and_reconcile.py:197-218 | Specifies the rows of `Report`, the whole reporting query: the report has one row per distinct `(booking_date, state)` of the join, strictly ascending. |
| Reporting.ReportTotals | dq_and_reconcile.py:209-216 | A row's totals are the `SUM`s over its non-empty group of joined rows. Each is NULL when all of its amounts are NULL, and otherwise the sum of the non-NULL ones. |
| Scenarios.ReconcileExample | dq_and_reconcile.py:148-191 | P1 (1000 written; 600 + 500 booked) gives diff 100, diff_pct 0.1 and "Large difference". P2, which is only in the GL, gives "Missing in policies" with NULL diff and diff_pct. |
| Scenarios.ReportExample | dq_and_reconcile.py:197-218 | P1's two GL entries make its 1000 count twice: policy total 2000, GL total 1100, variance −900. |
| Scenarios.ClaimFailingTwoChecks | dq_and_reconcile.py:119-137 | A claim with incurred 100, paid 150 and reserve 50 is reported twice: paid > incurred, and a reserve mismatch. |
| Scenarios.DifferenceAtThresholdIsOk | dq_and_reconcile.py:187-189 | A difference of exactly 50 is "OK"; 50.01 in either direction is "Large difference". |
| Scenarios.ZeroPolicyPremiumHasNoDiffPct | dq_and_reconcile.py:180 | A zero policy premium gives a NULL `diff_pct`. |

## Left out

- Reading the CSV files, creating the output directory, loading into SQLite, writing the three output files, and the progress messages (dq_and_reconcile.py:22-37, 140-145, 193-194, 220-225). The model takes the three tables as values and returns the three datasets.
- The text of `issue_detail`, which is a Python rendering of the row dictionary. The model keeps the result row itself.
- SQLite's `DATE()` normalisation of `booking_date`. The booking date is taken as an already-normalised string, ordered character by character.
- Floating point. Amounts are exact reals, so the 0.01 tolerance and the 50 threshold are exact comparisons, and `diff_pct` is an exact quotient.
- Row order where SQL fixes none: the duplicate check's groups, and the reconciliation rows. The model lists both by first occurrence. Nothing is proved about that order. Within the issue list, only the block order of the eight checks is stated.
- The dashboard (dashboard.py) and the synthetic data generator (generate_data.py) are not part of this model. They are a UI and a random data source.
- The duplicate check reports one issue per duplicated id, with its count, not one issue per duplicated row. This follows the code (`GROUP BY … HAVING COUNT(*) > 1`).
- An id whose policy rows all have a NULL premium is labelled "Missing in policies" even though it exists in `policies`. This follows the code's `SUM` semantics rather than a reading of "missing" as "absent".
