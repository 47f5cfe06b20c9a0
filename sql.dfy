/**
 * The small piece of SQL semantics the engine's queries rely on: nullable
 * cells, three-valued comparison logic with WHERE keeping only rows whose
 * condition is TRUE, null-propagating arithmetic, the SUM aggregate (which
 * skips NULLs and is NULL when nothing is left), and duplicate elimination
 * as GROUP BY and UNION perform it.
 */
module Sql {

  /** A nullable cell: `None` is SQL NULL (pandas NaN / None). */
  datatype Option<+T> = None | Some(value: T)

  /** SQL's three truth values. */
  datatype Truth = True | False | Unknown

  /** `x IS NULL` never yields Unknown. */
  function IsNull<T>(x: Option<T>): Truth {
    if x.None? then True else False
  }

  /** Kleene disjunction, as SQL evaluates `OR`. */
  function Or(a: Truth, b: Truth): Truth {
    if a == True || b == True then True
    else if a == False && b == False then False
    else Unknown
  }

  /** `a < b`; Unknown when either side is NULL. */
  function Lt(a: Option<real>, b: Option<real>): Truth {
    if a.None? || b.None? then Unknown
    else if a.value < b.value then True
    else False
  }

  /** `a > b`; Unknown when either side is NULL. */
  function Gt(a: Option<real>, b: Option<real>): Truth {
    Lt(b, a)
  }

  /** `a - b`; NULL when either side is NULL. */
  function Sub(a: Option<real>, b: Option<real>): Option<real> {
    if a.None? || b.None? then None else Some(a.value - b.value)
  }

  function Abs(x: real): real {
    if x < 0.0 then -x else x
  }

  /** `ABS(x)`; NULL stays NULL. */
  function AbsN(x: Option<real>): Option<real> {
    if x.None? then None else Some(Abs(x.value))
  }

  /** One step of the SUM aggregate: NULL inputs are skipped. */
  function Add(a: Option<real>, b: Option<real>): Option<real> {
    match (a, b)
    case (None, _) => b
    case (_, None) => a
    case (Some(x), Some(y)) => Some(x + y)
  }

  /** `SUM(xs)` over one group. */
  function Sum(xs: seq<Option<real>>): Option<real> {
    if xs == [] then None else Add(xs[0], Sum(xs[1..]))
  }

  /** The ordinary sum of a list of numbers. */
  function Total(xs: seq<real>): real {
    if xs == [] then 0.0 else xs[0] + Total(xs[1..])
  }

  /** The non-NULL values of a column, in order. */
  function NonNull(xs: seq<Option<real>>): (r: seq<real>)
    ensures |r| <= |xs|
  {
    if xs == [] then []
    else if xs[0].None? then NonNull(xs[1..])
    else [xs[0].value] + NonNull(xs[1..])
  }

  predicate AllNull(xs: seq<Option<real>>) {
    forall i :: 0 <= i < |xs| ==> xs[i].None?
  }

  /**
   * What SUM means: it is NULL exactly when every input is NULL (in
   * particular for an empty group), and otherwise it is the ordinary sum
   * of the non-NULL inputs.
   */
  lemma {:induction false} SumMeaning(xs: seq<Option<real>>)
    ensures Sum(xs).None? <==> AllNull(xs)
    ensures Sum(xs).Some? ==> Sum(xs).value == Total(NonNull(xs))
    ensures AllNull(xs) <==> NonNull(xs) == []
  {
    if xs != [] {
      SumMeaning(xs[1..]);
      assert AllNull(xs) <==> xs[0].None? && AllNull(xs[1..]) by {
        if xs[0].None? && AllNull(xs[1..]) {
          forall i | 0 <= i < |xs| ensures xs[i].None? {
            if i > 0 { assert xs[i] == xs[1..][i - 1]; }
          }
        }
        if AllNull(xs) {
          forall i | 0 <= i < |xs[1..]| ensures xs[1..][i].None? {
            assert xs[1..][i] == xs[i + 1];
          }
        }
      }
    }
  }

  lemma AddAssociative(a: Option<real>, b: Option<real>, c: Option<real>)
    ensures Add(Add(a, b), c) == Add(a, Add(b, c))
  {
  }

  lemma AddCommutative(a: Option<real>, b: Option<real>)
    ensures Add(a, b) == Add(b, a)
  {
  }

  /** SUM over two concatenated groups combines their sums. */
  lemma {:induction false} SumAppend(a: seq<Option<real>>, b: seq<Option<real>>)
    ensures Sum(a + b) == Add(Sum(a), Sum(b))
  {
    if a == [] {
      assert a + b == b;
    } else {
      assert (a + b)[1..] == a[1..] + b;
      SumAppend(a[1..], b);
      AddAssociative(a[0], Sum(a[1..]), Sum(b));
    }
  }

  /** Summing n copies of one value. */
  function Repeat(n: nat, x: Option<real>): (r: seq<Option<real>>)
    ensures |r| == n
    ensures forall i :: 0 <= i < n ==> r[i] == x
  {
    if n == 0 then [] else [x] + Repeat(n - 1, x)
  }

  lemma {:induction false} SumRepeat(n: nat, x: Option<real>)
    ensures n == 0 || x.None? ==> Sum(Repeat(n, x)) == None
    ensures n > 0 && x.Some? ==> Sum(Repeat(n, x)).Some? && Sum(Repeat(n, x)).value == n as real * x.value
  {
    if n > 0 {
      assert Repeat(n, x)[1..] == Repeat(n - 1, x);
      SumRepeat(n - 1, x);
      if x.Some? && n > 1 {
        var m: real := (n - 1) as real;
        assert n as real == m + 1.0;
        assert (m + 1.0) * x.value == x.value + m * x.value;
      }
    }
  }

  /** No value occurs twice. */
  predicate NoDuplicates<T(==)>(s: seq<T>) {
    forall i, j :: 0 <= i < j < |s| ==> s[i] != s[j]
  }

  /**
   * Duplicate elimination as GROUP BY and UNION perform it: every value
   * once, in order of first occurrence. NULL is one value like any other.
   */
  function Distinct<T(==,!new)>(s: seq<T>): (r: seq<T>)
    ensures forall x :: x in r <==> x in s
    ensures NoDuplicates(r)
    ensures |r| <= |s|
  {
    if s == [] then []
    else
      var d := Distinct(s[..|s| - 1]);
      assert forall x :: x in s <==> x in s[..|s| - 1] || x == s[|s| - 1];
      if s[|s| - 1] in d then d else d + [s[|s| - 1]]
  }
}
