/**
 The ledger of the prop-firm tracker: a flat sequence of rows, one per account
 per day, all accounts and all users interleaved in store order.

 Dates are day numbers and money is an exact `real`.
 */
module Ledgers {

  /** One row of the spreadsheet: the balance of one account as of one day. */
  datatype Row = Row(
    Date: int,
    Account: string,
    Firm: string,
    Initial: real,
    Target: real,
    Balance: real,
    User: string)

  type Ledger = seq<Row>

  /** The header row, in column order, that the store is rewritten with. */
  const Columns: seq<string> := ["Date", "Account", "Firm", "Initial", "Target", "Balance", "User"]

  /** The owner given to rows read from a store that has no User column. */
  const UnknownUser: string := "Inconnu"

  /** The row selections the dashboard and the mutations make. */
  datatype Criterion =
    | OwnedBy(user: string)
    | OfAccount(name: string)
    | NotOfAccount(name: string)

  predicate Matches(c: Criterion, r: Row) {
    match c
    case OwnedBy(u) => r.User == u
    case OfAccount(a) => r.Account == a
    case NotOfAccount(a) => r.Account != a
  }

  /** The rows of `l` that match `c`, in store order, each as often as in `l`. */
  function Filter(l: Ledger, c: Criterion): (r: Ledger)
    ensures |r| <= |l|
    ensures forall i :: 0 <= i < |r| ==> Matches(c, r[i])
    ensures forall x :: x in r <==> x in l && Matches(c, x)
    ensures forall x :: multiset(r)[x] == if Matches(c, x) then multiset(l)[x] else 0
  {
    if l == [] then []
    else
      var rest := Filter(l[1..], c);
      assert l == [l[0]] + l[1..];
      if Matches(c, l[0]) then [l[0]] + rest else rest
  }

  /** Filtering a concatenation filters each part: the order of the kept rows is the store order. */
  lemma {:induction false} FilterConcat(a: Ledger, b: Ledger, c: Criterion)
    ensures Filter(a + b, c) == Filter(a, c) + Filter(b, c)
  {
    if a == [] {
      assert a + b == b;
    } else {
      assert (a + b)[1..] == a[1..] + b;
      FilterConcat(a[1..], b, c);
    }
  }

  /** A ledger whose every row matches is its own filter. */
  lemma {:induction false} FilterAllMatch(l: Ledger, c: Criterion)
    requires forall i :: 0 <= i < |l| ==> Matches(c, l[i])
    ensures Filter(l, c) == l
  {
    if l != [] {
      FilterAllMatch(l[1..], c);
    }
  }

  /** Filtering twice by the same criterion is filtering once. */
  lemma FilterIdempotent(l: Ledger, c: Criterion)
    ensures Filter(Filter(l, c), c) == Filter(l, c)
  {
    FilterAllMatch(Filter(l, c), c);
  }

  /** True if some row of `l` belongs to account `a`. */
  predicate HasAccount(l: Ledger, a: string) {
    exists i :: 0 <= i < |l| && l[i].Account == a
  }

  /** Rows in non-decreasing date order. */
  predicate SortedByDate(l: Ledger) {
    forall i, j :: 0 <= i < j < |l| ==> l[i].Date <= l[j].Date
  }

  /** Two rows that agree on everything fixed when their account was created. */
  predicate SameAccountData(r: Row, s: Row) {
    r.Firm == s.Firm && r.Initial == s.Initial && r.Target == s.Target && r.User == s.User
  }

  /**
   The store invariant: an account name belongs to a single owner, and its
   firm, initial capital and target are repeated unchanged on every row.
   */
  predicate WellFormed(l: Ledger) {
    forall i, j :: 0 <= i < |l| && 0 <= j < |l| && l[i].Account == l[j].Account ==> SameAccountData(l[i], l[j])
  }

  /** Any selection of rows of a well-formed ledger is well formed. */
  lemma FilterPreservesWellFormed(l: Ledger, c: Criterion)
    requires WellFormed(l)
    ensures WellFormed(Filter(l, c))
  {
    var f := Filter(l, c);
    forall i, j | 0 <= i < |f| && 0 <= j < |f| && f[i].Account == f[j].Account
      ensures SameAccountData(f[i], f[j])
    {
      assert f[i] in l && f[j] in l;
      var p :| 0 <= p < |l| && l[p] == f[i];
      var q :| 0 <= q < |l| && l[q] == f[j];
    }
  }
}
