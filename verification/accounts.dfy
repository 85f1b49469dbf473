/**
 Deriving per-user and per-account views from the flat ledger: the rows of the
 selected user, the distinct account names they hold, an account's date-ordered
 history and its current snapshot.
 */
module Accounts {
  import opened Wrappers
  import opened Ledgers

  /** The rows owned by `user`, in store order. */
  function UserView(l: Ledger, user: string): (v: Ledger)
    ensures forall i :: 0 <= i < |v| ==> v[i].User == user
    ensures forall r :: r in v <==> r in l && r.User == user
    ensures forall r :: multiset(v)[r] == if r.User == user then multiset(l)[r] else 0
  {
    Filter(l, OwnedBy(user))
  }

  predicate NoDuplicates(s: seq<string>) {
    forall i, j :: 0 <= i < j < |s| ==> s[i] != s[j]
  }

  /** The position of the first row of account `a`. */
  function FirstIndex(l: Ledger, a: string): (k: nat)
    requires HasAccount(l, a)
    ensures k < |l| && l[k].Account == a
    ensures forall i :: 0 <= i < k ==> l[i].Account != a
  {
    if l[0].Account == a then 0
    else
      assert HasAccount(l[1..], a) by {
        var i :| 0 <= i < |l| && l[i].Account == a;
        assert l[1..][i - 1].Account == a;
      }
      1 + FirstIndex(l[1..], a)
  }

  /** An account already seen before the last row keeps its first position when that row is added. */
  lemma FirstIndexPrefix(l: Ledger, a: string)
    requires l != [] && HasAccount(l[..|l| - 1], a)
    ensures HasAccount(l, a)
    ensures FirstIndex(l, a) == FirstIndex(l[..|l| - 1], a)
  {
    var init := l[..|l| - 1];
    var k := FirstIndex(init, a);
    assert l[k].Account == a;
    assert forall i :: 0 <= i < k ==> l[i] == init[i];
    FirstIndexUnique(l, a, k);
  }

  /** The first row of an account is the one with that account and none before it. */
  lemma FirstIndexUnique(l: Ledger, a: string, k: nat)
    requires k < |l| && l[k].Account == a
    requires forall i :: 0 <= i < k ==> l[i].Account != a
    ensures HasAccount(l, a) && FirstIndex(l, a) == k
  {
  }

  /** A ledger's accounts are those of all but its last row, plus the last row's account. */
  lemma HasAccountSnoc(l: Ledger, a: string)
    requires l != []
    ensures HasAccount(l, a) <==> HasAccount(l[..|l| - 1], a) || l[|l| - 1].Account == a
  {
    var init := l[..|l| - 1];
    if HasAccount(l, a) && l[|l| - 1].Account != a {
      var i :| 0 <= i < |l| && l[i].Account == a;
      assert init[i].Account == a;
    }
    if HasAccount(init, a) {
      var i :| 0 <= i < |init| && init[i].Account == a;
      assert l[i].Account == a;
    }
  }

  /** Names in first-seen order of the rows of `v`. */
  predicate FirstSeenOrder(v: Ledger, names: seq<string>)
    requires forall a :: a in names ==> HasAccount(v, a)
  {
    forall j, k :: 0 <= j < k < |names| ==> FirstIndex(v, names[j]) < FirstIndex(v, names[k])
  }

  /** Adding a row to a view adds at most its own account name. */
  lemma NamesSnocMembers(v: Ledger, prev: seq<string>)
    requires v != []
    requires forall a :: a in prev <==> HasAccount(v[..|v| - 1], a)
    ensures var a := v[|v| - 1].Account;
      forall x :: x in (if a in prev then prev else prev + [a]) <==> HasAccount(v, x)
  {
    forall x
      ensures HasAccount(v, x) <==> HasAccount(v[..|v| - 1], x) || x == v[|v| - 1].Account
    {
      HasAccountSnoc(v, x);
    }
  }

  /** A name added for the last row comes after every name seen before it. */
  lemma NamesSnocOrder(v: Ledger, prev: seq<string>)
    requires v != []
    requires forall a :: a in prev ==> HasAccount(v[..|v| - 1], a)
    requires FirstSeenOrder(v[..|v| - 1], prev)
    ensures forall x :: x in prev ==> HasAccount(v, x)
    ensures forall j, k :: 0 <= j < k < |prev| ==> FirstIndex(v, prev[j]) < FirstIndex(v, prev[k])
    ensures v[|v| - 1].Account !in prev ==>
      forall j :: 0 <= j < |prev| ==> FirstIndex(v, prev[j]) < |v| - 1
  {
    var init := v[..|v| - 1];
    forall x | x in prev
      ensures HasAccount(v, x) && FirstIndex(v, x) == FirstIndex(init, x)
    {
      FirstIndexPrefix(v, x);
    }
  }

  /**
   The distinct account names of a view, in first-seen order: no name twice,
   exactly the names that occur, and ordered by the position of each name's first row.
   */
  function AccountNames(v: Ledger): (names: seq<string>)
    ensures NoDuplicates(names)
    ensures forall a :: a in names <==> HasAccount(v, a)
    ensures FirstSeenOrder(v, names)
  {
    if v == [] then []
    else
      var prev := AccountNames(v[..|v| - 1]);
      var a := v[|v| - 1].Account;
      NamesSnocMembers(v, prev);
      NamesSnocOrder(v, prev);
      if a in prev then prev
      else
        FirstIndexUnique(v, a, |v| - 1);
        prev + [a]
  }

  /** True if some row of account `a` is owned by `user`. */
  predicate Owns(l: Ledger, user: string, a: string) {
    exists i :: 0 <= i < |l| && l[i].Account == a && l[i].User == user
  }

  /** The accounts listed for a user are exactly those with at least one row owned by that user. */
  lemma UserAccounts(l: Ledger, user: string, a: string)
    ensures a in AccountNames(UserView(l, user)) <==> Owns(l, user, a)
  {
    var v := UserView(l, user);
    if a in AccountNames(v) {
      var k :| 0 <= k < |v| && v[k].Account == a;
      assert v[k] in l;
    }
    if Owns(l, user, a) {
      var i :| 0 <= i < |l| && l[i].Account == a && l[i].User == user;
      assert l[i] in v;
    }
  }

  /** Every row of `s` is dated `d` or later. */
  predicate DatedFrom(d: int, s: Ledger) {
    forall i :: 0 <= i < |s| ==> d <= s[i].Date
  }

  /** A permutation of rows dated `d` or later, plus one more such row, is dated `d` or later. */
  lemma DatedFromPermutation(d: int, r: Row, s: Ledger, t: Ledger)
    requires DatedFrom(d, s) && d <= r.Date
    requires multiset(t) == multiset(s) + multiset{r}
    ensures DatedFrom(d, t)
  {
    forall i | 0 <= i < |t|
      ensures d <= t[i].Date
    {
      assert t[i] in multiset(t);
      if t[i] != r {
        assert t[i] in multiset(s);
      }
    }
  }

  /** Prefixing a row that is no later than any row of a date-ordered ledger keeps it date-ordered. */
  lemma SortedCons(x: Row, s: Ledger)
    requires SortedByDate(s) && DatedFrom(x.Date, s)
    ensures SortedByDate([x] + s)
  {
  }

  /** Insertion of one row into a date-ordered ledger. */
  function Insert(r: Row, s: Ledger): (t: Ledger)
    requires SortedByDate(s)
    ensures multiset(t) == multiset(s) + multiset{r}
    ensures SortedByDate(t)
  {
    if s == [] || r.Date <= s[0].Date then
      SortedCons(r, s);
      [r] + s
    else
      var rest := Insert(r, s[1..]);
      assert s == [s[0]] + s[1..];
      DatedFromPermutation(s[0].Date, r, s[1..], rest);
      SortedCons(s[0], rest);
      [s[0]] + rest
  }

  /** A date-ordered permutation of `s`. */
  function SortByDate(s: Ledger): (t: Ledger)
    ensures SortedByDate(t)
    ensures multiset(t) == multiset(s)
  {
    if s == [] then []
    else
      assert s == [s[0]] + s[1..];
      Insert(s[0], SortByDate(s[1..]))
  }

  /** Two sequences with the same multiset have the same members. */
  lemma SameMembers(a: Ledger, b: Ledger)
    requires multiset(a) == multiset(b)
    ensures forall r :: r in a <==> r in b
  {
    forall r
      ensures r in a <==> r in b
    {
      assert r in a <==> r in multiset(a);
      assert r in b <==> r in multiset(b);
    }
  }

  /** A permutation of an account's rows holds exactly the rows of that account. */
  lemma AccountRowsMembers(l: Ledger, acc: string, h: Ledger)
    requires multiset(h) == multiset(Filter(l, OfAccount(acc)))
    ensures forall r :: r in h <==> r in l && r.Account == acc
  {
    SameMembers(h, Filter(l, OfAccount(acc)));
  }

  /**
   The history of account `acc`: its rows, each as often as in the ledger and
   no others, in non-decreasing date order. Which of two same-day rows comes
   first is not promised.
   */
  function History(l: Ledger, acc: string): (h: Ledger)
    ensures SortedByDate(h)
    ensures multiset(h) == multiset(Filter(l, OfAccount(acc)))
    ensures forall r :: r in h <==> r in l && r.Account == acc
  {
    var h := SortByDate(Filter(l, OfAccount(acc)));
    AccountRowsMembers(l, acc, h);
    h
  }

  /** An account has a history exactly when it has a row. */
  lemma HistoryNonEmpty(l: Ledger, acc: string)
    ensures History(l, acc) != [] <==> HasAccount(l, acc)
  {
    var h := History(l, acc);
    if HasAccount(l, acc) {
      var i :| 0 <= i < |l| && l[i].Account == acc;
      assert l[i] in h;
    }
    if h != [] {
      assert h[0] in h;
      var j :| 0 <= j < |l| && l[j] == h[0];
    }
  }

  /** The last row of a date-ordered ledger is dated no earlier than any of its rows. */
  lemma SortedLastIsLatest(h: Ledger)
    requires h != [] && SortedByDate(h)
    ensures forall r :: r in h ==> r.Date <= h[|h| - 1].Date
  {
    forall r | r in h
      ensures r.Date <= h[|h| - 1].Date
    {
      var i :| 0 <= i < |h| && h[i] == r;
    }
  }

  /**
   The current snapshot of account `acc`: the last row of its history. There is
   none exactly when the account has no row; otherwise it is a row of that
   account whose date is at least that of every row of the account.
   */
  function Snapshot(l: Ledger, acc: string): (s: Option<Row>)
    ensures s.None? <==> !HasAccount(l, acc)
    ensures s.Some? ==> s.value in l && s.value.Account == acc
    ensures s.Some? ==> forall r :: r in l && r.Account == acc ==> r.Date <= s.value.Date
  {
    var h := History(l, acc);
    HistoryNonEmpty(l, acc);
    if h == [] then None
    else
      SortedLastIsLatest(h);
      assert h[|h| - 1] in h;
      Some(h[|h| - 1])
  }
}
