/**
 The three operations that change the store: creating an account, appending a
 daily entry, and deleting an account by rewriting the whole store.

 The current user, the form values and today's date are plain parameters.
 */
module Mutations {
  import opened Wrappers
  import opened Ledgers
  import opened Loader
  import opened Accounts

  datatype LedgerError =
    | DuplicateAccount(name: string)
    | NoSuchAccount(name: string)

  /** The ledger after an operation, and the reason it was refused, if it was. */
  datatype Outcome = Outcome(ledger: Ledger, error: Option<LedgerError>)

  /** The seed row of a new account: dated today, with the initial capital as balance. */
  function SeedRow(today: int, name: string, firm: string, initial: real, target: real, user: string): Row {
    Row(today, name, firm, initial, target, initial, user)
  }

  /**
   Creates an account. A name already used by any row, whoever owns it, is
   refused and nothing is written; otherwise exactly one seed row is appended.
   */
  function CreateAccount(l: Ledger, name: string, firm: string, initial: real, target: real,
                         user: string, today: int): (o: Outcome)
    ensures o.error.Some? <==> HasAccount(l, name)
    ensures o.error.Some? ==> o.error.value == DuplicateAccount(name) && o.ledger == l
    ensures o.error.None? ==> |o.ledger| == |l| + 1 && o.ledger[..|l|] == l
    ensures o.error.None? ==>
      var seed := o.ledger[|l|];
      && seed.Date == today && seed.Account == name && seed.Firm == firm
      && seed.Initial == initial && seed.Target == target
      && seed.Balance == initial && seed.User == user
  {
    if l != [] && HasAccount(l, name) then Outcome(l, Some(DuplicateAccount(name)))
    else Outcome(l + [SeedRow(today, name, firm, initial, target, user)], None)
  }

  /**
   Appends a daily entry to account `acc`: the new balance is the snapshot's
   balance plus the day's gain or loss, and the firm, initial capital and target
   are carried forward from the snapshot. An account with no row has no
   snapshot and nothing is written.
   */
  function AppendDaily(l: Ledger, acc: string, date: int, delta: real, user: string): (o: Outcome)
    ensures o.error.Some? <==> !HasAccount(l, acc)
    ensures o.error.Some? ==> o.error.value == NoSuchAccount(acc) && o.ledger == l
    ensures o.error.None? ==> |o.ledger| == |l| + 1 && o.ledger[..|l|] == l
    ensures o.error.None? ==>
      var snap := Snapshot(l, acc).value;
      var entry := o.ledger[|l|];
      && entry.Date == date && entry.Account == acc && entry.User == user
      && entry.Balance == snap.Balance + delta
      && entry.Firm == snap.Firm && entry.Initial == snap.Initial && entry.Target == snap.Target
  {
    match Snapshot(l, acc)
    case None => Outcome(l, Some(NoSuchAccount(acc)))
    case Some(snap) =>
      Outcome(l + [Row(date, acc, snap.Firm, snap.Initial, snap.Target, snap.Balance + delta, user)], None)
  }

  /**
   Deletes account `acc`: the store is rewritten as the header followed by every
   row of another account, in store order.
   */
  function DeleteAccount(l: Ledger, acc: string): (s: Sheet)
    ensures s.header == Columns
    ensures |s.records| <= |l|
    ensures forall i :: 0 <= i < |s.records| ==> s.records[i].Account != acc
  {
    Save(Filter(l, NotOfAccount(acc)))
  }

  /** Reloading after a delete gives exactly the rows of the other accounts, in their original order. */
  lemma DeleteReload(l: Ledger, acc: string)
    ensures Load(DeleteAccount(l, acc)) == Filter(l, NotOfAccount(acc))
  {
    LoadSave(Filter(l, NotOfAccount(acc)));
  }

  /** After a delete, no row of the deleted account remains and every row of another account is kept, as often as before. */
  lemma DeleteRemovesOnlyThatAccount(l: Ledger, acc: string)
    ensures !HasAccount(Load(DeleteAccount(l, acc)), acc)
    ensures forall r: Row :: r.Account != acc ==> multiset(Load(DeleteAccount(l, acc)))[r] == multiset(l)[r]
  {
    DeleteReload(l, acc);
  }

  /** Deleting the same account a second time rewrites the same store. */
  lemma DeleteIdempotent(l: Ledger, acc: string)
    ensures DeleteAccount(Load(DeleteAccount(l, acc)), acc) == DeleteAccount(l, acc)
  {
    DeleteReload(l, acc);
    FilterIdempotent(l, NotOfAccount(acc));
  }

  /** Deleting an account keeps the store invariant. */
  lemma DeletePreservesWellFormed(l: Ledger, acc: string)
    requires WellFormed(l)
    ensures WellFormed(Load(DeleteAccount(l, acc)))
  {
    DeleteReload(l, acc);
    FilterPreservesWellFormed(l, NotOfAccount(acc));
  }

  /** Appending a row that agrees with every row of its account keeps the store invariant. */
  lemma WellFormedSnoc(l: Ledger, e: Row)
    requires WellFormed(l)
    requires forall i :: 0 <= i < |l| && l[i].Account == e.Account ==> SameAccountData(l[i], e)
    ensures WellFormed(l + [e])
  {
  }

  /** Creating an account keeps the store invariant: the new name is fresh. */
  lemma CreatePreservesWellFormed(l: Ledger, name: string, firm: string, initial: real, target: real,
                                  user: string, today: int)
    requires WellFormed(l)
    ensures WellFormed(CreateAccount(l, name, firm, initial, target, user, today).ledger)
  {
    if !HasAccount(l, name) {
      var e := SeedRow(today, name, firm, initial, target, user);
      assert forall i :: 0 <= i < |l| ==> l[i].Account != name;
      WellFormedSnoc(l, e);
    }
  }

  /** A freshly created account has its seed row as snapshot and is listed among its creator's accounts. */
  lemma CreateThenSnapshot(l: Ledger, name: string, firm: string, initial: real, target: real,
                           user: string, today: int)
    requires !HasAccount(l, name)
    ensures var l' := CreateAccount(l, name, firm, initial, target, user, today).ledger;
      && Snapshot(l', name) == Some(SeedRow(today, name, firm, initial, target, user))
      && name in AccountNames(UserView(l', user))
  {
    var l' := CreateAccount(l, name, firm, initial, target, user, today).ledger;
    var seed := SeedRow(today, name, firm, initial, target, user);
    assert l'[|l|] == seed;
    assert forall r :: r in l' && r.Account == name ==> r == seed by {
      forall r | r in l' && r.Account == name
        ensures r == seed
      {
        var i :| 0 <= i < |l'| && l'[i] == r;
        if i < |l| {
          assert l[i].Account == name;
        }
      }
    }
    var v := UserView(l', user);
    assert seed in v;
    var k :| 0 <= k < |v| && v[k] == seed;
    assert HasAccount(v, name);
  }

  /**
   Appending an entry keeps the store invariant when the current user owns the
   account. The dashboard only offers such accounts (see `UserAccounts`).
   */
  lemma AppendPreservesWellFormed(l: Ledger, acc: string, date: int, delta: real, user: string)
    requires WellFormed(l)
    requires Owns(l, user, acc)
    ensures WellFormed(AppendDaily(l, acc, date, delta, user).ledger)
  {
    var p :| 0 <= p < |l| && l[p].Account == acc && l[p].User == user;
    assert HasAccount(l, acc);
    var q := SnapshotIndex(l, acc);
    var e := AppendedRow(l, acc, date, delta, user);
    AgreesWithAccount(l, p, q, e);
    WellFormedSnoc(l, e);
  }

  /** A successful append adds one row, carrying the snapshot's account data. */
  lemma AppendedRow(l: Ledger, acc: string, date: int, delta: real, user: string) returns (e: Row)
    requires HasAccount(l, acc)
    ensures AppendDaily(l, acc, date, delta, user).ledger == l + [e]
    ensures var snap := Snapshot(l, acc).value;
      && e.Date == date && e.Account == acc && e.User == user
      && e.Balance == snap.Balance + delta
      && e.Firm == snap.Firm && e.Initial == snap.Initial && e.Target == snap.Target
  {
    var l' := AppendDaily(l, acc, date, delta, user).ledger;
    e := l'[|l|];
    assert l' == l + [e];
  }

  /** The position in the ledger of an account's snapshot. */
  lemma SnapshotIndex(l: Ledger, acc: string) returns (q: nat)
    requires HasAccount(l, acc)
    ensures q < |l| && l[q] == Snapshot(l, acc).value
  {
    var snap := Snapshot(l, acc).value;
    q :| 0 <= q < |l| && l[q] == snap;
  }

  /** A row carrying the account data of row `q` agrees with every row of that account in a well-formed ledger. */
  lemma AgreesWithAccount(l: Ledger, p: nat, q: nat, e: Row)
    requires WellFormed(l)
    requires p < |l| && q < |l| && l[p].Account == l[q].Account == e.Account
    requires e.Firm == l[q].Firm && e.Initial == l[q].Initial && e.Target == l[q].Target
    requires e.User == l[p].User
    ensures forall i :: 0 <= i < |l| && l[i].Account == e.Account ==> SameAccountData(l[i], e)
  {
    assert SameAccountData(l[p], l[q]);
    forall i | 0 <= i < |l| && l[i].Account == e.Account
      ensures SameAccountData(l[i], e)
    {
      assert SameAccountData(l[i], l[q]);
    }
  }

  /** A row of an account dated strictly after every other row of that account is its snapshot. */
  lemma LatestRowIsSnapshot(l: Ledger, acc: string, k: nat)
    requires k < |l| && l[k].Account == acc
    requires forall i :: 0 <= i < |l| && i != k && l[i].Account == acc ==> l[i].Date < l[k].Date
    ensures Snapshot(l, acc) == Some(l[k])
  {
    assert HasAccount(l, acc);
    var s := Snapshot(l, acc).value;
    assert l[k] in l;
    var j :| 0 <= j < |l| && l[j] == s;
    assert j == k;
  }

  /** An entry dated after every existing row of the account becomes its new snapshot. */
  lemma AppendLaterBecomesSnapshot(l: Ledger, acc: string, date: int, delta: real, user: string)
    requires HasAccount(l, acc)
    requires forall i :: 0 <= i < |l| && l[i].Account == acc ==> l[i].Date < date
    ensures var l' := AppendDaily(l, acc, date, delta, user).ledger;
      && Snapshot(l', acc).Some?
      && Snapshot(l', acc).value == l'[|l|]
      && Snapshot(l', acc).value.Balance == Snapshot(l, acc).value.Balance + delta
  {
    var e := AppendedRow(l, acc, date, delta, user);
    LatestRowIsSnapshot(l + [e], acc, |l|);
  }
}
