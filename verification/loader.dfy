/**
 Reading the store into a ledger, and writing a ledger back as the store.

 The store is a header row followed by records. A record carries the cells of
 one row; its `User` cell is read only when the header names a User column,
 since a store written before that column existed has no such cell.
 */
module Loader {
  import opened Ledgers

  /** The cells of one stored row, with the date already parsed to a day number. */
  datatype Record = Record(
    Date: int,
    Account: string,
    Firm: string,
    Initial: real,
    Target: real,
    Balance: real,
    User: string)

  /** The whole store: its header row and the records below it. */
  datatype Sheet = Sheet(header: seq<string>, records: seq<Record>)

  predicate HasUserColumn(s: Sheet) {
    "User" in s.header
  }

  /** The owner of a loaded record: its User cell, or the placeholder owner when the store has no such column. */
  function Owner(s: Sheet, rec: Record): (u: string)
    ensures HasUserColumn(s) ==> u == rec.User
    ensures !HasUserColumn(s) ==> u == UnknownUser
  {
    if HasUserColumn(s) then rec.User else UnknownUser
  }

  function ToRow(s: Sheet, rec: Record): Row {
    Row(rec.Date, rec.Account, rec.Firm, rec.Initial, rec.Target, rec.Balance, Owner(s, rec))
  }

  function ToRecord(r: Row): Record {
    Record(r.Date, r.Account, r.Firm, r.Initial, r.Target, r.Balance, r.User)
  }

  /**
   Loads the store. An empty store gives an empty ledger; otherwise each record
   becomes one row, in store order, with every cell kept, and the owner filled
   in as "Inconnu" when the store has no User column.
   */
  function Load(s: Sheet): (l: Ledger)
    ensures |l| == |s.records|
    ensures s.records == [] ==> l == []
    ensures forall i :: 0 <= i < |l| ==>
      var rec := s.records[i];
      && l[i].Date == rec.Date && l[i].Account == rec.Account && l[i].Firm == rec.Firm
      && l[i].Initial == rec.Initial && l[i].Target == rec.Target && l[i].Balance == rec.Balance
    ensures HasUserColumn(s) ==> forall i :: 0 <= i < |l| ==> l[i].User == s.records[i].User
    ensures !HasUserColumn(s) ==> forall i :: 0 <= i < |l| ==> l[i].User == UnknownUser
  {
    if |s.records| == 0 then []
    else seq(|s.records|, i requires 0 <= i < |s.records| => ToRow(s, s.records[i]))
  }

  /** The store rewritten from a ledger: the full header, then one record per row. */
  function Save(l: Ledger): (s: Sheet)
    ensures s.header == Columns && HasUserColumn(s)
    ensures |s.records| == |l|
  {
    assert Columns[6] == "User";
    Sheet(Columns, seq(|l|, i requires 0 <= i < |l| => ToRecord(l[i])))
  }

  /** Saving a ledger and loading it back gives the same ledger. */
  lemma LoadSave(l: Ledger)
    ensures Load(Save(l)) == l
  {
    var s := Save(l);
    var m := Load(s);
    assert forall i :: 0 <= i < |l| ==> m[i] == l[i];
  }

  /**
   Appending one record to a store headed by the full column list appends
   exactly that row to the loaded ledger. The cells of an appended row are
   written by position, so they land under the right names only under this header.
   */
  lemma LoadAppend(s: Sheet, r: Row)
    requires s.header == Columns
    ensures Load(Sheet(s.header, s.records + [ToRecord(r)])) == Load(s) + [r]
  {
    assert Columns[6] == "User";
    var s' := Sheet(s.header, s.records + [ToRecord(r)]);
    var m := Load(s');
    var want := Load(s) + [r];
    assert |m| == |want|;
    forall i | 0 <= i < |m|
      ensures m[i] == want[i]
    {
      if i < |s.records| {
        assert s'.records[i] == s.records[i];
      }
    }
  }
}
