/**
 The "daily gains" history table of an account: each row of the date-ordered
 history with the change of balance since the previous row, shown newest first.
 */
module Gains {
  import opened Ledgers

  /** One line of the history table. */
  datatype GainRow = GainRow(Date: int, Balance: real, Gain: real)

  /**
   The first difference of the balances of a history: the earliest row gains 0,
   every later row gains its balance minus the previous row's balance.
   */
  function DailyGains(h: Ledger): (g: seq<GainRow>)
    ensures |g| == |h|
    ensures forall i :: 0 <= i < |g| ==> g[i].Date == h[i].Date && g[i].Balance == h[i].Balance
    ensures |g| > 0 ==> g[0].Gain == 0.0
    ensures forall i :: 0 < i < |g| ==> g[i].Gain == h[i].Balance - h[i - 1].Balance
  {
    seq(|h|, i requires 0 <= i < |h| => GainRow(h[i].Date, h[i].Balance, if i == 0 then 0.0 else h[i].Balance - h[i - 1].Balance))
  }

  /** The sum of the gains of a table. */
  function SumGains(g: seq<GainRow>): real {
    if g == [] then 0.0 else SumGains(g[..|g| - 1]) + g[|g| - 1].Gain
  }

  /** Adding up the gains from the start recovers every balance of the history. */
  lemma {:induction false} PrefixSums(h: Ledger, i: nat)
    requires i < |h|
    ensures h[0].Balance + SumGains(DailyGains(h)[..i + 1]) == h[i].Balance
  {
    var g := DailyGains(h);
    var p := g[..i + 1];
    assert p[..i] == g[..i];
    if i == 0 {
      assert p[..0] == [];
    } else {
      PrefixSums(h, i - 1);
      assert g[..i] == g[..i - 1 + 1];
    }
  }

  /** The gains of a non-empty history add up to its last balance minus its first. */
  lemma GainsTelescope(h: Ledger)
    requires h != []
    ensures SumGains(DailyGains(h)) == h[|h| - 1].Balance - h[0].Balance
  {
    var g := DailyGains(h);
    PrefixSums(h, |h| - 1);
    assert g[..|h|] == g;
  }

  function Reverse<T>(s: seq<T>): (r: seq<T>)
    ensures |r| == |s|
    ensures forall i :: 0 <= i < |s| ==> r[i] == s[|s| - 1 - i]
  {
    if s == [] then [] else Reverse(s[1..]) + [s[0]]
  }

  /** The displayed table: the gains of the history, newest first. */
  function HistoryTable(h: Ledger): (t: seq<GainRow>)
    ensures |t| == |h|
    ensures SortedByDate(h) ==> forall i, j :: 0 <= i < j < |t| ==> t[i].Date >= t[j].Date
    ensures forall i :: 0 <= i < |t| ==> t[i] == DailyGains(h)[|h| - 1 - i]
  {
    var g := DailyGains(h);
    var t := Reverse(g);
    ReversedDatesDescend(h, g, t);
    t
  }

  /** Reversing a table whose dates follow a date-ordered history gives non-increasing dates. */
  lemma ReversedDatesDescend(h: Ledger, g: seq<GainRow>, t: seq<GainRow>)
    requires |g| == |h| == |t|
    requires forall i :: 0 <= i < |g| ==> g[i].Date == h[i].Date
    requires forall i :: 0 <= i < |t| ==> t[i] == g[|g| - 1 - i]
    ensures SortedByDate(h) ==> forall i, j :: 0 <= i < j < |t| ==> t[i].Date >= t[j].Date
  {
    forall i, j | SortedByDate(h) && 0 <= i < j < |t|
      ensures t[i].Date >= t[j].Date
    {
      assert t[i].Date == h[|h| - 1 - i].Date;
      assert t[j].Date == h[|h| - 1 - j].Date;
    }
  }

  /** The first line of the table is the latest row of the history, with its gain over the row before. */
  lemma HistoryTableTop(h: Ledger)
    requires |h| >= 2
    ensures HistoryTable(h)[0].Date == h[|h| - 1].Date
    ensures HistoryTable(h)[0].Gain == h[|h| - 1].Balance - h[|h| - 2].Balance
    ensures HistoryTable(h)[|h| - 1].Gain == 0.0
  {
  }
}
