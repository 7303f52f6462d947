/** Trade records as the two tools read them from one per-stock CSV file:
    price, volume in shares, side code, deal time and trading day. */
module Trades {

  datatype Option<T> = None | Some(value: T)

  /** The columns the tools look up by name (after stripping blanks). */
  datatype Column = Price | Volume | Side | DealTime | TradingDay

  /** One row of a trade file; `volume` is in shares, as the file stores it.
      A field is meaningful only when its column is present in the sheet. */
  datatype Record = Record(price: int, volume: int, side: int, dealTime: int, tradingDay: int)

  /** A parsed CSV file: the column names it has and its rows, in file order. */
  datatype Sheet = Sheet(columns: set<Column>, rows: seq<Record>)

  /** What reading a file yields: a sheet, or a read that raises. */
  datatype Content = Unreadable | Readable(sheet: Sheet)

  /** A file of the data directory: its base name and its contents. */
  datatype File = File(name: string, content: Content)

  /** The meaning of a side code: 1 is an active buy, -1 and -11 are active
      sells, every other code is neither. */
  datatype Direction = ActiveBuy | ActiveSell | Unknown

  function DirectionOf(side: int): (d: Direction)
    ensures d == ActiveBuy <==> side == 1
    ensures d == ActiveSell <==> side in {-1, -11}
    ensures d == Unknown <==> side !in {1, -1, -11}
  {
    if side == 1 then ActiveBuy
    else if side == -1 || side == -11 then ActiveSell
    else Unknown
  }

  /** One lot is 100 shares; the tools divide the share count by 100. */
  function Lots(shares: int): real
  {
    shares as real / 100.0
  }

  /** Comparing lots with a whole number of lots is comparing shares with a
      hundred times that number, so the model can keep integer shares. */
  lemma LotsAtLeast(shares: int, t: int)
    ensures Lots(shares) >= t as real <==> shares >= 100 * t
  {
  }

  /** Lots order stocks exactly as shares do. */
  lemma LotsOrder(x: int, y: int)
    ensures Lots(x) > Lots(y) <==> x > y
    ensures Lots(x) == Lots(y) <==> x == y
  {
  }

  /** Total volume of some rows, in shares (`df['Volume'].sum()`). */
  function TotalVolume(rows: seq<Record>): int
  {
    if rows == [] then 0 else TotalVolume(rows[..|rows| - 1]) + rows[|rows| - 1].volume
  }

  /** The summed lots are the summed shares divided by 100. */
  lemma {:induction false} LotsOfTotal(rows: seq<Record>)
    ensures Lots(TotalVolume(rows)) == SumLots(rows)
  {
    if rows != [] {
      LotsOfTotal(rows[..|rows| - 1]);
    }
  }

  /** `df['Volume_Hand'].sum()`: the per-row lots added up. */
  function SumLots(rows: seq<Record>): real
  {
    if rows == [] then 0.0 else SumLots(rows[..|rows| - 1]) + Lots(rows[|rows| - 1].volume)
  }

  /** The rows that satisfy `keep`, in their original order (`df[mask]`). */
  function Select(rows: seq<Record>, keep: Record -> bool): (r: seq<Record>)
    ensures |r| <= |rows|
    ensures forall i :: 0 <= i < |r| ==> keep(r[i])
    ensures forall i :: 0 <= i < |rows| && keep(rows[i]) ==> rows[i] in r
    ensures forall x :: x in r ==> x in rows
  {
    if rows == [] then []
    else
      var prev := Select(rows[..|rows| - 1], keep);
      var x := rows[|rows| - 1];
      if keep(x) then prev + [x] else prev
  }

  /** The selection holds each matching row as often as the frame does, and
      nothing else, so `len(df[mask])` counts the matching rows. */
  lemma {:induction false} SelectMultiset(rows: seq<Record>, keep: Record -> bool)
    ensures multiset(Select(rows, keep)) <= multiset(rows)
    ensures forall x :: keep(x) ==> multiset(Select(rows, keep))[x] == multiset(rows)[x]
  {
    if rows != [] {
      var init, y := rows[..|rows| - 1], rows[|rows| - 1];
      assert rows == init + [y];
      SelectMultiset(init, keep);
    }
  }

  ghost predicate NonNegativeVolumes(rows: seq<Record>)
  {
    forall i :: 0 <= i < |rows| ==> rows[i].volume >= 0
  }

  /** Two selections by predicates that never hold together add up to at
      most the whole when no volume is negative. */
  lemma {:induction false} DisjointSelectVolume(rows: seq<Record>, p: Record -> bool, q: Record -> bool)
    requires NonNegativeVolumes(rows)
    requires forall x :: !(p(x) && q(x))
    ensures TotalVolume(Select(rows, p)) + TotalVolume(Select(rows, q)) <= TotalVolume(rows)
  {
    if rows != [] {
      var init := rows[..|rows| - 1];
      var x := rows[|rows| - 1];
      DisjointSelectVolume(init, p, q);
      AppendVolume(Select(init, p), x);
      AppendVolume(Select(init, q), x);
    }
  }

  /** A selection whose every row has at least `m` shares has at least
      `m` shares per selected row. */
  lemma {:induction false} VolumeAtLeast(rows: seq<Record>, m: int)
    requires forall i :: 0 <= i < |rows| ==> rows[i].volume >= m
    ensures TotalVolume(rows) >= m * |rows|
  {
    if rows != [] {
      VolumeAtLeast(rows[..|rows| - 1], m);
      assert m * |rows| == m * (|rows| - 1) + m;
    }
  }

  /** A selection from rows without negative volume has a non-negative total. */
  lemma {:induction false} SelectVolumeNonNegative(rows: seq<Record>, keep: Record -> bool)
    requires NonNegativeVolumes(rows)
    ensures TotalVolume(Select(rows, keep)) >= 0
  {
    if rows != [] {
      var init := rows[..|rows| - 1];
      SelectVolumeNonNegative(init, keep);
      AppendVolume(Select(init, keep), rows[|rows| - 1]);
    }
  }

  lemma AppendVolume(rows: seq<Record>, x: Record)
    ensures TotalVolume(rows + [x]) == TotalVolume(rows) + x.volume
  {
    assert (rows + [x])[..|rows|] == rows;
  }
}
