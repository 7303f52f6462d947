/** Big-trade detection for one stock: which records are big buys and big
    sells under whole-lot thresholds, and the per-stock summary the analyzer
    keeps (counts, sums and the total traded volume). */
module Detection {
  import opened Trades

  /** A big buy: side code 1 and at least `threshold` lots (inclusive). */
  predicate IsBigBuy(r: Record, threshold: int)
  {
    DirectionOf(r.side) == ActiveBuy && r.volume >= 100 * threshold
  }

  /** A big sell: side code -1 or -11 and at least `threshold` lots. */
  predicate IsBigSell(r: Record, threshold: int)
  {
    DirectionOf(r.side) == ActiveSell && r.volume >= 100 * threshold
  }

  /** The record tests, stated on lots as the analyzer computes them. */
  lemma BigTradeTests(r: Record, buyThreshold: int, sellThreshold: int)
    ensures IsBigBuy(r, buyThreshold) <==> r.side == 1 && Lots(r.volume) >= buyThreshold as real
    ensures IsBigSell(r, sellThreshold) <==> (r.side == -1 || r.side == -11) && Lots(r.volume) >= sellThreshold as real
    ensures !(IsBigBuy(r, buyThreshold) && IsBigSell(r, sellThreshold))
    ensures r.side !in {1, -1, -11} ==> !IsBigBuy(r, buyThreshold) && !IsBigSell(r, sellThreshold)
  {
    LotsAtLeast(r.volume, buyThreshold);
    LotsAtLeast(r.volume, sellThreshold);
  }

  function BigBuys(rows: seq<Record>, threshold: int): seq<Record>
  {
    Select(rows, r => IsBigBuy(r, threshold))
  }

  function BigSells(rows: seq<Record>, threshold: int): seq<Record>
  {
    Select(rows, r => IsBigSell(r, threshold))
  }

  /** One row of a market's result table; volumes are in shares (the table
      shows them divided by 100). */
  datatype Summary = Summary(
    code: string,
    buyCount: nat,
    buyVolume: int,
    sellCount: nat,
    sellVolume: int,
    totalVolume: int)

  function Summarize(code: string, rows: seq<Record>, buyThreshold: int, sellThreshold: int): Summary
  {
    var buys := BigBuys(rows, buyThreshold);
    var sells := BigSells(rows, sellThreshold);
    Summary(code, |buys|, TotalVolume(buys), |sells|, TotalVolume(sells), TotalVolume(rows))
  }

  /** A stock is reported when it has at least one big buy or big sell. */
  predicate Qualifies(s: Summary)
  {
    s.buyCount > 0 || s.sellCount > 0
  }

  /** What the summary's numbers mean in terms of the records. */
  lemma {:induction false} SummaryCounts(code: string, rows: seq<Record>, buyThreshold: int, sellThreshold: int)
    ensures var s := Summarize(code, rows, buyThreshold, sellThreshold);
      && s.code == code
      && s.buyCount <= |rows| && s.sellCount <= |rows|
      && (s.buyCount > 0 <==> exists i :: 0 <= i < |rows| && IsBigBuy(rows[i], buyThreshold))
      && (s.sellCount > 0 <==> exists i :: 0 <= i < |rows| && IsBigSell(rows[i], sellThreshold))
      && s.buyVolume >= 100 * buyThreshold * s.buyCount
      && s.sellVolume >= 100 * sellThreshold * s.sellCount
  {
    var buys := BigBuys(rows, buyThreshold);
    var sells := BigSells(rows, sellThreshold);
    if exists i :: 0 <= i < |rows| && IsBigBuy(rows[i], buyThreshold) {
      var i :| 0 <= i < |rows| && IsBigBuy(rows[i], buyThreshold);
      assert rows[i] in buys;
    }
    if exists i :: 0 <= i < |rows| && IsBigSell(rows[i], sellThreshold) {
      var i :| 0 <= i < |rows| && IsBigSell(rows[i], sellThreshold);
      assert rows[i] in sells;
    }
    if |buys| > 0 {
      assert buys[0] in rows;
    }
    if |sells| > 0 {
      assert sells[0] in rows;
    }
    VolumeAtLeast(buys, 100 * buyThreshold);
    VolumeAtLeast(sells, 100 * sellThreshold);
  }

  /** With no negative volume, the big buys and big sells together never
      exceed the stock's total volume (a record is never both). */
  lemma SummaryVolumes(code: string, rows: seq<Record>, buyThreshold: int, sellThreshold: int)
    requires NonNegativeVolumes(rows)
    ensures var s := Summarize(code, rows, buyThreshold, sellThreshold);
      && 0 <= s.buyVolume <= s.totalVolume
      && 0 <= s.sellVolume <= s.totalVolume
      && s.buyVolume + s.sellVolume <= s.totalVolume
  {
    var p := (r: Record) => IsBigBuy(r, buyThreshold);
    var q := (r: Record) => IsBigSell(r, sellThreshold);
    DisjointSelectVolume(rows, p, q);
    SelectVolumeNonNegative(rows, p);
    SelectVolumeNonNegative(rows, q);
  }
}
