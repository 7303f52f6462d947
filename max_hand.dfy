/** The STAR-board maximum-lot scan: over the trade files of one day, the
    stock whose single largest trade is the largest, with the first trade
    that reaches that size and the label of its side. */
module MaxHand {
  import opened Text
  import opened Trades
  import BigTrade

  // ---------------------------------------------------------------------
  // Codes

  /** `filename.replace('.csv', '').split('_')[-1]` */
  function StarCode(fileName: string): (code: string)
    ensures '_' !in code
  {
    SplitPieces(RemoveAll(fileName, ".csv"), '_');
    Last(Split(RemoveAll(fileName, ".csv"), '_'))
  }

  /** STAR-board codes start with "68". */
  predicate IsStarCode(code: string)
  {
    StartsWith(code, "68")
  }

  /** A well-formed name `<anything>_<code>.csv` yields its code, whatever the
      prefix holds (even ".csv" or '_'). */
  lemma StarCodeOfName(prefix: string, code: string)
    requires '_' !in code && '.' !in code
    ensures StarCode(prefix + "_" + code + ".csv") == code
  {
    var pat := ".csv";
    assert pat[0] == '.' && '_' !in pat;
    assert prefix + "_" + code + ".csv" == prefix + ['_'] + (code + pat);
    CodeBetween(prefix, code, pat, '_');
  }

  /** A name without `_` before its code, `<code>.csv`, yields its code. */
  lemma StarCodeOfBareName(code: string)
    requires '_' !in code && '.' !in code
    ensures StarCode(code + ".csv") == code
  {
    RemoveAllSuffix(code, ".csv");
    SplitNoSep(code, '_');
  }

  /** Removing a pattern that ends the name and then taking the last piece
      after `sep` leaves the code between the two. */
  lemma CodeBetween(prefix: string, code: string, pat: string, sep: char)
    requires pat != [] && pat[0] !in code && sep !in code && sep !in pat
    ensures Last(Split(RemoveAll(prefix + [sep] + (code + pat), pat), sep)) == code
  {
    DropTrailing(prefix, code, pat, sep);
    LastAfter(RemoveAll(prefix, pat), code, sep);
  }

  /** Only the trailing pattern and the occurrences inside `prefix` go. */
  lemma DropTrailing(prefix: string, code: string, pat: string, sep: char)
    requires pat != [] && pat[0] !in code && sep !in pat
    ensures RemoveAll(prefix + [sep] + (code + pat), pat) == RemoveAll(prefix, pat) + [sep] + code
  {
    var rest := [sep] + (code + pat);
    assert prefix + [sep] + (code + pat) == prefix + rest;
    RemoveAllConcat(prefix, rest, pat);
    DropSuffix(code, pat, sep);
  }

  lemma DropSuffix(code: string, pat: string, sep: char)
    requires pat != [] && pat[0] !in code && sep !in pat
    ensures RemoveAll([sep] + (code + pat), pat) == [sep] + code
  {
    RemoveAllCons(sep, code + pat, pat);
    RemoveAllSuffix(code, pat);
  }

  lemma LastAfter(head: string, code: string, sep: char)
    requires sep !in code
    ensures Last(Split(head + [sep] + code, sep)) == code
  {
    SplitConcat(head, code, sep);
    SplitNoSep(code, sep);
  }

  /** On such names this scan and the analyzer extract the same code. */
  lemma CodeExtractionsAgree(prefix: string, code: string)
    requires '_' !in code && '.' !in code
    ensures StarCode(prefix + "_" + code + ".csv") == BigTrade.StockCode(prefix + "_" + code + ".csv")
  {
    StarCodeOfName(prefix, code);
    assert prefix + "_" + code + ".csv" == prefix + "_" + code + "." + "csv";
    BigTrade.StockCodeOfName(prefix, code, "csv");
  }

  // ---------------------------------------------------------------------
  // One stock

  /** The largest volume of a non-empty frame (`df['Volume_Hand'].max()`,
      compared in shares). */
  function StockMax(rows: seq<Record>): (m: int)
    requires rows != []
    ensures forall i :: 0 <= i < |rows| ==> rows[i].volume <= m
    ensures exists i :: 0 <= i < |rows| && rows[i].volume == m
  {
    if |rows| == 1 then rows[0].volume
    else
      var prev := StockMax(rows[..|rows| - 1]);
      var last := rows[|rows| - 1].volume;
      if last > prev then last else prev
  }

  /** The position of the first row with volume `v`
      (`df[df['Volume_Hand'] == v].iloc[0]`). */
  function FirstAt(rows: seq<Record>, v: int): (k: nat)
    requires exists i :: 0 <= i < |rows| && rows[i].volume == v
    ensures k < |rows| && rows[k].volume == v
    ensures forall j :: 0 <= j < k ==> rows[j].volume != v
  {
    if rows[0].volume == v then 0
    else
      assert exists i :: 0 <= i < |rows[1..]| && rows[1..][i].volume == v by {
        var i :| 0 <= i < |rows| && rows[i].volume == v;
        assert rows[1..][i - 1] == rows[i];
      }
      1 + FirstAt(rows[1..], v)
  }

  /** What the `try` block learns about a STAR stock before the update: its
      code, its largest trade in shares, the first row of that size, and
      the columns the file has. */
  datatype Peak = Peak(code: string, maxShares: int, row: Record, columns: set<Column>)

  /** A file takes part unless its code is not a STAR code, it cannot be
      read, it has no `Volume` column, or it has no rows (then `.iloc[0]`
      raises). */
  function Examine(f: File): (p: Option<Peak>)
    ensures p.Some? <==> IsStarCode(StarCode(f.name)) && f.content.Readable?
                         && Volume in f.content.sheet.columns && f.content.sheet.rows != []
    ensures p.Some? ==>
      var rows := f.content.sheet.rows;
      && p.value.code == StarCode(f.name)
      && p.value.columns == f.content.sheet.columns
      && (forall i :: 0 <= i < |rows| ==> rows[i].volume <= p.value.maxShares)
      && p.value.row.volume == p.value.maxShares
      && exists k :: 0 <= k < |rows| && rows[k] == p.value.row
                     && forall j :: 0 <= j < k ==> rows[j].volume != p.value.maxShares
  {
    var code := StarCode(f.name);
    if !IsStarCode(code) then None
    else
      match f.content
      case Unreadable => None
      case Readable(sheet) =>
        if Volume !in sheet.columns || sheet.rows == [] then None
        else
          var m := StockMax(sheet.rows);
          var k := FirstAt(sheet.rows, m);
          Some(Peak(code, m, sheet.rows[k], sheet.columns))
  }

  /** `max_hand_details`: the first row of the largest trade, with its size. */
  datatype Details = Details(price: int, volume: int, maxShares: int, dealTime: int, tradingDay: int, side: int)

  /** The columns the details read; a missing one raises `KeyError`. */
  const DetailColumns: set<Column> := {Price, Volume, DealTime, TradingDay, Side}

  function DetailsOf(p: Peak): Details
  {
    Details(p.row.price, p.row.volume, p.maxShares, p.row.dealTime, p.row.tradingDay, p.row.side)
  }

  // ---------------------------------------------------------------------
  // The scan

  /** The three variables of the loop: `max_hand` (in shares),
      `max_hand_stock` and `max_hand_details` (`None` for `{}`). */
  datatype Scan = Scan(maxShares: int, stock: Option<string>, details: Option<Details>)

  const Start: Scan := Scan(0, None, None)

  /** One iteration as written: `max_hand` and `max_hand_stock` are assigned
      before the details are read, so a missing detail column leaves them
      updated and the details unchanged. */
  function StepAsWritten(s: Scan, f: File): Scan
  {
    match Examine(f)
    case None => s
    case Some(p) =>
      if p.maxShares > s.maxShares then
        Scan(p.maxShares, Some(p.code), if DetailColumns <= p.columns then Some(DetailsOf(p)) else s.details)
      else s
  }

  function ScanAsWritten(files: seq<File>): Scan
  {
    if files == [] then Start else StepAsWritten(ScanAsWritten(files[..|files| - 1]), files[|files| - 1])
  }

  /** A stock that can be recorded: examined, with every detail column. */
  function Candidate(f: File): (p: Option<Peak>)
    ensures p.Some? <==> Examine(f).Some? && DetailColumns <= Examine(f).value.columns
    ensures p.Some? ==> p == Examine(f)
  {
    match Examine(f)
    case None => None
    case Some(p) => if DetailColumns <= p.columns then Some(p) else None
  }

  /** One iteration with the update made whole: a stock whose details cannot
      be read is skipped like any other file that raises. */
  function Step(s: Scan, f: File): Scan
  {
    match Candidate(f)
    case None => s
    case Some(p) => if p.maxShares > s.maxShares then Scan(p.maxShares, Some(p.code), Some(DetailsOf(p))) else s
  }

  function ScanFiles(files: seq<File>): Scan
  {
    if files == [] then Start else Step(ScanFiles(files[..|files| - 1]), files[|files| - 1])
  }

  /** `find_max_hand_in_gem` over the files in directory order. */
  method FindMaxHandInStar(files: seq<File>) returns (r: Scan)
    ensures r == ScanFiles(files)
  {
    var maxHand := 0;
    var maxHandStock: Option<string> := None;
    var maxHandDetails: Option<Details> := None;
    for i := 0 to |files|
      invariant Scan(maxHand, maxHandStock, maxHandDetails) == ScanFiles(files[..i])
    {
      assert files[..i + 1][..i] == files[..i];
      var f := files[i];
      var code := StarCode(f.name);
      if !IsStarCode(code) {
        continue;
      }
      if f.content.Unreadable? {
        continue;
      }
      var df := f.content.sheet;
      if Volume !in df.columns {
        continue;
      }
      if df.rows == [] {
        continue;
      }
      var maxStockHand := StockMax(df.rows);
      var maxRow := df.rows[FirstAt(df.rows, maxStockHand)];
      if maxStockHand > maxHand && DetailColumns <= df.columns {
        maxHand := maxStockHand;
        maxHandStock := Some(code);
        maxHandDetails := Some(Details(maxRow.price, maxRow.volume, maxStockHand, maxRow.dealTime, maxRow.tradingDay, maxRow.side));
      }
    }
    assert files[..|files|] == files;
    r := Scan(maxHand, maxHandStock, maxHandDetails);
  }

  // ---------------------------------------------------------------------
  // The report after the loop

  /** The label the report prints for a direction. */
  function DirectionLabel(d: Direction): string
  {
    match d
    case ActiveBuy => "买入"
    case ActiveSell => "卖出"
    case Unknown => "未知"
  }

  /** The label of a side code: 买入 for side 1, 卖出 for -1 and -11, 未知
      for any other code. */
  function SideLabel(side: int): string
  {
    DirectionLabel(DirectionOf(side))
  }

  lemma SideLabelCases(side: int)
    ensures SideLabel(side) == "买入" <==> side == 1
    ensures SideLabel(side) == "卖出" <==> side == -1 || side == -11
    ensures SideLabel(side) == "未知" <==> side != 1 && side != -1 && side != -11
  {
    assert "买入"[0] != "卖出"[0] && "买入"[0] != "未知"[0] && "卖出"[0] != "未知"[0];
  }

  /** What the end of the function prints: nothing found, the record, or a
      crash on `max_hand_details['volume_hand']` when the details are `{}`. */
  datatype Report = NotFound | Found(code: string, details: Details, sideLabel: string) | Crashed

  function ReportOf(s: Scan): Report
  {
    if s.stock.None? || s.stock.value == [] then NotFound
    else match s.details
      case None => Crashed
      case Some(d) => Found(s.stock.value, d, SideLabel(d.side))
  }

  // ---------------------------------------------------------------------
  // Properties of the whole-update scan

  /** The three variables always agree: a stock is recorded exactly when
      details are, the details are of a trade of the recorded size, and the
      report never crashes. */
  lemma {:induction false} ScanConsistent(files: seq<File>)
    ensures var r := ScanFiles(files);
      && r.maxShares >= 0
      && (r.stock.None? <==> r.details.None?)
      && (r.stock.None? ==> r.maxShares == 0)
      && (r.details.Some? ==> r.details.value.maxShares == r.maxShares && r.details.value.volume == r.maxShares)
      && (r.stock.Some? ==> IsStarCode(r.stock.value))
      && ReportOf(r) != Crashed
  {
    if files != [] {
      ScanConsistent(files[..|files| - 1]);
    }
  }

  /** The recorded size is at least the largest trade of every stock that
      could be recorded. */
  lemma {:induction false} ScanBound(files: seq<File>)
    ensures forall i :: 0 <= i < |files| && Candidate(files[i]).Some? ==>
      Candidate(files[i]).value.maxShares <= ScanFiles(files).maxShares
  {
    if files != [] {
      var init := files[..|files| - 1];
      ScanBound(init);
      forall i | 0 <= i < |init| && Candidate(init[i]).Some?
        ensures Candidate(files[i]).value.maxShares <= ScanFiles(files).maxShares
      {
        assert files[i] == init[i];
      }
    }
  }

  /** Nothing is recorded exactly when no stock that could be recorded has a
      trade of more than zero shares. */
  lemma {:induction false} ScanNotFound(files: seq<File>)
    ensures ScanFiles(files).stock.None?
            <==> forall i :: 0 <= i < |files| && Candidate(files[i]).Some? ==> Candidate(files[i]).value.maxShares <= 0
  {
    ScanConsistent(files);
    ScanBound(files);
    if files != [] {
      var init := files[..|files| - 1];
      ScanNotFound(init);
      ScanConsistent(init);
      if ScanFiles(init).stock.Some? {
        var k :| 0 <= k < |init| && Candidate(init[k]).Some? && Candidate(init[k]).value.maxShares > 0;
        assert files[k] == init[k];
      }
      if ScanFiles(files).stock.None? {
        forall i | 0 <= i < |init| && Candidate(init[i]).Some? ensures Candidate(init[i]).value.maxShares <= 0 {
        }
      }
    }
  }

  /** The recorded stock is the earliest one whose largest trade is the
      recorded size, every stock before it had smaller trades (ties keep
      the earlier stock), and the details are its first row of that size. */
  lemma {:induction false} ScanWinner(files: seq<File>)
    ensures var r := ScanFiles(files);
      r.stock.Some? ==> exists i :: 0 <= i < |files| && Winner(files, i, r)
  {
    if files != [] {
      var init := files[..|files| - 1];
      var r0, r := ScanFiles(init), ScanFiles(files);
      ScanWinner(init);
      if r != r0 {
        var i := |files| - 1;
        ScanBound(init);
        forall j | 0 <= j < i && Candidate(files[j]).Some? ensures Candidate(files[j]).value.maxShares < r.maxShares {
          assert files[j] == init[j];
        }
        assert Winner(files, i, r);
      } else if r.stock.Some? {
        var i :| 0 <= i < |init| && Winner(init, i, r0);
        WinnerExtends(init, files, i, r);
      }
    }
  }

  /** File `i` is the one the result records. */
  ghost predicate Winner(files: seq<File>, i: nat, r: Scan)
    requires i < |files|
  {
    && Candidate(files[i]).Some?
    && r.stock == Some(Candidate(files[i]).value.code)
    && r.maxShares == Candidate(files[i]).value.maxShares
    && r.details == Some(DetailsOf(Candidate(files[i]).value))
    && forall j :: 0 <= j < i && Candidate(files[j]).Some? ==> Candidate(files[j]).value.maxShares < r.maxShares
  }

  lemma WinnerExtends(init: seq<File>, files: seq<File>, i: nat, r: Scan)
    requires files != [] && init == files[..|files| - 1] && i < |init| && Winner(init, i, r)
    ensures Winner(files, i, r)
  {
    forall j | 0 <= j <= i ensures files[j] == init[j] {
    }
  }

  /** What the whole-update scan reports: "not found" exactly when no
      recordable stock has a trade above 0 shares, and otherwise the recorded
      stock with its details and their side label; never a crash. */
  lemma ScanReport(files: seq<File>)
    ensures var r, rep := ScanFiles(files), ReportOf(ScanFiles(files));
      && rep != Crashed
      && (rep == NotFound <==> forall i :: 0 <= i < |files| && Candidate(files[i]).Some? ==> Candidate(files[i]).value.maxShares <= 0)
      && (rep.Found? ==> r.stock == Some(rep.code) && r.details == Some(rep.details) && rep.sideLabel == SideLabel(rep.details.side))
  {
    ScanConsistent(files);
    ScanNotFound(files);
  }

  // ---------------------------------------------------------------------
  // The update as written

  /** The two scans agree when every examined stock has all detail columns. */
  lemma {:induction false} AsWrittenAgrees(files: seq<File>)
    requires forall i :: 0 <= i < |files| && Examine(files[i]).Some? ==> DetailColumns <= Examine(files[i]).value.columns
    ensures ScanAsWritten(files) == ScanFiles(files)
  {
    if files != [] {
      var init := files[..|files| - 1];
      forall i | 0 <= i < |init| && Examine(init[i]).Some? ensures DetailColumns <= Examine(init[i]).value.columns {
        assert init[i] == files[i];
      }
      AsWrittenAgrees(init);
    }
  }

  /** As written, the size and the stock follow the strict running maximum
      over every examined stock, whether or not its details can be read. */
  lemma {:induction false} AsWrittenBound(files: seq<File>)
    ensures ScanAsWritten(files).maxShares >= 0
    ensures ScanAsWritten(files).stock.None? ==> ScanAsWritten(files).maxShares == 0
    ensures ScanAsWritten(files).stock.Some? ==> IsStarCode(ScanAsWritten(files).stock.value)
    ensures forall i :: 0 <= i < |files| && Examine(files[i]).Some? ==>
      Examine(files[i]).value.maxShares <= ScanAsWritten(files).maxShares
  {
    if files != [] {
      var init := files[..|files| - 1];
      AsWrittenBound(init);
      forall i | 0 <= i < |init| && Examine(init[i]).Some?
        ensures Examine(files[i]).value.maxShares <= ScanAsWritten(files).maxShares
      {
        assert files[i] == init[i];
      }
    }
  }

  lemma {:induction false} AsWrittenNotFound(files: seq<File>)
    ensures ScanAsWritten(files).stock.None?
            <==> forall i :: 0 <= i < |files| && Examine(files[i]).Some? ==> Examine(files[i]).value.maxShares <= 0
  {
    AsWrittenBound(files);
    if files != [] {
      var init := files[..|files| - 1];
      AsWrittenNotFound(init);
      AsWrittenBound(init);
      if ScanAsWritten(init).stock.Some? {
        var k :| 0 <= k < |init| && Examine(init[k]).Some? && Examine(init[k]).value.maxShares > 0;
        assert files[k] == init[k];
      }
      if ScanAsWritten(files).stock.None? {
        forall i | 0 <= i < |init| && Examine(init[i]).Some? ensures Examine(init[i]).value.maxShares <= 0 {
        }
      }
    }
  }

  /** As written, the recorded stock is still the earliest examined one of
      the recorded size. */
  lemma {:induction false} AsWrittenLeader(files: seq<File>)
    ensures var r := ScanAsWritten(files);
      r.stock.Some? ==> exists i :: 0 <= i < |files| && Leader(files, i, r)
  {
    if files != [] {
      var init := files[..|files| - 1];
      var r0, r := ScanAsWritten(init), ScanAsWritten(files);
      AsWrittenLeader(init);
      if r.maxShares != r0.maxShares || r.stock != r0.stock {
        var i := |files| - 1;
        AsWrittenBound(init);
        forall j | 0 <= j < i && Examine(files[j]).Some? ensures Examine(files[j]).value.maxShares < r.maxShares {
          assert files[j] == init[j];
        }
        assert Leader(files, i, r);
      } else if r.stock.Some? {
        var i :| 0 <= i < |init| && Leader(init, i, r0);
        forall j | 0 <= j <= i ensures files[j] == init[j] {
        }
        assert Leader(files, i, r);
      }
    }
  }

  /** File `i` is the examined stock whose code and size the result holds,
      and every examined stock before it was smaller. */
  ghost predicate Leader(files: seq<File>, i: nat, r: Scan)
    requires i < |files|
  {
    && Examine(files[i]).Some?
    && r.stock == Some(Examine(files[i]).value.code)
    && r.maxShares == Examine(files[i]).value.maxShares
    && forall j :: 0 <= j < i && Examine(files[j]).Some? ==> Examine(files[j]).value.maxShares < r.maxShares
  }

  /** As written, "not found" is reported exactly when no examined stock
      has a trade above 0 shares; otherwise the report names the recorded
      stock, and crashes when its details were never filled in. */
  lemma AsWrittenReport(files: seq<File>)
    ensures var r, rep := ScanAsWritten(files), ReportOf(ScanAsWritten(files));
      && (rep == NotFound <==> forall i :: 0 <= i < |files| && Examine(files[i]).Some? ==> Examine(files[i]).value.maxShares <= 0)
      && (rep == Crashed <==> r.stock.Some? && r.details.None?)
      && (rep.Found? ==> r.stock == Some(rep.code) && r.details == Some(rep.details))
  {
    AsWrittenBound(files);
    AsWrittenNotFound(files);
  }

  /** A STAR file of code 680001 holding one trade of 500 shares and only a
      `Volume` column. */
  function VolumeOnly(): File
  {
    File("deal_680001.csv", Readable(Sheet({Volume}, [Record(0, 500, 1, 0, 0)])))
  }

  /** A STAR file of code 688001 holding one trade of 100 shares with every
      column. */
  function Complete(): File
  {
    File("deal_688001.csv", Readable(Sheet(DetailColumns, [Record(1, 100, -1, 2, 3)])))
  }

  /** As written, a first file without `Price` is recorded without details,
      and the report crashes on the empty details. */
  lemma AsWrittenCrashes()
    ensures ScanAsWritten([VolumeOnly()]) == Scan(500, Some("680001"), None)
    ensures ReportOf(ScanAsWritten([VolumeOnly()])) == Crashed
    ensures ReportOf(ScanFiles([VolumeOnly()])) == NotFound
  {
    StarCodesOfExamples();
    assert [VolumeOnly()][..0] == [];
  }

  /** As written, a larger trade in a file without `Price` takes the stock
      name and size but leaves the details of the previous stock. */
  lemma AsWrittenMismatch()
    ensures var r := ScanAsWritten([Complete(), VolumeOnly()]);
      && r.stock == Some("680001") && r.maxShares == 500
      && r.details.Some? && r.details.value.volume == 100 && r.details.value.maxShares != r.maxShares
  {
    StarCodesOfExamples();
    var files := [Complete(), VolumeOnly()];
    assert files[..1] == [Complete()];
    assert files[..1][..0] == [];
  }

  lemma StarCodesOfExamples()
    ensures StarCode(VolumeOnly().name) == "680001" && IsStarCode("680001")
    ensures StarCode(Complete().name) == "688001" && IsStarCode("688001")
  {
    assert VolumeOnly().name == "deal" + "_" + "680001" + ".csv";
    assert Complete().name == "deal" + "_" + "688001" + ".csv";
    StarCodeOfName("deal", "680001");
    StarCodeOfName("deal", "688001");
  }
}
