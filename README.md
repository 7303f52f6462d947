# Big-trade analyzer and STAR maximum-lot scan, modelled in Dafny

The repository is a small A-share trade-tape tool. It reads one CSV file of
tick trades per stock and finds the "big trades": the buys and sells whose
size in lots (1 lot = 100 shares) reaches a threshold. This project models
two parts of it and proves their properties.

**`BigTradeAnalyzer` (big_trade_analyzer.py).** Modelled by the class
`BigTrade.Analyzer` and the functions that specify it.
- `load_data` takes a random sample of at most 500 files. For each file it
  extracts the stock code from the file name. It stores the frame in
  `stock_data`. It files the frame by a first-match prefix chain under
  沪市 (`6`), 创业板 (`3`) or 深市 (`0`), and always under 全部股票. A file
  that raises is skipped. Finally `is_loaded` is set.
- `analyze_big_trades` visits the four markets in dictionary order. For each
  stock it counts and sums the big buys (`Side == 1`) and the big sells
  (`Side` is -1 or -11). It keeps the stocks that have at least one big trade.
  It then sorts them stably, descending by (big-buy lots, big-sell lots).
- The button handler `BigTradeUI.analyze_data` analyses only when the data
  is loaded and both thresholds are integers in [1, 10000].

**`find_max_hand_in_gem` (find_max_hand.py).** It scans the STAR-board
files (codes starting with `68`). For each stock it takes the largest trade
and the first row of that size. Across stocks it keeps a strict running
maximum that starts at 0. It then reports the winning trade, with its side
as 买入, 卖出 or 未知. The loop is modelled twice:
- `ScanAsWritten` is the loop as written.
- The method `FindMaxHandInStar` is the loop with the update made whole (see
  Findings). It returns the three loop variables.

`ReportOf` models the report at lines 63-73.

## Modules
- **`Text`** models the Python string operations used on file names:
  - `str.split` and `str.join`;
  - `str.replace(pat, '')`;
  - `str.startswith`.
- **`Trades`** holds the data model:
  - records, sheets and files;
  - the side codes;
  - lots, and sums of volumes.
- **`OrderedMap`** models a Python `dict` that keeps insertion order.
- **`Detection`** holds the per-record big-trade tests and the per-stock summary.
- **`Ranking`** models the stable descending sort of a market's table.
- **`BigTrade`** holds:
  - the code extraction and the market classification;
  - the index of loaded frames and its consistency invariant;
  - loading, analysis and the guard;
  - the `Analyzer` class.
- **`MaxHand`** holds the STAR scan, written twice:
  - as written;
  - with the update made whole (see Findings).

## Modelling choices
- **Volumes are integer shares.** The source's lots are `shares / 100` as a
  float; `Trades.Lots` gives that value as a real.
  - With integer thresholds, `lots >= t` is the same as `shares >= 100 * t`
    (`Trades.LotsAtLeast`).
  - Comparing lots is the same as comparing shares (`Trades.LotsOrder`).
  - Sums of lots are lots of sums (`Trades.LotsOfTotal`).
  - So, in exact arithmetic, filtering, sorting and the running maximum are
    decided on shares. The floating-point note under "## Left out" says when
    the source's floats agree with this.
- **File contents are given to the model.** A file is its base name
  (`File.name`) plus its content. The content is either `Unreadable` (any
  read error) or a sheet: the set of column names present and the rows.
- **The random sample and the directory listing are parameters.**
  - `LoadData` takes the listing `files` and a sample of positions.
  - `IsSample` states what `random.sample` guarantees: exactly
    `min(500, n)` positions, all in range and all distinct.
- **A failing column lookup is an error value.** `analyze_big_trades`
  looks up `df['Side']` on each frame. Loading does not check for that
  column, so the lookup raises `KeyError` when it is absent. Here that is
  the result `Analysis.KeyError(Side)`.
- **Threshold entries are given already parsed.** The guard receives the
  two entry texts as `int()` would parse them: `None` when `int()` raises.

## Model

| member | source | states |
|---|---|---|
| Text.Split | big_trade_analyzer.py:49 | `str.split` always yields at least one piece |
| Text.SplitPieces | big_trade_analyzer.py:49 | no piece of a split contains the separator |
| Text.SplitKeepsOut | big_trade_analyzer.py:49 | a character absent from the string is absent from every piece |
| Text.SplitJoin | big_trade_analyzer.py:49 | joining the pieces with the separator gives the string back |
| Text.JoinSplit | big_trade_analyzer.py:49 | splitting a join of separator-free pieces gives the pieces back |
| Text.SplitNoSep | find_max_hand.py:20 | a string without the separator splits into itself alone |
| Text.SplitConcat | find_max_hand.py:20 | splitting `a + sep + b` is splitting `a` followed by splitting `b` |
| Text.Last | big_trade_analyzer.py:49 | `parts[-1]` of a split, which always has a piece (its properties are LastPiece, StockCodeInName and StarCodeOfName) |
| Text.StartsWith | big_trade_analyzer.py:68-72 | `str.startswith` (its properties are the Classify iffs and Examine's `68` test) |
| Text.LastPiece | big_trade_analyzer.py:49 | the string is the pieces before the last, each followed by the separator, and then the last piece |
| Text.FirstPiece | big_trade_analyzer.py:49 | the string is the first piece, followed (when there are more) by the separator and the rest |
| Text.RemoveAll | find_max_hand.py:20 | `replace(pat, '')` never lengthens the string |
| Text.RemoveAllCons | find_max_hand.py:20 | a leading character that cannot start the pattern is kept |
| Text.RemoveAllConcat | find_max_hand.py:20 | across a boundary before a character foreign to the pattern, both sides are cleaned independently |
| Text.RemoveAllSuffix | find_max_hand.py:20 | a string in which the pattern's first character does not occur loses exactly a trailing pattern |
| Trades.DirectionOf | big_trade_analyzer.py:93-96 | 1 is an active buy, -1 and -11 are active sells, and every other code is neither (each direction as an iff) |
| Trades.Lots | big_trade_analyzer.py:59 | `Volume / 100`, the lots of a share count (its properties are LotsAtLeast, LotsOrder and LotsOfTotal) |
| Trades.TotalVolume | big_trade_analyzer.py:99-103 | `df['Volume'].sum()` in shares (its properties are LotsOfTotal, AppendVolume, DisjointSelectVolume and SummaryVolumes) |
| Trades.SumLots | big_trade_analyzer.py:99-103 | `df['Volume_Hand'].sum()`, the per-row lots added up (its properties are LotsOfTotal) |
| Trades.LotsAtLeast | big_trade_analyzer.py:59 | lots ≥ an integer threshold t iff shares ≥ 100·t |
| Trades.LotsOrder | find_max_hand.py:38-45 | comparing lots (`>` and `==`) is comparing shares |
| Trades.LotsOfTotal | big_trade_analyzer.py:99 | the lots of the total volume are the sum of the rows' lots |
| Trades.Select | big_trade_analyzer.py:95-96 | a boolean-mask selection holds only matching rows, each from the frame, and every matching row of the frame |
| Trades.SelectMultiset | big_trade_analyzer.py:95-106 | the selection holds each matching row as many times as the frame does and nothing else, so `len(df[mask])` counts the matching rows |
| Trades.DisjointSelectVolume | big_trade_analyzer.py:99-103 | two disjoint selections of non-negative volumes sum to at most the total |
| Trades.AppendVolume | big_trade_analyzer.py:99 | the total of a frame with one more row grows by that row's volume |
| OrderedMap.Dict.Put | big_trade_analyzer.py:62 | assigning a key keeps the dictionary well formed; a new key goes last, and an existing key keeps its place and takes the new value |
| OrderedMap.Empty | big_trade_analyzer.py:19-25 | a new dictionary is empty and well formed |
| Detection.Summarize | big_trade_analyzer.py:95-118 | one stock's summary: the big-buy and big-sell counts and volumes and the total volume (its properties are SummaryCounts and SummaryVolumes) |
| Detection.IsBigBuy | big_trade_analyzer.py:95 | the big-buy test of one record (its properties are BigTradeTests) |
| Detection.IsBigSell | big_trade_analyzer.py:96 | the big-sell test of one record (its properties are BigTradeTests) |
| Detection.BigBuys | big_trade_analyzer.py:95 | `big_buys`, the rows that pass IsBigBuy (its properties are Select, SelectMultiset and SummaryCounts) |
| Detection.BigSells | big_trade_analyzer.py:96 | `big_sells`, the rows that pass IsBigSell (its properties are Select, SelectMultiset and SummaryCounts) |
| Detection.Qualifies | big_trade_analyzer.py:110 | a stock with a big buy or a big sell is reported (its properties are SummaryCounts and CollectMembers) |
| Detection.BigTradeTests | big_trade_analyzer.py:95-96 | big buy iff Side == 1 and lots ≥ the buy threshold (inclusive); big sell iff Side ∈ {-1, -11} and lots ≥ the sell threshold; never both; other sides never count |
| Detection.SummaryCounts | big_trade_analyzer.py:95-107 | a count is positive iff some record qualifies; counts are bounded by the rows; each big volume is at least 100·threshold·count |
| Detection.SummaryVolumes | big_trade_analyzer.py:99-107 | with non-negative volumes the big-buy and big-sell volumes are each, and together, at most the total |
| Ranking.RanksAbove | big_trade_analyzer.py:121 | the descending (big-buy, big-sell) key of the sort (its properties are RanksAboveTotalPreorder, RankSorts and RankStable) |
| Ranking.RanksAboveTotalPreorder | big_trade_analyzer.py:121 | the (buy, sell) descending key is a total preorder, and mutual ranking means equal keys |
| Ranking.Rank | big_trade_analyzer.py:121 | the stable descending sort, by insertion (its properties are RankSorts and RankStable) |
| Ranking.RankSorts | big_trade_analyzer.py:121 | the sorted table is non-increasing by (buy lots, sell lots) and is a permutation of the input |
| Ranking.RankStable | big_trade_analyzer.py:121 | summaries with equal keys keep their input order (stable sort) |
| BigTrade.StockCode | big_trade_analyzer.py:49 | the code contains neither `_` nor `.` |
| BigTrade.StockCodeInName | big_trade_analyzer.py:49 | the name is a part ending in `_` (or empty), then the code, then a tail without `_` that is empty or starts with `.` |
| BigTrade.StockCodeOfName | big_trade_analyzer.py:49 | `prefix_code.ext` yields `code` when the code has no `_` or `.` and the extension no `_` |
| BigTrade.StockCodeOfBareName | big_trade_analyzer.py:49 | `code.ext`, with no `_` before the code, yields `code` under the same conditions |
| BigTrade.Classify | big_trade_analyzer.py:68-73 | first match: `6` gives 沪市, `3` gives 创业板, `0` gives 深市, otherwise none (each an iff), and never 全部股票 |
| BigTrade.MarketData.Get | big_trade_analyzer.py:69-75 | `market_data[m]`, a well-formed dictionary whenever the market data is (its properties are Placement and SegmentWithin) |
| BigTrade.Filed | big_trade_analyzer.py:68-75 | where a loaded frame is filed: 全部股票 always, and the one segment Classify names (its properties are Placement and LoadFileConsistent) |
| BigTrade.FileUnder | big_trade_analyzer.py:68-73 | one segment's part of the if-chain (its properties are Placement and LoadFileConsistent) |
| BigTrade.EmptyIndex | big_trade_analyzer.py:19-25 | the initial dictionaries satisfy the index invariant |
| BigTrade.ReadForLoad | big_trade_analyzer.py:51-59 | a file loads iff it can be read and has a `Volume` column, and the frame stored is its sheet |
| BigTrade.LoadFile | big_trade_analyzer.py:47-79 | one iteration of the load loop on the index (its effect is stated by LoadFileShape, LoadFileConsistent and the class's LoadOne) |
| BigTrade.LoadAll | big_trade_analyzer.py:41-79 | loading any files keeps the index invariant |
| BigTrade.LoadFileConsistent | big_trade_analyzer.py:62-79 | loading one file keeps the index invariant |
| BigTrade.LoadFileShape | big_trade_analyzer.py:62-79 | a loaded file sets its code in `stock_data`; a skipped file leaves `stock_data` and every market dictionary, with its key order, unchanged; 全部股票 gains at most one key |
| BigTrade.LoadedCodes | big_trade_analyzer.py:41-79 | a code is in `stock_data` after loading iff it was before or some file of that code loaded |
| BigTrade.LastLoadWins | big_trade_analyzer.py:62 | the frame stored for a code is the one from the last file of that code that loaded |
| BigTrade.Placement | big_trade_analyzer.py:62-75 | under the invariant 全部股票 holds exactly `stock_data`; 沪市, 创业板 and 深市 hold exactly the codes with prefix `6`, `3`, `0`; no code is in two of them |
| BigTrade.SegmentWithin | big_trade_analyzer.py:69-75 | every frame of a market is the one in `stock_data` |
| BigTrade.Min | big_trade_analyzer.py:34 | `min(500, total_files)` (its properties are SampleSelection) |
| BigTrade.IsSample | big_trade_analyzer.py:34-35 | what `random.sample` may return: `min(500, n)` distinct positions in the listing (its properties are SampleExists and SampleSelection) |
| BigTrade.Pick | big_trade_analyzer.py:35 | `selected_files`, the listed files at the sampled positions (its properties are SampleSelection) |
| BigTrade.LoadAllGrowth | big_trade_analyzer.py:34-35 | loading n files adds at most n codes and removes none |
| BigTrade.SampleExists | big_trade_analyzer.py:34-35 | every listing has a sample of `min(500, n)` distinct files |
| BigTrade.SampleSelection | big_trade_analyzer.py:34-35 | the selected files number `min(500, n)`, all from the listing, and no file is chosen more often than it is listed |
| BigTrade.Collect | big_trade_analyzer.py:92-118 | the summaries one market appends, in dictionary order (its properties are CollectMembers and CollectOnce) |
| BigTrade.Reported | big_trade_analyzer.py:110-118 | the one summary a stock appends when it has a big buy or a big sell, else nothing (its properties are CollectMembers and CollectOnce) |
| BigTrade.MarketTable | big_trade_analyzer.py:89-121 | one market's sorted result list (its properties are MarketTableFacts) |
| BigTrade.CollectMembers | big_trade_analyzer.py:92-118 | a summary is appended iff its stock is in the market, it is that stock's summary, and it has a big buy or a big sell |
| BigTrade.CollectOnce | big_trade_analyzer.py:92-118 | no summary is appended twice |
| BigTrade.MarketTableFacts | big_trade_analyzer.py:89-122 | each market's table is ranked, a permutation of the appended summaries, holds exactly the qualifying stocks once each, and is stable |
| BigTrade.MissingSide | big_trade_analyzer.py:95-96 | some loaded frame has no `Side` column, so `df['Side']` raises `KeyError` (its properties are AnalyzeShape and AnalyzeFails) |
| BigTrade.Analyze | big_trade_analyzer.py:85-124 | the result of the analysis: `KeyError` on a frame without `Side`, otherwise the four ranked market tables (its properties are AnalyzeShape, AnalyzeFails and AnalyzeSucceeds) |
| BigTrade.AnalyzeShape | big_trade_analyzer.py:85-124 | the analysis fails iff some loaded frame lacks `Side`; otherwise it has exactly the four market keys, each with its ranked table |
| BigTrade.AnalyzeFails | big_trade_analyzer.py:95-96 | a frame without `Side` makes the analysis raise `KeyError` |
| BigTrade.AnalyzeSucceeds | big_trade_analyzer.py:87-124 | a map with the four market tables is the analysis result |
| BigTrade.ThresholdInRange | big_trade_analyzer.py:273 | `1 <= t <= 10000` (its properties are AnalyzeGuard) |
| BigTrade.AnalyzeGuard | big_trade_analyzer.py:263-275 | proceeds iff loaded and both thresholds parse and lie in [1, 10000]; passes them through; otherwise refuses for the first failing reason in the source's order: not loaded, then not an integer, then out of range |
| BigTrade.Analyzer.constructor | big_trade_analyzer.py:17-26 | empty dictionaries satisfying the invariant, not loaded |
| BigTrade.Analyzer.LoadData | big_trade_analyzer.py:28-83 | the new state is the old one with the sampled files loaded in order; the invariant holds; `is_loaded` is set |
| BigTrade.Analyzer.LoadOne | big_trade_analyzer.py:47-79 | the new state is the old one with the file loaded (or unchanged if it raises); the flag is unchanged |
| BigTrade.Analyzer.FileFrame | big_trade_analyzer.py:68-75 | the if-chain files the frame under its market and under 全部股票, and nothing else changes |
| BigTrade.Analyzer.AnalyzeBigTrades | big_trade_analyzer.py:85-124 | returns the analysis of the current state |
| BigTrade.ScanMarket | big_trade_analyzer.py:90-121 | fails iff some frame of the market lacks `Side`; otherwise returns the market's ranked table |
| BigTrade.AnalyzeData | big_trade_analyzer.py:261-279 | runs the analysis iff the guard proceeds, then with the parsed thresholds |
| MaxHand.StarCode | find_max_hand.py:20-21 | the code extracted from a file name contains no `_` |
| MaxHand.StarCodeOfName | find_max_hand.py:19-21 | `prefix_code.csv` yields `code` for any prefix, when the code has no `_` or `.` |
| MaxHand.StarCodeOfBareName | find_max_hand.py:19-21 | `code.csv`, with no `_` before the code, yields `code` when the code has no `_` or `.` |
| MaxHand.CodeExtractionsAgree | find_max_hand.py:20-21 | on such names this scan and the analyzer extract the same code |
| MaxHand.IsStarCode | find_max_hand.py:24 | a STAR-board code starts with `68` (its properties are Examine) |
| MaxHand.StockMax | find_max_hand.py:38-39 | the maximum is at least every row's volume and equals some row's volume |
| MaxHand.FirstAt | find_max_hand.py:42 | the position of a row of the given volume, with no earlier row of that volume |
| MaxHand.Examine | find_max_hand.py:19-42 | a file takes part iff its code starts with `68`, it is readable, has `Volume` and has rows; then its peak is its largest trade and the first row of that size |
| MaxHand.Candidate | find_max_hand.py:45-55 | a stock can be recorded iff it takes part and has every column the details read |
| MaxHand.DetailsOf | find_max_hand.py:48-55 | `max_hand_details` of a stock's first largest row (its properties are ScanConsistent and ScanWinner) |
| MaxHand.Step | find_max_hand.py:24-61 | one iteration with the update made whole: a stock that cannot be recorded leaves the three variables unchanged (its properties are the Scan rows) |
| MaxHand.ScanFiles | find_max_hand.py:10-61 | the loop with the update made whole, from `max_hand = 0`, no stock and `{}` (its properties are ScanConsistent, ScanBound, ScanNotFound, ScanWinner and ScanReport) |
| MaxHand.FindMaxHandInStar | find_max_hand.py:10-61 | the loop with its `continue`s computes the whole-update scan |
| MaxHand.StepAsWritten | find_max_hand.py:24-61 | one iteration as written: `max_hand` and `max_hand_stock` change on a strictly larger trade even when the details raise `KeyError` (its properties are the AsWritten rows) |
| MaxHand.ScanAsWritten | find_max_hand.py:10-61 | the loop as written, from `max_hand = 0`, no stock and `{}` |
| MaxHand.ReportOf | find_max_hand.py:63-73 | not found when no stock (or an empty code) is recorded; a `KeyError` crash when details are `{}`; otherwise the stock, its details and its side label |
| MaxHand.DirectionLabel | find_max_hand.py:71 | the printed label of each direction (its properties are SideLabelCases) |
| MaxHand.SideLabel | find_max_hand.py:71 | the label of a side code, through its direction (its properties are SideLabelCases) |
| MaxHand.SideLabelCases | find_max_hand.py:71 | the label is 买入 iff side 1, 卖出 iff side -1 or -11, 未知 otherwise |
| MaxHand.ScanConsistent | find_max_hand.py:10-12 | a stock is recorded iff details are; the details are of a trade of the recorded size; nothing recorded means a maximum of 0; the report never crashes |
| MaxHand.ScanBound | find_max_hand.py:45-46 | the recorded maximum is at least every recordable stock's largest trade |
| MaxHand.ScanNotFound | find_max_hand.py:63-73 | no stock is recorded iff no recordable stock has a trade above 0 shares |
| MaxHand.ScanWinner | find_max_hand.py:42-55 | the recorded stock is one whose largest trade is the maximum, every earlier one was strictly smaller (ties keep the earlier file), and the details are its first row of that size |
| MaxHand.ScanReport | find_max_hand.py:63-73 | the whole-update scan reports "not found" iff no recordable stock has a trade above 0 shares, otherwise the recorded stock with its details and side label, and never crashes |
| MaxHand.AsWrittenBound | find_max_hand.py:45-47 | as written, the maximum is at least every examined stock's largest trade and is 0 when no stock is recorded |
| MaxHand.AsWrittenNotFound | find_max_hand.py:63 | as written, no stock is recorded iff no examined stock has a trade above 0 shares |
| MaxHand.AsWrittenLeader | find_max_hand.py:45-47 | as written, the recorded stock is the earliest examined one of the recorded size |
| MaxHand.AsWrittenReport | find_max_hand.py:63-73 | as written, "not found" iff no examined stock has a trade above 0 shares, and a crash exactly when a stock is recorded without details |
| MaxHand.AsWrittenAgrees | find_max_hand.py:45-55 | when every examined file has all detail columns, the as-written scan equals the whole-update scan |
| MaxHand.AsWrittenCrashes | find_max_hand.py:45-66 | as written, a single STAR file without `Price` records a stock with empty details, and the report raises |
| MaxHand.AsWrittenMismatch | find_max_hand.py:45-61 | as written, a larger trade in a file without `Price` takes the stock and the size, but keeps the previous stock's details |

## Left out
- The tkinter window, its widgets, table filling and status texts, and the
  threads and `root.after` calls (big_trade_analyzer.py:126-309). Only the
  guard of `analyze_data` is modelled.
- The status messages, which are not modelled:
  - the progress callback messages and the progress percentage
    (big_trade_analyzer.py:37-45, 78-82);
  - every `print` of find_max_hand.py.
- `glob`, `os.path.join`, `os.path.basename` and the fixed directory name.
  The listing is a parameter, and a file carries its base name.
- `pd.read_csv` and `str.strip` on column names. A file's content is given
  as the stripped column names plus typed rows. Blank cells (NaN) are not
  modelled: every present column has a value in every row.
- `random.sample`. The sample is a parameter satisfying `IsSample`.
- Floating point. `Volume / 100`, `round(..., 2)` and NaN are not modelled:
  volumes are integer shares, and the lemmas above relate them to real lots.
  - The source sorts on float sums of float quotients rounded to two
    decimals. That agrees with sorting on share sums only while the
    accumulated float error stays below 0.005 lots. The rounding is also
    what makes equal share sums tie. Larger errors are not modelled.
- The unused `MARKET_MAP` constant (big_trade_analyzer.py:10-14).
- `BigTrade.AnalyzeGuard`: `int()` is not modelled. Its outcome is a
  parameter.
- `BigTrade.Analyzer.AnalyzeBigTrades`: the result dictionary's insertion
  order is not modelled. It is a `map` from market to table.
- Facts about the analyzer that the model keeps as the code has them:
  - codes starting `68` are filed under 沪市 like any other code starting
    `6` (big_trade_analyzer.py:68); there is no separate STAR dictionary;
  - only volume thresholds exist (big_trade_analyzer.py:95-96);
  - codes are not checked to be numeric, and a code matching no prefix
    still goes into 全部股票 (big_trade_analyzer.py:75);
  - the sample is `random.sample` of `min(500, n)` files of the whole
    listing (big_trade_analyzer.py:34-35).
- `MaxHand.FindMaxHandInStar` implements the whole-update scan (see
  Findings). The as-written scan is a function, `ScanAsWritten`, with its
  own lemmas.

## Findings

| source | as written | input that shows it | evidently intended | confidence | as-written member | corrected member |
|---|---|---|---|---|---|---|
| find_max_hand.py:45-55 | `max_hand` and `max_hand_stock` are assigned before the details dictionary is built; a missing `Price`, `DealTime`, `TradingDay` or `Side` column raises `KeyError` there, the `except` continues, and the two variables stay updated while `max_hand_details` keeps its old value | one STAR file `deal_680001.csv` with only a `Volume` column and one trade of 500 shares: the stock is recorded with details `{}`, and line 66 raises `KeyError: 'volume_hand'`; with a complete file of 100 shares before it, the report shows that file's trade under the other stock's code | a stock whose details cannot be read is skipped like any other file that raises, so the three variables always describe one trade | not executed | MaxHand.AsWrittenCrashes, MaxHand.AsWrittenMismatch | MaxHand.ScanConsistent, MaxHand.FindMaxHandInStar |
