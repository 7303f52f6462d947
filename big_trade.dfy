/** The big-trade analyzer: it loads a random sample of per-stock trade files
    into a stock dictionary and four market dictionaries (all stocks,
    Shanghai, Shenzhen, ChiNext), then reports for every market the stocks
    that have big buys or big sells, ranked by big-buy volume and then
    big-sell volume. */
module BigTrade {
  import opened Text
  import opened Trades
  import opened OrderedMap
  import opened Detection
  import opened Ranking

  /** The keys of `market_data`: 全部股票, 沪市, 深市, 创业板. */
  datatype Market = AllStocks | Shanghai | Shenzhen | ChiNext

  const Markets: set<Market> := {AllStocks, Shanghai, Shenzhen, ChiNext}

  /** The order in which the analysis visits the markets (dictionary order). */
  const MarketOrder: seq<Market> := [AllStocks, Shanghai, Shenzhen, ChiNext]

  // ---------------------------------------------------------------------
  // Stock codes and market segments

  /** `filename.split('_')[-1].split('.')[0]` */
  function StockCode(fileName: string): (code: string)
    ensures '_' !in code && '.' !in code
  {
    var last := Last(Split(fileName, '_'));
    SplitPieces(fileName, '_');
    SplitKeepsOut(last, '.', '_');
    SplitPieces(last, '.');
    Split(last, '.')[0]
  }

  /** What precedes the code in a file name: everything up to the last '_'. */
  function BeforeCode(fileName: string): string
  {
    var parts := Split(fileName, '_');
    if |parts| == 1 then [] else Join(parts[..|parts| - 1], '_') + "_"
  }

  /** What follows the code: everything from the first '.' after the last '_'. */
  function AfterCode(fileName: string): string
  {
    var pieces := Split(Last(Split(fileName, '_')), '.');
    if |pieces| == 1 then [] else "." + Join(pieces[1..], '.')
  }

  /** The code sits in the file name after the last '_' (or at its start)
      and runs up to the first '.' after it (or to the end). */
  lemma StockCodeInName(fileName: string)
    ensures fileName == BeforeCode(fileName) + StockCode(fileName) + AfterCode(fileName)
    ensures BeforeCode(fileName) == [] || BeforeCode(fileName)[|BeforeCode(fileName)| - 1] == '_'
    ensures '_' !in AfterCode(fileName)
    ensures AfterCode(fileName) == [] || AfterCode(fileName)[0] == '.'
  {
    var last := Last(Split(fileName, '_'));
    LastPiece(fileName, '_');
    FirstPiece(last, '.');
    SplitPieces(fileName, '_');
    Regroup(fileName, BeforeCode(fileName), last, StockCode(fileName), AfterCode(fileName));
  }

  lemma Regroup(s: string, before: string, last: string, code: string, after: string)
    requires s == before + last && last == code + after && '_' !in last
    ensures s == before + code + after && '_' !in after
  {
    forall k | 0 <= k < |after| ensures after[k] != '_' {
      assert after[k] == last[|code| + k];
    }
  }

  /** A well-formed name `<anything>_<code>.<ext>` yields its code. */
  lemma StockCodeOfName(prefix: string, code: string, ext: string)
    requires '_' !in code && '.' !in code && '_' !in ext
    ensures StockCode(prefix + "_" + code + "." + ext) == code
  {
    var tail := code + "." + ext;
    assert prefix + "_" + code + "." + ext == prefix + ['_'] + tail;
    SplitConcat(prefix, tail, '_');
    SplitNoSep(tail, '_');
    assert tail == code + ['.'] + ext;
    SplitConcat(code, ext, '.');
    SplitNoSep(code, '.');
  }

  /** A name without `_` before its code, `<code>.<ext>`, yields its code. */
  lemma StockCodeOfBareName(code: string, ext: string)
    requires '_' !in code && '.' !in code && '_' !in ext
    ensures StockCode(code + "." + ext) == code
  {
    var tail := code + "." + ext;
    SplitNoSep(tail, '_');
    assert tail == code + ['.'] + ext;
    SplitConcat(code, ext, '.');
    SplitNoSep(code, '.');
  }

  /** The market a code is filed under besides 全部股票, by the first prefix
      that matches: '6' Shanghai, else '3' ChiNext, else '0' Shenzhen. */
  function Classify(code: string): (m: Option<Market>)
    ensures m != Some(AllStocks)
    ensures m == Some(Shanghai) <==> StartsWith(code, "6")
    ensures m == Some(ChiNext) <==> StartsWith(code, "3")
    ensures m == Some(Shenzhen) <==> StartsWith(code, "0")
    ensures m == None <==> !StartsWith(code, "6") && !StartsWith(code, "3") && !StartsWith(code, "0")
  {
    if StartsWith(code, "6") then Some(Shanghai)
    else if StartsWith(code, "3") then Some(ChiNext)
    else if StartsWith(code, "0") then Some(Shenzhen)
    else None
  }

  // ---------------------------------------------------------------------
  // The loaded index: `stock_data` and `market_data`

  /** `market_data`: one dictionary per market key. */
  datatype MarketData = MarketData(all: Dict<Sheet>, shanghai: Dict<Sheet>, shenzhen: Dict<Sheet>, chiNext: Dict<Sheet>)
  {
    /** `market_data[m]` */
    function Get(m: Market): (d: Dict<Sheet>)
      ensures Valid() ==> d.Valid()
    {
      match m
      case AllStocks => all
      case Shanghai => shanghai
      case Shenzhen => shenzhen
      case ChiNext => chiNext
    }

    ghost predicate Valid()
    {
      all.Valid() && shanghai.Valid() && shenzhen.Valid() && chiNext.Valid()
    }
  }

  datatype Index = Index(stockData: map<string, Sheet>, marketData: MarketData)

  /** The codes of `codes` filed under market `m`, in order. */
  function InSegment(codes: seq<string>, m: Market): seq<string>
  {
    if codes == [] then []
    else InSegment(codes[..|codes| - 1], m)
         + (if Classify(codes[|codes| - 1]) == Some(m) then [codes[|codes| - 1]] else [])
  }

  lemma InSegmentAppend(codes: seq<string>, c: string, m: Market)
    ensures InSegment(codes + [c], m) == InSegment(codes, m) + (if Classify(c) == Some(m) then [c] else [])
  {
    assert (codes + [c])[..|codes|] == codes;
  }

  /** The frames of the stocks filed under market `m`. */
  function Restrict(frames: map<string, Sheet>, m: Market): map<string, Sheet>
  {
    map c | c in frames && Classify(c) == Some(m) :: frames[c]
  }

  lemma RestrictPut(frames: map<string, Sheet>, c: string, df: Sheet, m: Market)
    ensures Restrict(frames[c := df], m)
            == if Classify(c) == Some(m) then Restrict(frames, m)[c := df] else Restrict(frames, m)
  {
  }

  /** Market `m` holds exactly the loaded stocks filed under it, with the
      same frames, in the order they entered 全部股票. */
  ghost predicate SegmentView(ix: Index, m: Market)
  {
    && ix.marketData.Get(m).values == Restrict(ix.stockData, m)
    && ix.marketData.Get(m).keys == InSegment(ix.marketData.all.keys, m)
  }

  /** The invariant `load_data` keeps: four dictionaries, 全部股票 equal to
      `stock_data`, and each segment its restriction by prefix. */
  ghost predicate Consistent(ix: Index)
  {
    && ix.marketData.Valid()
    && ix.marketData.all.values == ix.stockData
    && SegmentView(ix, Shanghai)
    && SegmentView(ix, Shenzhen)
    && SegmentView(ix, ChiNext)
  }

  /** What `BigTradeAnalyzer.__init__` starts with. */
  function EmptyIndex(): (ix: Index)
    ensures Consistent(ix)
  {
    var ix := Index(map[], MarketData(Empty(), Empty(), Empty(), Empty()));
    assert Restrict(map[], Shanghai) == map[];
    assert Restrict(map[], Shenzhen) == map[];
    assert Restrict(map[], ChiNext) == map[];
    ix
  }

  /** The body of the `try` in `load_data`: reading raises for an unreadable
      file, and `df['Volume']` raises when the column is missing. */
  function ReadForLoad(f: File): (r: Option<Sheet>)
    ensures r.Some? <==> f.content.Readable? && Volume in f.content.sheet.columns
    ensures r.Some? ==> r.value == f.content.sheet
  {
    match f.content
    case Unreadable => None
    case Readable(sheet) => if Volume in sheet.columns then Some(sheet) else None
  }

  /** File `f` is loaded, and loaded under code `c`. */
  predicate Loads(f: File, c: string)
  {
    StockCode(f.name) == c && ReadForLoad(f).Some?
  }

  /** One iteration of the loop of `load_data`. */
  function LoadFile(ix: Index, f: File): Index
    requires Consistent(ix)
  {
    match ReadForLoad(f)
    case None => ix
    case Some(df) =>
      var code := StockCode(f.name);
      Index(ix.stockData[code := df], Filed(ix.marketData, code, df))
  }

  /** The loop of `load_data` over the selected files, from a given state. */
  function LoadAll(ix: Index, files: seq<File>): (r: Index)
    requires Consistent(ix)
    ensures Consistent(r)
  {
    if files == [] then ix
    else
      var prev := LoadAll(ix, files[..|files| - 1]);
      LoadFileConsistent(prev, files[|files| - 1]);
      LoadFile(prev, files[|files| - 1])
  }

  /** The loop of `load_data` one file further. */
  lemma LoadAllStep(ix: Index, files: seq<File>, i: nat)
    requires Consistent(ix) && i < |files|
    ensures LoadAll(ix, files[..i + 1]) == LoadFile(LoadAll(ix, files[..i]), files[i])
  {
    assert files[..i + 1][..i] == files[..i];
  }

  lemma LoadFileConsistent(ix: Index, f: File)
    requires Consistent(ix)
    ensures Consistent(LoadFile(ix, f))
  {
    match ReadForLoad(f)
    case None =>
    case Some(df) =>
      FilingConsistent(ix, StockCode(f.name), df);
  }

  lemma FilingConsistent(ix: Index, code: string, df: Sheet)
    requires Consistent(ix)
    ensures Consistent(Index(ix.stockData[code := df], Filed(ix.marketData, code, df)))
  {
    var md := ix.marketData;
    assert SegmentView(ix, Shanghai) && SegmentView(ix, Shenzhen) && SegmentView(ix, ChiNext);
    SegmentStep(ix.stockData, md.all, md.shanghai, code, df, Shanghai);
    SegmentStep(ix.stockData, md.all, md.shenzhen, code, df, Shenzhen);
    SegmentStep(ix.stockData, md.all, md.chiNext, code, df, ChiNext);
  }

  /** Where `load_data` files a loaded frame, with the if-chain written out
      per market. */
  function Filed(md: MarketData, code: string, df: Sheet): MarketData
    requires md.Valid()
  {
    MarketData(md.all.Put(code, df),
               FileUnder(md.shanghai, code, df, Shanghai),
               FileUnder(md.shenzhen, code, df, Shenzhen),
               FileUnder(md.chiNext, code, df, ChiNext))
  }

  function FileUnder(d: Dict<Sheet>, code: string, df: Sheet, m: Market): Dict<Sheet>
    requires d.Valid()
  {
    if Classify(code) == Some(m) then d.Put(code, df) else d
  }

  /** Filing one frame keeps a segment equal to the restriction of the
      stocks, in the order of 全部股票. */
  lemma SegmentStep(stocks: map<string, Sheet>, all: Dict<Sheet>, d: Dict<Sheet>, code: string, df: Sheet, m: Market)
    requires all.Valid() && d.Valid() && all.values == stocks && m != AllStocks
    requires d.values == Restrict(stocks, m) && d.keys == InSegment(all.keys, m)
    ensures FileUnder(d, code, df, m).Valid()
    ensures FileUnder(d, code, df, m).values == Restrict(stocks[code := df], m)
    ensures FileUnder(d, code, df, m).keys == InSegment(all.Put(code, df).keys, m)
  {
    RestrictPut(stocks, code, df, m);
    if code !in all.values {
      InSegmentAppend(all.keys, code, m);
    }
  }

  /** One iteration adds the file's frame under its code, or changes nothing
      when the file is skipped; 全部股票 gains at most one key. */
  lemma LoadFileShape(ix: Index, f: File)
    requires Consistent(ix)
    ensures LoadFile(ix, f).stockData
            == if ReadForLoad(f).Some? then ix.stockData[StockCode(f.name) := f.content.sheet] else ix.stockData
    ensures |LoadFile(ix, f).marketData.all.keys| <= |ix.marketData.all.keys| + 1
    ensures ReadForLoad(f).None? ==> LoadFile(ix, f) == ix
  {
  }

  /** A code is in `stock_data` after loading iff it was there before or
      some selected file loads under it. */
  lemma {:induction false} LoadedCodes(ix: Index, files: seq<File>, c: string)
    requires Consistent(ix)
    ensures c in LoadAll(ix, files).stockData
            <==> c in ix.stockData || exists i :: 0 <= i < |files| && Loads(files[i], c)
  {
    if files != [] {
      var init, f := files[..|files| - 1], files[|files| - 1];
      LoadedCodes(ix, init, c);
      LoadFileShape(LoadAll(ix, init), f);
      assert c in LoadAll(ix, files).stockData <==> c in LoadAll(ix, init).stockData || Loads(f, c);
      SomeLoads(files, init, c);
    }
  }

  /** Some file loads under `c` iff one before the last does or the last does. */
  lemma SomeLoads(files: seq<File>, init: seq<File>, c: string)
    requires files != [] && init == files[..|files| - 1]
    ensures (exists i :: 0 <= i < |files| && Loads(files[i], c))
            <==> (exists i :: 0 <= i < |init| && Loads(init[i], c)) || Loads(files[|files| - 1], c)
  {
    if exists i :: 0 <= i < |files| && Loads(files[i], c) {
      var i :| 0 <= i < |files| && Loads(files[i], c);
      LoadsEarlier(files, init, c, i);
    }
    if exists i :: 0 <= i < |init| && Loads(init[i], c) {
      var i :| 0 <= i < |init| && Loads(init[i], c);
      assert files[i] == init[i];
    }
  }

  lemma LoadsEarlier(files: seq<File>, init: seq<File>, c: string, i: nat)
    requires files != [] && init == files[..|files| - 1]
    requires i < |files| && Loads(files[i], c)
    ensures (exists k :: 0 <= k < |init| && Loads(init[k], c)) || Loads(files[|files| - 1], c)
  {
    if i < |init| {
      assert init[i] == files[i];
    }
  }

  /** The frame kept for a code is the one of the last selected file that
      loads under it; earlier files with the same code are overwritten. */
  lemma {:induction false} LastLoadWins(ix: Index, files: seq<File>, c: string, i: nat)
    requires Consistent(ix)
    requires i < |files| && Loads(files[i], c)
    requires forall j :: i < j < |files| ==> !Loads(files[j], c)
    ensures c in LoadAll(ix, files).stockData
    ensures LoadAll(ix, files).stockData[c] == files[i].content.sheet
  {
    var init := files[..|files| - 1];
    LoadFileShape(LoadAll(ix, init), files[|files| - 1]);
    if i < |files| - 1 {
      assert forall j :: i < j < |init| ==> init[j] == files[j];
      LastLoadWins(ix, init, c, i);
    }
  }

  /** Every loaded code is in 全部股票 with the same frame, and it is in
      Shanghai, ChiNext or Shenzhen exactly when its prefix says so: in at
      most one of them, and in none when no prefix matches. */
  lemma Placement(ix: Index, c: string)
    requires Consistent(ix)
    ensures c in ix.marketData.all.values <==> c in ix.stockData
    ensures c in ix.marketData.all.values ==> ix.marketData.all.values[c] == ix.stockData[c]
    ensures c in ix.marketData.shanghai.values <==> c in ix.stockData && StartsWith(c, "6")
    ensures c in ix.marketData.chiNext.values <==> c in ix.stockData && StartsWith(c, "3")
    ensures c in ix.marketData.shenzhen.values <==> c in ix.stockData && StartsWith(c, "0")
    ensures !(c in ix.marketData.shanghai.values && c in ix.marketData.chiNext.values)
    ensures !(c in ix.marketData.shanghai.values && c in ix.marketData.shenzhen.values)
    ensures !(c in ix.marketData.chiNext.values && c in ix.marketData.shenzhen.values)
  {
    assert SegmentView(ix, Shanghai) && SegmentView(ix, Shenzhen) && SegmentView(ix, ChiNext);
  }

  /** Every market holds only loaded stocks, with their frames. */
  lemma SegmentWithin(ix: Index, m: Market, c: string)
    requires Consistent(ix) && c in ix.marketData.Get(m).values
    ensures c in ix.stockData && ix.marketData.Get(m).values[c] == ix.stockData[c]
  {
    assert SegmentView(ix, Shanghai) && SegmentView(ix, Shenzhen) && SegmentView(ix, ChiNext);
  }

  /** Loading adds at most one new code per selected file. */
  lemma {:induction false} LoadAllGrowth(ix: Index, files: seq<File>)
    requires Consistent(ix)
    ensures |LoadAll(ix, files).marketData.all.keys| <= |ix.marketData.all.keys| + |files|
    ensures ix.stockData.Keys <= LoadAll(ix, files).stockData.Keys
  {
    if files != [] {
      LoadAllGrowth(ix, files[..|files| - 1]);
      LoadFileShape(LoadAll(ix, files[..|files| - 1]), files[|files| - 1]);
    }
  }

  // ---------------------------------------------------------------------
  // The random sample

  function Min(a: int, b: int): int
  {
    if a < b then a else b
  }

  /** What `random.sample(csv_files, min(500, total_files))` returns, as
      positions in the directory listing: that many, all distinct. */
  ghost predicate IsSample(total: nat, sample: seq<nat>)
  {
    && |sample| == Min(500, total)
    && (forall i :: 0 <= i < |sample| ==> sample[i] < total)
    && (forall i, j :: 0 <= i < j < |sample| ==> sample[i] != sample[j])
  }

  /** Every directory has a sample, so the loader can always be called. */
  lemma SampleExists(total: nat)
    ensures IsSample(total, seq(Min(500, total), i => i))
  {
  }

  function Pick(files: seq<File>, sample: seq<nat>): seq<File>
    requires forall i :: 0 <= i < |sample| ==> sample[i] < |files|
  {
    seq(|sample|, i requires 0 <= i < |sample| => files[sample[i]])
  }

  /** The selection is what lines 34-35 promise: `min(500, n)` files of the
      listing, none chosen twice (no file more often than it is listed). */
  lemma SampleSelection(files: seq<File>, sample: seq<nat>)
    requires IsSample(|files|, sample)
    ensures |Pick(files, sample)| == Min(500, |files|)
    ensures multiset(Pick(files, sample)) <= multiset(files)
  {
    PickSubset(files, sample);
  }

  lemma {:induction false} PickSubset(files: seq<File>, sample: seq<nat>)
    requires forall i :: 0 <= i < |sample| ==> sample[i] < |files|
    requires forall i, j :: 0 <= i < j < |sample| ==> sample[i] != sample[j]
    ensures multiset(Pick(files, sample)) <= multiset(files)
    decreases |files|
  {
    if files != [] {
      var n := |files| - 1;
      var init, y := files[..n], files[n];
      assert files == init + [y];
      if p :| 0 <= p < |sample| && sample[p] == n {
        var rest := sample[..p] + sample[p + 1..];
        forall i | 0 <= i < |rest| ensures rest[i] < n {
          if i < p {
            assert rest[i] == sample[i];
          } else {
            assert rest[i] == sample[i + 1];
          }
        }
        forall i, j | 0 <= i < j < |rest| ensures rest[i] != rest[j] {
          var i', j' := if i < p then i else i + 1, if j < p then j else j + 1;
          assert rest[i] == sample[i'] && rest[j] == sample[j'];
        }
        PickSubset(init, rest);
        PickWithout(files, sample, p);
        PickWithin(files, init, rest);
      } else {
        PickSubset(init, sample);
        PickWithin(files, init, sample);
      }
    }
  }

  /** Dropping one sampled position drops that one file. */
  lemma PickWithout(files: seq<File>, sample: seq<nat>, p: nat)
    requires forall i :: 0 <= i < |sample| ==> sample[i] < |files|
    requires p < |sample|
    ensures multiset(Pick(files, sample))
            == multiset(Pick(files, sample[..p] + sample[p + 1..])) + multiset{files[sample[p]]}
  {
    var a, b := sample[..p], sample[p + 1..];
    assert sample == a + [sample[p]] + b;
    assert Pick(files, sample) == Pick(files, a) + [files[sample[p]]] + Pick(files, b);
    assert Pick(files, a + b) == Pick(files, a) + Pick(files, b);
  }

  /** Positions inside a prefix of the listing pick the same files from it. */
  lemma PickWithin(files: seq<File>, init: seq<File>, sample: seq<nat>)
    requires |init| <= |files| && init == files[..|init|]
    requires forall i :: 0 <= i < |sample| ==> sample[i] < |init|
    ensures Pick(files, sample) == Pick(init, sample)
  {
  }

  // ---------------------------------------------------------------------
  // The analysis

  /** The rows appended to one market's `market_results`, in dictionary order. */
  function Collect(codes: seq<string>, frames: map<string, Sheet>, buyThreshold: int, sellThreshold: int): seq<Summary>
    requires forall i :: 0 <= i < |codes| ==> codes[i] in frames
  {
    if codes == [] then []
    else
      var c := codes[|codes| - 1];
      Collect(codes[..|codes| - 1], frames, buyThreshold, sellThreshold) + Reported(c, frames[c], buyThreshold, sellThreshold)
  }

  /** What one stock adds to its market's list: its summary, when it has a
      big buy or a big sell. */
  function Reported(code: string, df: Sheet, buyThreshold: int, sellThreshold: int): seq<Summary>
  {
    var s := Summarize(code, df.rows, buyThreshold, sellThreshold);
    if Qualifies(s) then [s] else []
  }

  /** One more stock of a dictionary visited: its summary is appended when
      it qualifies, and it has `Side` when the ones before it had. */
  lemma CollectStep(d: Dict<Sheet>, j: nat, buyThreshold: int, sellThreshold: int)
    requires d.Indexed() && j < |d.keys|
    ensures Collect(d.keys[..j + 1], d.values, buyThreshold, sellThreshold)
            == Collect(d.keys[..j], d.values, buyThreshold, sellThreshold)
               + Reported(d.keys[j], d.values[d.keys[j]], buyThreshold, sellThreshold)
  {
    assert d.keys[..j + 1][..j] == d.keys[..j];
  }

  lemma SideStep(d: Dict<Sheet>, j: nat)
    requires d.Indexed() && j < |d.keys|
    requires AllHaveSide(d.keys[..j], d.values) && Side in d.values[d.keys[j]].columns
    ensures AllHaveSide(d.keys[..j + 1], d.values)
  {
    assert d.keys[..j + 1][..j] == d.keys[..j];
  }

  /** Every listed stock's frame has a `Side` column. */
  ghost predicate AllHaveSide(codes: seq<string>, frames: map<string, Sheet>)
  {
    forall i :: 0 <= i < |codes| ==> codes[i] in frames && Side in frames[codes[i]].columns
  }

  /** When all listed stocks have `Side`, every stock of the dictionary has it. */
  lemma AllHaveSideMeans(d: Dict<Sheet>)
    requires d.Indexed() && AllHaveSide(d.keys[..|d.keys|], d.values)
    ensures forall c :: c in d.values ==> Side in d.values[c].columns
  {
    assert d.keys[..|d.keys|] == d.keys;
    forall c | c in d.values ensures Side in d.values[c].columns {
      var k :| 0 <= k < |d.keys| && d.keys[k] == c;
    }
  }

  /** One market's sorted result list. */
  function MarketTable(d: Dict<Sheet>, buyThreshold: int, sellThreshold: int): seq<Summary>
    requires d.Indexed()
  {
    Rank(Collect(d.keys, d.values, buyThreshold, sellThreshold))
  }

  /** `analyze_big_trades` either returns a result list for each market or
      raises `KeyError` when some loaded frame has no `Side` column (every
      loaded frame is visited, under 全部股票 first). */
  datatype Analysis = Tables(tables: map<Market, seq<Summary>>) | KeyError(column: Column)

  predicate MissingSide(ix: Index)
  {
    exists c :: c in ix.stockData && Side !in ix.stockData[c].columns
  }

  function Analyze(ix: Index, buyThreshold: int, sellThreshold: int): Analysis
    requires Consistent(ix)
  {
    if MissingSide(ix) then KeyError(Side)
    else Tables(map m | m in Markets :: MarketTable(ix.marketData.Get(m), buyThreshold, sellThreshold))
  }

  /** The rows collected for a market are exactly the summaries of its
      stocks that have a big buy or a big sell. */
  lemma {:induction false} CollectMembers(codes: seq<string>, frames: map<string, Sheet>, buyThreshold: int, sellThreshold: int, e: Summary)
    requires forall i :: 0 <= i < |codes| ==> codes[i] in frames
    ensures e in Collect(codes, frames, buyThreshold, sellThreshold)
            <==> e.code in codes && e == Summarize(e.code, frames[e.code].rows, buyThreshold, sellThreshold) && Qualifies(e)
  {
    if codes != [] {
      var init := codes[..|codes| - 1];
      CollectMembers(init, frames, buyThreshold, sellThreshold, e);
      assert codes == init + [codes[|codes| - 1]];
    }
  }

  /** No summary is collected twice, since dictionary keys are distinct. */
  lemma {:induction false} CollectOnce(codes: seq<string>, frames: map<string, Sheet>, buyThreshold: int, sellThreshold: int, e: Summary)
    requires forall i :: 0 <= i < |codes| ==> codes[i] in frames
    requires forall i, j :: 0 <= i < j < |codes| ==> codes[i] != codes[j]
    ensures multiset(Collect(codes, frames, buyThreshold, sellThreshold))[e] <= 1
  {
    if codes != [] {
      var init, c := codes[..|codes| - 1], codes[|codes| - 1];
      CollectOnce(init, frames, buyThreshold, sellThreshold, e);
      CollectMembers(init, frames, buyThreshold, sellThreshold, e);
      assert c !in init by {
        forall k | 0 <= k < |init| ensures init[k] != c {
          assert codes[k] == init[k];
        }
      }
    }
  }

  /** What one market's result list holds and in which order: exactly the
      qualifying summaries of the market's stocks, each once, ranked
      non-increasing by (big-buy volume, big-sell volume), and stocks with
      equal volumes in the order they were loaded. */
  lemma MarketTableFacts(d: Dict<Sheet>, buyThreshold: int, sellThreshold: int, e: Summary)
    requires d.Valid()
    ensures Ranked(MarketTable(d, buyThreshold, sellThreshold))
    ensures multiset(MarketTable(d, buyThreshold, sellThreshold))
            == multiset(Collect(d.keys, d.values, buyThreshold, sellThreshold))
    ensures e in MarketTable(d, buyThreshold, sellThreshold)
            <==> e.code in d.values && e == Summarize(e.code, d.values[e.code].rows, buyThreshold, sellThreshold) && Qualifies(e)
    ensures multiset(MarketTable(d, buyThreshold, sellThreshold))[e] <= 1
    ensures WithKeyOf(MarketTable(d, buyThreshold, sellThreshold), e)
            == WithKeyOf(Collect(d.keys, d.values, buyThreshold, sellThreshold), e)
  {
    var c := Collect(d.keys, d.values, buyThreshold, sellThreshold);
    RankSorts(c);
    CollectMembers(d.keys, d.values, buyThreshold, sellThreshold, e);
    CollectOnce(d.keys, d.values, buyThreshold, sellThreshold, e);
    RankStable(c, e);
    assert e in Rank(c) <==> e in multiset(c);
  }

  /** The analysis fails exactly when a loaded frame lacks `Side`; otherwise
      it has the four market keys and each list is that market's table. */
  lemma AnalyzeShape(ix: Index, buyThreshold: int, sellThreshold: int)
    requires Consistent(ix)
    ensures Analyze(ix, buyThreshold, sellThreshold).KeyError? <==> MissingSide(ix)
    ensures Analyze(ix, buyThreshold, sellThreshold).Tables? ==>
      && Analyze(ix, buyThreshold, sellThreshold).tables.Keys == Markets
      && forall m :: m in Markets ==>
           Analyze(ix, buyThreshold, sellThreshold).tables[m] == MarketTable(ix.marketData.Get(m), buyThreshold, sellThreshold)
  {
  }

  /** A frame without `Side` in any market makes the analysis fail. */
  lemma AnalyzeFails(ix: Index, buyThreshold: int, sellThreshold: int, m: Market, c: string)
    requires Consistent(ix)
    requires c in ix.marketData.Get(m).values && Side !in ix.marketData.Get(m).values[c].columns
    ensures Analyze(ix, buyThreshold, sellThreshold) == KeyError(Side)
  {
    SegmentWithin(ix, m, c);
  }

  /** Result lists for the four markets, each that market's table, are the
      analysis when no frame lacks `Side`. */
  lemma AnalyzeSucceeds(ix: Index, buyThreshold: int, sellThreshold: int, results: map<Market, seq<Summary>>)
    requires Consistent(ix) && !MissingSide(ix)
    requires AllStocks in results && Shanghai in results && Shenzhen in results && ChiNext in results
    requires forall m :: m in results ==> results[m] == MarketTable(ix.marketData.Get(m), buyThreshold, sellThreshold)
    ensures Analyze(ix, buyThreshold, sellThreshold) == Tables(results)
  {
    var expected := map m | m in Markets :: MarketTable(ix.marketData.Get(m), buyThreshold, sellThreshold);
    forall m | m in results ensures m in Markets {
      match m
      case AllStocks =>
      case Shanghai =>
      case Shenzhen =>
      case ChiNext =>
    }
    assert results.Keys == Markets;
    forall m | m in results ensures results[m] == expected[m] {
    }
    assert results == expected;
  }

  // ---------------------------------------------------------------------
  // The guard of `BigTradeUI.analyze_data`

  predicate ThresholdInRange(t: int)
  {
    1 <= t <= 10000
  }

  /** What the button handler decides before analysing. The two entry texts
      are given already parsed by `int()`: `None` when it raises. */
  datatype Guard = RefuseNotLoaded | RefuseNotInteger | RefuseOutOfRange | Proceed(buy: int, sell: int)

  function AnalyzeGuard(isLoaded: bool, buyInput: Option<int>, sellInput: Option<int>): (g: Guard)
    ensures g.Proceed? <==> isLoaded && buyInput.Some? && sellInput.Some?
                            && ThresholdInRange(buyInput.value) && ThresholdInRange(sellInput.value)
    ensures g.Proceed? ==> g.buy == buyInput.value && g.sell == sellInput.value
    ensures !isLoaded ==> g == RefuseNotLoaded
    ensures isLoaded && (buyInput.None? || sellInput.None?) ==> g == RefuseNotInteger
    ensures (isLoaded && buyInput.Some? && sellInput.Some?
             && !(ThresholdInRange(buyInput.value) && ThresholdInRange(sellInput.value)))
            ==> g == RefuseOutOfRange
  {
    if !isLoaded then RefuseNotLoaded
    else if buyInput.None? || sellInput.None? then RefuseNotInteger
    else if !(ThresholdInRange(buyInput.value) && ThresholdInRange(sellInput.value)) then RefuseOutOfRange
    else Proceed(buyInput.value, sellInput.value)
  }

  // ---------------------------------------------------------------------
  // The analyzer object

  class Analyzer {
    var stockData: map<string, Sheet>
    var marketData: MarketData
    var isLoaded: bool

    ghost predicate Valid()
      reads this
    {
      Consistent(Index(stockData, marketData))
    }

    function State(): Index
      reads this
    {
      Index(stockData, marketData)
    }

    constructor ()
      ensures Valid() && State() == EmptyIndex() && !isLoaded
    {
      stockData := map[];
      marketData := EmptyIndex().marketData;
      isLoaded := false;
    }

    /** `load_data`: the sampled files are loaded one by one into the
        existing dictionaries (they are not cleared first). */
    method LoadData(files: seq<File>, sample: seq<nat>)
      requires Valid() && IsSample(|files|, sample)
      modifies this
      ensures Valid() && isLoaded
      ensures State() == LoadAll(old(State()), Pick(files, sample))
    {
      var selected := Pick(files, sample);
      var i := 0;
      while i < |selected|
        invariant 0 <= i <= |selected|
        invariant Valid()
        invariant State() == LoadAll(old(State()), selected[..i])
      {
        LoadOne(selected[i]);
        LoadAllStep(old(State()), selected, i);
        i := i + 1;
      }
      assert selected[..i] == selected;
      isLoaded := true;
    }

    /** The body of the loop of `load_data` for one file: a file that cannot
        be read or has no `Volume` column is skipped. */
    method LoadOne(f: File)
      requires Valid()
      modifies this
      ensures Valid()
      ensures State() == LoadFile(old(State()), f)
      ensures isLoaded == old(isLoaded)
    {
      ghost var before := State();
      var code := StockCode(f.name);
      var df := ReadForLoad(f);
      if df.Some? {
        stockData := stockData[code := df.value];
        FileFrame(code, df.value);
      }
      assert State() == LoadFile(before, f);
      LoadFileConsistent(before, f);
    }

    /** The if-chain of `load_data` that files a frame under its market,
        followed by the filing under 全部股票. */
    method FileFrame(code: string, df: Sheet)
      requires marketData.Valid()
      modifies this
      ensures marketData == Filed(old(marketData), code, df)
      ensures stockData == old(stockData) && isLoaded == old(isLoaded)
    {
      if StartsWith(code, "6") {
        marketData := marketData.(shanghai := marketData.shanghai.Put(code, df));
      } else if StartsWith(code, "3") {
        marketData := marketData.(chiNext := marketData.chiNext.Put(code, df));
      } else if StartsWith(code, "0") {
        marketData := marketData.(shenzhen := marketData.shenzhen.Put(code, df));
      }
      marketData := marketData.(all := marketData.all.Put(code, df));
    }

    /** `analyze_big_trades`: visits the markets in dictionary order,
        collects and sorts each market's list; the first frame found
        without `Side` raises. */
    method AnalyzeBigTrades(buyThreshold: int, sellThreshold: int) returns (r: Analysis)
      requires Valid()
      ensures r == Analyze(State(), buyThreshold, sellThreshold)
    {
      var results: map<Market, seq<Summary>> := map[];
      var mi := 0;
      while mi < |MarketOrder|
        invariant 0 <= mi <= |MarketOrder|
        invariant forall k :: 0 <= k < mi ==> MarketOrder[k] in results
        invariant forall m :: m in results ==>
          results[m] == MarketTable(marketData.Get(m), buyThreshold, sellThreshold)
        invariant mi > 0 ==> !MissingSide(State())
      {
        var market := MarketOrder[mi];
        var table := ScanMarket(marketData.Get(market), buyThreshold, sellThreshold);
        if table.None? {
          ghost var c :| c in marketData.Get(market).values && Side !in marketData.Get(market).values[c].columns;
          AnalyzeFails(State(), buyThreshold, sellThreshold, market, c);
          return KeyError(Side);
        }
        results := results[market := table.value];
        mi := mi + 1;
      }
      assert MarketOrder[0] in results && MarketOrder[1] in results;
      assert MarketOrder[2] in results && MarketOrder[3] in results;
      AnalyzeSucceeds(State(), buyThreshold, sellThreshold, results);
      r := Tables(results);
    }
  }

  /** The inner loop of `analyze_big_trades` for one market: the qualifying
      summaries in dictionary order, then the sort; `None` stands for the
      `KeyError` raised by a frame without `Side`. */
  method ScanMarket(stocks: Dict<Sheet>, buyThreshold: int, sellThreshold: int) returns (table: Option<seq<Summary>>)
    requires stocks.Indexed()
    ensures table.None? <==> exists c :: c in stocks.values && Side !in stocks.values[c].columns
    ensures table.Some? ==> table.value == MarketTable(stocks, buyThreshold, sellThreshold)
  {
    var marketResults: seq<Summary> := [];
    var j := 0;
    while j < |stocks.keys|
      invariant 0 <= j <= |stocks.keys|
      invariant marketResults == Collect(stocks.keys[..j], stocks.values, buyThreshold, sellThreshold)
      invariant AllHaveSide(stocks.keys[..j], stocks.values)
    {
      var code := stocks.keys[j];
      var df := stocks.values[code];
      if Side !in df.columns {
        assert code in stocks.values;
        return None;
      }
      var s := Summarize(code, df.rows, buyThreshold, sellThreshold);
      if Qualifies(s) {
        marketResults := marketResults + [s];
      }
      CollectStep(stocks, j, buyThreshold, sellThreshold);
      SideStep(stocks, j);
      j := j + 1;
    }
    AllHaveSideMeans(stocks);
    assert stocks.keys[..j] == stocks.keys;
    table := Some(Rank(marketResults));
  }

  /** `BigTradeUI.analyze_data` without the widgets: the analysis runs only
      when the data is loaded and both thresholds are integers in [1, 10000],
      and then with those thresholds. */
  method AnalyzeData(analyzer: Analyzer, buyInput: Option<int>, sellInput: Option<int>)
    returns (g: Guard, result: Option<Analysis>)
    requires analyzer.Valid()
    ensures g == AnalyzeGuard(analyzer.isLoaded, buyInput, sellInput)
    ensures result.Some? <==> g.Proceed?
    ensures result.Some? ==> result.value == Analyze(analyzer.State(), g.buy, g.sell)
  {
    g := AnalyzeGuard(analyzer.isLoaded, buyInput, sellInput);
    if g.Proceed? {
      var r := analyzer.AnalyzeBigTrades(g.buy, g.sell);
      result := Some(r);
    } else {
      result := None;
    }
  }
}
