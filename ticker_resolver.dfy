/**
 * The ticker map: `{TICKER: ten-digit CIK}` built from the SEC's
 * company-tickers list, and the lookup of a ticker in it. The download of
 * the list is not part of the model: its decoded entries are an input.
 */
module TickerResolver {
  import opened Wrappers
  import opened Text
  import SecClient

  /** One value of the company-tickers JSON object. */
  datatype TickerEntry = TickerEntry(cikStr: int, ticker: string, title: string)

  function Pow10(k: nat): (r: nat)
    ensures r >= 1
  {
    if k == 0 then 1 else 10 * Pow10(k - 1)
  }

  lemma {:induction false} DecimalLength(n: nat, k: nat)
    requires 1 <= k && n < Pow10(k)
    ensures |DecimalString(n)| <= k
  {
    if n >= 10 {
      assert k >= 2;
      DecimalLength(n / 10, k - 1);
    }
  }

  /** `f'{n:010d}'`: zero-padded to ten characters, the padding going after a minus sign. */
  function FormatCik(n: int): (r: string)
    ensures 0 <= n < Pow10(10) ==> |r| == 10 && IsNumeral(r)
    ensures n >= 0 ==> exists k: nat :: r == Zeros(k) + DecimalString(n)
    ensures n < 0 ==> exists k: nat :: r == "-" + Zeros(k) + DecimalString(-n)
  {
    if n >= 0 then
      var d := DecimalString(n);
      assert ZeroPad(d, 10) == Zeros(if |d| < 10 then 10 - |d| else 0) + d;
      if n < Pow10(10) then DecimalLength(n, 10); ZeroPad(d, 10) else ZeroPad(d, 10)
    else
      var d := DecimalString(-n);
      assert ZeroPad(d, 9) == Zeros(if |d| < 9 then 9 - |d| else 0) + d;
      "-" + ZeroPad(d, 9)
  }

  /** The map the loop builds: each entry in turn sets its upper-cased ticker, so a later entry overrides an earlier one. */
  function TickerMapOf(entries: seq<TickerEntry>): map<string, string> {
    if entries == [] then map[]
    else
      var last := entries[|entries| - 1];
      TickerMapOf(entries[..|entries| - 1])[Upper(last.ticker) := FormatCik(last.cikStr)]
  }

  /** `load_ticker_map` after the download: fill the mapping entry by entry. */
  method LoadTickerMap(entries: seq<TickerEntry>) returns (mapping: map<string, string>)
    ensures mapping == TickerMapOf(entries)
  {
    mapping := map[];
    var i := 0;
    while i < |entries|
      invariant 0 <= i <= |entries|
      invariant mapping == TickerMapOf(entries[..i])
    {
      var entry := entries[i];
      var ticker := Upper(entry.ticker);
      var cik := FormatCik(entry.cikStr);
      assert entries[..i + 1][..i] == entries[..i];
      mapping := mapping[ticker := cik];
      i := i + 1;
    }
    assert entries[..i] == entries;
  }

  /** Entry `i` is the last one whose upper-cased ticker is `k`. */
  predicate LastWithKey(entries: seq<TickerEntry>, k: string, i: int) {
    0 <= i < |entries| && Upper(entries[i].ticker) == k &&
    forall j :: i < j < |entries| ==> Upper(entries[j].ticker) != k
  }

  /** Every key of the map is the upper-cased ticker of some entry. */
  lemma {:induction false} TickerMapKeysFromEntries(entries: seq<TickerEntry>, k: string)
    requires k in TickerMapOf(entries)
    ensures exists i :: 0 <= i < |entries| && Upper(entries[i].ticker) == k
  {
    var p := entries[..|entries| - 1];
    if Upper(entries[|entries| - 1].ticker) != k {
      assert k in TickerMapOf(p);
      TickerMapKeysFromEntries(p, k);
      var i :| 0 <= i < |p| && Upper(p[i].ticker) == k;
      assert entries[i] == p[i];
    }
  }

  /** The upper-cased ticker of every entry is a key of the map. */
  lemma {:induction false} TickerMapHasEntry(entries: seq<TickerEntry>, i: int)
    requires 0 <= i < |entries|
    ensures Upper(entries[i].ticker) in TickerMapOf(entries)
  {
    var p := entries[..|entries| - 1];
    if i < |p| {
      TickerMapHasEntry(p, i);
      assert p[i] == entries[i];
    }
  }

  /** The keys of the map are exactly the upper-cased tickers of the entries. */
  lemma {:induction false} TickerMapKeys(entries: seq<TickerEntry>, k: string)
    ensures k in TickerMapOf(entries) <==> exists i :: 0 <= i < |entries| && Upper(entries[i].ticker) == k
  {
    if k in TickerMapOf(entries) {
      TickerMapKeysFromEntries(entries, k);
    }
    if exists i :: 0 <= i < |entries| && Upper(entries[i].ticker) == k {
      var i :| 0 <= i < |entries| && Upper(entries[i].ticker) == k;
      TickerMapHasEntry(entries, i);
    }
  }

  /** The index of the last entry whose upper-cased ticker is `k`, or -1. */
  function LastIndex(entries: seq<TickerEntry>, k: string): (r: int)
    ensures -1 <= r < |entries|
  {
    if entries == [] then -1
    else if Upper(entries[|entries| - 1].ticker) == k then |entries| - 1
    else LastIndex(entries[..|entries| - 1], k)
  }

  lemma {:induction false} LastIndexIsLast(entries: seq<TickerEntry>, k: string)
    requires LastIndex(entries, k) >= 0
    ensures LastWithKey(entries, k, LastIndex(entries, k))
  {
    var n := |entries|;
    if Upper(entries[n - 1].ticker) != k {
      var p := entries[..n - 1];
      LastIndexIsLast(p, k);
      var i := LastIndex(p, k);
      assert entries[i] == p[i];
      forall j | i < j < n ensures Upper(entries[j].ticker) != k {
        if j < n - 1 {
          assert entries[j] == p[j];
        }
      }
    }
  }

  /** A key of the map holds the padded CIK of the LAST entry with that upper-cased ticker. */
  lemma {:induction false} TickerMapLastWins(entries: seq<TickerEntry>, k: string)
    requires k in TickerMapOf(entries)
    ensures LastIndex(entries, k) >= 0 && LastWithKey(entries, k, LastIndex(entries, k))
    ensures TickerMapOf(entries)[k] == FormatCik(entries[LastIndex(entries, k)].cikStr)
  {
    var n := |entries|;
    var p := entries[..n - 1];
    var last := entries[n - 1];
    if Upper(last.ticker) != k {
      assert k in TickerMapOf(p);
      TickerMapLastWins(p, k);
      assert entries[LastIndex(p, k)] == p[LastIndex(p, k)];
    }
    LastIndexIsLast(entries, k);
  }

  /** `ticker_to_cik`: `None` for an empty ticker, otherwise the map's value for the upper-cased ticker, if any. */
  function TickerToCik(tickerMap: map<string, string>, ticker: string): (r: Option<string>)
    ensures ticker == "" ==> r == None
    ensures r.Some? <==> ticker != "" && Upper(ticker) in tickerMap
    ensures r.Some? ==> r.value == tickerMap[Upper(ticker)]
  {
    if ticker == "" then None
    else if Upper(ticker) in tickerMap then Some(tickerMap[Upper(ticker)])
    else None
  }

  /** Lookup ignores the case of ASCII letters. */
  lemma {:induction false} TickerLookupCaseInsensitive(tickerMap: map<string, string>, ticker: string)
    ensures TickerToCik(tickerMap, ticker) == TickerToCik(tickerMap, Upper(ticker))
  {
    UpperIdempotent(ticker);
  }

  /**
   * Resolving a ticker against the loaded map finds the last entry whose
   * ticker matches it case-insensitively, and for a CIK below 10^10 the
   * answer is ten digits long.
   */
  lemma {:induction false} ResolveLoadedTicker(entries: seq<TickerEntry>, ticker: string)
    ensures TickerToCik(TickerMapOf(entries), ticker).Some? <==>
      ticker != "" && exists i :: 0 <= i < |entries| && Upper(entries[i].ticker) == Upper(ticker)
    ensures TickerToCik(TickerMapOf(entries), ticker).Some? ==>
      var i := LastIndex(entries, Upper(ticker));
      LastWithKey(entries, Upper(ticker), i) &&
      TickerToCik(TickerMapOf(entries), ticker) == Some(FormatCik(entries[i].cikStr)) &&
      (0 <= entries[i].cikStr < Pow10(10) ==> |FormatCik(entries[i].cikStr)| == 10)
  {
    TickerMapKeys(entries, Upper(ticker));
    if Upper(ticker) in TickerMapOf(entries) {
      TickerMapLastWins(entries, Upper(ticker));
    }
  }

  /**
   * Padding a CIK here and stripping it with `str(int(...))` when the filing
   * URL is built gives back the plain decimal CIK.
   */
  lemma {:induction false} CikRoundTrip(n: int, accession: string, primaryDoc: string)
    ensures SecClient.BuildFilingUrl(FormatCik(n), accession, primaryDoc)
      == Success(SecClient.ArchivesPrefix + IntString(n) + "/" + SecClient.RemoveDashes(accession) + "/" + primaryDoc)
  {
    if n >= 0 {
      var k: nat :| FormatCik(n) == Zeros(k) + DecimalString(n);
      PaddedParse(k, n);
    } else {
      var k: nat :| FormatCik(n) == "-" + Zeros(k) + DecimalString(-n);
      PaddedParse(k, -n);
    }
  }
}
