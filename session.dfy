/**
 The scanner page's state and its event handlers. The component's state
 variables are the fields of `Session`, the browser's local storage is a
 `Storage` value held beside them, and each handler is a method that performs its whole update
 as one step (the simulated two-second delay is not modelled).
 */
module Page {
  import opened Text
  import opened Scan

  /** What the page keeps in local storage under its three keys, as decoded
      values; `None` is an absent key. */
  datatype Storage = Storage(
    scanHistory: Option<seq<ScanResult>>,
    stats: Option<Stats>,
    theme: Option<Theme>)
  {
    /** Stored values of the kind a scanning session writes. Nothing checks
        this on loading. */
    predicate Valid() {
      && (scanHistory.Some? ==> WellFormedHistory(scanHistory.value))
      && (stats.Some? ==> Consistent(stats.value))
    }
  }

  class Session {
    var theme: Theme
    /** The text in the URL input field. */
    var url: string
    var scanHistory: seq<ScanResult>
    var stats: Stats
    var currentResult: Option<ScanResult>
    /** The browser's local storage, as this page sees it. */
    var storage: Storage

    /** What every sequence of handlers keeps, starting from the initial
        state: the counters add up and the history is bounded and holds only
        results the classifier produces. */
    ghost predicate Valid()
      reads this
    {
      // `Consistent(stats)`, written out: applied to the literal initial
      // counters, the predicate sends the solver into a matching loop.
      && stats.total == stats.threats + stats.safe
      && WellFormedHistory(scanHistory)
      && (currentResult.Some? ==> WellFormed(currentResult.value))
    }

    /** The new state records the scan `r` on top of history `h0` and
        counters `s0`, and writes both over those in storage `st0`. */
    ghost predicate Recorded(r: ScanResult, h0: seq<ScanResult>, s0: Stats, st0: Storage)
      reads this
    {
      && currentResult == Some(r)
      && scanHistory == PushHistory(h0, r)
      && stats == BumpStats(s0, r.result)
      && storage == st0.(scanHistory := Some(scanHistory), stats := Some(stats))
    }

    /** The component's initial state, before stored values are loaded. */
    constructor(storage: Storage)
      ensures this.storage == storage
      ensures theme == Light && url == [] && scanHistory == []
      ensures stats.total == 0 && stats.threats == 0 && stats.safe == 0 && currentResult == None
      ensures Valid()
    {
      this.storage := storage;
      theme := Light;
      url := [];
      scanHistory := [];
      stats := Stats(0, 0, 0);
      currentResult := None;
    }

    /** The mount effect: each stored value replaces the current one. */
    method Load()
      modifies this
      ensures url == old(url) && currentResult == old(currentResult) && storage == old(storage)
      ensures scanHistory == if storage.scanHistory.Some? then storage.scanHistory.value else old(scanHistory)
      ensures stats == if storage.stats.Some? then storage.stats.value else old(stats)
      ensures theme == if storage.theme.Some? then storage.theme.value else old(theme)
      ensures old(Valid()) && storage.Valid() ==> Valid()
    {
      if storage.scanHistory.Some? {
        scanHistory := storage.scanHistory.value;
      }
      if storage.stats.Some? {
        stats := storage.stats.value;
      }
      if storage.theme.Some? {
        theme := storage.theme.value;
      }
    }

    method ToggleTheme()
      modifies this
      ensures url == old(url) && scanHistory == old(scanHistory) && stats == old(stats)
      ensures currentResult == old(currentResult)
      ensures theme == Flip(old(theme))
      ensures storage == old(storage).(theme := Some(theme))
    {
      theme := Flip(theme);
      storage := storage.(theme := Some(theme));
    }

    /** The input field's change handler. */
    method SetUrl(text: string)
      modifies this
      ensures url == text
      ensures theme == old(theme) && scanHistory == old(scanHistory) && stats == old(stats)
      ensures currentResult == old(currentResult) && storage == old(storage)
    {
      url := text;
    }

    /** One scan of `urlToAnalyze`, at time `now`, with the random draw
        `draw` in [0, 1). */
    method Analyze(urlToAnalyze: string, now: string, draw: real)
      requires 0.0 <= draw < 1.0
      modifies this
      ensures theme == old(theme) && url == old(url)
      ensures Recorded(MakeResult(urlToAnalyze, now, draw), old(scanHistory), old(stats), old(storage))
      ensures old(Valid()) ==> Valid()
    {
      var result := MakeResult(urlToAnalyze, now, draw);
      var newHistory := PushHistory(scanHistory, result);
      var newStats := BumpStats(stats, result.result);
      scanHistory := newHistory;
      stats := newStats;
      currentResult := Some(result);
      storage := storage.(scanHistory := Some(newHistory), stats := Some(newStats));
    }

    /** Form submission: scans the trimmed input, or does nothing when the
        trimmed input is empty. */
    method HandleSubmit(now: string, draw: real)
      requires 0.0 <= draw < 1.0
      modifies this
      ensures theme == old(theme) && url == old(url)
      ensures Trim(url) == [] ==>
        && scanHistory == old(scanHistory) && stats == old(stats)
        && currentResult == old(currentResult) && storage == old(storage)
      ensures Trim(url) != [] ==>
        Recorded(MakeResult(Trim(url), now, draw), old(scanHistory), old(stats), old(storage))
      ensures old(Valid()) ==> Valid()
    {
      var trimmed := Trim(url);
      if trimmed != [] {
        Analyze(trimmed, now, draw);
      }
    }

    /** Removes every history entry stamped `dateToDelete`; the counters and
        the current result stay as they are. */
    method DeleteFromHistory(dateToDelete: string)
      modifies this
      ensures theme == old(theme) && url == old(url) && stats == old(stats)
      ensures currentResult == old(currentResult)
      ensures scanHistory == DeleteByDate(old(scanHistory), dateToDelete)
      ensures storage == old(storage).(scanHistory := Some(scanHistory))
      ensures old(Valid()) ==> Valid()
    {
      if Valid() {
        DeleteKeepsWellFormed(scanHistory, dateToDelete);
      }
      var newHistory := DeleteByDate(scanHistory, dateToDelete);
      scanHistory := newHistory;
      storage := storage.(scanHistory := Some(newHistory));
    }

    /** Puts `urlToRescan` in the input field and scans it as it is, without
        trimming. */
    method Rescan(urlToRescan: string, now: string, draw: real)
      requires 0.0 <= draw < 1.0
      modifies this
      ensures url == urlToRescan && theme == old(theme)
      ensures Recorded(MakeResult(urlToRescan, now, draw), old(scanHistory), old(stats), old(storage))
      ensures old(Valid()) ==> Valid()
    {
      SetUrl(urlToRescan);
      Analyze(urlToRescan, now, draw);
    }
  }

  /** Opening the page: the component's initial state, then the mount effect
      that loads what `saved` holds. */
  method Mount(saved: Storage) returns (page: Session)
    ensures fresh(page) && page.storage == saved
    ensures page.scanHistory == if saved.scanHistory.Some? then saved.scanHistory.value else []
    ensures page.stats == if saved.stats.Some? then saved.stats.value else Stats(0, 0, 0)
    ensures page.theme == if saved.theme.Some? then saved.theme.value else Light
    ensures page.url == [] && page.currentResult == None
    ensures saved.Valid() ==> page.Valid()
  {
    page := new Session(saved);
    page.Load();
  }

  /** A first visit: type `typed` with white space around it and submit. The
      scan records the trimmed text, and reopening the page on what was stored
      shows the same history and counters. */
  method ScanThenReopen(before: string, typed: string, after: string, now: string, draw: real)
    requires AllSpace(before) && AllSpace(after) && IsTrimmed(typed) && typed != []
    requires 0.0 <= draw < 1.0
  {
    var page := Mount(Storage(None, None, None));
    page.SetUrl(before + typed + after);
    TrimPadded(before, typed, after);
    page.HandleSubmit(now, draw);
    assert page.currentResult.value.url == typed;
    assert page.scanHistory == [page.currentResult.value];
    assert page.stats.total == 1 && page.Valid();

    var reopened := Mount(page.storage);
    assert reopened.scanHistory == page.scanHistory && reopened.stats == page.stats;
  }
}
