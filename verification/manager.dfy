/** `ScraperManager` (electron/scrapers/scraperManager.js) as a state
    machine over {browser, initialized, jobs}. Connecting to Chrome, the
    liveness probe, closing the browser, the scraping switch, the stored
    hotel id and the hotel settings request are the outside world and come
    in as parameters; the adapters themselves are opaque, so a scrape is
    recorded as the adapter name it invoked. */
module ScraperManager {
  import opened Maybe
  import opened Seqs
  import opened Schedule
  import opened Otas

  /** A browser connection: `connected` is `isConnected()`, `alive` is
      whether the probe `newPage()` + `close()` succeeds. */
  datatype Browser = Browser(id: nat, connected: bool, alive: bool)

  datatype Manager = Manager(browser: Option<Browser>, initialized: bool, jobs: seq<Job>)

  /** The state the constructor creates. */
  const Fresh: Manager := Manager(None, false, [])

  /** The outcomes of successive `connectToChrome()` calls: call number `k`
      (counting from 0) yields `connect(k)`. */
  datatype World = World(connect: nat -> Result<Browser>, attempts: nat)

  function Connect(w: World): (Result<Browser>, World)
  {
    (w.connect(w.attempts), w.(attempts := w.attempts + 1))
  }

  /** The state after an operation, the world after it, the adapters it
      invoked in order, and the error it threw, if any. */
  datatype Out = Out(m: Manager, w: World, scraped: seq<string>, error: Option<string>)

  /** The keys of `scraperFunctions`. */
  const Adapters: seq<string> := ["Expedia", "Yanolja", "GoodHotel", "GoodMotel", "Agoda", "CoolStay", "Booking"]

  /** `initialize(browserInstance)`: a missing instance is replaced by a new
      connection; then the four jobs are registered. */
  function Initialize(m: Manager, w: World, given: Option<Browser>): (r: Out)
    ensures r.scraped == []
    ensures r.error.Some? <==> given.None? && w.connect(w.attempts).Err?
    ensures r.error.Some? ==> r.m == m
    ensures r.error.None? ==> && r.m.initialized && r.m.jobs == m.jobs + Registered
                              && r.m.browser == Some(if given.Some? then given.value else w.connect(w.attempts).value)
  {
    if given.None? then
      match Connect(w)
      case (Err(e), w') => Out(m, w', [], Some(e))
      case (Ok(b), w') => Out(Manager(Some(b), true, m.jobs + Registered), w', [], None)
    else Out(Manager(given, true, m.jobs + Registered), w, [], None)
  }

  /** `ensureBrowser()`. */
  function EnsureBrowser(m: Manager, w: World): (r: Out)
    ensures r.scraped == [] && r.m.initialized == m.initialized && r.m.jobs == m.jobs
    ensures var healthy := m.browser.Some? && m.browser.value.connected && m.browser.value.alive;
            && (healthy ==> r == Out(m, w, [], None))
            && (!healthy ==> r.w.attempts == w.attempts + 1)
            && (!healthy && w.connect(w.attempts).Ok? ==> r.error.None? && r.m.browser == Some(w.connect(w.attempts).value))
            && (!healthy && w.connect(w.attempts).Err? ==> r.error.Some? && r.m == m)
    ensures r.error.None? ==> r.m.browser.Some?
  {
    if m.browser.None? || !m.browser.value.connected || !m.browser.value.alive then
      match Connect(w)
      case (Err(e), w') => Out(m, w', [], Some(e))
      case (Ok(b), w') => Out(m.(browser := Some(b)), w', [], None)
    else Out(m, w, [], None)
  }

  /** `scrapeNow(hotelId, otaName)`. Adapter failures are caught and only
      logged, so an invoked adapter never makes the call throw. */
  function ScrapeNow(m: Manager, w: World, name: string): (r: Out)
    ensures !m.initialized || m.browser.None? ==> r == Out(m, w, [], None)
    ensures m.initialized && m.browser.Some? ==> r.m.initialized && r.m.jobs == m.jobs
    ensures r.error.Some? <==> m.initialized && m.browser.Some? && EnsureBrowser(m, w).error.Some?
    ensures r.error.None? ==> r.m.browser.Some? == m.browser.Some?
    ensures r.scraped == [] || r.scraped == [name]
    ensures r.scraped == [name] <==> m.initialized && m.browser.Some? && EnsureBrowser(m, w).error.None? && name in Adapters
  {
    if !m.initialized || m.browser.None? then Out(m, w, [], None)
    else
      var e := EnsureBrowser(m, w);
      if e.error.Some? then e
      else if name !in Adapters then e
      else e.(scraped := [name])
  }

  /** The sequential loop `for (const ota of names) await scrapeNow(...)`;
      a thrown error ends the loop and propagates. */
  function ScrapeAll(m: Manager, w: World, names: seq<string>): (r: Out)
    decreases |names|
    ensures !m.initialized || m.browser.None? ==> r == Out(m, w, [], None)
    ensures r.m.jobs == m.jobs && r.m.initialized == m.initialized
    ensures r.error.None? ==> r.m.browser.Some? == m.browser.Some?
  {
    if |names| == 0 then Out(m, w, [], None)
    else
      var first := ScrapeNow(m, w, names[0]);
      if first.error.Some? then first
      else
        var rest := ScrapeAll(first.m, first.w, names[1..]);
        rest.(scraped := first.scraped + rest.scraped)
  }

  /** The names of `names` that have an adapter, in order. */
  function Supported(names: seq<string>): (r: seq<string>)
    ensures |r| <= |names|
    ensures forall k :: 0 <= k < |r| ==> r[k] in Adapters && r[k] in names
  {
    if |names| == 0 then []
    else (if names[0] in Adapters then [names[0]] else []) + Supported(names[1..])
  }

  function HasAdapter(name: string): bool
  {
    name in Adapters
  }

  /** The supported names are exactly the names with an adapter, each as
      often and in the order they are given. */
  lemma {:induction false} SupportedFilters(names: seq<string>)
    ensures Supported(names) == Filter(names, HasAdapter)
  {
    if |names| > 0 {
      SupportedFilters(names[1..]);
    }
  }

  /** Once initialized with a browser, and if no reconnection fails, the
      loop invokes exactly the supported names, once each, in the given
      order; unsupported names are skipped. */
  lemma {:induction false} ScrapeAllInvokesSupported(m: Manager, w: World, names: seq<string>)
    requires m.initialized && m.browser.Some?
    decreases |names|
    ensures ScrapeAll(m, w, names).error.None? ==> ScrapeAll(m, w, names).scraped == Supported(names)
  {
    if |names| > 0 {
      var first := ScrapeNow(m, w, names[0]);
      if first.error.None? {
        ScrapeAllInvokesSupported(first.m, first.w, names[1..]);
      }
    }
  }

  /** One site in the hotel settings. */
  datatype Ota = Ota(name: string, isActive: bool)

  /** `activeOTAList.includes(name)`. */
  predicate IsActive(otas: seq<Ota>, name: string)
  {
    exists k :: 0 <= k < |otas| && otas[k].isActive && otas[k].name == name
  }

  /** The sites an automatic scrape visits: `availableOTAs` filtered by the
      active list, in `availableOTAs` order. */
  function ActiveInOrder(available: seq<string>, otas: seq<Ota>): (r: seq<string>)
    ensures |r| <= |available|
    ensures forall k :: 0 <= k < |r| ==> r[k] in available && IsActive(otas, r[k])
    ensures forall n :: n in available && IsActive(otas, n) ==> n in r
  {
    if |available| == 0 then []
    else
      var rest := ActiveInOrder(available[1..], otas);
      assert forall n :: n in available && n != available[0] ==> n in available[1..];
      (if IsActive(otas, available[0]) then [available[0]] else []) + rest
  }

  /** `autoScrape()`. `scraping` is `getScraping()`, `hotelId` the stored id
      (`""` when absent) and `settings` the outcome of
      `fetchHotelSettings`, whose value is `None` when the settings or their
      `otas` are missing. */
  function AutoScrape(m: Manager, w: World, scraping: bool, hotelId: string,
                      settings: Result<Option<seq<Ota>>>): (r: Out)
    ensures !m.initialized || m.browser.None? || !scraping || hotelId == "" ==> r == Out(m, w, [], None)
    ensures settings.Ok? && settings.value.None? ==> r == Out(m, w, [], None)
    ensures settings.Err? && m.initialized && m.browser.Some? && scraping && hotelId != "" ==>
              r == Out(m, w, [], Some(settings.message))
    ensures r.m.jobs == m.jobs && r.m.initialized == m.initialized
  {
    if !m.initialized || m.browser.None? then Out(m, w, [], None)
    else if !scraping then Out(m, w, [], None)
    else if hotelId == "" then Out(m, w, [], None)
    else
      match settings
      case Err(e) => Out(m, w, [], Some(e))
      case Ok(None) => Out(m, w, [], None)
      case Ok(Some(otas)) => ScrapeAll(m, w, ActiveInOrder(AvailableOtas, otas))
  }

  /** Every site of `availableOTAs` has an adapter. */
  lemma {:induction false} AvailableAreSupported(names: seq<string>)
    requires forall k :: 0 <= k < |names| ==> names[k] in AvailableOtas
    ensures Supported(names) == names
  {
    if |names| > 0 {
      var n := names[0];
      assert n in Adapters by {
        var i :| 0 <= i < |AvailableOtas| && AvailableOtas[i] == n;
        assert AvailableOtas[i] == Adapters[(i + 1) % 7];
      }
      assert forall k :: 0 <= k < |names[1..]| ==> names[1..][k] == names[k + 1];
      AvailableAreSupported(names[1..]);
      assert names == [n] + names[1..];
    }
  }

  /** An automatic scrape that throws nothing invokes each active site of
      `availableOTAs` once, in that order; active names outside
      `availableOTAs` are never invoked. */
  lemma AutoScrapeInvokesActive(m: Manager, w: World, hotelId: string, otas: seq<Ota>)
    requires m.initialized && m.browser.Some? && hotelId != ""
    ensures var r := AutoScrape(m, w, true, hotelId, Ok(Some(otas)));
            r.error.None? ==> r.scraped == ActiveInOrder(AvailableOtas, otas)
  {
    var names := ActiveInOrder(AvailableOtas, otas);
    ScrapeAllInvokesSupported(m, w, names);
    AvailableAreSupported(names);
  }

  /** `stopAll()`: every job is cancelled and the list emptied; then the
      browser, if any, is closed. `closeOk` is whether `close()` resolves;
      when it rejects, the error propagates before the browser and the
      initialized flag are reset. */
  function StopAll(m: Manager, closeOk: bool): (r: (Manager, Option<string>))
    ensures r.0.jobs == []
    ensures r.1.None? <==> m.browser.None? || closeOk
    ensures r.1.None? ==> r.0 == Fresh
    ensures r.1.Some? ==> r.0.browser == m.browser && r.0.initialized == m.initialized
  {
    if m.browser.Some? then
      if closeOk then (Manager(None, false, []), None)
      else (m.(jobs := []), Some("Failed to close the browser"))
    else (Manager(None, false, []), None)
  }

  /** After `stopAll`, no job fires at any time, and neither a manual nor
      an automatic scrape does anything until the next `initialize`. */
  lemma NothingRunsAfterStop(m: Manager, closeOk: bool, w: World, name: string, hour: int, minute: int,
                             scraping: bool, hotelId: string, settings: Result<Option<seq<Ota>>>)
    requires StopAll(m, closeOk).1.None?
    ensures var s := StopAll(m, closeOk).0;
            && Firings(s.jobs, hour, minute) == 0
            && ScrapeNow(s, w, name) == Out(s, w, [], None)
            && AutoScrape(s, w, scraping, hotelId, settings) == Out(s, w, [], None)
  {
  }

  /** A freshly constructed manager that is initialized once starts at
      most one automatic scrape in any minute; initializing twice
      registers every pattern twice. */
  lemma InitializeOnceFiresAtMostOnce(w: World, given: Option<Browser>, hour: int, minute: int)
    requires ValidTime(hour, minute)
    requires Initialize(Fresh, w, given).error.None?
    ensures Firings(Initialize(Fresh, w, given).m.jobs, hour, minute) <= 1
    ensures var once := Initialize(Fresh, w, given);
            var twice := Initialize(once.m, once.w, given);
            twice.error.None? ==> |twice.m.jobs| == 8
  {
    assert Fresh.jobs + Registered == Registered;
    RegisteredFiring(hour, minute);
  }
}
