/** The IPC handlers of the Electron main process (main.mjs): the manual
    scrape request, the ensure-browser request and the access-token store.
    They drive the one `ScraperManager` instance. */
module Ipc {
  import opened Maybe
  import opened ScraperManager

  /** The object a handler resolves with. */
  datatype Reply = Reply(success: bool, message: Option<string>)

  const NoOtaMessage: string := "No OTA to scrape."

  /** The `scrapeNow` handler. `otaNames` is `None` when the request has no
      list. The reply is `Err` when the handler's promise rejects: the
      loop does not catch an error `ensureBrowser` throws. */
  function HandleScrapeNow(m: Manager, w: World, otaNames: Option<seq<string>>): (r: (Out, Result<Reply>))
    ensures otaNames.None? || otaNames.value == [] ==>
              r.0 == Out(m, w, [], None) && r.1 == Ok(Reply(false, Some(NoOtaMessage)))
    ensures r.1.Ok? && r.1.value.success ==> otaNames.Some? && otaNames.value != [] && r.1.value.message.None?
    ensures otaNames.Some? && otaNames.value != [] ==>
              && r.0 == ScrapeAll(m, w, otaNames.value)
              && (r.1.Ok? <==> r.0.error.None?)
              && (r.1.Ok? ==> r.1.value == Reply(true, None))
  {
    if otaNames.None? || |otaNames.value| == 0 then (Out(m, w, [], None), Ok(Reply(false, Some(NoOtaMessage))))
    else
      var out := ScrapeAll(m, w, otaNames.value);
      if out.error.Some? then (out, Err(out.error.value)) else (out, Ok(Reply(true, None)))
  }

  /** A non-empty request resolves with success whatever the adapters do,
      and invokes the supported names once each in the requested order. */
  lemma NonEmptyRequestSucceeds(m: Manager, w: World, names: seq<string>)
    requires names != [] && m.initialized && m.browser.Some?
    requires m.browser.value.connected && m.browser.value.alive
    ensures var r := HandleScrapeNow(m, w, Some(names));
            r.1 == Ok(Reply(true, None)) && r.0.scraped == Supported(names)
  {
    ScrapeAllNeverThrowsWhenHealthy(m, w, names);
    ScrapeAllInvokesSupported(m, w, names);
  }

  /** With a healthy browser no reconnection is attempted, so the loop
      cannot throw. */
  lemma {:induction false} ScrapeAllNeverThrowsWhenHealthy(m: Manager, w: World, names: seq<string>)
    requires m.initialized && m.browser.Some? && m.browser.value.connected && m.browser.value.alive
    decreases |names|
    ensures ScrapeAll(m, w, names).error.None?
  {
    if |names| > 0 {
      var first := ScrapeNow(m, w, names[0]);
      assert first.m == m && first.w == w;
      ScrapeAllNeverThrowsWhenHealthy(first.m, first.w, names[1..]);
    }
  }

  /** The `scraperManagerEnsureBrowser` handler: it catches the error and
      reports its message. */
  function HandleEnsureBrowser(m: Manager, w: World): (r: (Out, Reply))
    ensures r.1.success <==> EnsureBrowser(m, w).error.None?
    ensures !r.1.success ==> r.1.message == EnsureBrowser(m, w).error
    ensures r.1.success ==> r.1.message.None?
    ensures r.0.m == EnsureBrowser(m, w).m
  {
    var out := EnsureBrowser(m, w);
    match out.error
    case Some(e) => (out, Reply(false, Some(e)))
    case None => (out, Reply(true, None))
  }

  /** The persistent store, reduced to the key the handlers use. */
  datatype Store = Store(accessToken: Option<string>)

  /** `store-set-token`. */
  function SetToken(s: Store, token: string): (r: Store)
    ensures r.accessToken == Some(token)
  {
    s.(accessToken := Some(token))
  }

  /** `store-get-token`; `None` is `undefined`. */
  function GetToken(s: Store): Option<string>
  {
    s.accessToken
  }

  /** What was last stored is what is read back; a later set replaces an
      earlier one. */
  lemma TokenRoundTrip(s: Store, t1: string, t2: string)
    ensures GetToken(SetToken(s, t1)) == Some(t1)
    ensures GetToken(SetToken(SetToken(s, t1), t2)) == Some(t2)
  {
  }
}
