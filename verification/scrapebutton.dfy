/** The "scrape now" button (src/components/ScrapeNowButton.js): a click is
    ignored while a scrape runs or the cooldown lasts; otherwise it asks
    the main process to make sure the browser is up, then to scrape the
    active OTAs, and ends in the cooldown whatever happened. The preload
    bridge is described by what it provides and how its calls answer. */
module ScrapeButton {
  import opened Maybe

  /** `COOLDOWN_TIME`, in milliseconds. */
  const CooldownMillis: nat := 10 * 1000

  const NoOtaMessage: string := "활성화된 OTA가 없습니다."
  const EnsureFailedMessage: string := "브라우저 세션 복구 실패! 다시 시도해주세요."
  const ScrapeFailedMessage: string := "스크랩 요청에 실패했습니다."

  datatype State = State(isScraping: bool, cooldown: bool)

  const Idle: State := State(false, false)

  /** `window.Electron` as the click sees it: which members exist, whether
      the ensure-browser call reports success, and whether the scrape call
      resolves. */
  datatype Bridge = Bridge(
    hasInvoke: bool,
    ensureSucceeds: bool,
    hasScrapeNow: bool,
    hasLog: bool,
    hasEnv: bool,
    scrapeResolves: bool)

  /** A call to the main process. */
  datatype Call = EnsureBrowser | ScrapeNow(hotelId: string, otas: seq<string>)

  /** What one click did: the state afterwards, the calls it made in
      order, the alert it raised, and whether it started the cooldown
      timer. */
  datatype Click = Click(state: State, calls: seq<Call>, alert: Option<string>, timerStarted: bool)

  predicate Busy(s: State)
  {
    s.isScraping || s.cooldown
  }

  /** The body of the `try` block, from a bridge that passed the checks up
      to the point of failure: the calls made and the alert raised. */
  function TryScrape(hotelId: string, otas: seq<string>, b: Bridge): (r: (seq<Call>, Option<string>))
    ensures !b.hasInvoke ==> r == ([], Some(ScrapeFailedMessage))
    ensures b.hasInvoke ==> |r.0| >= 1 && r.0[0] == EnsureBrowser
    ensures ScrapeNow(hotelId, otas) in r.0 <==> b.hasInvoke && b.ensureSucceeds && b.hasScrapeNow && b.hasLog && b.hasEnv
    ensures r.1.None? <==> b.hasInvoke && b.ensureSucceeds && b.hasScrapeNow && b.hasLog && b.hasEnv && b.scrapeResolves
    ensures b.hasInvoke && !b.ensureSucceeds ==> r == ([EnsureBrowser], Some(EnsureFailedMessage))
  {
    if !b.hasInvoke then ([], Some(ScrapeFailedMessage))
    else if !b.ensureSucceeds then ([EnsureBrowser], Some(EnsureFailedMessage))
    else if !b.hasScrapeNow || !b.hasLog || !b.hasEnv then ([EnsureBrowser], Some(ScrapeFailedMessage))
    else ([EnsureBrowser, ScrapeNow(hotelId, otas)], if b.scrapeResolves then None else Some(ScrapeFailedMessage))
  }

  /** `handleScrapeNow`. `activeOTAs` is `None` when the prop is missing. */
  function HandleScrapeNow(s: State, hotelId: string, activeOTAs: Option<seq<string>>, b: Bridge): (r: Click)
    ensures Busy(s) ==> r == Click(s, [], None, false)
    ensures !Busy(s) && (activeOTAs.None? || |activeOTAs.value| == 0) ==> r == Click(s, [], Some(NoOtaMessage), false)
    ensures r.timerStarted <==> !Busy(s) && activeOTAs.Some? && |activeOTAs.value| > 0
    ensures r.timerStarted ==> r.state == State(false, true)
    ensures !r.timerStarted ==> r.state == s && r.calls == []
    ensures forall c :: c in r.calls && c.ScrapeNow? ==> c == ScrapeNow(hotelId, activeOTAs.value)
    ensures (exists c :: c in r.calls && c.ScrapeNow?) ==> EnsureBrowser in r.calls && b.ensureSucceeds
  {
    if Busy(s) then Click(s, [], None, false)
    else if activeOTAs.None? || |activeOTAs.value| == 0 then Click(s, [], Some(NoOtaMessage), false)
    else
      var (calls, alert) := TryScrape(hotelId, activeOTAs.value, b);
      Click(State(false, true), calls, alert, true)
  }

  /** The timer set in `finally` firing `CooldownMillis` later. */
  function CooldownEnds(s: State): (r: State)
    ensures !r.cooldown && r.isScraping == s.isScraping
  {
    s.(cooldown := false)
  }

  /** A click that got past the guards blocks every click until its
      cooldown ends, and after that the next click is handled again. */
  lemma CooldownBlocksUntilItEnds(s: State, hotelId: string, otas: seq<string>, b: Bridge,
                                  hotelId2: string, otas2: Option<seq<string>>, b2: Bridge)
    requires !Busy(s) && |otas| > 0
    ensures var after := HandleScrapeNow(s, hotelId, Some(otas), b).state;
            && HandleScrapeNow(after, hotelId2, otas2, b2) == Click(after, [], None, false)
            && !Busy(CooldownEnds(after))
  {
  }

  /** With a bridge that has everything and answers success, a click from
      rest makes exactly the two calls, ensure first, and raises no alert. */
  lemma HealthyClick(hotelId: string, otas: seq<string>)
    requires |otas| > 0
    ensures HandleScrapeNow(Idle, hotelId, Some(otas), Bridge(true, true, true, true, true, true))
              == Click(State(false, true), [EnsureBrowser, ScrapeNow(hotelId, otas)], None, true)
  {
  }
}
