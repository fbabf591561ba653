/** `findOrCreatePage(browser, urlKeyword, fallbackURL)`, identical in the
    GoodMotel and Agoda adapters: reuse the first open tab whose URL
    contains the keyword, otherwise open a new tab and navigate it to the
    fallback URL. Tabs are never closed. */
module Tabs {
  import opened Text
  import opened Maybe

  datatype Tab = Tab(url: string)

  /** The URL of a freshly opened tab. */
  const BlankUrl: string := "about:blank"

  /** The browser's tabs after the call, the index of the tab handed back
      (or the error the call threw), and whether a navigation was issued. */
  datatype PageAfter = PageAfter(tabs: seq<Tab>, page: Result<nat>, navigated: bool)

  /** `pages.find((p) => p.url().includes(urlKeyword))`, as an index. */
  function FindTab(tabs: seq<Tab>, keyword: string, from: nat): (r: Option<nat>)
    requires from <= |tabs|
    decreases |tabs| - from
    ensures r.Some? ==> from <= r.value < |tabs| && Contains(tabs[r.value].url, keyword)
    ensures r.Some? ==> forall j :: from <= j < r.value ==> !Contains(tabs[j].url, keyword)
    ensures r.None? ==> forall j :: from <= j < |tabs| ==> !Contains(tabs[j].url, keyword)
  {
    if from == |tabs| then None
    else if Contains(tabs[from].url, keyword) then Some(from)
    else FindTab(tabs, keyword, from + 1)
  }

  /** `findOrCreatePage`; `gotoSucceeds` is the outcome of the navigation
      to the fallback URL, which the browser decides. */
  function FindOrCreatePage(tabs: seq<Tab>, keyword: string, fallback: string, gotoSucceeds: bool): (r: PageAfter)
    ensures |tabs| <= |r.tabs| <= |tabs| + 1
    ensures r.tabs[..|tabs|] == tabs
    ensures r.page.Ok? ==> r.page.value < |r.tabs|
    ensures (exists j :: 0 <= j < |tabs| && Contains(tabs[j].url, keyword)) ==>
              && r.tabs == tabs && !r.navigated && r.page.Ok? && r.page.value < |tabs|
              && Contains(tabs[r.page.value].url, keyword)
              && forall j :: 0 <= j < r.page.value ==> !Contains(tabs[j].url, keyword)
    ensures (forall j :: 0 <= j < |tabs| ==> !Contains(tabs[j].url, keyword)) ==>
              && |r.tabs| == |tabs| + 1
              && (r.navigated <==> fallback != "")
              && (r.page.Err? <==> fallback != "" && !gotoSucceeds)
              && (r.page.Ok? ==> r.page.value == |tabs|)
              && (r.page.Ok? && fallback != "" ==> r.tabs[|tabs|].url == fallback)
  {
    match FindTab(tabs, keyword, 0)
    case Some(i) => PageAfter(tabs, Ok(i), false)
    case None =>
      if fallback == "" then PageAfter(tabs + [Tab(BlankUrl)], Ok(|tabs|), false)
      else if gotoSucceeds then PageAfter(tabs + [Tab(fallback)], Ok(|tabs|), true)
      else PageAfter(tabs + [Tab(BlankUrl)], Err("Navigation timeout"), true)
  }

  /** A second call with the same keyword after a successful creation
      reuses the created tab when the fallback URL carries the keyword: at
      most one tab is ever opened per keyword. */
  lemma SecondCallReuses(tabs: seq<Tab>, keyword: string, fallback: string, ok1: bool, ok2: bool)
    requires Contains(fallback, keyword)
    requires FindOrCreatePage(tabs, keyword, fallback, ok1).page.Ok?
    ensures var first := FindOrCreatePage(tabs, keyword, fallback, ok1);
            var second := FindOrCreatePage(first.tabs, keyword, fallback, ok2);
            second.tabs == first.tabs && !second.navigated && second.page.Ok?
  {
    var first := FindOrCreatePage(tabs, keyword, fallback, ok1);
    if forall j :: 0 <= j < |tabs| ==> !Contains(tabs[j].url, keyword) {
      if fallback == "" {
        assert keyword == "";
        assert OccursAt(first.tabs[|tabs|].url, keyword, 0);
      } else {
        assert first.tabs[|tabs|].url == fallback;
      }
    }
    var k :| 0 <= k < |first.tabs| && Contains(first.tabs[k].url, keyword);
  }
}
