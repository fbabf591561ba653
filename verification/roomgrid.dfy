/** The room grid (src/components/RoomGrid.js): the price the inline editor
    recomputes, the buttons each reservation card offers, the order the
    cards are laid out in, their numbers and their border colour. `now` is
    the current time, a parameter. */
module RoomGrid {
  import opened Js
  import opened Maybe
  import opened Text
  import opened Status
  import opened Booking
  import opened Sorting
  import opened Otas
  import opened RoomTypes
  import opened Grouping
  import opened Seqs

  // ---------------------------------------------------------------------
  // Price recalculation in the inline editor

  /** `calcNights(checkIn, checkOut)`: the stay in days, rounded up; `NaN`
      when either text is not a valid date. */
  function CalcNights(checkIn: Option<int>, checkOut: Option<int>): (n: Num)
    ensures n.NaN? <==> checkIn.None? || checkOut.None?
    ensures n.Int? ==> (n.v - 1) * MinutesPerDay < checkOut.value - checkIn.value <= n.v * MinutesPerDay
  {
    if checkIn.None? || checkOut.None? then NaN
    else Int(CeilDiv(checkOut.value - checkIn.value, MinutesPerDay))
  }

  /** One reservation's pending edits: field name to entered value. */
  type Edit = Fields

  /** `roomTypes.find((r) => r.type === roomInfo)`, from index `from`: the
      comparison is strict, so only a string equal to the type matches. */
  function FindByType(catalog: seq<RoomType>, info: Value, from: nat): (r: Option<nat>)
    decreases |catalog| - from
    ensures r.Some? ==> from <= r.value < |catalog| && info == Str(catalog[r.value].typeName)
    ensures r.Some? ==> forall k :: from <= k < r.value ==> info != Str(catalog[k].typeName)
    ensures r.None? ==> forall k :: from <= k < |catalog| ==> info != Str(catalog[k].typeName)
  {
    if from >= |catalog| then None
    else if info == Str(catalog[from].typeName) then Some(from)
    else FindByType(catalog, info, from + 1)
  }

  /** `selectedRoom ? selectedRoom.price : 0`. */
  function NightlyOf(catalog: seq<RoomType>, info: Value): (p: int)
    ensures FindByType(catalog, info, 0).None? ==> p == 0
    ensures FindByType(catalog, info, 0).Some? ==> p == catalog[FindByType(catalog, info, 0).value].price
  {
    match FindByType(catalog, info, 0)
    case None => 0
    case Some(i) => catalog[i].price
  }

  /** `recalcPrice(data)`. `parse` is `new Date(text)`, `None` for an
      invalid date. With a missing field the entered price (or 0) is kept;
      `NaN` nights make the text "NaN"; otherwise the price is the text of
      the nightly price times the nights, or the number 0 when the nights
      are not positive. */
  function RecalcPrice(e: Edit, catalog: seq<RoomType>, parse: Value -> Option<int>): (r: Value)
    ensures !Truthy(Get(e, "checkInDate")) || !Truthy(Get(e, "checkOutDate")) || !Truthy(Get(e, "roomInfo")) ==>
              r == Or(Get(e, "price"), Number(Int(0)))
    ensures Truthy(Get(e, "checkInDate")) && Truthy(Get(e, "checkOutDate")) && Truthy(Get(e, "roomInfo")) ==>
              var nights := CalcNights(parse(Get(e, "checkInDate")), parse(Get(e, "checkOutDate")));
              && (nights.NaN? ==> r == Str("NaN"))
              && (nights.Int? && nights.v <= 0 ==> r == Number(Int(0)))
              && (nights.Int? && nights.v > 0 ==>
                    r.Str? && StrToNumber(r.s) == Int(NightlyOf(catalog, Get(e, "roomInfo")) * nights.v))
  {
    var checkIn := Get(e, "checkInDate");
    var checkOut := Get(e, "checkOutDate");
    var info := Get(e, "roomInfo");
    if !Truthy(checkIn) || !Truthy(checkOut) || !Truthy(info) then Or(Get(e, "price"), Number(Int(0)))
    else
      var nights := CalcNights(parse(checkIn), parse(checkOut));
      if nights.NaN? then Str("NaN")
      else if nights.v <= 0 then Number(Int(0))
      else
        var total := NightlyOf(catalog, info) * nights.v;
        NumberOfString(total);
        Str(IntToString(total))
  }

  /** The edits that trigger a recalculation. */
  const RecalcFields: set<string> := {"checkInDate", "checkOutDate", "roomInfo"}

  /** `handleFieldChange(reservationId, field, value)` on the map of pending
      edits. A reservation without edits starts from an empty record. */
  function HandleFieldChange(edits: map<string, Edit>, id: string, field: string, value: Value,
                             catalog: seq<RoomType>, parse: Value -> Option<int>): (r: map<string, Edit>)
    ensures r.Keys == edits.Keys + {id}
    ensures forall other :: other in edits && other != id ==> r[other] == edits[other]
    ensures var prev := if id in edits then edits[id] else map[];
            && r[id].Keys == prev.Keys + {field} + (if field in RecalcFields then {"price"} else {})
            && Get(r[id], field) == value
            && (forall f :: f != field && f != "price" ==> Get(r[id], f) == Get(prev, f))
            && (field !in RecalcFields && field != "price" ==> Get(r[id], "price") == Get(prev, "price"))
            && (field in RecalcFields ==> Get(r[id], "price") == RecalcPrice(prev[field := value], catalog, parse))
  {
    var prev := if id in edits then edits[id] else map[];
    var updated := prev[field := value];
    var updated' := if field in RecalcFields then updated["price" := RecalcPrice(updated, catalog, parse)] else updated;
    edits[id := updated']
  }

  /** Editing the dates or the room of a valid stay prices it at the
      room's nightly price per started day, and a reversed stay at 0. */
  lemma EditedStayPrice(e: Edit, catalog: seq<RoomType>, parse: Value -> Option<int>, ci: int, co: int)
    requires Truthy(Get(e, "checkInDate")) && Truthy(Get(e, "checkOutDate")) && Truthy(Get(e, "roomInfo"))
    requires parse(Get(e, "checkInDate")) == Some(ci) && parse(Get(e, "checkOutDate")) == Some(co)
    ensures co <= ci ==> RecalcPrice(e, catalog, parse) == Number(Int(0))
    ensures co > ci ==>
              var days := CeilDiv(co - ci, MinutesPerDay);
              && days >= 1
              && ToNumber(RecalcPrice(e, catalog, parse)) == Int(NightlyOf(catalog, Get(e, "roomInfo")) * days)
  {
    var nights := CalcNights(Some(ci), Some(co));
    var r := RecalcPrice(e, catalog, parse);
    assert nights.Int? && nights.v == CeilDiv(co - ci, MinutesPerDay);
    if co > ci {
      assert nights.v >= 1;
      assert r.Str? && ToNumber(r) == StrToNumber(r.s);
    } else {
      assert nights.v <= 0;
    }
  }

  // ---------------------------------------------------------------------
  // The action buttons of a card

  const OnSite: string := "현장예약"

  predicate IsOta(res: Reservation)
  {
    res.siteName in AvailableOtas
  }

  /** `isCancelledStatus(reservationStatus || '')` or a cancelled id. */
  predicate IsCancelled(res: Reservation)
  {
    IsCancelledStatus(res.reservationStatus, None, None, None) || Contains(res.id, "Canceled")
  }

  predicate IsConfirmed(res: Reservation)
  {
    Lower(res.reservationStatus) == "confirmed"
  }

  /** `stayDuration <= 1`: both dates valid and at most a day apart. With an
      invalid date the duration is `NaN` and the comparison is false. */
  predicate ShortStay(res: Reservation)
  {
    res.parsedCheckIn.Some? && res.parsedCheckOut.Some? &&
    res.parsedCheckOut.value - res.parsedCheckIn.value <= MinutesPerDay
  }

  predicate CheckInPassed(res: Reservation, now: int)
  {
    res.parsedCheckIn.Some? && now > res.parsedCheckIn.value
  }

  /** 19:00 on the check-in day. */
  function SevenPm(checkIn: int): (t: int)
    ensures DayOf(t) == DayOf(checkIn) && t - StartOfDay(DayOf(checkIn)) == 19 * 60
  {
    StartOfDay(DayOf(checkIn)) + 19 * 60
  }

  predicate After7PmOnCheckInDay(res: Reservation, now: int)
  {
    res.parsedCheckIn.Some? && now >= SevenPm(res.parsedCheckIn.value)
  }

  /** `isAutoConfirmed`. */
  predicate AutoConfirmed(res: Reservation, now: int)
  {
    !IsCancelled(res) && !IsConfirmed(res) &&
    ((IsOta(res) && After7PmOnCheckInDay(res, now)) || (ShortStay(res) && CheckInPassed(res, now)))
  }

  /** The final override that takes delete and edit away. */
  predicate Frozen(res: Reservation, now: int)
  {
    !IsCancelled(res) && (IsConfirmed(res) || AutoConfirmed(res, now)) && ShortStay(res) && CheckInPassed(res, now)
  }

  /** Which buttons a card shows, and whether it shows the confirmed mark. */
  datatype Actions = Actions(canDelete: bool, canConfirm: bool, canEdit: bool, confirmed: bool)

  /** The decisions of `renderActionButtons(reservation)` at time `now`. */
  function ActionsOf(res: Reservation, now: int): (a: Actions)
    ensures a.confirmed <==> IsConfirmed(res) || AutoConfirmed(res, now)
    ensures IsOta(res) ==> && !a.canEdit && !a.canConfirm
                           && (a.canDelete <==> IsCancelled(res) || !a.confirmed)
    ensures res.siteName == OnSite ==> && (a.canDelete <==> IsCancelled(res) || !a.confirmed)
                                       && (a.canConfirm <==> !IsCancelled(res) && !a.confirmed)
                                       && (a.canEdit <==> !Frozen(res, now))
    ensures !IsOta(res) && res.siteName != OnSite ==> !a.canDelete && !a.canConfirm && !a.canEdit
  {
    var cancelled := IsCancelled(res);
    var finalConfirmed := IsConfirmed(res) || AutoConfirmed(res, now);
    var buttons :=
      if IsOta(res) then (cancelled || !finalConfirmed, false, false)
      else if res.siteName == OnSite then
        if cancelled || !finalConfirmed then (true, !cancelled, true) else (false, false, true)
      else (false, false, false);
    var frozen := !cancelled && finalConfirmed && ShortStay(res) && CheckInPassed(res, now);
    Actions(buttons.0 && !frozen, buttons.1, buttons.2 && !frozen, finalConfirmed)
  }

  /** Auto-confirmation never applies to a cancelled or an explicitly
      confirmed reservation, nor to one whose check-in is not a valid
      date. */
  lemma AutoConfirmationScope(res: Reservation, now: int)
    ensures AutoConfirmed(res, now) ==> !IsCancelled(res) && !IsConfirmed(res) && res.parsedCheckIn.Some?
  {
  }

  /** Time only adds confirmations and freezes: what is confirmed or frozen
      at `now` stays so at any later time. */
  lemma ConfirmationPersists(res: Reservation, now: int, later: int)
    requires now <= later
    ensures ActionsOf(res, now).confirmed ==> ActionsOf(res, later).confirmed
    ensures Frozen(res, now) ==> Frozen(res, later)
  {
  }

  /** An open OTA booking can be deleted until 19:00 on its check-in day,
      unless it is a stay of at most a day whose check-in has passed. */
  lemma OtaDeleteWindow(res: Reservation, now: int)
    requires IsOta(res) && !IsCancelled(res) && !IsConfirmed(res) && res.parsedCheckIn.Some?
    ensures ActionsOf(res, now).canDelete <==>
              now < SevenPm(res.parsedCheckIn.value) && !(ShortStay(res) && CheckInPassed(res, now))
  {
  }

  /** A stay of at most a day that has not been cancelled offers no button
      at all once its check-in has passed. */
  lemma ShortStayPastCheckInIsFrozen(res: Reservation, now: int)
    requires !IsCancelled(res) && ShortStay(res) && CheckInPassed(res, now)
    ensures var a := ActionsOf(res, now); !a.canDelete && !a.canConfirm && !a.canEdit && a.confirmed
  {
  }

  // ---------------------------------------------------------------------
  // Card order

  const NoSite: string := "정보 없음"
  const Daesil: string := "대실"

  /** `cur.siteName || '정보 없음'`. */
  function SiteKey(res: Reservation): (k: string)
    ensures k != ""
  {
    if res.siteName != "" then res.siteName else NoSite
  }

  predicate MentionsDaesil(res: Reservation)
  {
    Contains(res.customerName, Daesil) || Contains(res.roomInfo, Daesil)
  }

  /** `calcDayDifference(res)`: calendar days from check-in to check-out;
      `None` stands for `NaN` (an invalid date). */
  function DayDifference(res: Reservation): (d: Option<int>)
    ensures d.Some? <==> res.parsedCheckIn.Some? && res.parsedCheckOut.Some?
  {
    if res.parsedCheckIn.Some? && res.parsedCheckOut.Some? then
      Some(DayOf(res.parsedCheckOut.value) - DayOf(res.parsedCheckIn.value))
    else None
  }

  /** `get현장예약Category(res)`: 1 for a same-day stay, 2 for a one-night
      day-use ("대실") stay, 3 for the rest. */
  function Category(res: Reservation): (c: int)
    ensures 1 <= c <= 3
    ensures c == 1 <==> DayDifference(res) == Some(0)
    ensures c == 2 <==> DayDifference(res) == Some(1) && MentionsDaesil(res)
  {
    if DayDifference(res) == Some(0) then 1
    else if DayDifference(res) == Some(1) && MentionsDaesil(res) then 2
    else 3
  }

  /** The reservations of one site, in input order. */
  function OfSite(rs: seq<Reservation>, site: string): (r: seq<Reservation>)
    ensures forall k :: 0 <= k < |r| ==> SiteKey(r[k]) == site
  {
    Having(rs, SiteKey, site)
  }

  /** The 현장예약 group is ordered by category; the others stay as they
      are. */
  function SortOnSite(g: seq<Group<Reservation>>): (h: seq<Group<Reservation>>)
    ensures |h| == |g|
    ensures forall i :: 0 <= i < |g| ==> h[i].key == g[i].key
    ensures forall i :: 0 <= i < |g| && g[i].key != OnSite ==> h[i] == g[i]
    ensures forall i :: 0 <= i < |g| && g[i].key == OnSite ==> h[i].members == SortBy(g[i].members, Category)
    ensures forall i :: 0 <= i < |g| ==> multiset(h[i].members) == multiset(g[i].members)
  {
    seq(|g|, i requires 0 <= i < |g| =>
      if g[i].key == OnSite then Group(OnSite, SortBy(g[i].members, Category)) else g[i])
  }

  function GroupSize(grp: Group<Reservation>): int
  {
    |grp.members|
  }

  /** The groups in layout order: the 현장예약 group ordered by category,
      then all groups sorted stably by size, smallest first. */
  function LayoutGroups(rs: seq<Reservation>): (g: seq<Group<Reservation>>)
    ensures SortedBy(g, GroupSize)
    ensures multiset(Flatten(g)) == multiset(rs)
    ensures forall i :: 0 <= i < |g| && g[i].key != OnSite ==> g[i].members == OfSite(rs, g[i].key)
    ensures forall i :: 0 <= i < |g| && g[i].key == OnSite ==> g[i].members == SortBy(OfSite(rs, OnSite), Category)
    ensures forall k :: 0 <= k < |rs| ==> HasGroup(g, SiteKey(rs[k]))
  {
    var grouped := GroupBy(rs, SiteKey);
    var ordered := SortOnSite(grouped);
    var g := SortBy(ordered, GroupSize);
    FlattenPointwise(grouped, ordered);
    FlattenPermutation(g, ordered);
    LayoutKeepsGroups(rs, grouped, ordered, g);
    g
  }

  /** In the 현장예약 group the reservations of any one category keep the
      order they have in the input. */
  lemma OnSiteKeepsCategoryOrder(rs: seq<Reservation>, c: int)
    ensures var g := LayoutGroups(rs);
            forall i :: 0 <= i < |g| && g[i].key == OnSite ==>
              Filter(g[i].members, KeyIs(Category, c)) == Filter(OfSite(rs, OnSite), KeyIs(Category, c))
  {
    SortStable(OfSite(rs, OnSite), Category, c);
  }

  /** Groups of equal size keep the order in which their sites first
      appear. */
  lemma EqualSizedGroupsKeepOrder(rs: seq<Reservation>, n: int)
    ensures Filter(LayoutGroups(rs), KeyIs(GroupSize, n)) == Filter(SortOnSite(GroupBy(rs, SiteKey)), KeyIs(GroupSize, n))
  {
    SortStable(SortOnSite(GroupBy(rs, SiteKey)), GroupSize, n);
  }

  /** Sorting the groups moves them but changes none of them. */
  lemma LayoutKeepsGroups(rs: seq<Reservation>, grouped: seq<Group<Reservation>>,
                          ordered: seq<Group<Reservation>>, g: seq<Group<Reservation>>)
    requires Filed(grouped, rs, SiteKey) && Covers(grouped, rs, SiteKey) && ordered == SortOnSite(grouped)
    requires multiset(g) == multiset(ordered)
    ensures forall i :: 0 <= i < |g| && g[i].key != OnSite ==> g[i].members == OfSite(rs, g[i].key)
    ensures forall i :: 0 <= i < |g| && g[i].key == OnSite ==> g[i].members == SortBy(OfSite(rs, OnSite), Category)
    ensures forall k :: 0 <= k < |rs| ==> HasGroup(g, SiteKey(rs[k]))
  {
    forall i | 0 <= i < |g|
      ensures g[i].key != OnSite ==> g[i].members == OfSite(rs, g[i].key)
      ensures g[i].key == OnSite ==> g[i].members == SortBy(OfSite(rs, OnSite), Category)
    {
      assert g[i] in multiset(ordered);
      var j :| 0 <= j < |ordered| && ordered[j] == g[i];
      assert grouped[j].members == Having(rs, SiteKey, grouped[j].key);
    }
    forall k | 0 <= k < |rs|
      ensures HasGroup(g, SiteKey(rs[k]))
    {
      assert HasGroup(grouped, SiteKey(rs[k]));
      var i :| 0 <= i < |grouped| && grouped[i].key == SiteKey(rs[k]);
      assert ordered[i] in multiset(g);
      var j :| 0 <= j < |g| && g[j] == ordered[i];
      assert g[j].key == SiteKey(rs[k]);
    }
  }

  function Reverse<T>(s: seq<T>): (r: seq<T>)
    ensures |r| == |s|
    ensures forall k :: 0 <= k < |s| ==> r[k] == s[|s| - 1 - k]
  {
    if |s| == 0 then [] else Reverse(s[1..]) + [s[0]]
  }

  lemma {:induction false} ReverseKeepsElements<T>(s: seq<T>)
    ensures multiset(Reverse(s)) == multiset(s)
  {
    if |s| > 0 {
      assert s == [s[0]] + s[1..];
      ReverseKeepsElements(s[1..]);
    }
  }

  /** `sortedReservations`: the flattened layout groups, reversed, so the
      largest group comes first. It is a permutation of the input. */
  function SortedReservations(rs: seq<Reservation>): (r: seq<Reservation>)
    ensures |r| == |rs| && multiset(r) == multiset(rs)
    ensures forall k :: 0 <= k < |r| ==> r[k] == Flatten(LayoutGroups(rs))[|r| - 1 - k]
  {
    var flat := Flatten(LayoutGroups(rs));
    assert |flat| == |multiset(flat)| == |multiset(rs)| == |rs|;
    ReverseKeepsElements(flat);
    Reverse(flat)
  }

  /** Each card's number, `sortedReservations.length - index`. */
  function DisplayNumbers(n: nat): (ns: seq<int>)
    ensures |ns| == n
    ensures forall i :: 0 <= i < n ==> ns[i] == n - i
  {
    seq(n, i requires 0 <= i < n => n - i)
  }

  /** The numbers count down from the number of cards to 1, each used
      once. */
  lemma DisplayNumbersCountDown(n: nat)
    ensures forall i, j :: 0 <= i < j < n ==> DisplayNumbers(n)[i] > DisplayNumbers(n)[j]
    ensures forall m :: 1 <= m <= n ==> m in DisplayNumbers(n)
    ensures forall i :: 0 <= i < n ==> 1 <= DisplayNumbers(n)[i] <= n
  {
    forall m | 1 <= m <= n
      ensures m in DisplayNumbers(n)
    {
      assert DisplayNumbers(n)[n - m] == m;
    }
  }

  // ---------------------------------------------------------------------
  // Border colour

  const SoftGreen: string := "border-primary-soft-green"
  const Coral: string := "border-accent-coral"
  const DeepBlue: string := "border-primary-deep-blue"

  /** `getBorderColor(reservation)`. */
  function BorderColor(res: Reservation): (c: string)
    ensures DayDifference(res).None? ==> c == ""
    ensures DayDifference(res).Some? && MentionsDaesil(res) ==> c == SoftGreen
    ensures DayDifference(res).Some? && !MentionsDaesil(res) ==>
              var d := DayDifference(res).value;
              && (c == SoftGreen <==> d == 0)
              && (c == Coral <==> d == 1)
              && (c == DeepBlue <==> d >= 2)
              && (c == "" <==> d < 0)
  {
    match DayDifference(res)
    case None => ""
    case Some(d) =>
      if MentionsDaesil(res) then SoftGreen
      else if d == 0 then SoftGreen
      else if d == 1 then Coral
      else if d >= 2 then DeepBlue
      else ""
  }

  /** The border agrees with the on-site category: same-day and day-use
      stays are soft green, a coral or deep-blue card is a category-3
      stay. */
  lemma BorderFollowsCategory(res: Reservation)
    ensures Category(res) == 1 || Category(res) == 2 ==> BorderColor(res) == SoftGreen
    ensures BorderColor(res) == Coral || BorderColor(res) == DeepBlue ==> Category(res) == 3
  {
  }
}
