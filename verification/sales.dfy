/** The day view of the main window (`filterReservationsByDate` and
    `executeSearch` in src/render/App.js): which reservations a selected day
    shows, the day's and the month's sales, and the search that jumps to a
    reservation. */
module Sales {
  import opened Js
  import opened Maybe
  import opened Text
  import opened Status
  import opened Booking
  import opened Reservations
  import opened Seqs

  // ---------------------------------------------------------------------
  // Which reservations a day shows.

  /** The day lies in [check-in day, check-out day), or the stay begins and
      ends on that very day. Dates are compared as 'yyyy-MM-dd' texts, which
      order like the days for four-digit years. */
  predicate ShownOn(ciDay: int, coDay: int, day: int)
  {
    (ciDay <= day && day < coDay) || (ciDay == coDay && day == ciDay)
  }

  predicate HasValidDates(r: Reservation)
  {
    r.parsedCheckIn.Some? && r.parsedCheckOut.Some?
  }

  predicate ShownRes(r: Reservation, day: int)
    requires HasValidDates(r)
  {
    ShownOn(DayOf(r.parsedCheckIn.value), DayOf(r.parsedCheckOut.value), day)
  }

  /** The test of the day's filter. */
  function ShownOnDay(day: int): Reservation -> bool
  {
    (r: Reservation) => HasValidDates(r) && ShownRes(r, day)
  }

  /** The reservations of `rs` the day shows, in their order. */
  function ShownList(rs: seq<Reservation>, day: int): (shown: seq<Reservation>)
    requires forall k :: 0 <= k < |rs| ==> HasValidDates(rs[k])
    ensures forall x :: x in shown <==> x in rs && ShownRes(x, day)
    ensures shown == Filter(rs, ShownOnDay(day))
  {
    if |rs| == 0 then []
    else
      assert forall k :: 1 <= k < |rs| ==> rs[k] == rs[1..][k - 1];
      var rest := ShownList(rs[1..], day);
      assert forall x :: x in rs <==> x == rs[0] || x in rs[1..];
      if ShownRes(rs[0], day) then [rs[0]] + rest else rest
  }

  /** `filterReservationsByDate(reservations, date)`: a reservation whose
      check-in or check-out is an invalid date makes `format` throw, which
      aborts the whole filtering. */
  function FilterByDate(rs: seq<Reservation>, day: int): (r: Result<seq<Reservation>>)
    ensures r.Err? <==> exists k :: 0 <= k < |rs| && !HasValidDates(rs[k])
    ensures r.Ok? ==> forall x :: x in r.value <==> x in rs && ShownRes(x, day)
  {
    if forall k :: 0 <= k < |rs| ==> HasValidDates(rs[k]) then Ok(ShownList(rs, day))
    else Err("Invalid time value")
  }

  /** A stay of several calendar days is shown on exactly the days from
      check-in up to the day before check-out; a same-day stay on its day
      only; a stay ending before it begins never. */
  lemma ShownDays(ciDay: int, coDay: int, day: int)
    ensures ciDay < coDay ==> (ShownOn(ciDay, coDay, day) <==> ciDay <= day < coDay)
    ensures ciDay == coDay ==> (ShownOn(ciDay, coDay, day) <==> day == ciDay)
    ensures ciDay > coDay ==> !ShownOn(ciDay, coDay, day)
  {
  }

  /** For a processed reservation with a stay, the days it is shown on are
      exactly the days of its nightly rates. */
  lemma ShownOnRateDays(res: Reservation, catalog: seq<RoomTypes.RoomType>, day: int)
    requires HasStay(res)
    ensures var p := ProcessReservation(res, catalog);
            HasValidDates(p)
            && (ShownRes(p, day) <==> exists k :: 0 <= k < |p.nightlyRates.value| && p.nightlyRates.value[k].day == day)
  {
    var p := ProcessReservation(res, catalog);
    var ci := res.parsedCheckIn.value;
    var co := res.parsedCheckOut.value;
    var rates := p.nightlyRates.value;
    var n := Nights(ci, co);
    assert DayOf(co) >= DayOf(ci);
    if ShownRes(p, day) {
      assert rates[day - DayOf(ci)].day == day;
    }
  }

  // ---------------------------------------------------------------------
  // The day's sales.

  /** What one shown reservation adds to the day: its first nightly rate,
      else `totalPrice || 0`. */
  function DailyAmount(r: Reservation): (a: Num)
    ensures r.nightlyRates.None? || |r.nightlyRates.value| == 0 ==> a.Int?
  {
    if r.nightlyRates.Some? && |r.nightlyRates.value| > 0 then r.nightlyRates.value[0].rate
    else if r.totalPrice.Int? && r.totalPrice.v != 0 then r.totalPrice
    else Int(0)
  }

  /** `Math.floor(breakdown.reduce((sum, price) => sum + price, 0))`. */
  function DailyTotal(shown: seq<Reservation>): (t: Num)
    ensures t.NaN? <==> exists k :: 0 <= k < |shown| && DailyAmount(shown[k]).NaN?
  {
    if |shown| == 0 then Int(0)
    else
      assert forall k :: 1 <= k < |shown| ==> shown[k] == shown[1..][k - 1];
      AddNum(DailyAmount(shown[0]), DailyTotal(shown[1..]))
  }

  /** The day's total is additive over the list of shown reservations. */
  lemma {:induction false} DailyTotalAppend(a: seq<Reservation>, b: seq<Reservation>)
    ensures DailyTotal(a + b) == AddNum(DailyTotal(a), DailyTotal(b))
  {
    if |a| > 0 {
      assert (a + b)[1..] == a[1..] + b;
      assert (a + b)[0] == a[0];
      DailyTotalAppend(a[1..], b);
      AddNumAssoc(DailyAmount(a[0]), DailyTotal(a[1..]), DailyTotal(b));
    } else {
      assert a + b == b;
      AddNumAssoc(DailyTotal(b), DailyTotal(b), DailyTotal(b));
    }
  }

  /** A processed reservation with a stay adds its per-night price to each
      day it is shown on. */
  lemma DailyAmountIsPerNight(res: Reservation, catalog: seq<RoomTypes.RoomType>)
    requires HasStay(res)
    ensures DailyAmount(ProcessReservation(res, catalog))
         == PerNightPrice(Display.GetPriceForDisplay(Some(res), catalog).amount,
                          Nights(res.parsedCheckIn.value, res.parsedCheckOut.value))
  {
  }

  // ---------------------------------------------------------------------
  // The month's sales.

  /** `isCancelledStatus(reservationStatus || '', customerName || '')`. */
  predicate Cancelled(r: Reservation)
  {
    IsCancelledStatus(r.reservationStatus, Some(r.customerName), None, None)
  }

  /** The reservation takes part in the month's sales: not cancelled,
      valid dates, leaving after the month's first midnight and arriving
      before the end of the selected day. */
  predicate CountsForMonth(r: Reservation, monthStart: int, selected: int)
  {
    && !Cancelled(r)
    && HasValidDates(r)
    && r.parsedCheckOut.value > monthStart
    && r.parsedCheckIn.value < selected + MinutesPerDay
  }

  /** A rate dated from the month's first midnight up to the selected
      moment. */
  function InWindow(monthStart: int, selected: int): NightlyRate -> bool
  {
    (nr: NightlyRate) => monthStart <= StartOfDay(nr.day) <= selected
  }

  /** The rates of one reservation dated from the month's first midnight
      up to the selected moment: the sum of exactly the rates in that
      window. */
  function RatesInWindow(rs: seq<NightlyRate>, monthStart: int, selected: int): (t: Num)
    ensures t == SumRates(Filter(rs, InWindow(monthStart, selected)))
  {
    if |rs| == 0 then Int(0)
    else
      var here := monthStart <= StartOfDay(rs[0].day) <= selected;
      var rest := RatesInWindow(rs[1..], monthStart, selected);
      AddNumAssoc(rest, rest, rest);
      AddNum(if here then rs[0].rate else Int(0), rest)
  }

  function MonthlyAmount(r: Reservation, monthStart: int, selected: int): Num
  {
    if CountsForMonth(r, monthStart, selected) && r.nightlyRates.Some? then
      RatesInWindow(r.nightlyRates.value, monthStart, selected)
    else Int(0)
  }

  function MonthlySum(rs: seq<Reservation>, monthStart: int, selected: int): Num
  {
    if |rs| == 0 then Int(0)
    else AddNum(MonthlyAmount(rs[0], monthStart, selected), MonthlySum(rs[1..], monthStart, selected))
  }

  /** The test of the month's filter. */
  function CountsFor(monthStart: int, selected: int): Reservation -> bool
  {
    (r: Reservation) => CountsForMonth(r, monthStart, selected)
  }

  /** The sum, over the given reservations, of their nightly rates inside
      the window: the `forEach` loops of the month's sales. */
  function WindowTotal(rs: seq<Reservation>, monthStart: int, selected: int): Num
  {
    if |rs| == 0 then Int(0)
    else
      AddNum(WindowRates(rs[0], monthStart, selected), WindowTotal(rs[1..], monthStart, selected))
  }

  /** The inner loop for one reservation: its rates inside the window. */
  function WindowRates(r: Reservation, monthStart: int, selected: int): Num
  {
    if r.nightlyRates.Some? then SumRates(Filter(r.nightlyRates.value, InWindow(monthStart, selected))) else Int(0)
  }

  /** One reservation adds its window rates when it counts and 0 otherwise. */
  lemma MonthlyAmountStep(r: Reservation, monthStart: int, selected: int)
    ensures MonthlyAmount(r, monthStart, selected)
         == if CountsFor(monthStart, selected)(r) then WindowRates(r, monthStart, selected) else Int(0)
  {
  }

  /** Adding up per reservation, with the ones that do not count adding 0,
      is filtering them out first and then adding up. */
  lemma {:induction false} MonthlySumFilters(rs: seq<Reservation>, monthStart: int, selected: int)
    ensures MonthlySum(rs, monthStart, selected) == WindowTotal(Filter(rs, CountsFor(monthStart, selected)), monthStart, selected)
  {
    if |rs| > 0 {
      var p := CountsFor(monthStart, selected);
      MonthlySumFilters(rs[1..], monthStart, selected);
      MonthlyAmountStep(rs[0], monthStart, selected);
      var tail := Filter(rs[1..], p);
      var rest := WindowTotal(tail, monthStart, selected);
      AddNumAssoc(rest, rest, rest);
      if p(rs[0]) {
        assert Filter(rs, p) == [rs[0]] + tail;
        assert ([rs[0]] + tail)[1..] == tail;
      } else {
        assert Filter(rs, p) == tail;
      }
    }
  }

  /** `Math.max(0, Math.floor(sum))`; `Math.max` with `NaN` is `NaN`. */
  function ClampAtZero(n: Num): (r: Num)
    ensures r.NaN? <==> n.NaN?
    ensures r.Int? ==> r.v >= 0 && r.v >= n.v && (n.v > 0 ==> r.v == n.v)
    ensures n.Int? && n.v <= 0 ==> r == Int(0)
  {
    if n.NaN? then NaN else if n.v < 0 then Int(0) else n
  }

  /** The month's total as the day view shows it: the rates inside the
      window of the reservations that count for the month, clamped at 0. */
  function MonthlyTotal(rs: seq<Reservation>, monthStart: int, selected: int): (t: Num)
    ensures t.NaN? || t.v >= 0
    ensures t == ClampAtZero(WindowTotal(Filter(rs, CountsFor(monthStart, selected)), monthStart, selected))
  {
    MonthlySumFilters(rs, monthStart, selected);
    ClampAtZero(MonthlySum(rs, monthStart, selected))
  }

  lemma {:induction false} MonthlySumAppend(a: seq<Reservation>, b: seq<Reservation>, monthStart: int, selected: int)
    ensures MonthlySum(a + b, monthStart, selected) == AddNum(MonthlySum(a, monthStart, selected), MonthlySum(b, monthStart, selected))
  {
    if |a| > 0 {
      assert (a + b)[1..] == a[1..] + b;
      assert (a + b)[0] == a[0];
      MonthlySumAppend(a[1..], b, monthStart, selected);
      AddNumAssoc(MonthlyAmount(a[0], monthStart, selected), MonthlySum(a[1..], monthStart, selected),
                  MonthlySum(b, monthStart, selected));
    } else {
      assert a + b == b;
      AddNumAssoc(MonthlySum(b, monthStart, selected), MonthlySum(b, monthStart, selected),
                  MonthlySum(b, monthStart, selected));
    }
  }

  /** A cancelled reservation, wherever it stands in the list, does not
      change the month's total. */
  lemma CancelledDoesNotCount(a: seq<Reservation>, x: Reservation, b: seq<Reservation>, monthStart: int, selected: int)
    requires Cancelled(x)
    ensures MonthlyTotal(a + [x] + b, monthStart, selected) == MonthlyTotal(a + b, monthStart, selected)
  {
    var sa := MonthlySum(a, monthStart, selected);
    var sb := MonthlySum(b, monthStart, selected);
    ZeroSingleton(x, monthStart, selected);
    MonthlySumAppend(a, [x], monthStart, selected);
    AddNumAssoc(sa, sa, sa);
    MonthlySumAppend(a + [x], b, monthStart, selected);
    MonthlySumAppend(a, b, monthStart, selected);
  }

  lemma ZeroSingleton(x: Reservation, monthStart: int, selected: int)
    requires Cancelled(x)
    ensures MonthlySum([x], monthStart, selected) == Int(0)
  {
    assert [x][1..] == [];
  }

  // ---------------------------------------------------------------------
  // Search.

  /** The outcome of `executeSearch(term)`: rejected as too short, no
      match, or the ids to highlight together with the check-in of the
      first match, the day the view jumps to. */
  datatype SearchOutcome = TooShort | NoMatch | Highlight(ids: seq<string>, jumpTo: Option<int>)

  const MinSearchLength: nat := 2
  const MaxHighlighted: nat := 5

  /** Name, number or memo (looked up by id) contains the lowered term,
      ignoring case. */
  predicate MatchesTerm(r: Reservation, memos: map<string, string>, lowerTerm: string)
  {
    var memo := if r.id in memos then memos[r.id] else "";
    || Contains(Lower(r.customerName), lowerTerm)
    || Contains(Lower(r.reservationNo), lowerTerm)
    || Contains(Lower(memo), lowerTerm)
  }

  /** The test of the search filter. */
  function TermTest(memos: map<string, string>, lowerTerm: string): Reservation -> bool
  {
    (r: Reservation) => MatchesTerm(r, memos, lowerTerm)
  }

  function Matching(rs: seq<Reservation>, memos: map<string, string>, lowerTerm: string): (m: seq<Reservation>)
    ensures m == Filter(rs, TermTest(memos, lowerTerm))
    ensures forall x :: x in m <==> x in rs && MatchesTerm(x, memos, lowerTerm)
    ensures |m| > 0 ==> var i := FirstMatchIndex(rs, memos, lowerTerm); i < |rs| && m[0] == rs[i]
  {
    if |rs| == 0 then []
    else
      assert forall x :: x in rs <==> x == rs[0] || x in rs[1..];
      var rest := Matching(rs[1..], memos, lowerTerm);
      if MatchesTerm(rs[0], memos, lowerTerm) then [rs[0]] + rest
      else
        assert FirstMatchIndex(rs, memos, lowerTerm) == 1 + FirstMatchIndex(rs[1..], memos, lowerTerm);
        rest
  }

  /** The index of the first matching reservation, or |rs|. */
  function FirstMatchIndex(rs: seq<Reservation>, memos: map<string, string>, lowerTerm: string): (i: nat)
    ensures i <= |rs|
    ensures i < |rs| ==> MatchesTerm(rs[i], memos, lowerTerm)
    ensures forall j :: 0 <= j < i ==> !MatchesTerm(rs[j], memos, lowerTerm)
  {
    if |rs| == 0 then 0
    else if MatchesTerm(rs[0], memos, lowerTerm) then 0
    else
      assert forall j :: 1 <= j < |rs| ==> rs[j] == rs[1..][j - 1];
      1 + FirstMatchIndex(rs[1..], memos, lowerTerm)
  }

  function Ids(rs: seq<Reservation>): (ids: seq<string>)
    ensures |ids| == |rs| && forall k :: 0 <= k < |rs| ==> ids[k] == rs[k].id
  {
    seq(|rs|, k requires 0 <= k < |rs| => rs[k].id)
  }

  /** The outcome for a non-empty list of matches: the first five are
      highlighted and the view jumps to the first. */
  function HighlightOf(results: seq<Reservation>): (r: SearchOutcome)
    requires |results| > 0
    ensures r.Highlight? && 1 <= |r.ids| <= MaxHighlighted
    ensures r.ids == Ids(results[..if |results| < MaxHighlighted then |results| else MaxHighlighted])
    ensures forall k :: 0 <= k < |r.ids| ==> r.ids[k] == results[k].id
    ensures r.jumpTo == results[0].parsedCheckIn
  {
    var n := if |results| < MaxHighlighted then |results| else MaxHighlighted;
    Highlight(Ids(results[..n]), results[0].parsedCheckIn)
  }

  /** `executeSearch(searchTerm)` over all reservations. */
  function ExecuteSearch(all: seq<Reservation>, memos: map<string, string>, term: string): (r: SearchOutcome)
    ensures r.TooShort? <==> |Trim(term)| < MinSearchLength
    ensures r.NoMatch? <==> |Trim(term)| >= MinSearchLength && forall x :: x in all ==> !MatchesTerm(x, memos, Lower(Trim(term)))
    ensures r.Highlight? ==> 1 <= |r.ids| <= MaxHighlighted
    ensures r.Highlight? ==>
              var i := FirstMatchIndex(all, memos, Lower(Trim(term)));
              i < |all| && r.ids[0] == all[i].id && r.jumpTo == all[i].parsedCheckIn
  {
    var trimmed := Trim(term);
    if |trimmed| < MinSearchLength then TooShort
    else
      var results := Matching(all, memos, Lower(trimmed));
      if |results| == 0 then NoMatch
      else
        assert forall k :: 0 <= k < |results| ==> results[k] in results;
        HighlightOf(results)
  }

  /** The highlighted ids are those of the first five matches, in the
      order of the list, and each belongs to a matching reservation. */
  lemma SearchHighlightsFirstMatches(all: seq<Reservation>, memos: map<string, string>, term: string)
    ensures var r := ExecuteSearch(all, memos, term);
            r.Highlight? ==>
              var m := Filter(all, TermTest(memos, Lower(Trim(term))));
              && |m| > 0 && r.ids == Ids(m[..if |m| < MaxHighlighted then |m| else MaxHighlighted])
              && forall k :: 0 <= k < |r.ids| ==>
                   exists x :: x in all && x.id == r.ids[k] && MatchesTerm(x, memos, Lower(Trim(term)))
  {
    var r := ExecuteSearch(all, memos, term);
    if r.Highlight? {
      var m := Matching(all, memos, Lower(Trim(term)));
      assert r == HighlightOf(m);
      forall k | 0 <= k < |r.ids|
        ensures exists x :: x in all && x.id == r.ids[k] && MatchesTerm(x, memos, Lower(Trim(term)))
      {
        assert m[k] in m;
      }
    }
  }

  /** Upper and lower case in the search term do not matter. */
  lemma SearchIgnoresCase(all: seq<Reservation>, memos: map<string, string>, term: string)
    ensures ExecuteSearch(all, memos, Lower(term)) == ExecuteSearch(all, memos, term)
  {
    TrimLowerCommute(term);
    LowerIdempotent(Trim(term));
  }
}
