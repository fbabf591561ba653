/** How the main window prepares a fetched reservation
    (`processReservation` and `calculatePerNightPrice` in src/render/App.js):
    the total price, the default-price flag and the list of nightly rates. */
module Reservations {
  import opened Js
  import opened Maybe
  import opened Price
  import opened RoomTypes
  import opened Booking
  import opened Display

  /** `a + b` on JavaScript numbers. */
  function AddNum(a: Num, b: Num): (r: Num)
    ensures r.NaN? <==> a.NaN? || b.NaN?
  {
    if a.NaN? || b.NaN? then NaN else Int(a.v + b.v)
  }

  lemma AddNumAssoc(a: Num, b: Num, c: Num)
    ensures AddNum(a, AddNum(b, c)) == AddNum(AddNum(a, b), c)
    ensures AddNum(Int(0), a) == a && AddNum(a, Int(0)) == a
  {
  }

  /** The sum of `n` copies of `a`, starting from 0. */
  function Times(n: nat, a: Num): (r: Num)
  {
    if n == 0 then Int(0) else if a.NaN? then NaN else Int(n * a.v)
  }

  /** `calculatePerNightPrice(reservation, totalPrice, nights)`: the whole
      part of the total spread over the nights, or the total itself when
      there are no nights. */
  function PerNightPrice(total: Num, nights: int): (r: Num)
    ensures total.NaN? <==> r.NaN?
    ensures nights <= 0 ==> r == total
    ensures total.Int? && nights > 0 ==> r.v * nights <= total.v < r.v * nights + nights
  {
    if nights > 0 then
      if total.NaN? then NaN else Int(FloorDiv(total.v, nights))
    else total
  }

  /** Both dates are valid and the check-out is later than the check-in:
      the branch of `processReservation` that builds nightly rates. */
  predicate HasStay(res: Reservation)
  {
    res.parsedCheckIn.Some? && res.parsedCheckOut.Some? && res.parsedCheckOut.value > res.parsedCheckIn.value
  }

  /** The calendar-day difference, or 1 for a same-day stay. */
  function Nights(checkIn: int, checkOut: int): (n: nat)
    requires checkOut > checkIn
    ensures n >= 1
    ensures DayOf(checkOut) > DayOf(checkIn) ==> n == DayOf(checkOut) - DayOf(checkIn)
    ensures DayOf(checkOut) == DayOf(checkIn) ==> n == 1
  {
    var days := DayOf(checkOut) - DayOf(checkIn);
    if days > 0 then days else 1
  }

  /** `n` nightly rates on consecutive days from `startDay`, all `rate`. */
  function RatesFrom(startDay: int, n: nat, rate: Num): (rs: seq<NightlyRate>)
    ensures |rs| == n
    ensures forall k :: 0 <= k < n ==> rs[k] == NightlyRate(startDay + k, rate)
  {
    seq(n, k requires 0 <= k < n => NightlyRate(startDay + k, rate))
  }

  /** `nightlyRates.reduce((sum, nr) => sum + nr.rate, 0)`. */
  function SumRates(rs: seq<NightlyRate>): (r: Num)
    ensures r.NaN? <==> exists k :: 0 <= k < |rs| && rs[k].rate.NaN?
  {
    if |rs| == 0 then Int(0)
    else
      assert forall k :: 1 <= k < |rs| ==> rs[k] == rs[1..][k - 1];
      AddNum(rs[0].rate, SumRates(rs[1..]))
  }

  /** `n` equal rates sum to `n` times the rate. */
  lemma {:induction false} SumOfUniformRates(startDay: int, n: nat, rate: Num)
    decreases n
    ensures SumRates(RatesFrom(startDay, n, rate)) == Times(n, rate)
  {
    if n > 0 {
      var rs := RatesFrom(startDay, n, rate);
      assert rs[1..] == RatesFrom(startDay + 1, n - 1, rate);
      SumOfUniformRates(startDay + 1, n - 1, rate);
    }
  }

  /** The price of the stay before it is spread over the nights: the
      extracted price, the matched room type's price when that is not
      positive, and the default price for a default-flagged extraction. */
  function BasePrice(res: Reservation, catalog: seq<RoomType>): (p: Num)
  {
    var e := ExtractPrice(PriceSource(res));
    var total := if NonPositive(e.price) then Int(MatchedPriceOrZero(res.roomInfo, catalog)) else e.price;
    var isDefault := e.isDefault && !NonPositive(e.price);
    if isDefault then Int(DefaultPrice) else total
  }

  /** The price the computation starts from is the amount the reservation
      card shows. */
  lemma BasePriceIsDisplayed(res: Reservation, catalog: seq<RoomType>)
    ensures BasePrice(res, catalog) == GetPriceForDisplay(Some(res), catalog).amount
  {
  }

  /** `processReservation(res)`. The fields it recomputes are the reservation
      number, the nightly rates, the default flag and the total; every other
      field is kept. */
  function ProcessReservation(res: Reservation, catalog: seq<RoomType>): (r: Reservation)
    ensures r.(reservationNo := res.reservationNo, nightlyRates := res.nightlyRates,
               isDefaultPrice := res.isDefaultPrice, totalPrice := res.totalPrice) == res
    ensures r.reservationNo == if res.reservationNo != "" then res.reservationNo else res.id
    ensures r.isDefaultPrice == ExtractPrice(PriceSource(res)).isDefault
    ensures r.isDefaultPrice ==> GetPriceForDisplay(Some(res), catalog).amount == Int(DefaultPrice)
    ensures !HasStay(res) ==> r.nightlyRates.None? && r.totalPrice == GetPriceForDisplay(Some(res), catalog).amount
    ensures HasStay(res) ==>
              var ci := res.parsedCheckIn.value;
              var co := res.parsedCheckOut.value;
              var nights := Nights(ci, co);
              && r.nightlyRates.Some? && |r.nightlyRates.value| == nights
              && (forall k :: 0 <= k < nights ==> r.nightlyRates.value[k].day == DayOf(ci) + k)
              && (forall k :: 0 <= k < nights ==> r.nightlyRates.value[k].rate
                                                   == PerNightPrice(GetPriceForDisplay(Some(res), catalog).amount, nights))
              && r.totalPrice == Times(nights, PerNightPrice(GetPriceForDisplay(Some(res), catalog).amount, nights))
  {
    BasePriceIsDisplayed(res, catalog);
    var e := ExtractPrice(PriceSource(res));
    var total := if NonPositive(e.price) then Int(MatchedPriceOrZero(res.roomInfo, catalog)) else e.price;
    var isDefault := e.isDefault && !NonPositive(e.price);
    var number := if res.reservationNo != "" then res.reservationNo else res.id;
    if HasStay(res) then
      var ci := res.parsedCheckIn.value;
      var nights := Nights(ci, res.parsedCheckOut.value);
      var perNight := PerNightPrice(if isDefault then Int(DefaultPrice) else total, nights);
      var rates := RatesFrom(DayOf(ci), nights, perNight);
      SumOfUniformRates(DayOf(ci), nights, perNight);
      res.(reservationNo := number, nightlyRates := Some(rates), isDefaultPrice := isDefault,
           totalPrice := SumRates(rates))
    else
      res.(reservationNo := number, nightlyRates := None, isDefaultPrice := isDefault,
           totalPrice := if isDefault then Int(DefaultPrice) else total)
  }

  /** Spreading over the nights only drops the remainder: the recomputed
      total is at most the base price and less than `nights` below it. */
  lemma StayTotalNearBase(res: Reservation, catalog: seq<RoomType>)
    requires HasStay(res) && BasePrice(res, catalog).Int?
    ensures var nights := Nights(res.parsedCheckIn.value, res.parsedCheckOut.value);
            var base := BasePrice(res, catalog).v;
            var t := ProcessReservation(res, catalog).totalPrice;
            t.Int? && base - nights < t.v <= base
  {
    BasePriceIsDisplayed(res, catalog);
  }

  /** A reservation with an id always ends up with a number, and
      processing it again keeps that number. */
  lemma NumberFilledOnce(res: Reservation, catalog: seq<RoomType>)
    requires res.id != ""
    ensures ProcessReservation(res, catalog).reservationNo != ""
    ensures ProcessReservation(ProcessReservation(res, catalog), catalog).reservationNo
         == ProcessReservation(res, catalog).reservationNo
  {
  }
}
