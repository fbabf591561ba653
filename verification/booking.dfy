/** The reservation record shared by the front end's components, and the
    time scale it is measured on. A point in time is a whole number of
    minutes; a calendar day is a whole number of days, and day `d` starts at
    minute `d * 1440`. Local time without daylight-saving shifts. */
module Booking {
  import opened Js
  import opened Maybe

  const MinutesPerDay: int := 1440

  /** The calendar day a point in time falls on (the date part that
      `new Date(y, m, d)` keeps). */
  function DayOf(t: int): (d: int)
    ensures d * MinutesPerDay <= t < d * MinutesPerDay + MinutesPerDay
  {
    FloorDiv(t, MinutesPerDay)
  }

  /** Midnight at the start of a day. */
  function StartOfDay(d: int): int
  {
    d * MinutesPerDay
  }

  lemma DayOfStart(d: int)
    ensures DayOf(StartOfDay(d)) == d
  {
  }

  /** One entry of `nightlyRates`: the night's date and its rate. */
  datatype NightlyRate = NightlyRate(day: int, rate: Num)

  /** A reservation as the grid and the sales views see it. Text fields
      hold `""` where the source has `null`, `undefined` or `""`; every use
      the model covers treats those three alike. `parsedCheckIn` and
      `parsedCheckOut` are the `Date` objects built from the raw check-in and
      check-out text, `None` when that text is not a valid date. */
  datatype Reservation = Reservation(
    id: string,
    siteName: string,
    customerName: string,
    reservationNo: string,
    roomInfo: string,
    reservationStatus: string,
    parsedCheckIn: Option<int>,
    parsedCheckOut: Option<int>,
    priceString: Value,
    price: Value,
    totalPrice: Num,
    nightlyRates: Option<seq<NightlyRate>>,
    isDefaultPrice: bool)
}
