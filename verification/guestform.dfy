/** The new/edit guest form (src/components/GuestFormModal.js): how the
    price follows the chosen room and dates, the fixed check-in and
    check-out hours, and the checks `handleSubmit` makes before handing the
    reservation to `onSave`. A date field is a day number and a time field
    minutes after midnight, `None` while the field is empty; the form's
    `new Date(date + 'T' + time)` and `parseDate(date + ' ' + time)` both
    read the pair as the same instant. */
module GuestForm {
  import opened Js
  import opened Maybe
  import opened Booking
  import opened RoomTypes
  import opened RoomGrid

  /** 16:00 and 11:00, the hours the form puts on a stay. */
  const CheckInHour: int := 960
  const CheckOutHour: int := 660

  const PriceMessage: string := "가격은 유효한 숫자여야 하며, 음수가 될 수 없습니다."
  const DateMessage: string := "유효한 체크인 및 체크아웃 날짜와 시간을 입력해주세요."
  const OrderMessage: string := "체크인 날짜와 시간은 체크아웃 날짜와 시간보다 이전이어야 합니다."

  /** The form state (`formData`); the price is the text of its input. */
  datatype Form = Form(
    reservationNo: string,
    customerName: string,
    checkInDate: Option<int>,
    checkInTime: Option<int>,
    checkOutDate: Option<int>,
    checkOutTime: Option<int>,
    reservationDate: string,
    roomInfo: string,
    price: string,
    paymentMethod: string,
    specialRequests: string)

  /** The inputs wired to `handleInputChange`. */
  datatype Field = CustomerName | RoomInfo | Price | PaymentMethod | SpecialRequests

  /** What `onSave` receives: the reservation id (only in edit mode) and
      the form with the numeric price and the two instants. */
  datatype Submission = Submission(id: Option<string>, data: Form, price: int, checkIn: int, checkOut: int)

  /** The instant a date field and a time field denote together. */
  function Instant(date: Option<int>, time: Option<int>): (t: Option<int>)
    ensures t.Some? <==> date.Some? && time.Some?
    ensures t.Some? ==> DayOf(t.value - time.value) == date.value
    ensures t.Some? && 0 <= time.value < MinutesPerDay ==> DayOf(t.value) == date.value
  {
    if date.Some? && time.Some? then Some(StartOfDay(date.value) + time.value) else None
  }

  /** `nightlyPrice * nightsStayed`. */
  function Charge(nightly: int, nights: Num): (r: Num)
    ensures r.NaN? <==> nights.NaN?
    ensures nights.Int? && nightly > 0 ==> (r.v < 0 <==> nights.v < 0)
  {
    if nights.NaN? then NaN else Int(nightly * nights.v)
  }

  /** The rounded-up nights between the entered check-in and the given
      check-out date at the entered check-out time. */
  function StayNights(f: Form, checkOutDate: Option<int>): Num
  {
    CalcNights(Instant(f.checkInDate, f.checkInTime), Instant(checkOutDate, f.checkOutTime))
  }

  /** The price text after choosing room `value`: the room's nightly price
      times the nights when both dates are filled in, else the nightly
      price alone; an unknown room counts 0. */
  function RoomPrice(f: Form, catalog: seq<RoomType>, value: string): (p: string)
    ensures f.checkInDate.Some? && f.checkOutDate.Some? ==>
              StrToNumber(p) == Charge(NightlyOf(catalog, Str(value)), StayNights(f, f.checkOutDate))
    ensures !(f.checkInDate.Some? && f.checkOutDate.Some?) ==>
              StrToNumber(p) == Int(NightlyOf(catalog, Str(value)))
  {
    var nightly := NightlyOf(catalog, Str(value));
    var amount := if f.checkInDate.Some? && f.checkOutDate.Some? then Charge(nightly, StayNights(f, f.checkOutDate))
                  else Int(nightly);
    NumToStringRoundTrip(amount);
    NumToString(amount)
  }

  /** `handleInputChange`: the room input also rewrites the price; every
      other input sets only its own field. */
  function HandleInputChange(f: Form, catalog: seq<RoomType>, field: Field, value: string): (r: Form)
    ensures field == RoomInfo ==> r == f.(roomInfo := value, price := RoomPrice(f, catalog, value))
    ensures field == Price ==> r == f.(price := value)
    ensures field == CustomerName ==> r == f.(customerName := value)
    ensures field == PaymentMethod ==> r == f.(paymentMethod := value)
    ensures field == SpecialRequests ==> r == f.(specialRequests := value)
  {
    match field
    case RoomInfo => f.(roomInfo := value, price := RoomPrice(f, catalog, value))
    case Price => f.(price := value)
    case CustomerName => f.(customerName := value)
    case PaymentMethod => f.(paymentMethod := value)
    case SpecialRequests => f.(specialRequests := value)
  }

  /** `handleCheckInDateChange`: check-in on the chosen day at 16:00 and
      check-out the next day at 11:00; the price is left as it was. An
      empty date makes the date formatting throw before any state is set,
      so the form stays as it was. */
  function CheckInDateChange(f: Form, selected: Option<int>): (r: Form)
    ensures selected.None? ==> r == f
    ensures selected.Some? ==>
              && r == f.(checkInDate := selected, checkInTime := Some(CheckInHour),
                         checkOutDate := Some(selected.value + 1), checkOutTime := Some(CheckOutHour))
              && Instant(r.checkOutDate, r.checkOutTime).value - Instant(r.checkInDate, r.checkInTime).value == 19 * 60
  {
    if selected.None? then f
    else
      f.(checkInDate := selected, checkInTime := Some(CheckInHour),
         checkOutDate := Some(selected.value + 1), checkOutTime := Some(CheckOutHour))
  }

  /** The stay a check-in change sets up is one night. */
  lemma CheckInChangeIsOneNight(f: Form, day: int)
    ensures StayNights(CheckInDateChange(f, Some(day)), Some(day + 1)) == Int(1)
  {
  }

  /** `handleCheckOutDateChange`: the new check-out date, and the price of
      the current room over the new stay. */
  function CheckOutDateChange(f: Form, catalog: seq<RoomType>, selected: Option<int>): (r: Form)
    ensures r == f.(checkOutDate := selected, price := r.price)
    ensures StrToNumber(r.price) == Charge(NightlyOf(catalog, Str(f.roomInfo)), StayNights(f, selected))
  {
    var amount := Charge(NightlyOf(catalog, Str(f.roomInfo)), StayNights(f, selected));
    NumToStringRoundTrip(amount);
    f.(checkOutDate := selected, price := NumToString(amount))
  }

  /** The two price rules agree: after a check-out change, choosing the
      same room again leaves the price where it is. */
  lemma PriceRulesAgree(f: Form, catalog: seq<RoomType>, selected: int)
    requires f.checkInDate.Some?
    ensures var g := CheckOutDateChange(f, catalog, Some(selected));
            HandleInputChange(g, catalog, RoomInfo, f.roomInfo) == g
  {
  }

  /** `handleSubmit` up to `onSave`: the price must read as a non-negative
      number, both instants must exist, and check-in must come first. The
      id is passed only in edit mode, and the saved price is the whole part
      of the numeral. */
  function HandleSubmit(f: Form, initialId: string): (r: Result<Submission>)
    ensures FloatNaNOrNegative(f.price) ==> r == Err(PriceMessage)
    ensures r.Ok? <==>
              && !FloatNaNOrNegative(f.price)
              && Instant(f.checkInDate, f.checkInTime).Some? && Instant(f.checkOutDate, f.checkOutTime).Some?
              && Instant(f.checkInDate, f.checkInTime).value < Instant(f.checkOutDate, f.checkOutTime).value
    ensures r.Ok? ==>
              && ReadDecimal(f.price).Some?
              && r.value.data == f && r.value.price == DecimalValue(ReadDecimal(f.price).value.whole)
              && Some(r.value.checkIn) == Instant(f.checkInDate, f.checkInTime)
              && Some(r.value.checkOut) == Instant(f.checkOutDate, f.checkOutTime)
              && r.value.checkIn < r.value.checkOut
              && (r.value.id.Some? <==> initialId != "")
              && (r.value.id.Some? ==> r.value.id.value == initialId)
    ensures r.Err? && r != Err(PriceMessage) ==> r == Err(DateMessage) || r == Err(OrderMessage)
  {
    if FloatNaNOrNegative(f.price) then Err(PriceMessage)
    else
      var checkIn := Instant(f.checkInDate, f.checkInTime);
      var checkOut := Instant(f.checkOutDate, f.checkOutTime);
      if checkIn.None? || checkOut.None? then Err(DateMessage)
      else if checkIn.value >= checkOut.value then Err(OrderMessage)
      else Ok(Submission(if initialId != "" then Some(initialId) else None, f, DecimalValue(ReadDecimal(f.price).value.whole), checkIn.value, checkOut.value))
  }

  /** The form a new reservation opens with on day `today`: check-in
      today at 16:00, check-out tomorrow at 11:00, the first room type and
      its price, payment pending. `stamp` is `Date.now()`. */
  function NewForm(today: int, stamp: int, reservationDate: string, catalog: seq<RoomType>): (f: Form)
    ensures f.checkInDate == Some(today) && f.checkOutDate == Some(today + 1)
    ensures f.checkInTime == Some(CheckInHour) && f.checkOutTime == Some(CheckOutHour)
    ensures Instant(f.checkOutDate, f.checkOutTime).value - Instant(f.checkInDate, f.checkInTime).value == 19 * 60
    ensures |catalog| > 0 ==> f.roomInfo == catalog[0].typeName && f.price == NumToString(Int(catalog[0].price))
    ensures |catalog| == 0 ==> f.roomInfo == "Standard" && f.price == ""
  {
    Form(NumToString(Int(stamp)), "", Some(today), Some(CheckInHour), Some(today + 1), Some(CheckOutHour),
         reservationDate,
         if |catalog| > 0 then catalog[0].typeName else "Standard",
         if |catalog| > 0 then NumToString(Int(catalog[0].price)) else "",
         "Pending", "")
  }

  /** A new reservation can be saved as it opens when the first room type
      has a non-negative price; without room types its empty price is
      refused. */
  lemma NewFormSubmits(today: int, stamp: int, date: string, catalog: seq<RoomType>)
    ensures |catalog| > 0 && catalog[0].price >= 0 ==>
              var r := HandleSubmit(NewForm(today, stamp, date, catalog), "");
              r.Ok? && r.value.id.None? && r.value.price == catalog[0].price
    ensures |catalog| == 0 ==> HandleSubmit(NewForm(today, stamp, date, catalog), "") == Err(PriceMessage)
  {
    if |catalog| == 0 {
      assert ParseInt("") == NaN;
    } else {
      ReadDecimalOfString(catalog[0].price);
    }
  }

  /** Moving the check-out date before the check-in makes the price of a
      positively priced room negative, and the form refuses it. */
  lemma EarlyCheckOutRefused(f: Form, catalog: seq<RoomType>, selected: int, id: string)
    requires f.checkInDate.Some? && f.checkInTime.Some? && f.checkOutTime.Some?
    requires NightlyOf(catalog, Str(f.roomInfo)) > 0
    requires Instant(Some(selected), f.checkOutTime).value <= Instant(f.checkInDate, f.checkInTime).value - MinutesPerDay
    ensures HandleSubmit(CheckOutDateChange(f, catalog, Some(selected)), id) == Err(PriceMessage)
  {
    var g := CheckOutDateChange(f, catalog, Some(selected));
    var c := Charge(NightlyOf(catalog, Str(f.roomInfo)), StayNights(f, Some(selected)));
    ReadDecimalOfString(c.v);
  }

  /** `parseFloat` reads the sign and a fraction that starts with the
      point: "-0.5" is refused as negative and ".5" is accepted as a
      price. */
  lemma SignAndPointRead(f: Form)
    ensures HandleSubmit(f.(price := "-0.5"), "") == Err(PriceMessage)
    ensures HandleSubmit(f.(price := ".5"), "") != Err(PriceMessage)
  {
    ReadSignAndPoint();
  }

  /** On an integer numeral the saved price is what `parseInt` reads. */
  lemma WholePriceIsParseInt(f: Form, id: string)
    ensures HandleSubmit(f, id).Ok? && ParseInt(f.price).Int? ==>
              Int(HandleSubmit(f, id).value.price) == ParseInt(f.price)
  {
    if !(HandleSubmit(f, id).Ok? && ParseInt(f.price).Int?) {
      return;
    }
    var d := ReadDecimal(f.price).value;
    assert !BelowZero(d);
    assert HandleSubmit(f, id).value.price == DecimalValue(d.whole);
    if d.negative {
      assert DecimalValue(d.whole) == 0;
      assert ParseInt(f.price).v == -1 * 0;
    } else {
      assert ParseInt(f.price).v == 1 * DecimalValue(d.whole);
    }
  }
}
