/** The edit dialog for a reservation (src/components/EditReservationModal.js):
    the form it opens with, and the checks `handleSubmit` makes before it
    passes the merged reservation to `onSave`. The reservation is a plain
    object; `parse` is the date parser and `format` the
    `'yyyy-MM-dd HH:mm'` formatter, both supplied by the caller. */
module EditReservation {
  import opened Js
  import opened Maybe
  import opened Text

  const RequiredMessage: string := "고객 이름과 체크인/체크아웃 날짜는 필수 항목입니다."
  const DateMessage: string := "체크아웃 날짜는 체크인 날짜보다 이후여야 합니다."
  const PriceMessage: string := "가격은 유효한 숫자여야 합니다."

  /** The seven fields the dialog edits. */
  const EditedFields: set<string> :=
    {"customerName", "checkIn", "checkOut", "roomInfo", "price", "paymentMethod", "specialRequests"}

  /** The dialog's `formData`. */
  datatype Form = Form(
    customerName: Value,
    checkIn: Value,
    checkOut: Value,
    roomInfo: Value,
    price: Value,
    paymentMethod: Value,
    specialRequests: Value)

  /** The form the dialog opens with: each field from the reservation,
      `''` when falsy, and payment `'Pending'` when falsy. */
  function OpenForm(res: Fields): (f: Form)
    ensures Truthy(Get(res, "customerName")) ==> f.customerName == Get(res, "customerName")
    ensures !Truthy(Get(res, "customerName")) ==> f.customerName == Str("")
    ensures Truthy(Get(res, "price")) ==> f.price == Get(res, "price")
    ensures !Truthy(Get(res, "price")) ==> f.price == Str("")
    ensures Truthy(f.paymentMethod)
  {
    Form(Or(Get(res, "customerName"), Str("")), Or(Get(res, "checkIn"), Str("")),
         Or(Get(res, "checkOut"), Str("")), Or(Get(res, "roomInfo"), Str("")),
         Or(Get(res, "price"), Str("")), Or(Get(res, "paymentMethod"), Str("Pending")),
         Or(Get(res, "specialRequests"), Str("")))
  }

  /** `parseInt(value, 10)`, which reads the value's text. */
  function ParseIntValue(v: Value): (r: Num)
    ensures v.Str? ==> r == ParseInt(v.s)
    ensures v.Number? ==> r == v.n
  {
    match v
    case Str(s) => ParseInt(s)
    case Number(n) => NumToStringRoundTrip(n); ParseInt(NumToString(n))
    case Null => ParseInt("null")
    case Undefined => ParseInt("undefined")
    case Object => ParseInt("[object Object]")
  }

  /** `{ ...res, ...upd }`: the fields of `upd` replace those of `res`. */
  function Overwrite(res: Fields, upd: Fields): (r: Fields)
    ensures r.Keys == res.Keys + upd.Keys
    ensures forall k :: k in upd ==> r[k] == upd[k]
    ensures forall k :: k in res && k !in upd ==> r[k] == res[k]
  {
    map k | k in res.Keys + upd.Keys :: if k in upd then upd[k] else res[k]
  }

  /** Overwriting fields with the values they already hold changes
      nothing. */
  lemma OverwriteSame(res: Fields, upd: Fields)
    requires forall k :: k in upd ==> k in res && res[k] == upd[k]
    ensures Overwrite(res, upd) == res
  {
  }

  /** The seven fields as `handleSubmit` writes them. */
  function EditsOf(f: Form, checkIn: string, checkOut: string): (upd: Fields)
    ensures upd.Keys == EditedFields
    ensures upd["customerName"] == f.customerName && upd["price"] == f.price
    ensures upd["checkIn"] == Str(checkIn) && upd["checkOut"] == Str(checkOut)
    ensures upd["roomInfo"] == f.roomInfo && upd["paymentMethod"] == f.paymentMethod
    ensures upd["specialRequests"] == f.specialRequests
  {
    map["customerName" := f.customerName, "checkIn" := Str(checkIn), "checkOut" := Str(checkOut),
        "roomInfo" := f.roomInfo, "price" := f.price, "paymentMethod" := f.paymentMethod,
        "specialRequests" := f.specialRequests]
  }

  /** `handleSubmit`: the name and both dates must be filled in, the dates
      must parse with check-out strictly later, and the price must read as
      a non-negative integer. The result is the reservation with the seven
      edited fields overwritten: the dates reformatted, the price as it was
      entered, everything else kept. */
  function HandleSubmit(res: Fields, f: Form, parse: Value -> Option<int>, format: int -> string): (r: Result<Fields>)
    ensures !Truthy(f.customerName) || !Truthy(f.checkIn) || !Truthy(f.checkOut) ==> r == Err(RequiredMessage)
    ensures r.Ok? <==>
              && Truthy(f.customerName) && Truthy(f.checkIn) && Truthy(f.checkOut)
              && parse(f.checkIn).Some? && parse(f.checkOut).Some?
              && parse(f.checkOut).value > parse(f.checkIn).value
              && ParseIntValue(f.price).Int? && ParseIntValue(f.price).v >= 0
    ensures r.Ok? ==>
              && r.value.Keys == res.Keys + EditedFields
              && (forall k :: k in res && k !in EditedFields ==> r.value[k] == res[k])
              && r.value["price"] == f.price && r.value["customerName"] == f.customerName
              && r.value["checkIn"] == Str(format(parse(f.checkIn).value))
              && r.value["checkOut"] == Str(format(parse(f.checkOut).value))
              && r.value["roomInfo"] == f.roomInfo && r.value["paymentMethod"] == f.paymentMethod
              && r.value["specialRequests"] == f.specialRequests
    ensures r.Err? ==> r.message in {RequiredMessage, DateMessage, PriceMessage}
  {
    if !Truthy(f.customerName) || !Truthy(f.checkIn) || !Truthy(f.checkOut) then Err(RequiredMessage)
    else
      var checkIn := parse(f.checkIn);
      var checkOut := parse(f.checkOut);
      if checkIn.None? || checkOut.None? || checkOut.value <= checkIn.value then Err(DateMessage)
      else
        var price := ParseIntValue(f.price);
        if price.NaN? || price.v < 0 then Err(PriceMessage)
        else Ok(Overwrite(res, EditsOf(f, format(checkIn.value), format(checkOut.value))))
  }

  /** The price check reads only the leading integer, while the entered
      text is what is saved: "12abc" passes and is forwarded unchanged. */
  lemma PriceSavedAsEntered(res: Fields, f: Form, parse: Value -> Option<int>, format: int -> string)
    requires f.price == Str("12abc")
    requires Truthy(f.customerName) && Truthy(f.checkIn) && Truthy(f.checkOut)
    requires parse(f.checkIn).Some? && parse(f.checkOut).Some? && parse(f.checkOut).value > parse(f.checkIn).value
    ensures HandleSubmit(res, f, parse, format).Ok?
    ensures HandleSubmit(res, f, parse, format).value["price"] == Str("12abc")
  {
    var s := "12abc";
    assert LeadingSpaces(s) == 0 && s[0..] == s;
    assert SignOf(s) == (1, 0);
    assert LeadingDigits(s) == 2;
  }

  /** Submitting the dialog as it opened, for a reservation whose fields
      are already in saved form, gives the reservation back with the
      seven fields present. */
  lemma SubmitUnchangedKeepsReservation(res: Fields, parse: Value -> Option<int>, format: int -> string)
    requires EditedFields <= res.Keys
    requires forall k :: k in EditedFields ==> Truthy(res[k])
    requires parse(res["checkIn"]).Some? && parse(res["checkOut"]).Some?
    requires parse(res["checkOut"]).value > parse(res["checkIn"]).value
    requires res["checkIn"] == Str(format(parse(res["checkIn"]).value))
    requires res["checkOut"] == Str(format(parse(res["checkOut"]).value))
    requires ParseIntValue(res["price"]).Int? && ParseIntValue(res["price"]).v >= 0
    ensures HandleSubmit(res, OpenForm(res), parse, format) == Ok(res)
  {
    var f := OpenForm(res);
    OpenFormOfSaved(res);
    var upd := EditsOf(f, format(parse(f.checkIn).value), format(parse(f.checkOut).value));
    EditsOfSaved(res, parse, format);
    OverwriteSame(res, upd);
  }

  /** A reservation whose edited fields are all truthy opens with those
      fields as they are. */
  lemma OpenFormOfSaved(res: Fields)
    requires EditedFields <= res.Keys
    requires forall k :: k in EditedFields ==> Truthy(res[k])
    ensures OpenForm(res) == Form(res["customerName"], res["checkIn"], res["checkOut"], res["roomInfo"],
                                  res["price"], res["paymentMethod"], res["specialRequests"])
  {
  }

  /** Writing back the opened form of a saved reservation rewrites each
      edited field with the value it holds. */
  lemma EditsOfSaved(res: Fields, parse: Value -> Option<int>, format: int -> string)
    requires EditedFields <= res.Keys
    requires forall k :: k in EditedFields ==> Truthy(res[k])
    requires parse(res["checkIn"]).Some? && parse(res["checkOut"]).Some?
    requires res["checkIn"] == Str(format(parse(res["checkIn"]).value))
    requires res["checkOut"] == Str(format(parse(res["checkOut"]).value))
    ensures var f := OpenForm(res);
            var upd := EditsOf(f, format(parse(f.checkIn).value), format(parse(f.checkOut).value));
            forall k :: k in upd ==> k in res && res[k] == upd[k]
  {
    OpenFormOfSaved(res);
  }
}
