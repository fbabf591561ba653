/** `getPriceForDisplay` (src/utils/getPriceForDisplay.js): the amount a
    reservation card shows, and whether it carries the "(기본값)" (default)
    suffix. The `toLocaleString` digit grouping and the "원" unit are text
    formatting around the amount and are not modelled. */
module Display {
  import opened Js
  import opened Maybe
  import opened Price
  import opened RoomTypes
  import opened Booking

  /** The displayed amount and whether the default suffix is appended. */
  datatype Shown = Shown(amount: Num, defaultSuffix: bool)

  /** `n <= 0` on a JavaScript number: false for `NaN`. */
  predicate NonPositive(n: Num)
  {
    n.Int? && n.v <= 0
  }

  /** What `extractPrice` is called on: `priceString || price`. */
  function PriceSource(res: Reservation): (v: Value)
    ensures Truthy(res.priceString) ==> v == res.priceString
    ensures !Truthy(res.priceString) ==> v == res.price
  {
    Or(res.priceString, res.price)
  }

  /** `getPriceForDisplay(reservation)`; `None` is a `null` reservation. */
  function GetPriceForDisplay(res: Option<Reservation>, catalog: seq<RoomType>): (r: Shown)
    ensures res.None? ==> r == Shown(Int(0), false)
    ensures res.Some? ==> (r.defaultSuffix <==> ExtractPrice(PriceSource(res.value)).isDefault)
    ensures r.defaultSuffix ==> r.amount == Int(DefaultPrice)
    ensures res.Some? && !r.defaultSuffix ==>
              var e := ExtractPrice(PriceSource(res.value));
              if NonPositive(e.price) then r.amount == Int(MatchedPriceOrZero(res.value.roomInfo, catalog))
              else r.amount == e.price
  {
    match res
    case None => Shown(Int(0), false)
    case Some(rv) =>
      var e := ExtractPrice(PriceSource(rv));
      var total := if e.isDefault then Int(DefaultPrice) else e.price;
      var amount := if NonPositive(total) then Int(MatchedPriceOrZero(rv.roomInfo, catalog)) else total;
      Shown(amount, e.isDefault)
  }

  /** A truthy `priceString` decides the amount alone: the `price` field is
      then never read. */
  lemma PriceStringPreferred(res: Reservation, otherPrice: Value, catalog: seq<RoomType>)
    requires Truthy(res.priceString)
    ensures GetPriceForDisplay(Some(res), catalog) == GetPriceForDisplay(Some(res.(price := otherPrice)), catalog)
  {
  }

  /** The room catalog is consulted only for a non-positive extracted
      price: a positive one is shown as extracted, whatever the catalog. */
  lemma CatalogOnlyForNonPositive(res: Reservation, c1: seq<RoomType>, c2: seq<RoomType>)
    requires !NonPositive(ExtractPrice(PriceSource(res)).price)
    ensures GetPriceForDisplay(Some(res), c1) == GetPriceForDisplay(Some(res), c2)
  {
  }

  /** A shown amount that is not positive comes from the catalog: either
      nothing matched (0) or the matched room type has that price. */
  lemma NonPositiveAmountFromCatalog(res: Reservation, catalog: seq<RoomType>)
    requires NonPositive(GetPriceForDisplay(Some(res), catalog).amount)
    ensures GetPriceForDisplay(Some(res), catalog).amount == Int(MatchedPriceOrZero(res.roomInfo, catalog))
  {
  }
}
