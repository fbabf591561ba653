/** Room types of a hotel and `matchRoomType`
    (src/render/utils/matchRoomType.js): the first catalog entry one of
    whose names or aliases occurs in the room description, ignoring case.
    The catalog is a parameter; the built-in default catalog is not part of
    this model. */
module RoomTypes {
  import opened Text
  import opened Maybe

  /** One room type as the hotel settings store it. A missing `aliases`
      array is the empty sequence. */
  datatype RoomType = RoomType(
    typeName: string,
    nameKor: string,
    nameEng: string,
    price: int,
    stock: int,
    aliases: seq<string>)

  /** `[type, nameKor, nameEng, ...aliases].map((a) => a.toLowerCase())`. */
  function LoweredNames(rt: RoomType): (names: seq<string>)
    ensures |names| == 3 + |rt.aliases|
    ensures names[0] == Lower(rt.typeName) && names[1] == Lower(rt.nameKor) && names[2] == Lower(rt.nameEng)
    ensures forall k :: 0 <= k < |rt.aliases| ==> names[3 + k] == Lower(rt.aliases[k])
  {
    var all := [rt.typeName, rt.nameKor, rt.nameEng] + rt.aliases;
    seq(|all|, k requires 0 <= k < |all| => Lower(all[k]))
  }

  /** Some lowered name of `rt` occurs in the lowered description. */
  predicate NameOccurs(lowerInfo: string, rt: RoomType)
  {
    exists k :: 0 <= k < |LoweredNames(rt)| && Contains(lowerInfo, LoweredNames(rt)[k])
  }

  /** The inner loop over the aliases of one room type. */
  function AnyNameOccurs(lowerInfo: string, names: seq<string>): (r: bool)
    ensures r <==> exists k :: 0 <= k < |names| && Contains(lowerInfo, names[k])
  {
    if |names| == 0 then false
    else if Contains(lowerInfo, names[0]) then true
    else
      assert forall k :: 1 <= k < |names| ==> names[k] == names[1..][k - 1];
      AnyNameOccurs(lowerInfo, names[1..])
  }

  /** The outer loop: index of the first room type at or after `from` one
      of whose names occurs. */
  function FirstMatching(lowerInfo: string, catalog: seq<RoomType>, from: nat): (r: Option<nat>)
    requires from <= |catalog|
    decreases |catalog| - from
    ensures r.Some? ==> from <= r.value < |catalog| && NameOccurs(lowerInfo, catalog[r.value])
    ensures r.Some? ==> forall j :: from <= j < r.value ==> !NameOccurs(lowerInfo, catalog[j])
    ensures r.None? ==> forall j :: from <= j < |catalog| ==> !NameOccurs(lowerInfo, catalog[j])
  {
    if from == |catalog| then None
    else if AnyNameOccurs(lowerInfo, LoweredNames(catalog[from])) then Some(from)
    else FirstMatching(lowerInfo, catalog, from + 1)
  }

  /** `matchRoomType(roomInfo)` over `catalog`; `None` stands for both a
      missing argument and the `null` result. */
  function MatchRoomType(roomInfo: Option<string>, catalog: seq<RoomType>): (r: Option<RoomType>)
    ensures roomInfo.None? || roomInfo.value == "" ==> r.None?
    ensures r.Some? ==> r.value in catalog
    ensures r.Some? ==> exists i :: 0 <= i < |catalog| && catalog[i] == r.value
                                   && NameOccurs(Lower(roomInfo.value), catalog[i])
                                   && forall j :: 0 <= j < i ==> !NameOccurs(Lower(roomInfo.value), catalog[j])
    ensures roomInfo.Some? && roomInfo.value != "" ==>
              (r.None? <==> forall j :: 0 <= j < |catalog| ==> !NameOccurs(Lower(roomInfo.value), catalog[j]))
  {
    if roomInfo.None? || roomInfo.value == "" then None
    else
      match FirstMatching(Lower(roomInfo.value), catalog, 0)
      case Some(i) => Some(catalog[i])
      case None => None
  }

  /** `matchRoomType(roomInfo)?.price || 0`: the matched room type's
      price, or 0 when nothing matches. */
  function MatchedPriceOrZero(roomInfo: string, catalog: seq<RoomType>): (p: int)
    ensures MatchRoomType(Some(roomInfo), catalog).None? ==> p == 0
    ensures MatchRoomType(Some(roomInfo), catalog).Some? ==> p == MatchRoomType(Some(roomInfo), catalog).value.price
  {
    match MatchRoomType(Some(roomInfo), catalog)
    case Some(rt) => rt.price
    case None => 0
  }

  /** Matching ignores the letter case of the description. */
  lemma MatchIgnoresCase(info: string, catalog: seq<RoomType>)
    ensures MatchRoomType(Some(Lower(info)), catalog) == MatchRoomType(Some(info), catalog)
  {
    LowerIdempotent(info);
  }

  /** Matching ignores the letter case of the catalog's names as well:
      lowering every name of an entry does not change what matches. */
  function LowerEntry(rt: RoomType): (r: RoomType)
    ensures LoweredNames(r) == LoweredNames(rt)
  {
    LowerIdempotent(rt.typeName);
    LowerIdempotent(rt.nameKor);
    LowerIdempotent(rt.nameEng);
    forall k | 0 <= k < |rt.aliases| ensures Lower(Lower(rt.aliases[k])) == Lower(rt.aliases[k]) {
      LowerIdempotent(rt.aliases[k]);
    }
    var aliases := seq(|rt.aliases|, k requires 0 <= k < |rt.aliases| => Lower(rt.aliases[k]));
    rt.(typeName := Lower(rt.typeName), nameKor := Lower(rt.nameKor), nameEng := Lower(rt.nameEng),
        aliases := aliases)
  }

  /** Every entry of the catalog with its names lowered. */
  function LowerCatalog(catalog: seq<RoomType>): (r: seq<RoomType>)
    ensures |r| == |catalog|
    ensures forall k :: 0 <= k < |r| ==> LoweredNames(r[k]) == LoweredNames(catalog[k])
  {
    seq(|catalog|, k requires 0 <= k < |catalog| => LowerEntry(catalog[k]))
  }

  lemma {:induction false} MatchIgnoresCatalogCase(info: string, catalog: seq<RoomType>, from: nat)
    requires from <= |catalog|
    decreases |catalog| - from
    ensures FirstMatching(Lower(info), LowerCatalog(catalog), from) == FirstMatching(Lower(info), catalog, from)
  {
    if from < |catalog| {
      MatchIgnoresCatalogCase(info, catalog, from + 1);
      assert LoweredNames(LowerCatalog(catalog)[from]) == LoweredNames(catalog[from]);
    }
  }

  /** An entry whose type name occurs in the description is found, unless
      an earlier entry matched first. */
  lemma TypeNameOccurrenceMatches(info: string, catalog: seq<RoomType>, i: nat)
    requires info != "" && i < |catalog|
    requires Contains(Lower(info), Lower(catalog[i].typeName))
    ensures MatchRoomType(Some(info), catalog).Some?
  {
    assert NameOccurs(Lower(info), catalog[i]) by {
      assert LoweredNames(catalog[i])[0] == Lower(catalog[i].typeName);
    }
  }
}
