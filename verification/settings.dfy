/** The hotel settings form (src/components/HotelSettings.js): editing the
    room-type rows, adding and removing rows, and the checks and
    normalisation `handleSave` applies before the settings are sent. */
module HotelSettings {
  import opened Js
  import opened Text
  import opened Maybe
  import opened RoomTypes
  import opened Grouping

  /** A room-type row while it is being edited. Price and stock hold
      whatever the inputs produced (`''` or a number) or what the server
      sent; `aliases` is `None` when the row holds no array. */
  datatype Draft = Draft(
    typeName: string,
    nameKor: string,
    nameEng: string,
    price: Value,
    stock: Value,
    aliases: Option<seq<string>>)

  /** The row fields the form edits. */
  datatype Field = TypeField | NameKorField | NameEngField | PriceField | StockField | AliasesField

  /** The state `handleSave` reads. */
  datatype Form = Form(
    hotelId: string,
    totalRooms: Value,
    roomTypes: seq<Draft>,
    address: string,
    phoneNumber: string,
    email: string)

  /** The settings object `handleSave` sends. */
  datatype Settings = Settings(
    hotelId: string,
    totalRooms: int,
    roomTypes: seq<RoomType>,
    email: string,
    address: string,
    phoneNumber: string)

  const AliasSeparator: string := "||"

  const RequiredMessage: string := "호텔 ID, 총 객실 수, 주소, 전화번호, 이메일은 필수 입력 항목입니다."
  const TotalRoomsMessage: string := "총 객실 수는 유효한 숫자여야 합니다."
  const RoomTypesMessage: string := "유효한 객실 타입, 가격, 재고를 입력하세요."

  /** `id.trim().toLowerCase()`: the form every hotel id is stored and
      sent in. */
  function NormalizeHotelId(id: string): (r: string)
    ensures |r| <= |id|
    ensures r == "" <==> forall i :: 0 <= i < |id| ==> IsSpace(id[i])
  {
    TrimEmptyIffBlank(id);
    Lower(Trim(id))
  }

  /** Normalising an id a second time changes nothing. */
  lemma NormalizeHotelIdIdempotent(id: string)
    ensures NormalizeHotelId(NormalizeHotelId(id)) == NormalizeHotelId(id)
  {
    TrimLowerCommute(Trim(id));
    TrimIdempotent(id);
    LowerIdempotent(Trim(id));
  }

  /** `value === '' ? '' : Number(value)`, for the price and stock inputs. */
  function NumberInput(value: string): (r: Value)
    ensures r == Str("") <==> value == ""
    ensures r != Str("") ==> r.Number? && r.n == StrToNumber(value)
  {
    if value == "" then Str("") else Number(StrToNumber(value))
  }

  /** A number the input shows as its decimal text comes back as that
      number. */
  lemma NumberInputRoundTrip(n: int)
    ensures NumberInput(IntToString(n)) == Number(Int(n))
  {
    NumberOfString(n);
  }

  /** `value.split('||').map((alias) => alias.trim())`. */
  function AliasesOf(value: string): (r: seq<string>)
    ensures |r| == |SplitOn(value, AliasSeparator)| >= 1
    ensures forall k :: 0 <= k < |r| ==> Trim(r[k]) == r[k] && !Contains(r[k], AliasSeparator)
  {
    var parts := SplitOn(value, AliasSeparator);
    forall k | 0 <= k < |parts|
      ensures !Contains(Trim(parts[k]), AliasSeparator) && Trim(Trim(parts[k])) == Trim(parts[k])
    {
      TrimKeepsAbsent(parts[k], AliasSeparator);
      TrimIdempotent(parts[k]);
    }
    seq(|parts|, k requires 0 <= k < |parts| => Trim(parts[k]))
  }

  /** The aliases input shows `aliases.join('||')`; reading it back gives
      the same aliases when each is trimmed and free of `|`. */
  lemma AliasesRoundTrip(aliases: seq<string>)
    requires |aliases| >= 1
    requires forall k :: 0 <= k < |aliases| ==> '|' !in aliases[k] && Trim(aliases[k]) == aliases[k]
    ensures AliasesOf(JoinOn(aliases, AliasSeparator)) == aliases
  {
    SplitJoinOn(aliases, AliasSeparator);
  }

  /** A row with no aliases shows an empty input, and reading that back
      gives one empty alias, not an empty list. */
  lemma EmptyAliasesReadBackAsEmptyName()
    ensures AliasesOf(JoinOn([], AliasSeparator)) == [""]
  {
    assert !Contains("", AliasSeparator) by {
      assert !OccursAt("", AliasSeparator, 0);
    }
    assert Trim("") == "";
  }

  /** An empty alias occurs in every room description, so the room type
      holding it is matched by every description `matchRoomType` sees. */
  lemma EmptyAliasMatchesEverything(info: string, rt: RoomType)
    requires "" in rt.aliases
    ensures NameOccurs(Lower(info), rt)
  {
    var k :| 0 <= k < |rt.aliases| && rt.aliases[k] == "";
    assert LoweredNames(rt)[3 + k] == "";
    assert OccursAt(Lower(info), "", 0);
  }

  /** One branch of `handleRoomTypeChange` applied to a row. */
  function EditEntry(d: Draft, field: Field, value: string): (r: Draft)
    ensures field == PriceField ==> r == d.(price := NumberInput(value))
    ensures field == StockField ==> r == d.(stock := NumberInput(value))
    ensures field == AliasesField ==> r == d.(aliases := Some(AliasesOf(value)))
    ensures field == TypeField ==> r == d.(typeName := value)
    ensures field == NameKorField ==> r == d.(nameKor := value)
    ensures field == NameEngField ==> r == d.(nameEng := value)
  {
    match field
    case PriceField => d.(price := NumberInput(value))
    case StockField => d.(stock := NumberInput(value))
    case AliasesField => d.(aliases := Some(AliasesOf(value)))
    case TypeField => d.(typeName := value)
    case NameKorField => d.(nameKor := value)
    case NameEngField => d.(nameEng := value)
  }

  /** `handleRoomTypeChange(index, field, value)`: only row `index`
      changes, and only in `field`. The rows are rendered from the list, so
      `index` is always one of its positions. */
  function HandleRoomTypeChange(rows: seq<Draft>, index: nat, field: Field, value: string): (r: seq<Draft>)
    requires index < |rows|
    ensures |r| == |rows|
    ensures forall k :: 0 <= k < |rows| && k != index ==> r[k] == rows[k]
    ensures r[index] == EditEntry(rows[index], field, value)
  {
    rows[index := EditEntry(rows[index], field, value)]
  }

  /** Editing a field with the text the input shows for it leaves the
      row as it was. */
  lemma EditWithShownValueKeepsRow(d: Draft, n: int)
    ensures d.price == Number(Int(n)) ==> EditEntry(d, PriceField, IntToString(n)) == d
    ensures d.stock == Number(Int(n)) ==> EditEntry(d, StockField, IntToString(n)) == d
    ensures EditEntry(d, NameKorField, d.nameKor) == d
    ensures EditEntry(d, TypeField, d.typeName) == d
  {
    NumberInputRoundTrip(n);
  }

  /** The row `addRoomType` appends to a list of `n` rows. */
  function NewRoomType(n: nat): Draft
  {
    Draft("custom-type-" + IntToString(n + 1), "", "", Str(""), Str(""), Some([]))
  }

  /** `addRoomType()`: one new row at the end, typed after the new length;
      the existing rows are unchanged. */
  function AddRoomType(rows: seq<Draft>): (r: seq<Draft>)
    ensures |r| == |rows| + 1
    ensures r[..|rows|] == rows
    ensures r[|rows|].typeName == "custom-type-" + IntToString(|r|)
    ensures r[|rows|].nameKor == "" && r[|rows|].nameEng == ""
    ensures r[|rows|].price == Str("") && r[|rows|].stock == Str("") && r[|rows|].aliases == Some([])
  {
    rows + [NewRoomType(|rows|)]
  }

  /** `roomTypes.filter((_, i) => i !== index)`: every row whose position
      differs from `index`. */
  function RemoveRoomType(rows: seq<Draft>, index: int): (r: seq<Draft>)
    decreases |rows|
    ensures 0 <= index < |rows| ==> r == rows[..index] + rows[index + 1..]
    ensures !(0 <= index < |rows|) ==> r == rows
  {
    if |rows| == 0 then []
    else
      var rest := RemoveRoomType(rows[1..], index - 1);
      PrefixOfTail(rows, index);
      (if index == 0 then [] else [rows[0]]) + rest
  }

  /** A list is its head followed by its tail, and so is each non-empty
      prefix. */
  lemma PrefixOfTail<T>(rows: seq<T>, index: int)
    requires |rows| > 0
    ensures rows == [rows[0]] + rows[1..]
    ensures 0 < index <= |rows| ==> rows[..index] == [rows[0]] + rows[1..][..index - 1]
  {
    if 0 < index <= |rows| {
      assert rows[1..][..index - 1] == rows[1..index];
    }
  }

  /** Removing the row just added restores the list; removing a row drops
      exactly that row. */
  lemma AddThenRemove(rows: seq<Draft>)
    ensures RemoveRoomType(AddRoomType(rows), |rows|) == rows
  {
    assert AddRoomType(rows)[..|rows|] == rows;
  }

  lemma RemoveDropsOne(rows: seq<Draft>, index: int)
    requires 0 <= index < |rows|
    ensures multiset(RemoveRoomType(rows, index)) == multiset(rows) - multiset{rows[index]}
  {
    WithoutOne(rows, index);
  }

  /** The first check of `handleSave`: a blank id, address, phone number
      or email, or a falsy room count. */
  predicate MissingRequired(f: Form)
  {
    Trim(f.hotelId) == "" || Trim(f.address) == "" || Trim(f.phoneNumber) == ""
    || Trim(f.email) == "" || !Truthy(f.totalRooms)
  }

  /** `isNaN(Number(totalRooms)) || Number(totalRooms) < 1`. */
  predicate BadTotalRooms(f: Form)
  {
    var n := ToNumber(f.totalRooms);
    n.NaN? || n.v < 1
  }

  /** A row passes the room-type check: both names non-empty, and price
      and stock neither `''` nor `NaN` as numbers. */
  predicate ValidDraft(d: Draft)
  {
    && d.nameKor != "" && d.nameEng != ""
    && d.price != Str("") && d.stock != Str("")
    && ToNumber(d.price).Int? && ToNumber(d.stock).Int?
  }

  predicate BadRoomTypes(rows: seq<Draft>)
  {
    |rows| == 0 || exists k :: 0 <= k < |rows| && !ValidDraft(rows[k])
  }

  /** The aliases as saved: each trimmed and lower-cased; a row without an
      array saves none. */
  function SavedAliases(aliases: Option<seq<string>>): (r: seq<string>)
    ensures aliases.None? ==> r == []
    ensures aliases.Some? ==> |r| == |aliases.value|
    ensures aliases.Some? ==> forall k :: 0 <= k < |r| ==> r[k] == NormalizeHotelId(aliases.value[k])
  {
    match aliases
    case None => []
    case Some(a) => seq(|a|, k requires 0 <= k < |a| => Lower(Trim(a[k])))
  }

  /** A valid row as `handleSave` stores it: names trimmed, price and
      stock as numbers, aliases normalised, type kept. */
  function SavedRoomType(d: Draft): (rt: RoomType)
    requires ValidDraft(d)
    ensures rt.typeName == d.typeName
    ensures rt.nameKor == Trim(d.nameKor) && rt.nameEng == Trim(d.nameEng)
    ensures Int(rt.price) == ToNumber(d.price) && Int(rt.stock) == ToNumber(d.stock)
    ensures rt.aliases == SavedAliases(d.aliases)
  {
    RoomType(d.typeName, Trim(d.nameKor), Trim(d.nameEng),
             ToNumber(d.price).v, ToNumber(d.stock).v, SavedAliases(d.aliases))
  }

  /** `handleSave` up to the request: the three checks in order, each with
      its message, then the normalised settings. */
  function HandleSave(f: Form): (r: Result<Settings>)
    ensures r.Ok? <==> !MissingRequired(f) && !BadTotalRooms(f) && !BadRoomTypes(f.roomTypes)
    ensures MissingRequired(f) ==> r == Err(RequiredMessage)
    ensures !MissingRequired(f) && BadTotalRooms(f) ==> r == Err(TotalRoomsMessage)
    ensures !MissingRequired(f) && !BadTotalRooms(f) && BadRoomTypes(f.roomTypes) ==> r == Err(RoomTypesMessage)
    ensures r.Ok? ==>
              && r.value.hotelId == NormalizeHotelId(f.hotelId) && r.value.hotelId != ""
              && r.value.totalRooms >= 1 && Int(r.value.totalRooms) == ToNumber(f.totalRooms)
              && r.value.email == Trim(f.email) && r.value.address == Trim(f.address)
              && r.value.phoneNumber == Trim(f.phoneNumber)
              && |r.value.roomTypes| == |f.roomTypes| >= 1
              && forall k :: 0 <= k < |f.roomTypes| ==> r.value.roomTypes[k] == SavedRoomType(f.roomTypes[k])
  {
    if MissingRequired(f) then Err(RequiredMessage)
    else if BadTotalRooms(f) then Err(TotalRoomsMessage)
    else if BadRoomTypes(f.roomTypes) then Err(RoomTypesMessage)
    else
      TrimEmptyIffBlank(f.hotelId);
      var rows := f.roomTypes;
      Ok(Settings(
        NormalizeHotelId(f.hotelId),
        ToNumber(f.totalRooms).v,
        seq(|rows|, k requires 0 <= k < |rows| => SavedRoomType(rows[k])),
        Trim(f.email), Trim(f.address), Trim(f.phoneNumber)))
  }

  /** `isNaN(null)` is false and `Number(null)` is 0: a named row whose
      price and stock came back `null` passes the check and is saved at 0,
      while `undefined` is refused. */
  lemma NullPriceSavedAsZero(d: Draft)
    requires d.nameKor != "" && d.nameEng != ""
    ensures ValidDraft(d.(price := Null, stock := Null))
    ensures SavedRoomType(d.(price := Null, stock := Null)).price == 0
    ensures SavedRoomType(d.(price := Null, stock := Null)).stock == 0
    ensures !ValidDraft(d.(price := Undefined))
  {
  }

  /** Saving right after adding a row is refused: the new row has no
      names. */
  lemma AddedRowBlocksSave(f: Form)
    requires !MissingRequired(f) && !BadTotalRooms(f)
    ensures HandleSave(f.(roomTypes := AddRoomType(f.roomTypes))) == Err(RoomTypesMessage)
  {
    var rows := AddRoomType(f.roomTypes);
    assert !ValidDraft(rows[|f.roomTypes|]);
  }

  /** The form the saved settings load back into. */
  function FormOf(s: Settings): Form
  {
    Form(s.hotelId, Number(Int(s.totalRooms)),
         seq(|s.roomTypes|, k requires 0 <= k < |s.roomTypes| => DraftOf(s.roomTypes[k])),
         s.address, s.phoneNumber, s.email)
  }

  function DraftOf(rt: RoomType): Draft
  {
    Draft(rt.typeName, rt.nameKor, rt.nameEng, Number(Int(rt.price)), Number(Int(rt.stock)), Some(rt.aliases))
  }

  /** Normalising an alias a second time changes nothing. */
  lemma SavedAliasesIdempotent(aliases: Option<seq<string>>)
    ensures SavedAliases(Some(SavedAliases(aliases))) == SavedAliases(aliases)
  {
    var a := SavedAliases(aliases);
    forall k | 0 <= k < |a|
      ensures NormalizeHotelId(a[k]) == a[k]
    {
      NormalizeHotelIdIdempotent(aliases.value[k]);
    }
  }

  /** A saved row whose names are not blank saves to itself again. */
  lemma SavedRoomTypeStable(d: Draft)
    requires ValidDraft(d)
    requires SavedRoomType(d).nameKor != "" && SavedRoomType(d).nameEng != ""
    ensures ValidDraft(DraftOf(SavedRoomType(d)))
    ensures SavedRoomType(DraftOf(SavedRoomType(d))) == SavedRoomType(d)
  {
    var rt := SavedRoomType(d);
    var e := DraftOf(rt);
    assert ToNumber(e.price) == Int(rt.price) && ToNumber(e.stock) == Int(rt.stock);
    assert ValidDraft(e);
    TrimIdempotent(d.nameKor);
    TrimIdempotent(d.nameEng);
    SavedAliasesIdempotent(d.aliases);
    var rt2 := SavedRoomType(e);
    assert rt2.typeName == rt.typeName && rt2.nameKor == rt.nameKor && rt2.nameEng == rt.nameEng;
    assert rt2.price == rt.price && rt2.stock == rt.stock;
    assert rt2.aliases == rt.aliases;
  }

  /** The rows of the saved settings, loaded back, save to the same
      rows. */
  lemma SavedRowsStable(rows: seq<Draft>, saved: seq<RoomType>)
    requires |saved| == |rows|
    requires forall k :: 0 <= k < |rows| ==> ValidDraft(rows[k]) && saved[k] == SavedRoomType(rows[k])
    requires forall k :: 0 <= k < |saved| ==> saved[k].nameKor != "" && saved[k].nameEng != ""
    ensures forall k :: 0 <= k < |saved| ==>
              ValidDraft(DraftOf(saved[k])) && SavedRoomType(DraftOf(saved[k])) == saved[k]
  {
    forall k | 0 <= k < |saved|
      ensures ValidDraft(DraftOf(saved[k])) && SavedRoomType(DraftOf(saved[k])) == saved[k]
    {
      SavedRoomTypeStable(rows[k]);
    }
  }

  /** Settings already in saved form load back into a form that saves to
      them again. */
  lemma SaveOfSavedForm(s: Settings)
    requires NormalizeHotelId(s.hotelId) == s.hotelId != ""
    requires s.totalRooms >= 1
    requires Trim(s.email) == s.email != "" && Trim(s.address) == s.address != ""
    requires Trim(s.phoneNumber) == s.phoneNumber != ""
    requires |s.roomTypes| >= 1
    requires forall k :: 0 <= k < |s.roomTypes| ==>
               ValidDraft(DraftOf(s.roomTypes[k])) && SavedRoomType(DraftOf(s.roomTypes[k])) == s.roomTypes[k]
    ensures HandleSave(FormOf(s)) == Ok(s)
  {
    SavedFieldsPass(s);
    SavedRowsPass(s);
    SavedRowsBack(s);
    SavedFieldsBack(s);
  }

  /** The rows of the form of saved settings save back to those rows. */
  lemma SavedRowsBack(s: Settings)
    requires HandleSave(FormOf(s)).Ok?
    requires forall k :: 0 <= k < |s.roomTypes| ==>
               ValidDraft(DraftOf(s.roomTypes[k])) && SavedRoomType(DraftOf(s.roomTypes[k])) == s.roomTypes[k]
    ensures HandleSave(FormOf(s)).value.roomTypes == s.roomTypes
  {
    var g := FormOf(s);
    var r := HandleSave(g);
    forall k | 0 <= k < |s.roomTypes| ensures r.value.roomTypes[k] == s.roomTypes[k] {
      assert g.roomTypes[k] == DraftOf(s.roomTypes[k]);
    }
  }

  /** The other fields of the form of saved settings save back to
      themselves. */
  lemma SavedFieldsBack(s: Settings)
    requires HandleSave(FormOf(s)).Ok?
    requires NormalizeHotelId(s.hotelId) == s.hotelId
    requires Trim(s.email) == s.email && Trim(s.address) == s.address && Trim(s.phoneNumber) == s.phoneNumber
    ensures var v := HandleSave(FormOf(s)).value;
            && v.hotelId == s.hotelId && v.totalRooms == s.totalRooms && v.email == s.email
            && v.address == s.address && v.phoneNumber == s.phoneNumber
  {
  }

  /** The form of settings in saved shape passes the required-field and
      room-count checks of the save. */
  lemma SavedFieldsPass(s: Settings)
    requires NormalizeHotelId(s.hotelId) == s.hotelId != ""
    requires s.totalRooms >= 1
    requires Trim(s.email) == s.email != "" && Trim(s.address) == s.address != ""
    requires Trim(s.phoneNumber) == s.phoneNumber != ""
    ensures !MissingRequired(FormOf(s)) && !BadTotalRooms(FormOf(s))
  {
    SavedIdPresent(s);
    SavedCountPasses(s);
    SavedContactsPresent(s);
  }

  lemma SavedIdPresent(s: Settings)
    requires NormalizeHotelId(s.hotelId) == s.hotelId != ""
    ensures Trim(FormOf(s).hotelId) != ""
  {
    TrimEmptyIffBlank(s.hotelId);
  }

  lemma SavedCountPasses(s: Settings)
    requires s.totalRooms >= 1
    ensures !BadTotalRooms(FormOf(s)) && Truthy(FormOf(s).totalRooms)
  {
  }

  lemma SavedContactsPresent(s: Settings)
    requires Trim(s.email) == s.email != "" && Trim(s.address) == s.address != ""
    requires Trim(s.phoneNumber) == s.phoneNumber != ""
    ensures Trim(FormOf(s).email) != "" && Trim(FormOf(s).address) != "" && Trim(FormOf(s).phoneNumber) != ""
  {
  }

  /** The rows of saved settings pass the room-type check. */
  lemma SavedRowsPass(s: Settings)
    requires |s.roomTypes| >= 1
    requires forall k :: 0 <= k < |s.roomTypes| ==> ValidDraft(DraftOf(s.roomTypes[k]))
    ensures !BadRoomTypes(FormOf(s).roomTypes)
  {
    var rows := FormOf(s).roomTypes;
    forall k | 0 <= k < |rows| ensures ValidDraft(rows[k]) {
      assert rows[k] == DraftOf(s.roomTypes[k]);
    }
  }

  /** Saving the settings that were just saved gives the same settings,
      provided no room-type name was saved blank. */
  lemma SaveIsStable(f: Form)
    requires HandleSave(f).Ok?
    requires forall k :: 0 <= k < |HandleSave(f).value.roomTypes| ==>
               HandleSave(f).value.roomTypes[k].nameKor != "" && HandleSave(f).value.roomTypes[k].nameEng != ""
    ensures HandleSave(FormOf(HandleSave(f).value)) == HandleSave(f)
  {
    var s := HandleSave(f).value;
    SavedRowsStable(f.roomTypes, s.roomTypes);
    NormalizeHotelIdIdempotent(f.hotelId);
    TrimIdempotent(f.email);
    TrimIdempotent(f.address);
    TrimIdempotent(f.phoneNumber);
    SaveOfSavedForm(s);
  }

  /** The name check looks at the untrimmed text: a name of spaces passes
      it and is saved empty. */
  lemma BlankNameSavedEmpty(f: Form, k: nat)
    requires HandleSave(f).Ok? && k < |f.roomTypes|
    requires forall i :: 0 <= i < |f.roomTypes[k].nameKor| ==> IsSpace(f.roomTypes[k].nameKor[i])
    ensures HandleSave(f).value.roomTypes[k].nameKor == ""
  {
    TrimEmptyIffBlank(f.roomTypes[k].nameKor);
  }
}
