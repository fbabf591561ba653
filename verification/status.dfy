/** `isCancelledStatus` (src/render/utils/isCancelledStatus.js): a
    reservation is cancelled when its status, room information or
    reservation number mentions a cancel keyword in any letter case, or when
    the guest name contains an asterisk. */
module Status {
  import opened Text
  import opened Maybe

  /** The ten keywords, in the order the source lists them. */
  const CancelKeywords: seq<string> :=
    ["취소", "예약취소", "고객취소", "취소된 예약", "Canceled", "Cancelled",
     "キャンセル", "Annullé", "Anulado", "Abgebrochen"]

  /** `text.toLowerCase().includes(kw.toLowerCase())` for one keyword. */
  predicate MentionsKeyword(text: string, kw: string)
  {
    Contains(Lower(text), Lower(kw))
  }

  /** `kws.some((kw) => text.toLowerCase().includes(kw.toLowerCase()))`,
      scanning the keywords left to right. */
  function SomeKeyword(text: string, kws: seq<string>): (r: bool)
    ensures r <==> exists k :: 0 <= k < |kws| && MentionsKeyword(text, kws[k])
  {
    if |kws| == 0 then false
    else if MentionsKeyword(text, kws[0]) then true
    else
      assert forall k :: 1 <= k < |kws| ==> kws[k] == kws[1..][k - 1];
      SomeKeyword(text, kws[1..])
  }

  /** One of the ten keywords occurs in `text`, ignoring case. */
  predicate MentionsCancel(text: string)
  {
    exists k :: 0 <= k < |CancelKeywords| && MentionsKeyword(text, CancelKeywords[k])
  }

  /** An optional field passes the keyword test; an absent one does not. */
  predicate OptionalMentionsCancel(field: Option<string>)
  {
    field.Some? && MentionsCancel(field.value)
  }

  /** `isCancelledStatus(reservationStatus, customerName, roomInfo,
      reservationNo)`. The three trailing fields may be absent (`None` for
      `null` or `undefined`); an empty string is falsy in the source and
      contains no keyword, so treating it as present changes nothing. */
  function IsCancelledStatus(status: string, name: Option<string>, roomInfo: Option<string>,
                             reservationNo: Option<string>): (r: bool)
    ensures r <==> || MentionsCancel(status)
                   || (name.Some? && '*' in name.value)
                   || OptionalMentionsCancel(roomInfo)
                   || OptionalMentionsCancel(reservationNo)
    ensures name.Some? && '*' in name.value ==> r
    ensures roomInfo.None? && reservationNo.None? ==>
              (r <==> MentionsCancel(status) || (name.Some? && '*' in name.value))
  {
    var statusCancelled := SomeKeyword(status, CancelKeywords);
    var nameCancelled := name.Some? && name.value != "" && '*' in name.value;
    var roomInfoCancelled := roomInfo.Some? && roomInfo.value != "" && SomeKeyword(roomInfo.value, CancelKeywords);
    var numberCancelled := reservationNo.Some? && reservationNo.value != "" && SomeKeyword(reservationNo.value, CancelKeywords);
    EmptyMentionsNothing();
    statusCancelled || nameCancelled || roomInfoCancelled || numberCancelled
  }

  /** The empty string mentions no keyword: every keyword is non-empty. */
  lemma EmptyMentionsNothing()
    ensures !MentionsCancel("")
  {
    forall k | 0 <= k < |CancelKeywords|
      ensures !MentionsKeyword("", CancelKeywords[k])
    {
      assert |Lower(CancelKeywords[k])| > 0;
    }
  }

  /** Seven keywords suffice: "예약취소", "고객취소" and "취소된 예약" all
      contain "취소", so the classifier is the same with the three longer
      Korean keywords dropped. */
  const EssentialKeywords: seq<string> :=
    ["취소", "canceled", "cancelled", "キャンセル", "annullé", "anulado", "abgebrochen"]

  lemma KeywordsReduce(text: string)
    ensures MentionsCancel(text) <==>
              exists k :: 0 <= k < |EssentialKeywords| && Contains(Lower(text), EssentialKeywords[k])
  {
    var t := Lower(text);
    assert Lower("취소") == "취소";
    assert Lower("예약취소") == "예약취소";
    assert Lower("고객취소") == "고객취소";
    assert Lower("취소된 예약") == "취소된 예약";
    assert Lower("Canceled") == "canceled";
    assert Lower("Cancelled") == "cancelled";
    assert Lower("キャンセル") == "キャンセル";
    assert Lower("Annullé") == "annullé";
    assert Lower("Anulado") == "anulado";
    assert Lower("Abgebrochen") == "abgebrochen";
    if MentionsCancel(text) {
      var k :| 0 <= k < |CancelKeywords| && MentionsKeyword(text, CancelKeywords[k]);
      if 1 <= k <= 3 {
        assert OccursAt(Lower(CancelKeywords[k]), "취소", if k == 3 then 0 else 2);
        ContainsTrans(t, Lower(CancelKeywords[k]), "취소");
        assert Contains(t, EssentialKeywords[0]);
      } else {
        var e := if k == 0 then 0 else k - 3;
        assert EssentialKeywords[e] == Lower(CancelKeywords[k]);
      }
    } else {
      forall e | 0 <= e < |EssentialKeywords|
        ensures !Contains(t, EssentialKeywords[e])
      {
        var k := if e == 0 then 0 else e + 3;
        assert !MentionsKeyword(text, CancelKeywords[k]);
      }
    }
  }

  /** The classifier ignores letter case in the keyword fields. */
  lemma CaseInsensitive(status: string, roomInfo: string, reservationNo: string, name: Option<string>)
    ensures IsCancelledStatus(Lower(status), name, Some(Lower(roomInfo)), Some(Lower(reservationNo)))
         == IsCancelledStatus(status, name, Some(roomInfo), Some(reservationNo))
  {
    LowerIdempotent(status);
    LowerIdempotent(roomInfo);
    LowerIdempotent(reservationNo);
  }
}
