/** The GoodChoice Motel adapter (electron/scrapers/otas/goodMotel.js):
    splitting the text of one reservation row into fields, removing
    duplicate reservation numbers, and the navigation / send flow of one
    scrape. */
module GoodMotel {
  import opened Text
  import opened Maybe
  import opened Tabs

  // ---------------------------------------------------------------------
  // One row.

  /** The inner text of the cells a row's fields are read from; `None`
      when the selector finds no cell. */
  datatype Row = Row(
    statusCell: Option<string>,
    infoCell: Option<string>,
    numberCell: Option<string>,
    priceCell: Option<string>)

  datatype Booking = Booking(
    reservationStatus: string,
    reservationNo: string,
    customerName: string,
    phoneNumber: string,
    roomInfo: string,
    checkIn: string,
    checkOut: string,
    price: string,
    reservationDate: string)

  /** `cell ? cell.innerText.trim() : ''`. */
  function CellText(cell: Option<string>): string
  {
    if cell.Some? then Trim(cell.value) else ""
  }

  /** `roomInfoText.split('|').map((t) => t.trim())` destructured into the
      name and the raw phone part (`''` for both on an empty text, and an
      empty phone part when there is no `|`). */
  function NameAndPhoneRaw(info: string): (r: (string, string))
    ensures info == "" ==> r == ("", "")
    ensures info != "" ==> r.0 == Trim(Split(info, '|')[0])
    ensures '|' !in info ==> r.1 == ""
  {
    if info == "" then ("", "")
    else
      var parts := Split(info, '|');
      (Trim(parts[0]), if |parts| > 1 then Trim(parts[1]) else "")
  }

  /** The phone number: the first line of the raw phone part, trimmed. */
  function PhoneOf(raw: string): (r: string)
    ensures '\n' !in raw ==> r == Trim(raw)
    ensures '\n' in raw ==> r == Trim(raw[..FirstIndex(raw, '\n')])
  {
    if raw == "" then ""
    else
      SplitHead(raw, '\n');
      Trim(Split(raw, '\n')[0])
  }

  /** The shape of `\d{4}-\d{2}-\d{2} \d{2}:\d{2} ~ \d{4}-\d{2}-\d{2}
      \d{2}:\d{2}`; `D` stands for a digit. */
  const StampShape: string := "DDDD-DD-DD DD:DD ~ DDDD-DD-DD DD:DD"

  predicate FitsShape(c: char, shape: char)
  {
    if shape == 'D' then IsDigit(c) else c == shape
  }

  /** The stay pattern matches at index `i`. */
  predicate StampAt(s: string, i: nat)
  {
    i + |StampShape| <= |s| && forall k :: 0 <= k < |StampShape| ==> FitsShape(s[i + k], StampShape[k])
  }

  /** The leftmost match of the stay pattern at or after `from`. */
  function FirstStamp(s: string, from: nat): (r: Option<nat>)
    decreases |s| - from
    ensures r.Some? ==> from <= r.value && StampAt(s, r.value)
    ensures r.Some? ==> forall j :: from <= j < r.value ==> !StampAt(s, j)
    ensures r.None? ==> forall j :: from <= j ==> !StampAt(s, j)
  {
    if from + |StampShape| > |s| then None
    else if StampAt(s, from) then Some(from)
    else FirstStamp(s, from + 1)
  }

  /** Check-in and check-out: the two trimmed sides of `~` in the matched
      text, or `''` when the pattern does not occur. */
  function StayOf(info: string): (r: (string, string))
    ensures FirstStamp(info, 0).None? ==> r == ("", "")
  {
    match FirstStamp(info, 0)
    case None => ("", "")
    case Some(i) =>
      var m := info[i..i + |StampShape|];
      var sides := Split(m, '~');
      StampHasOneTilde(info, i);
      (Trim(sides[0]), Trim(sides[1]))
  }

  /** The matched text has exactly one `~`, at offset 17, with a space on
      either side. */
  lemma StampHasOneTilde(info: string, i: nat)
    requires StampAt(info, i)
    ensures var m := info[i..i + |StampShape|];
            Split(m, '~') == [m[..17], m[18..]]
  {
    var m := info[i..i + |StampShape|];
    forall k | 0 <= k < |m| ensures FitsShape(m[k], StampShape[k]) {
      assert m[k] == info[i + k];
    }
    forall k | 0 <= k < 17 ensures m[..17][k] != '~' {
      assert FitsShape(m[k], StampShape[k]);
    }
    forall k | 0 <= k < 17 ensures m[18..][k] != '~' {
      assert FitsShape(m[18 + k], StampShape[18 + k]);
    }
    SplitOnce(m, '~', 17);
  }

  /** The two sides are the date-and-time texts themselves: characters 0 to
      15 and 19 to 34 of the match. */
  lemma StayIsTheTwoStamps(info: string, i: nat)
    requires FirstStamp(info, 0) == Some(i)
    ensures StayOf(info) == (info[i..i + 16], info[i + 19..i + 35])
  {
    var m := info[i..i + |StampShape|];
    StampHasOneTilde(info, i);
    StampEnds(info, i);
    StampSides(info, i);
    TrimStampSides(m[..17], m[18..]);
  }

  /** The two sides of a match, as slices of the row text. */
  lemma StampSides(info: string, i: nat)
    requires StampAt(info, i)
    ensures var m := info[i..i + |StampShape|];
            && m[..17][..16] == info[i..i + 16] && m[..17][0] == info[i] && m[..17][15] == info[i + 15]
            && m[..17][16] == info[i + 16] && |m[..17]| == 17
            && m[18..][1..] == info[i + 19..i + 35] && m[18..][0] == info[i + 18]
            && m[18..][1] == info[i + 19] && m[18..][16] == info[i + 34] && |m[18..]| == 17
  {
  }

  lemma TrimStampSides(left: string, right: string)
    requires |left| == 17 && IsDigit(left[0]) && IsDigit(left[15]) && left[16] == ' '
    requires |right| == 17 && right[0] == ' ' && IsDigit(right[1]) && IsDigit(right[16])
    ensures Trim(left) == left[..16] && Trim(right) == right[1..]
  {
    TrimBetween(left, 0, 16);
    TrimBetween(right, 1, 17);
  }

  /** The characters around the `~` of a match. */
  lemma StampEnds(info: string, i: nat)
    requires StampAt(info, i)
    ensures IsDigit(info[i]) && IsDigit(info[i + 15]) && IsDigit(info[i + 19]) && IsDigit(info[i + 34])
    ensures info[i + 16] == ' ' && info[i + 18] == ' '
  {
    assert FitsShape(info[i + 0], StampShape[0]);
    assert FitsShape(info[i + 15], StampShape[15]);
    assert FitsShape(info[i + 16], StampShape[16]);
    assert FitsShape(info[i + 18], StampShape[18]);
    assert FitsShape(info[i + 19], StampShape[19]);
    assert FitsShape(info[i + 34], StampShape[34]);
  }

  /** `roomInfoText.split('-')[1]?.trim() || roomInfoText`. */
  function RoomInfoOf(info: string): (r: string)
    ensures '-' !in info ==> r == info
    ensures r != info ==> '-' !in r && r != ""
  {
    var parts := Split(info, '-');
    if |parts| > 1 && Trim(parts[1]) != "" then
      TrimInside(parts[1]);
      Trim(parts[1])
    else info
  }

  /** Trimming keeps only characters of the original. */
  lemma TrimInside(s: string)
    ensures forall c :: c in Trim(s) ==> c in s
  {
    var a, b :| 0 <= a <= b <= |s| && Trim(s) == s[a..b];
  }

  /** The segment `RoomInfoOf` reads is the text between the first and
      second `-` (or the end). */
  lemma RoomInfoIsSecondSegment(info: string)
    requires '-' in info
    ensures var rest := info[FirstIndex(info, '-') + 1..];
            var seg := if '-' in rest then rest[..FirstIndex(rest, '-')] else rest;
            RoomInfoOf(info) == if Trim(seg) != "" then Trim(seg) else info
  {
    SplitSecond(info, '-');
  }

  /** The mapping of one row. */
  function ParseRow(row: Row): (b: Booking)
    ensures b.reservationStatus == CellText(row.statusCell)
    ensures b.reservationNo == CellText(row.numberCell)
    ensures b.price == CellText(row.priceCell)
    ensures var info := CellText(row.infoCell);
            && b.customerName == NameAndPhoneRaw(info).0
            && b.phoneNumber == PhoneOf(NameAndPhoneRaw(info).1)
            && b.roomInfo == RoomInfoOf(info)
    ensures (b.checkIn, b.checkOut) == StayOf(CellText(row.infoCell))
    ensures b.reservationDate == b.checkIn
  {
    var info := CellText(row.infoCell);
    var (name, phoneRaw) := NameAndPhoneRaw(info);
    var (checkIn, checkOut) := if info == "" then ("", "") else StayOf(info);
    assert info == "" ==> StayOf(info) == ("", "");
    Booking(CellText(row.statusCell), CellText(row.numberCell), name, PhoneOf(phoneRaw),
            RoomInfoOf(info), checkIn, checkOut, CellText(row.priceCell), checkIn)
  }

  function ParseRows(rows: seq<Row>): (bs: seq<Booking>)
    ensures |bs| == |rows|
    ensures forall k :: 0 <= k < |rows| ==> bs[k] == ParseRow(rows[k])
  {
    seq(|rows|, k requires 0 <= k < |rows| => ParseRow(rows[k]))
  }

  // ---------------------------------------------------------------------
  // Removing duplicates: `new Map(bs.map((b) => [b.reservationNo, b]))`.

  /** The entries of a JavaScript `Map` in insertion order. */
  type Entries = seq<(string, Booking)>

  predicate DistinctKeys(es: Entries)
  {
    forall i, j :: 0 <= i < j < |es| ==> es[i].0 != es[j].0
  }

  /** `map.set(key, value)`: an existing key keeps its place and gets the new
      value; a new key is appended. */
  function MapSet(es: Entries, key: string, value: Booking): (r: Entries)
    requires DistinctKeys(es)
    ensures DistinctKeys(r)
    ensures |es| <= |r| <= |es| + 1
    ensures forall i :: 0 <= i < |es| ==> r[i].0 == es[i].0
    ensures (exists i :: 0 <= i < |es| && es[i].0 == key) ==> |r| == |es|
    ensures (forall i :: 0 <= i < |es| ==> es[i].0 != key) ==> r == es + [(key, value)]
    ensures forall i :: 0 <= i < |r| ==> if r[i].0 == key then r[i].1 == value else r[i] == es[i]
  {
    if exists i :: 0 <= i < |es| && es[i].0 == key then
      var i :| 0 <= i < |es| && es[i].0 == key;
      es[i := (key, value)]
    else es + [(key, value)]
  }

  /** The entries after inserting every booking left to right. */
  function MapOf(bs: seq<Booking>): (r: Entries)
    ensures DistinctKeys(r)
    ensures forall k :: 0 <= k < |r| ==> r[k].1.reservationNo == r[k].0
    ensures |r| <= |bs|
  {
    if |bs| == 0 then []
    else
      var last := bs[|bs| - 1];
      MapSet(MapOf(bs[..|bs| - 1]), last.reservationNo, last)
  }

  /** `Array.from(map.values())`. */
  function Dedup(bs: seq<Booking>): (r: seq<Booking>)
    ensures |r| == |MapOf(bs)| && |r| <= |bs|
    ensures forall k :: 0 <= k < |r| ==> r[k] == MapOf(bs)[k].1
  {
    var es := MapOf(bs);
    seq(|es|, k requires 0 <= k < |es| => es[k].1)
  }

  /** Each entry is keyed by its booking's number, and is the last booking
      of the input with that number. */
  predicate IsLastWithKey(bs: seq<Booking>, key: string, b: Booking)
  {
    exists i :: && 0 <= i < |bs| && bs[i] == b && b.reservationNo == key
                && forall j :: i < j < |bs| ==> bs[j].reservationNo != key
  }

  lemma {:induction false} MapOfIsLastOccurrence(bs: seq<Booking>)
    ensures forall k :: 0 <= k < |MapOf(bs)| ==> IsLastWithKey(bs, MapOf(bs)[k].0, MapOf(bs)[k].1)
  {
    if |bs| > 0 {
      var init := bs[..|bs| - 1];
      var last := bs[|bs| - 1];
      MapOfIsLastOccurrence(init);
      var es := MapOf(init);
      var r := MapOf(bs);
      forall k | 0 <= k < |r| ensures IsLastWithKey(bs, r[k].0, r[k].1) {
        if r[k].0 == last.reservationNo {
          assert bs[|bs| - 1] == r[k].1;
        } else {
          assert r[k] == es[k];
          var i :| && 0 <= i < |init| && init[i] == es[k].1 && es[k].1.reservationNo == es[k].0
                   && forall j :: i < j < |init| ==> init[j].reservationNo != es[k].0;
          assert bs[i] == init[i];
          forall j | i < j < |bs| ensures bs[j].reservationNo != r[k].0 {
            if j < |bs| - 1 { assert bs[j] == init[j]; }
          }
        }
      }
    }
  }

  /** The keys of a list of entries. */
  function KeySet(es: Entries): set<string>
  {
    set k | 0 <= k < |es| :: es[k].0
  }

  /** The reservation numbers of a list of bookings. */
  function Numbers(bs: seq<Booking>): set<string>
  {
    set b | b in bs :: b.reservationNo
  }

  /** Setting a key adds exactly that key. */
  lemma MapSetKeys(es: Entries, key: string, value: Booking)
    requires DistinctKeys(es)
    ensures KeySet(MapSet(es, key, value)) == KeySet(es) + {key}
  {
    var r := MapSet(es, key, value);
    forall x | x in KeySet(r) ensures x in KeySet(es) + {key} {
      var k :| 0 <= k < |r| && r[k].0 == x;
      if k < |es| { assert es[k].0 == x; }
    }
    forall x | x in KeySet(es) + {key} ensures x in KeySet(r) {
      if x in KeySet(es) {
        var k :| 0 <= k < |es| && es[k].0 == x;
        assert r[k].0 == x;
      } else {
        forall k | 0 <= k < |es| ensures es[k].0 != x {
          assert es[k].0 in KeySet(es);
        }
        assert r[|es|].0 == x;
      }
    }
  }

  /** One more booking adds its number. */
  lemma NumbersSnoc(init: seq<Booking>, last: Booking)
    ensures Numbers(init + [last]) == Numbers(init) + {last.reservationNo}
  {
    var bs := init + [last];
    forall x | x in Numbers(bs) ensures x in Numbers(init) + {last.reservationNo} {
      var b :| b in bs && b.reservationNo == x;
      if b != last { assert b in init; }
    }
    assert last in bs;
  }

  /** The key set of the result is exactly the set of input numbers. */
  lemma {:induction false} MapOfKeys(bs: seq<Booking>)
    ensures KeySet(MapOf(bs)) == Numbers(bs)
  {
    if |bs| > 0 {
      var init := bs[..|bs| - 1];
      var last := bs[|bs| - 1];
      MapOfKeys(init);
      assert bs == init + [last];
      MapSetKeys(MapOf(init), last.reservationNo, last);
      NumbersSnoc(init, last);
    }
  }

  /** After removing duplicates no two bookings share a number, the
      numbers are those of the input, and each booking is the last one with
      its number. */
  lemma DedupProperties(bs: seq<Booking>)
    ensures forall i, j :: 0 <= i < j < |Dedup(bs)| ==> Dedup(bs)[i].reservationNo != Dedup(bs)[j].reservationNo
    ensures Numbers(Dedup(bs)) == Numbers(bs)
    ensures forall k :: 0 <= k < |Dedup(bs)| ==> IsLastWithKey(bs, Dedup(bs)[k].reservationNo, Dedup(bs)[k])
  {
    var es := MapOf(bs);
    var d := Dedup(bs);
    MapOfIsLastOccurrence(bs);
    MapOfKeys(bs);
    var keys := KeySet(es);
    var numbers := Numbers(d);
    forall x | x in keys ensures x in numbers {
      var k :| 0 <= k < |es| && es[k].0 == x;
      assert d[k] in d;
    }
    forall x | x in numbers ensures x in keys {
      var b :| b in d && b.reservationNo == x;
      var k :| 0 <= k < |d| && d[k] == b;
      assert es[k].0 == x;
    }
  }

  // ---------------------------------------------------------------------
  // One scrape.

  const Domain: string := "ad.goodchoice.kr"

  /** The history page for a date range; the two URLs the adapter opens
      differ in the range and in the trailing status filter. */
  function HistoryUrl(startDate: string, endDate: string, status: string): string
  {
    HistoryBase + startDate + "&end_date=" + endDate + HistoryQuery + status
  }

  const HistoryBase: string := "https://ad.goodchoice.kr/reservation/history/total?start_date="
  const HistoryQuery: string := "&keyword=&keywordType=ORDER_NUMBER&armgno=&sort=checkin&page=1&checked_in=&status="

  /** What the browser and the site do during one scrape: whether each
      navigation and each wait for the table succeeds, and the rows the
      table finally shows. */
  datatype Browsing = Browsing(
    openOk: bool,
    firstTableOk: bool,
    updateOk: bool,
    secondTableOk: bool,
    rows: seq<Row>)

  /** The outcome: the tabs afterwards, the bookings sent to the server (at
      most one send), whether the scrape threw, and whether the date-range
      warning was logged. */
  datatype Scrape = Scrape(tabs: seq<Tab>, sent: Option<seq<Booking>>, threw: bool, warned: bool)

  /** `scrapeGoodChoiceMotel`. `inRange` is the date-range check of one
      check-in text against [start, end of the end day]. Sending never
      throws: the send helper logs and swallows its own errors. */
  function ScrapeGoodMotel(tabs: seq<Tab>, startDate: string, endDate: string, env: Browsing,
                           inRange: string -> bool): (r: Scrape)
    ensures |tabs| <= |r.tabs| <= |tabs| + 1
    ensures forall i :: 0 <= i < |tabs| ==> r.tabs[i] == tabs[i] || r.tabs[i] == Tab(HistoryUrl(startDate, endDate, "6"))
    ensures !(env.firstTableOk && env.updateOk) ==> r.tabs[..|tabs|] == tabs
    ensures r.sent.Some? ==> Tab(HistoryUrl(startDate, endDate, "6")) in r.tabs
    ensures r.sent.Some? ==> |r.sent.value| > 0 && !r.threw
    ensures r.sent.Some? ==> r.sent.value == Dedup(ParseRows(env.rows))
    ensures !env.firstTableOk || !env.secondTableOk ==> r.sent.None?
  {
    var first := FindOrCreatePage(tabs, Domain, HistoryUrl(startDate, startDate, ""), env.openOk);
    if first.page.Err? then Scrape(first.tabs, None, true, false)
    else if !env.firstTableOk then Scrape(first.tabs, None, false, false)
    else if !env.updateOk then Scrape(first.tabs, None, true, false)
    else
      var p := first.page.value;
      var after := first.tabs[p := Tab(HistoryUrl(startDate, endDate, "6"))];
      assert after[p] == Tab(HistoryUrl(startDate, endDate, "6"));
      AfterUpdate(after, env, inRange)
  }

  /** The scrape once the history tab shows the window: wait for the
      table, read and de-duplicate the rows, warn about stays outside the
      window, and send what is left unless it is empty. */
  function AfterUpdate(after: seq<Tab>, env: Browsing, inRange: string -> bool): (r: Scrape)
    ensures r.tabs == after && !r.threw
    ensures r.sent.Some? <==> env.secondTableOk && |Dedup(ParseRows(env.rows))| > 0
    ensures r.sent.Some? ==> r.sent.value == Dedup(ParseRows(env.rows))
  {
    if !env.secondTableOk then Scrape(after, None, false, false)
    else
      var unique := Dedup(ParseRows(env.rows));
      var allInRange := forall k :: 0 <= k < |unique| ==> inRange(unique[k].checkIn);
      if |unique| == 0 then Scrape(after, None, false, !allInRange)
      else Scrape(after, Some(unique), false, !allInRange)
  }

  /** The date-range check only decides the warning: the bookings sent and
      whether the scrape throws do not depend on it. */
  lemma RangeCheckOnlyWarns(tabs: seq<Tab>, startDate: string, endDate: string, env: Browsing,
                            in1: string -> bool, in2: string -> bool)
    ensures ScrapeGoodMotel(tabs, startDate, endDate, env, in1).(warned := false)
         == ScrapeGoodMotel(tabs, startDate, endDate, env, in2).(warned := false)
  {
  }

  /** A wait for the table that times out returns quietly; a failed
      navigation throws; neither sends. */
  lemma FailuresAndTimeouts(tabs: seq<Tab>, startDate: string, endDate: string, env: Browsing, inRange: string -> bool)
    ensures var r := ScrapeGoodMotel(tabs, startDate, endDate, env, inRange);
            && (env.openOk && !env.firstTableOk ==> !r.threw && r.sent.None?)
            && (env.openOk && env.firstTableOk && !env.updateOk ==> r.threw && r.sent.None?)
            && (env.openOk && env.firstTableOk && env.updateOk && !env.secondTableOk ==> !r.threw && r.sent.None?)
  {
  }

  /** When every step succeeds, the bookings are sent exactly when
      duplicate removal leaves at least one. */
  lemma SentIffNonEmpty(tabs: seq<Tab>, startDate: string, endDate: string, env: Browsing, inRange: string -> bool)
    requires env.openOk && env.firstTableOk && env.updateOk && env.secondTableOk
    ensures var r := ScrapeGoodMotel(tabs, startDate, endDate, env, inRange);
            && !r.threw
            && (r.sent.Some? <==> |Dedup(ParseRows(env.rows))| > 0)
  {
  }
}
