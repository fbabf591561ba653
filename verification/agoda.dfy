/** The pure parts of the Agoda adapter (scrapers/otas/agoda.js): the
    word-level room-type matcher with its script-aware prefixes and synonym
    table, the parsing of one booking-table row, and the price assigned to a
    scraped reservation. */
module Agoda {
  import opened Text
  import opened Maybe
  import opened RoomTypes
  import opened Sorting
  import opened Seqs

  /** The first code unit is a precomposed Hangul syllable. */
  predicate IsKorean(s: string)
  {
    |s| > 0 && 0xAC00 <= s[0] as int <= 0xD7A3
  }

  /** The number of leading characters two words must share: two for
      Hangul, three otherwise. */
  function PrefixLength(s: string): (n: nat)
    ensures n == 2 <==> IsKorean(s)
    ensures n == 3 <==> !IsKorean(s)
  {
    if IsKorean(s) then 2 else 3
  }

  /** `partialLangMatch(a, b)`: same script, both long enough, and the same
      leading characters. */
  function PartialLangMatch(a: string, b: string): (r: bool)
    ensures r ==> IsKorean(a) == IsKorean(b)
    ensures r ==> var n := PrefixLength(a); |a| >= n && |b| >= n && a[..n] == b[..n]
    ensures (&& IsKorean(a) == IsKorean(b) && |a| >= PrefixLength(a) && |b| >= PrefixLength(a)
             && a[..PrefixLength(a)] == b[..PrefixLength(a)]) ==> r
  {
    if IsKorean(a) != IsKorean(b) then false
    else if IsKorean(a) then |a| >= 2 && |b| >= 2 && a[..2] == b[..2]
    else |a| >= 3 && |b| >= 3 && a[..3] == b[..3]
  }

  lemma PartialLangMatchSymmetric(a: string, b: string)
    ensures PartialLangMatch(a, b) == PartialLangMatch(b, a)
  {
  }

  /** Sharing a prefix is transitive, so the relation groups words into
      classes by their leading characters. */
  lemma PartialLangMatchTransitive(a: string, b: string, c: string)
    requires PartialLangMatch(a, b) && PartialLangMatch(b, c)
    ensures PartialLangMatch(a, c)
  {
    var n := PrefixLength(a);
    assert a[..n] == b[..n];
    assert b[..n] == c[..n];
  }

  /** The synonym table, one group of variants per canonical form. */
  const Synonyms: seq<seq<string>> := [["double", "더블"], ["twin", "트윈"], ["hinoki", "히노키"]]

  /** `variants.some((v) => partialLangMatch(w, v))`. */
  function SomeVariant(w: string, variants: seq<string>): (r: bool)
    ensures r <==> exists k :: 0 <= k < |variants| && PartialLangMatch(w, variants[k])
  {
    if |variants| == 0 then false
    else if PartialLangMatch(w, variants[0]) then true
    else
      assert forall k :: 1 <= k < |variants| ==> variants[k] == variants[1..][k - 1];
      SomeVariant(w, variants[1..])
  }

  /** Both words match a variant of group `g`. */
  predicate SharedGroup(a: string, b: string, g: seq<string>)
  {
    (exists k :: 0 <= k < |g| && PartialLangMatch(a, g[k]))
    && (exists k :: 0 <= k < |g| && PartialLangMatch(b, g[k]))
  }

  /** The loop of `partialSynonymMatch` over the groups. */
  function SynonymLoop(a: string, b: string, groups: seq<seq<string>>): (r: bool)
    ensures r <==> exists i :: 0 <= i < |groups| && SharedGroup(a, b, groups[i])
  {
    if |groups| == 0 then false
    else if SomeVariant(a, groups[0]) && SomeVariant(b, groups[0]) then true
    else
      assert forall i :: 1 <= i < |groups| ==> groups[i] == groups[1..][i - 1];
      SynonymLoop(a, b, groups[1..])
  }

  /** `partialSynonymMatch(a, b)`. */
  function PartialSynonymMatch(a: string, b: string): (r: bool)
    ensures r <==> exists i :: 0 <= i < |Synonyms| && SharedGroup(a, b, Synonyms[i])
  {
    SynonymLoop(a, b, Synonyms)
  }

  /** `partialMatch(a, b)`: a direct prefix match or a shared synonym
      group. */
  function PartialMatch(a: string, b: string): bool
  {
    PartialLangMatch(a, b) || PartialSynonymMatch(a, b)
  }

  lemma PartialMatchSymmetric(a: string, b: string)
    ensures PartialMatch(a, b) == PartialMatch(b, a)
  {
    PartialLangMatchSymmetric(a, b);
    if PartialSynonymMatch(a, b) {
      var i :| 0 <= i < |Synonyms| && SharedGroup(a, b, Synonyms[i]);
      assert SharedGroup(b, a, Synonyms[i]);
    }
    if PartialSynonymMatch(b, a) {
      var i :| 0 <= i < |Synonyms| && SharedGroup(b, a, Synonyms[i]);
      assert SharedGroup(a, b, Synonyms[i]);
    }
  }

  /** English and Korean spellings of a synonym match each other although
      their scripts differ: "double room" and "더블룸" are related. */
  lemma SynonymBridgesScripts()
    ensures PartialMatch("double", "더블룸")
    ensures !PartialLangMatch("double", "더블룸")
  {
    var g := Synonyms[0];
    assert g[0] == "double" && g[1] == "더블";
    assert "double"[..3] == g[0][..3];
    assert PartialLangMatch("double", g[0]);
    assert IsKorean("더블룸") && IsKorean(g[1]);
    assert "더블룸"[..2] == g[1][..2];
    assert PartialLangMatch("더블룸", g[1]);
    assert SharedGroup("double", "더블룸", g);
  }

  /** A word separator of `/[\s\-]+/`. */
  predicate IsWordSep(c: char)
  {
    IsSpace(c) || c == '-'
  }

  /** `s.toLowerCase().split(/[\s\-]+/)`. */
  function WordsOf(s: string): seq<string>
  {
    SplitRuns(Lower(s), IsWordSep)
  }

  function WordsOfAll(ss: seq<string>): seq<string>
  {
    if |ss| == 0 then [] else WordsOf(ss[0]) + WordsOfAll(ss[1..])
  }

  predicate NonBlank(w: string)
  {
    |w| > 0
  }

  /** `ws.filter((w) => w.length > 0)`. */
  function NonEmpty(ws: seq<string>): seq<string>
  {
    if |ws| == 0 then []
    else if ws[0] == "" then NonEmpty(ws[1..])
    else [ws[0]] + NonEmpty(ws[1..])
  }

  /** Every non-empty word is kept, as often as it occurs and in order. */
  lemma {:induction false} NonEmptyFilters(ws: seq<string>)
    ensures NonEmpty(ws) == Filter(ws, NonBlank)
  {
    if |ws| > 0 {
      NonEmptyFilters(ws[1..]);
    }
  }

  /** The words of a room type: those of its type, Korean name, English
      name and aliases, empty words dropped. */
  function RoomTypeWords(rt: RoomType): seq<string>
  {
    NonEmpty(WordsOf(rt.typeName) + WordsOf(rt.nameKor) + WordsOf(rt.nameEng) + WordsOfAll(rt.aliases))
  }

  /** `rtWords.some((w) => partialMatch(word, w))`. */
  function MatchesSome(word: string, rtWords: seq<string>): (r: bool)
    ensures r <==> exists k :: 0 <= k < |rtWords| && PartialMatch(word, rtWords[k])
  {
    if |rtWords| == 0 then false
    else if PartialMatch(word, rtWords[0]) then true
    else
      assert forall k :: 1 <= k < |rtWords| ==> rtWords[k] == rtWords[1..][k - 1];
      MatchesSome(word, rtWords[1..])
  }

  /** The test of the `matchedWords` filter. */
  function MatchesAny(rtWords: seq<string>): string -> bool
  {
    (w: string) => MatchesSome(w, rtWords)
  }

  /** The test of the `substringMatches` filter. */
  function FoundIn(lowerName: string): string -> bool
  {
    (w: string) => |w| > 0 && Contains(lowerName, w)
  }

  /** `words.filter((w) => rtWords.some((rw) => partialMatch(w, rw)))`:
      every scraped word that partially matches some room-type word, and
      only those, in order and with repetitions. */
  function MatchedWords(words: seq<string>, rtWords: seq<string>): seq<string>
  {
    if |words| == 0 then []
    else if MatchesSome(words[0], rtWords) then [words[0]] + MatchedWords(words[1..], rtWords)
    else MatchedWords(words[1..], rtWords)
  }

  lemma {:induction false} MatchedWordsFilters(words: seq<string>, rtWords: seq<string>)
    ensures MatchedWords(words, rtWords) == Filter(words, MatchesAny(rtWords))
  {
    if |words| > 0 {
      MatchedWordsFilters(words[1..], rtWords);
    }
  }

  /** The room-type words that occur verbatim in the scraped name, all of
      them, in order. */
  function SubstringMatches(lowerName: string, rtWords: seq<string>): seq<string>
  {
    if |rtWords| == 0 then []
    else if |rtWords[0]| > 0 && Contains(lowerName, rtWords[0]) then [rtWords[0]] + SubstringMatches(lowerName, rtWords[1..])
    else SubstringMatches(lowerName, rtWords[1..])
  }

  lemma {:induction false} SubstringMatchesFilters(lowerName: string, rtWords: seq<string>)
    ensures SubstringMatches(lowerName, rtWords) == Filter(rtWords, FoundIn(lowerName))
  {
    if |rtWords| > 0 {
      SubstringMatchesFilters(lowerName, rtWords[1..]);
    }
  }

  /** The score of one room type against a lowered scraped name: the
      number of matched scraped words, plus, when that is below two, the
      number of room-type words found verbatim in the name. */
  function Score(lowerName: string, rt: RoomType): nat
  {
    var rtWords := RoomTypeWords(rt);
    var m := |MatchedWords(SplitRuns(lowerName, IsWordSep), rtWords)|;
    if m < 2 then m + |SubstringMatches(lowerName, rtWords)| else m
  }

  /** The score counts the positions of scraped words that partially match
      a room-type word and, when fewer than two do, adds the number of
      room-type words found verbatim in the name. */
  lemma ScoreCounts(lowerName: string, rt: RoomType)
    ensures var words, rtWords := SplitRuns(lowerName, IsWordSep), RoomTypeWords(rt);
            var m := CountWhere(words, MatchesAny(rtWords));
            Score(lowerName, rt) == if m < 2 then m + CountWhere(rtWords, FoundIn(lowerName)) else m
  {
    var words, rtWords := SplitRuns(lowerName, IsWordSep), RoomTypeWords(rt);
    MatchedWordsFilters(words, rtWords);
    SubstringMatchesFilters(lowerName, rtWords);
    FilterLength(words, MatchesAny(rtWords));
    FilterLength(rtWords, FoundIn(lowerName));
  }

  /** A room type scores zero exactly when no scraped word partially
      matches any of its words and none of its words occurs in the name. */
  lemma ScoreZero(lowerName: string, rt: RoomType)
    ensures var words, rtWords := SplitRuns(lowerName, IsWordSep), RoomTypeWords(rt);
            Score(lowerName, rt) == 0 <==>
              && (forall k :: 0 <= k < |words| ==> !MatchesSome(words[k], rtWords))
              && (forall k :: 0 <= k < |rtWords| ==> !Contains(lowerName, rtWords[k]))
  {
    var words, rtWords := SplitRuns(lowerName, IsWordSep), RoomTypeWords(rt);
    ScoreCounts(lowerName, rt);
    var m, c := CountWhere(words, MatchesAny(rtWords)), CountWhere(rtWords, FoundIn(lowerName));
    assert Score(lowerName, rt) == 0 <==> m == 0 && c == 0;
    CountZero(words, MatchesAny(rtWords));
    assert m == 0 <==> forall k :: 0 <= k < |words| ==> !MatchesSome(words[k], rtWords);
    CountZero(rtWords, FoundIn(lowerName));
    AllNonBlank(rt);
    assert c == 0 <==> forall k :: 0 <= k < |rtWords| ==> !Contains(lowerName, rtWords[k]);
  }

  /** Every word of a room type is non-empty. */
  lemma AllNonBlank(rt: RoomType)
    ensures forall k :: 0 <= k < |RoomTypeWords(rt)| ==> |RoomTypeWords(rt)[k]| > 0
  {
    NonEmptyFilters(WordsOf(rt.typeName) + WordsOf(rt.nameKor) + WordsOf(rt.nameEng) + WordsOfAll(rt.aliases));
  }

  /** The scores of the whole catalog, in catalog order. */
  function Scores(lowerName: string, catalog: seq<RoomType>): (sc: seq<int>)
    ensures |sc| == |catalog|
    ensures forall i :: 0 <= i < |catalog| ==> sc[i] == Score(lowerName, catalog[i])
  {
    seq(|catalog|, i requires 0 <= i < |catalog| => Score(lowerName, catalog[i]))
  }

  /** The index the stable sort `scores.sort((a, b) => b.matchCount -
      a.matchCount)` puts first: the catalog indices sorted by descending
      score. */
  function SortedFirst(scores: seq<int>): (i: nat)
    requires |scores| > 0
    ensures i < |scores|
  {
    var indices := seq(|scores|, k requires 0 <= k < |scores| => k);
    var key := (k: int) => if 0 <= k < |scores| then -scores[k] else 0;
    var sorted := SortBy(indices, key);
    assert sorted[0] in multiset(indices);
    var j :| 0 <= j < |indices| && indices[j] == sorted[0];
    sorted[0]
  }

  /** The entry the sort puts first has the highest score, and every
      earlier entry scores strictly less: ties go to the earliest entry. */
  lemma SortedFirstIsEarliestBest(scores: seq<int>)
    requires |scores| > 0
    ensures var i := SortedFirst(scores);
            && (forall j :: 0 <= j < |scores| ==> scores[j] <= scores[i])
            && (forall j :: 0 <= j < i ==> scores[j] < scores[i])
  {
    var indices := seq(|scores|, k requires 0 <= k < |scores| => k);
    var key := (k: int) => if 0 <= k < |scores| then -scores[k] else 0;
    SortHeadIsFirstMin(indices, key);
    var m := FirstMinIndex(indices, key);
    assert indices[m] == m;
    forall j | 0 <= j < |scores| ensures scores[j] <= scores[m] {
      assert key(indices[m]) <= key(indices[j]);
    }
    forall j | 0 <= j < m ensures scores[j] < scores[m] {
      assert key(indices[j]) > key(indices[m]);
    }
  }

  /** `findBestMatchingRoomType(scrapedRoomName, savedRoomTypes)`:
      `Ok(None)` for a missing or empty name or when no score exceeds one,
      `Ok(Some(t))` with the lowered type of the winning entry, and `Err`
      for an empty catalog, where reading the first score throws. */
  function FindBestMatchingRoomType(name: Option<string>, catalog: seq<RoomType>): (r: Result<Option<string>>)
    ensures name.None? || name.value == "" ==> r == Ok(None)
    ensures r.Err? <==> name.Some? && name.value != "" && |catalog| == 0
    ensures r.Ok? && r.value.Some? ==>
              var sc := Scores(Lower(name.value), catalog);
              exists i :: && 0 <= i < |catalog|
                          && r.value.value == Lower(catalog[i].typeName)
                          && sc[i] > 1
                          && (forall j :: 0 <= j < |catalog| ==> sc[j] <= sc[i])
                          && (forall j :: 0 <= j < i ==> sc[j] < sc[i])
    ensures r == Ok(None) && name.Some? && name.value != "" ==>
              forall j :: 0 <= j < |catalog| ==> Score(Lower(name.value), catalog[j]) <= 1
  {
    if name.None? || name.value == "" then Ok(None)
    else if |catalog| == 0 then Err("Cannot read properties of undefined (reading 'matchCount')")
    else
      var sc := Scores(Lower(name.value), catalog);
      var best := SortedFirst(sc);
      SortedFirstIsEarliestBest(sc);
      if sc[best] > 1 then Ok(Some(Lower(catalog[best].typeName))) else Ok(None)
  }

  /** Any entry scoring above one makes the matcher succeed. */
  lemma ScoreAboveOneMatches(name: string, catalog: seq<RoomType>, i: nat)
    requires name != "" && i < |catalog|
    requires Score(Lower(name), catalog[i]) > 1
    ensures FindBestMatchingRoomType(Some(name), catalog).Ok?
    ensures FindBestMatchingRoomType(Some(name), catalog).value.Some?
  {
  }

  /** The matcher names a room type exactly when some entry scores above
      one. */
  lemma MatchIffSomeScoreAboveOne(name: string, catalog: seq<RoomType>)
    requires name != ""
    ensures var r := FindBestMatchingRoomType(Some(name), catalog);
            r.Ok? && r.value.Some? <==> exists i :: 0 <= i < |catalog| && Score(Lower(name), catalog[i]) > 1
  {
    if exists i :: 0 <= i < |catalog| && Score(Lower(name), catalog[i]) > 1 {
      var i :| 0 <= i < |catalog| && Score(Lower(name), catalog[i]) > 1;
      ScoreAboveOneMatches(name, catalog, i);
    }
  }

  // ---------------------------------------------------------------------
  // One row of the booking table.

  /** The text of a table row: the inner text of each cell, and of the
      check-in and check-out paragraphs of the third cell when present. */
  datatype Row = Row(cells: seq<string>, checkInText: Option<string>, checkOutText: Option<string>)

  /** A reservation read from one row. */
  datatype Booking = Booking(
    reservationStatus: string,
    reservationNo: string,
    customerName: string,
    roomInfo: string,
    checkIn: string,
    checkOut: string,
    paymentMethod: string,
    reservationDate: string)

  const CanceledMarker: string := "취소된 예약"
  const ConfirmedMarker: string := "확정된 예약"
  const MaxRoomInfo: nat := 50
  const DefaultCheckOut: string := "11:00"

  /** Status and reservation number from the first cell: a cancelled
      marker wins over a confirmed one; the first occurrence of the marker
      is removed and the rest trimmed. */
  function StatusAndNumber(raw: string): (r: (string, string))
    ensures r.0 == "Canceled" <==> Contains(raw, CanceledMarker)
    ensures r.0 == "Canceled" || r.0 == "Confirmed"
    ensures !Contains(raw, CanceledMarker) && !Contains(raw, ConfirmedMarker) ==> r.1 == raw
  {
    if Contains(raw, CanceledMarker) then ("Canceled", Trim(ReplaceFirst(raw, CanceledMarker, "")))
    else if Contains(raw, ConfirmedMarker) then ("Confirmed", Trim(ReplaceFirst(raw, ConfirmedMarker, "")))
    else ("Confirmed", raw)
  }

  /** A number that begins with the marker loses exactly the marker. */
  lemma MarkerPrefixStripped(marker: string, rest: string)
    requires marker == CanceledMarker || marker == ConfirmedMarker
    requires marker == CanceledMarker || !Contains(marker + rest, CanceledMarker)
    ensures StatusAndNumber(marker + rest).1 == Trim(rest)
  {
    var raw := marker + rest;
    assert OccursAt(raw, marker, 0);
    assert IndexOf(raw, marker) == 0;
    assert raw[|marker|..] == rest;
    assert Contains(raw, marker);
    assert raw[..0] + "" + raw[|marker|..] == rest;
    assert ReplaceFirst(raw, marker, "") == rest;
  }

  /** `roomInfo.substring(0, 50)` when longer than 50. */
  function CutRoomInfo(s: string): (r: string)
    ensures |r| <= MaxRoomInfo && |r| <= |s|
    ensures r == s[..|r|]
    ensures |s| <= MaxRoomInfo ==> r == s
  {
    if |s| > MaxRoomInfo then s[..MaxRoomInfo] else s
  }

  /** The mapping of one row; `None` for a row with fewer than six cells. */
  function ParseRow(row: Row): (r: Option<Booking>)
    ensures r.None? <==> |row.cells| < 6
    ensures r.Some? ==> |r.value.roomInfo| <= MaxRoomInfo
    ensures r.Some? ==> r.value.reservationDate == r.value.checkIn
    ensures r.Some? && row.checkOutText.None? ==> r.value.checkOut == DefaultCheckOut
    ensures r.Some? ==> (r.value.reservationStatus == "Canceled" <==> Contains(Trim(row.cells[0]), CanceledMarker))
    ensures r.Some? ==> r.value.reservationNo == StatusAndNumber(Trim(row.cells[0])).1
    ensures r.Some? ==> && r.value.customerName == Trim(row.cells[1])
                        && r.value.roomInfo == CutRoomInfo(Trim(row.cells[3]))
                        && r.value.paymentMethod == Trim(row.cells[4])
    ensures r.Some? ==> r.value.checkIn == if row.checkInText.Some? then Trim(row.checkInText.value) else ""
    ensures r.Some? && row.checkOutText.Some? ==> r.value.checkOut == Trim(row.checkOutText.value)
  {
    if |row.cells| < 6 then None
    else
      var (status, number) := StatusAndNumber(Trim(row.cells[0]));
      var checkIn := if row.checkInText.Some? then Trim(row.checkInText.value) else "";
      var checkOut := if row.checkOutText.Some? then Trim(row.checkOutText.value) else DefaultCheckOut;
      Some(Booking(status, number, Trim(row.cells[1]), CutRoomInfo(Trim(row.cells[3])), checkIn, checkOut,
                   Trim(row.cells[4]), checkIn))
  }

  /** `rows.map(...).filter((r) => r !== null)`. */
  function ParseRows(rows: seq<Row>): (r: seq<Booking>)
    ensures |r| <= |rows|
    ensures forall k :: 0 <= k < |r| ==> |r[k].roomInfo| <= MaxRoomInfo
  {
    if |rows| == 0 then []
    else
      var head := ParseRow(rows[0]);
      var rest := ParseRows(rows[1..]);
      if head.Some? then [head.value] + rest else rest
  }

  /** Rows with at least six cells are kept one for one, in order. */
  lemma ParseRowsKeepsFullRows(rows: seq<Row>)
    ensures |ParseRows(rows)| == |FullRows(rows)|
    ensures forall k :: 0 <= k < |FullRows(rows)| ==> Some(ParseRows(rows)[k]) == ParseRow(FullRows(rows)[k])
  {
    ParseRowsMapped(rows);
    KeepAligned(rows, ParseRow, Wide);
  }

  /** A row the mapping reads: at least six cells. */
  predicate Wide(row: Row)
  {
    |row.cells| >= 6
  }

  /** The rows with at least six cells. */
  function FullRows(rows: seq<Row>): seq<Row>
  {
    Filter(rows, Wide)
  }

  /** The values `f` gives, skipping `None`, in order. */
  function KeepMapped<T, U>(xs: seq<T>, f: T -> Option<U>): seq<U>
  {
    if |xs| == 0 then []
    else if f(xs[0]).Some? then [f(xs[0]).value] + KeepMapped(xs[1..], f)
    else KeepMapped(xs[1..], f)
  }

  /** `ParseRows` maps and drops the rows `ParseRow` refuses. */
  lemma {:induction false} ParseRowsMapped(rows: seq<Row>)
    ensures ParseRows(rows) == KeepMapped(rows, ParseRow)
  {
    if |rows| > 0 {
      ParseRowsMapped(rows[1..]);
    }
  }

  /** When `f` gives a value exactly where `p` holds, the values kept are
      `f` of the elements kept, one for one. */
  lemma {:induction false} KeepAligned<T(!new), U>(xs: seq<T>, f: T -> Option<U>, p: T -> bool)
    requires forall x :: f(x).Some? <==> p(x)
    ensures |KeepMapped(xs, f)| == |Filter(xs, p)|
    ensures forall k :: 0 <= k < |Filter(xs, p)| ==> Some(KeepMapped(xs, f)[k]) == f(Filter(xs, p)[k])
  {
    if |xs| > 0 {
      KeepAligned(xs[1..], f, p);
      if p(xs[0]) {
        var m, w := KeepMapped(xs[1..], f), Filter(xs[1..], p);
        assert KeepMapped(xs, f) == [f(xs[0]).value] + m;
        assert Filter(xs, p) == [xs[0]] + w;
        forall k | 0 < k < |Filter(xs, p)|
          ensures Some(KeepMapped(xs, f)[k]) == f(Filter(xs, p)[k])
        {
          assert KeepMapped(xs, f)[k] == m[k - 1];
          assert Filter(xs, p)[k] == w[k - 1];
        }
      }
    }
  }

  // ---------------------------------------------------------------------
  // Price assignment.

  const GeneralDefaultPrice: int := 100000

  /** `roomTypePriceMap`: each lowered type name mapped to the price of the
      last catalog entry with that lowered name. */
  function PriceMap(catalog: seq<RoomType>): (m: map<string, int>)
    ensures forall i :: 0 <= i < |catalog| ==> Lower(catalog[i].typeName) in m
    ensures forall t :: t in m ==> exists i :: 0 <= i < |catalog| && Lower(catalog[i].typeName) == t
  {
    if |catalog| == 0 then map[]
    else
      var last := catalog[|catalog| - 1];
      var m := PriceMap(catalog[..|catalog| - 1]);
      m[Lower(last.typeName) := last.price]
  }

  /** The map holds the price of the last entry with a given lowered type. */
  lemma {:induction false} PriceMapLastWins(catalog: seq<RoomType>, i: nat)
    requires i < |catalog|
    requires forall j :: i < j < |catalog| ==> Lower(catalog[j].typeName) != Lower(catalog[i].typeName)
    ensures PriceMap(catalog)[Lower(catalog[i].typeName)] == catalog[i].price
  {
    if i < |catalog| - 1 {
      PriceMapLastWins(catalog[..|catalog| - 1], i);
    }
  }

  /** A reservation with the price and room type the adapter assigns. */
  datatype Priced = Priced(booking: Booking, price: int, matchedRoomType: Option<string>)

  /** The lowered type the matcher picks for a reservation: none for a
      blank description, no match, or a thrown matcher. */
  function MatchOf(b: Booking, catalog: seq<RoomType>): (t: Option<string>)
    ensures t.Some? <==> && Trim(b.roomInfo) != ""
                         && exists i :: 0 <= i < |catalog| && Score(Lower(b.roomInfo), catalog[i]) > 1
    ensures t.Some? ==> t == FindBestMatchingRoomType(Some(b.roomInfo), catalog).value
    ensures t.Some? ==> t.value in PriceMap(catalog)
  {
    if Trim(b.roomInfo) == "" then None
    else
      assert b.roomInfo != "";
      MatchIffSomeScoreAboveOne(b.roomInfo, catalog);
      var r := FindBestMatchingRoomType(Some(b.roomInfo), catalog);
      if r.Ok? && r.value.Some? then
        var i :| 0 <= i < |catalog| && r.value.value == Lower(catalog[i].typeName);
        r.value
      else None
  }

  /** The body of the pricing loop for one reservation. A picked type is
      used only when it is truthy: an empty type name counts as no match.
      The price is then the type's mapped price when that is positive, and
      the general default otherwise. */
  function AssignPrice(b: Booking, catalog: seq<RoomType>): (r: Priced)
    ensures r.booking == b
    ensures r.price > 0
    ensures r.matchedRoomType.Some? <==> MatchOf(b, catalog).Some? && MatchOf(b, catalog).value != ""
    ensures r.matchedRoomType.Some? ==> r.matchedRoomType == MatchOf(b, catalog)
    ensures r.matchedRoomType.None? ==> r.price == GeneralDefaultPrice
    ensures r.matchedRoomType.Some? ==>
              var t := r.matchedRoomType.value;
              r.price == if PriceMap(catalog)[t] > 0 then PriceMap(catalog)[t] else GeneralDefaultPrice
    ensures Trim(b.roomInfo) == "" ==> r == Priced(b, GeneralDefaultPrice, None)
  {
    match MatchOf(b, catalog)
    case None => Priced(b, GeneralDefaultPrice, None)
    case Some(t) =>
      if t == "" then Priced(b, GeneralDefaultPrice, None)
      else
        var m := PriceMap(catalog);
        Priced(b, if m[t] > 0 then m[t] else GeneralDefaultPrice, Some(t))
  }

  /** The pricing loop over every scraped reservation, in order. */
  function AssignPrices(bs: seq<Booking>, catalog: seq<RoomType>): (r: seq<Priced>)
    ensures |r| == |bs|
    ensures forall k :: 0 <= k < |bs| ==> r[k] == AssignPrice(bs[k], catalog)
  {
    seq(|bs|, k requires 0 <= k < |bs| => AssignPrice(bs[k], catalog))
  }

  /** With a catalog whose lowered type names are distinct, a reservation
      matched to a named entry gets exactly that entry's price when the
      price is positive. */
  lemma MatchedEntryPrice(b: Booking, catalog: seq<RoomType>, i: nat)
    requires Trim(b.roomInfo) != "" && i < |catalog| && catalog[i].typeName != ""
    requires forall j, k :: 0 <= j < k < |catalog| ==> Lower(catalog[j].typeName) != Lower(catalog[k].typeName)
    requires FindBestMatchingRoomType(Some(b.roomInfo), catalog) == Ok(Some(Lower(catalog[i].typeName)))
    requires catalog[i].price > 0
    ensures AssignPrice(b, catalog) == Priced(b, catalog[i].price, Some(Lower(catalog[i].typeName)))
  {
    PriceMapLastWins(catalog, i);
  }

  /** A match on an entry with an empty type name is falsy: the
      reservation keeps the general default and records no type. */
  lemma EmptyTypeKeepsDefault(b: Booking, catalog: seq<RoomType>, i: nat)
    requires Trim(b.roomInfo) != "" && i < |catalog| && catalog[i].typeName == ""
    requires FindBestMatchingRoomType(Some(b.roomInfo), catalog) == Ok(Some(Lower(catalog[i].typeName)))
    ensures AssignPrice(b, catalog) == Priced(b, GeneralDefaultPrice, None)
  {
  }
}
