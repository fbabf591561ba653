/** `extractPrice` (src/utils/extractPrice.js) and the local variant in
    InvoiceTemplate.js: turning free-text OTA price strings such as
    "판매가 153,000원" or "KRW 153,000" into a number. */
module Price {
  import opened Text
  import opened Js
  import opened Maybe
  import opened Seqs

  /** The price used whenever no price can be read. */
  const DefaultPrice: int := 100000

  const SaleLabel: string := "판매가"
  const KrwLabel: string := "KRW"

  /** `[\d,]`: a character of a price numeral. */
  predicate IsPriceChar(c: char)
  {
    IsDigit(c) || c == ','
  }

  /** The result of `extractPrice`: the price and whether it is the
      default. */
  datatype Extracted = Extracted(price: Num, isDefault: bool)

  const Fallback: Extracted := Extracted(Int(DefaultPrice), true)

  /** `s.replace(/,/g, '')`. */
  function StripCommas(s: string): (r: string)
    ensures |r| <= |s|
    ensures ',' !in r
    ensures forall c :: c in r ==> c in s
  {
    if |s| == 0 then ""
    else if s[0] == ',' then StripCommas(s[1..])
    else [s[0]] + StripCommas(s[1..])
  }

  function NotComma(c: char): bool
  {
    c != ','
  }

  /** Removing the commas keeps every other character, in order. */
  lemma {:induction false} StripCommasFilters(s: string)
    ensures StripCommas(s) == Filter(s, NotComma)
  {
    if |s| > 0 {
      StripCommasFilters(s[1..]);
    }
  }

  lemma {:induction false} StripCommasOfPriceChars(s: string)
    requires forall i :: 0 <= i < |s| ==> IsPriceChar(s[i])
    ensures AllDigits(StripCommas(s))
  {
    if |s| > 0 {
      StripCommasOfPriceChars(s[1..]);
    }
  }

  /** `parseInt(run.replace(/,/g, ''), 10)` for a `[\d,]+` run: its digits
      read as a decimal number, or `NaN` when the run is commas only. */
  function ParseRun(run: string): (r: Num)
    requires forall i :: 0 <= i < |run| ==> IsPriceChar(run[i])
    ensures r.NaN? <==> StripCommas(run) == ""
    ensures r.Int? ==> r.v >= 0
  {
    StripCommasOfPriceChars(run);
    var digits := StripCommas(run);
    if digits == "" then NaN
    else
      ParseIntOfDigits(digits);
      ParseInt(digits)
  }

  /** `s[from..j]` is whitespace. */
  predicate SpacesUpTo(s: string, from: int, j: int)
  {
    0 <= from <= j <= |s| && forall k :: from <= k < j ==> IsSpace(s[k])
  }

  /** A price character follows `from` after nothing but whitespace. */
  predicate PriceAfterSpaces(s: string, from: int)
  {
    exists j :: 0 <= j < |s| && SpacesUpTo(s, from, j) && IsPriceChar(s[j])
  }

  /** `cap` is the whole run of price characters that follows `from`
      after nothing but whitespace. */
  ghost predicate CapturedAfter(s: string, from: int, cap: string)
  {
    exists j :: SpacesUpTo(s, from, j) && j + |cap| <= |s| && s[j..j + |cap|] == cap
                && (j + |cap| == |s| || !IsPriceChar(s[j + |cap|]))
  }

  /** What `marker\s*([\d,]+)` captures when matched at index `i`: the marker,
      any whitespace, then a non-empty maximal run of price characters. */
  function LabelledAt(s: string, marker: string, i: int): (r: Option<string>)
    ensures r.Some? ==> OccursAt(s, marker, i) && |r.value| > 0
    ensures r.Some? ==> forall k :: 0 <= k < |r.value| ==> IsPriceChar(r.value[k])
    ensures r.Some? <==> OccursAt(s, marker, i) && PriceAfterSpaces(s, i + |marker|)
    ensures r.Some? ==> CapturedAfter(s, i + |marker|, r.value)
  {
    if !OccursAt(s, marker, i) then None
    else
      var j := RunEnd(s, IsSpace, i + |marker|);
      var k := RunEnd(s, IsPriceChar, j);
      if k > j then Some(s[j..k]) else None
  }

  /** `s.match(/marker\s*([\d,]+)/)[1]`: the capture of the leftmost index
      at or after `from` where the pattern matches. */
  function FindLabelled(s: string, marker: string, from: nat): (r: Option<string>)
    decreases |s| - from
    ensures r.None? ==> forall i :: from <= i ==> LabelledAt(s, marker, i).None?
    ensures r.Some? ==> exists i :: from <= i && LabelledAt(s, marker, i) == r
                                    && forall j :: from <= j < i ==> LabelledAt(s, marker, j).None?
  {
    if from > |s| then None
    else if LabelledAt(s, marker, from).Some? then LabelledAt(s, marker, from)
    else FindLabelled(s, marker, from + 1)
  }

  /** A run reads as the decimal value of its digits with the commas
      removed: "153,000" is 153000. */
  lemma ParseRunValue(run: string)
    requires forall i :: 0 <= i < |run| ==> IsPriceChar(run[i])
    ensures ParseRun(run).Int? ==> AllDigits(StripCommas(run)) && ParseRun(run).v == DecimalValue(StripCommas(run))
  {
    StripCommasOfPriceChars(run);
    if StripCommas(run) != "" {
      ParseIntOfDigits(StripCommas(run));
    }
  }

  /** `[s[a..b]]` is a maximal run of price characters. */
  predicate MaximalRun(s: string, a: int, b: int)
  {
    && 0 <= a < b <= |s|
    && (forall i :: a <= i < b ==> IsPriceChar(s[i]))
    && (a == 0 || !IsPriceChar(s[a - 1]))
    && (b == |s| || !IsPriceChar(s[b]))
  }

  /** The number a maximal run reads as. */
  function SpanValue(s: string, a: int, b: int): Num
    requires MaximalRun(s, a, b)
  {
    ParseRun(s[a..b])
  }

  /** The spans of all maximal price runs at or after `from`, left to right:
      the matches of the global pattern `/[\d,]+/g`. */
  function Spans(s: string, from: nat): (sp: seq<(nat, nat)>)
    requires from <= |s|
    requires from == 0 || from == |s| || !IsPriceChar(s[from - 1]) || !IsPriceChar(s[from])
    decreases |s| - from
    ensures forall k :: 0 <= k < |sp| ==> from <= sp[k].0 && MaximalRun(s, sp[k].0, sp[k].1)
    ensures forall k :: 0 <= k < |sp| - 1 ==> sp[k].1 < sp[k + 1].0
  {
    var a := FirstSep(s, IsPriceChar, from);
    if a == |s| then []
    else
      var b := RunEnd(s, IsPriceChar, a);
      [(a, b)] + Spans(s, b)
  }

  /** Every price character at or after `from` lies inside one of the
      spans. */
  lemma {:induction false} SpansCover(s: string, from: nat, i: int)
    requires from <= |s|
    requires from == 0 || from == |s| || !IsPriceChar(s[from - 1]) || !IsPriceChar(s[from])
    requires from <= i < |s| && IsPriceChar(s[i])
    ensures exists k :: 0 <= k < |Spans(s, from)| && Spans(s, from)[k].0 <= i < Spans(s, from)[k].1
    decreases |s| - from
  {
    var sp := Spans(s, from);
    var a := FirstSep(s, IsPriceChar, from);
    var b := RunEnd(s, IsPriceChar, a);
    if i < b {
      assert sp[0].0 <= i < sp[0].1;
    } else {
      SpansCover(s, b, i);
      var rest := Spans(s, b);
      var k :| 0 <= k < |rest| && rest[k].0 <= i < rest[k].1;
      assert sp[k + 1] == rest[k];
    }
  }

  /** The matched runs themselves, `priceString.match(/[\d,]+/g)`. */
  function Runs(s: string): (runs: seq<string>)
    ensures forall k :: 0 <= k < |runs| ==> |runs[k]| > 0
    ensures forall k :: 0 <= k < |runs| ==> forall j :: 0 <= j < |runs[k]| ==> IsPriceChar(runs[k][j])
    ensures |runs| == 0 <==> forall i :: 0 <= i < |s| ==> !IsPriceChar(s[i])
  {
    var sp := Spans(s, 0);
    var runs := seq(|sp|, k requires 0 <= k < |sp| => s[sp[k].0..sp[k].1]);
    if |runs| == 0 then
      assert forall i :: 0 <= i < |s| ==> !IsPriceChar(s[i]) by {
        forall i | 0 <= i < |s| ensures !IsPriceChar(s[i]) {
          if IsPriceChar(s[i]) { SpansCover(s, 0, i); }
        }
      }
      runs
    else
      assert IsPriceChar(s[sp[0].0]);
      runs
  }

  /** Each run is the text of a maximal run of price characters, and every
      maximal run is one of them. */
  lemma RunsAreMaximalRuns(s: string, a: int, b: int)
    ensures MaximalRun(s, a, b) ==> s[a..b] in Runs(s)
  {
    if MaximalRun(s, a, b) {
      var sp := Spans(s, 0);
      SpansCover(s, 0, a);
      var k :| 0 <= k < |sp| && sp[k].0 <= a < sp[k].1;
      SameMaximalRun(s, sp[k].0, sp[k].1, a, b);
      assert Runs(s)[k] == s[a..b];
    }
  }

  /** Two maximal runs that overlap are the same run. */
  lemma SameMaximalRun(s: string, a: int, b: int, c: int, d: int)
    requires MaximalRun(s, a, b) && MaximalRun(s, c, d)
    requires a <= c < b
    ensures a == c && b == d
  {
    assert c == 0 || !IsPriceChar(s[c - 1]);
    assert b == |s| || !IsPriceChar(s[b]);
    assert d == |s| || !IsPriceChar(s[d]);
  }

  /** `Math.max(...xs)`: `NaN` as soon as one element is `NaN`, otherwise
      the largest element. */
  function MaxNum(xs: seq<Num>): (r: Num)
    requires |xs| > 0
    ensures r.NaN? <==> exists k :: 0 <= k < |xs| && xs[k].NaN?
    ensures r.Int? ==> r in xs && forall k :: 0 <= k < |xs| ==> xs[k].v <= r.v
  {
    if |xs| == 1 then xs[0]
    else
      var m := MaxNum(xs[1..]);
      assert forall k :: 1 <= k < |xs| ==> xs[k] == xs[1..][k - 1];
      if xs[0].NaN? || m.NaN? then NaN
      else if xs[0].v >= m.v then xs[0]
      else m
  }

  /** The value of every run: `matches.map((s) => parseInt(...))`. */
  function RunValues(runs: seq<string>): (vs: seq<Num>)
    requires forall k :: 0 <= k < |runs| ==> forall j :: 0 <= j < |runs[k]| ==> IsPriceChar(runs[k][j])
    ensures |vs| == |runs|
    ensures forall k :: 0 <= k < |runs| ==> vs[k] == ParseRun(runs[k])
  {
    seq(|runs|, k requires 0 <= k < |runs| => ParseRun(runs[k]))
  }

  /** "Agoda Collect" occurs in `s`, ignoring case. */
  predicate MentionsAgodaCollect(s: string)
  {
    Contains(Lower(s), "agoda collect")
  }

  /** `extractPrice` for a string argument. */
  function ExtractFromText(s: string): (r: Extracted)
  {
    match FindLabelled(s, SaleLabel, 0)
    case Some(run) => Extracted(ParseRun(run), false)
    case None =>
      match FindLabelled(s, KrwLabel, 0)
      case Some(run) => Extracted(ParseRun(run), false)
      case None =>
        if MentionsAgodaCollect(s) then Fallback
        else
          var runs := Runs(s);
          if |runs| > 0 then Extracted(MaxNum(RunValues(runs)), false) else Fallback
  }

  /** `extractPrice(priceString)` of src/utils/extractPrice.js. */
  function ExtractPrice(input: Value): (r: Extracted)
    ensures input.Null? || input.Undefined? ==> r == Fallback
    ensures input.Number? ==> r == Extracted(input.n, false)
    ensures input.Object? ==> r == Fallback
    ensures r.isDefault ==> r.price == Int(DefaultPrice)
  {
    match input
    case Null => Fallback
    case Undefined => Fallback
    case Number(n) => Extracted(n, false)
    case Str(s) => ExtractFromText(s)
    case Object => Fallback
  }

  /** A "판매가 N" match decides the price: the leftmost one is used, with
      its commas removed, whatever other numbers the string holds. */
  lemma SaleLabelWins(s: string, i: nat)
    requires LabelledAt(s, SaleLabel, i).Some?
    requires forall j :: 0 <= j < i ==> LabelledAt(s, SaleLabel, j).None?
    ensures ExtractPrice(Str(s)) == Extracted(ParseRun(LabelledAt(s, SaleLabel, i).value), false)
  {
    var r := FindLabelled(s, SaleLabel, 0);
    var k :| 0 <= k && LabelledAt(s, SaleLabel, k) == r
             && forall j :: 0 <= j < k ==> LabelledAt(s, SaleLabel, j).None?;
    if k < i {
    } else if k > i {
    }
  }

  /** "KRW N" is consulted only when there is no "판매가" match; then its
      leftmost match decides the price. */
  lemma KrwLabelSecond(s: string, i: nat)
    requires forall j :: 0 <= j ==> LabelledAt(s, SaleLabel, j).None?
    requires LabelledAt(s, KrwLabel, i).Some?
    requires forall j :: 0 <= j < i ==> LabelledAt(s, KrwLabel, j).None?
    ensures ExtractPrice(Str(s)) == Extracted(ParseRun(LabelledAt(s, KrwLabel, i).value), false)
  {
    var r := FindLabelled(s, KrwLabel, 0);
    var k :| 0 <= k && LabelledAt(s, KrwLabel, k) == r
             && forall j :: 0 <= j < k ==> LabelledAt(s, KrwLabel, j).None?;
    if k < i {
    } else if k > i {
    }
  }

  /** Without a labelled price, "Agoda Collect" in any letter case gives
      the default, even when the string holds digits. */
  lemma AgodaCollectIsDefault(s: string)
    requires forall j :: 0 <= j ==> LabelledAt(s, SaleLabel, j).None?
    requires forall j :: 0 <= j ==> LabelledAt(s, KrwLabel, j).None?
    requires MentionsAgodaCollect(s)
    ensures ExtractPrice(Str(s)) == Fallback
  {
  }

  /** Otherwise the price is the largest run value: it is the value of one
      maximal run, no maximal run has a larger value, and the result is not
      the default. */
  lemma LargestRunWins(s: string)
    requires forall j :: 0 <= j ==> LabelledAt(s, SaleLabel, j).None?
    requires forall j :: 0 <= j ==> LabelledAt(s, KrwLabel, j).None?
    requires !MentionsAgodaCollect(s)
    requires exists i :: 0 <= i < |s| && IsPriceChar(s[i])
    ensures !ExtractPrice(Str(s)).isDefault
    ensures ExtractPrice(Str(s)).price.Int? ==>
              (exists a, b :: MaximalRun(s, a, b) && SpanValue(s, a, b) == ExtractPrice(Str(s)).price)
              && forall a, b :: MaximalRun(s, a, b) && SpanValue(s, a, b).Int? ==>
                   SpanValue(s, a, b).v <= ExtractPrice(Str(s)).price.v
  {
    FallsThroughToRuns(s);
    MaxRunIsLargest(s);
  }

  lemma FallsThroughToRuns(s: string)
    requires forall j :: 0 <= j ==> LabelledAt(s, SaleLabel, j).None?
    requires forall j :: 0 <= j ==> LabelledAt(s, KrwLabel, j).None?
    requires !MentionsAgodaCollect(s)
    requires exists i :: 0 <= i < |s| && IsPriceChar(s[i])
    ensures |Runs(s)| > 0
    ensures ExtractPrice(Str(s)) == Extracted(MaxNum(RunValues(Runs(s))), false)
  {
    assert FindLabelled(s, SaleLabel, 0).None?;
    assert FindLabelled(s, KrwLabel, 0).None?;
  }

  /** The largest run value is the value of a maximal run and bounds the
      value of every maximal run. */
  lemma MaxRunIsLargest(s: string)
    requires |Runs(s)| > 0
    ensures var m := MaxNum(RunValues(Runs(s)));
            m.Int? ==>
              (exists a, b :: MaximalRun(s, a, b) && SpanValue(s, a, b) == m)
              && forall a, b :: MaximalRun(s, a, b) && SpanValue(s, a, b).Int? ==> SpanValue(s, a, b).v <= m.v
  {
    var runs := Runs(s);
    var vs := RunValues(runs);
    var m := MaxNum(vs);
    if m.Int? {
      var sp := Spans(s, 0);
      var k :| 0 <= k < |vs| && vs[k] == m;
      var a0, b0 := sp[k].0, sp[k].1;
      assert runs[k] == s[a0..b0];
      assert MaximalRun(s, a0, b0) && SpanValue(s, a0, b0) == m;
      forall a, b | MaximalRun(s, a, b) && SpanValue(s, a, b).Int?
        ensures SpanValue(s, a, b).v <= m.v
      {
        RunValueBounded(s, a, b);
      }
    }
  }

  lemma RunValueBounded(s: string, a: int, b: int)
    requires |Runs(s)| > 0
    requires MaximalRun(s, a, b)
    requires SpanValue(s, a, b).Int?
    requires MaxNum(RunValues(Runs(s))).Int?
    ensures SpanValue(s, a, b).v <= MaxNum(RunValues(Runs(s))).v
  {
    var runs := Runs(s);
    var vs := RunValues(runs);
    RunsAreMaximalRuns(s, a, b);
    var l :| 0 <= l < |runs| && runs[l] == s[a..b];
    assert vs[l] == SpanValue(s, a, b);
  }

  /** A string with no digit or comma gives the default. */
  lemma NoDigitsIsDefault(s: string)
    requires forall i :: 0 <= i < |s| ==> !IsPriceChar(s[i])
    ensures ExtractPrice(Str(s)) == Fallback
  {
    forall j | 0 <= j
      ensures LabelledAt(s, SaleLabel, j).None? && LabelledAt(s, KrwLabel, j).None?
    {
    }
  }

  /** The InvoiceTemplate.js variant of `extractPrice`: 0 instead of the
      default, and no "Agoda Collect" case. */
  function InvoiceExtractPrice(input: Value): (r: Num)
    ensures input.Null? || input.Undefined? || input.Object? ==> r == Int(0)
    ensures input.Number? ==> r == input.n
  {
    match input
    case Null => Int(0)
    case Undefined => Int(0)
    case Number(n) => n
    case Object => Int(0)
    case Str(s) =>
      match FindLabelled(s, SaleLabel, 0)
      case Some(run) => ParseRun(run)
      case None =>
        match FindLabelled(s, KrwLabel, 0)
        case Some(run) => ParseRun(run)
        case None =>
          var runs := Runs(s);
          if |runs| > 0 then MaxNum(RunValues(runs)) else Int(0)
  }

  /** The two variants agree whenever the shared one finds a price; where it
      falls back to the default, the invoice variant shows 0, except for
      "Agoda Collect" strings, where it still reads the largest number. */
  lemma InvoiceAgreesWithExtractPrice(input: Value)
    ensures !ExtractPrice(input).isDefault ==> InvoiceExtractPrice(input) == ExtractPrice(input).price
    ensures ExtractPrice(input).isDefault && !(input.Str? && MentionsAgodaCollect(input.s)) ==>
              InvoiceExtractPrice(input) == Int(0)
  {
  }

  /** Edge case: a lone comma run reads as `NaN`, which both variants
      return as an ordinary (non-default) price. */
  lemma LoneCommaIsNaN()
    ensures ExtractPrice(Str(",")) == Extracted(NaN, false)
    ensures InvoiceExtractPrice(Str(",")) == NaN
  {
    var s := ",";
    forall j | 0 <= j
      ensures LabelledAt(s, SaleLabel, j).None? && LabelledAt(s, KrwLabel, j).None?
    {
    }
    assert !Contains(Lower(s), "agoda collect");
    assert FirstSep(s, IsPriceChar, 0) == 0;
    assert RunEnd(s, IsPriceChar, 0) == 1;
    assert Spans(s, 1) == [];
    assert Spans(s, 0) == [(0, 1)];
    assert s[0..1] == s;
    assert Runs(s) == [","];
    assert StripCommas(",") == "";
  }
}
