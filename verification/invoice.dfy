/** The invoice (src/components/InvoiceTemplate.js): the room description
    it prints (`processRoomInfo`) and the total it charges. The price
    parser it uses is `Price.InvoiceExtractPrice`. */
module Invoice {
  import opened Js
  import opened Text
  import opened Price
  import opened Booking
  import opened Reservations
  import opened Maybe
  import opened RoomTypes
  import opened Display

  const NoInfo: string := "정보 없음"

  /** No opening parenthesis is followed, anywhere later, by a closing
      one: the text holds no parenthesised group. */
  predicate NoGroup(s: string)
  {
    forall i, j :: 0 <= i < j < |s| && s[i] == '(' ==> s[j] != ')'
  }

  /** Every whitespace character is a plain space, and no two whitespace
      characters are adjacent. */
  predicate Collapsed(s: string)
  {
    forall i :: 0 <= i < |s| && IsSpace(s[i]) ==> s[i] == ' ' && (i + 1 < |s| ==> !IsSpace(s[i + 1]))
  }

  /** `info.replace(/\([^)]*\)/g, '  ')`: each `(` that has a `)` somewhere
      after it is removed together with everything up to the first such
      `)`, and two spaces take its place; an unmatched `(` stays. */
  function RemoveGroups(s: string): (r: string)
    decreases |s|
    ensures NoGroup(r)
    ensures forall k :: 0 <= k < |r| ==> r[k] == ' ' || r[k] in s
    ensures NoGroup(s) ==> r == s
  {
    if |s| == 0 then ""
    else if s[0] == '(' && ')' in s[1..] then
      var close := 1 + FirstIndex(s[1..], ')');
      var rest := RemoveGroups(s[close + 1..]);
      DropGroup(s, close, rest);
      "  " + rest
    else
      var rest := RemoveGroups(s[1..]);
      KeepFirst(s, rest);
      [s[0]] + rest
  }

  /** The group case of `RemoveGroups`: the group up to `close` becomes
      two spaces. */
  lemma DropGroup(s: string, close: nat, rest: string)
    requires 0 < close < |s| && s[0] == '(' && s[close] == ')'
    requires NoGroup(rest)
    requires forall k :: 0 <= k < |rest| ==> rest[k] == ' ' || rest[k] in s[close + 1..]
    ensures NoGroup("  " + rest)
    ensures forall k :: 0 <= k < |"  " + rest| ==> ("  " + rest)[k] == ' ' || ("  " + rest)[k] in s
    ensures !NoGroup(s)
  {
    var r := "  " + rest;
    forall i, j | 0 <= i < j < |r| && r[i] == '(' ensures r[j] != ')' {
      assert r[i] == rest[i - 2] && r[j] == rest[j - 2];
    }
    forall k | 0 <= k < |r| && r[k] != ' ' ensures r[k] in s {
      assert r[k] == rest[k - 2];
      var m :| 0 <= m < |s[close + 1..]| && s[close + 1..][m] == rest[k - 2];
      assert s[close + 1 + m] == r[k];
    }
  }

  /** The other case of `RemoveGroups`: the first character stays. */
  lemma KeepFirst(s: string, rest: string)
    requires |s| > 0 && !(s[0] == '(' && ')' in s[1..])
    requires NoGroup(rest)
    requires forall k :: 0 <= k < |rest| ==> rest[k] == ' ' || rest[k] in s[1..]
    requires NoGroup(s[1..]) ==> rest == s[1..]
    ensures NoGroup([s[0]] + rest)
    ensures forall k :: 0 <= k < |[s[0]] + rest| ==> ([s[0]] + rest)[k] == ' ' || ([s[0]] + rest)[k] in s
    ensures NoGroup(s) ==> [s[0]] + rest == s
  {
    var r := [s[0]] + rest;
    forall k | 0 <= k < |r| && r[k] != ' ' ensures r[k] in s {
      if k > 0 {
        var m :| 0 <= m < |s[1..]| && s[1..][m] == rest[k - 1];
        assert s[1 + m] == r[k];
      }
    }
    forall i, j | 0 <= i < j < |r| && r[i] == '(' ensures r[j] != ')' {
      assert r[j] == rest[j - 1];
      if i > 0 {
        assert r[i] == rest[i - 1];
      }
    }
    if NoGroup(s) {
      forall i, j | 0 <= i < j < |s[1..]| && s[1..][i] == '(' ensures s[1..][j] != ')' {
        assert s[i + 1] == '(';
      }
      assert [s[0]] + s[1..] == s;
    }
  }

  /** Text without `(` passes through the group removal unchanged. */
  lemma {:induction false} RemoveGroupsKeeps(x: string, rest: string)
    requires '(' !in x
    ensures RemoveGroups(x + rest) == x + RemoveGroups(rest)
  {
    if |x| == 0 {
      assert x + rest == rest;
    } else {
      var s := x + rest;
      assert s[0] == x[0];
      assert s[1..] == x[1..] + rest;
      RemoveGroupsHead(s);
      RemoveGroupsKeeps(x[1..], rest);
      ConsTail(x, RemoveGroups(rest));
    }
  }

  lemma ConsTail(x: string, r: string)
    requires |x| > 0
    ensures [x[0]] + (x[1..] + r) == x + r
  {
    assert x == [x[0]] + x[1..];
  }

  /** A first character other than `(` is kept. */
  lemma RemoveGroupsHead(s: string)
    requires |s| > 0 && s[0] != '('
    ensures RemoveGroups(s) == [s[0]] + RemoveGroups(s[1..])
  {
  }

  /** A group, from a `(` to the first `)` after it, becomes two spaces. */
  lemma RemoveGroupsGroup(g: string, rest: string)
    requires ')' !in g
    ensures RemoveGroups("(" + g + ")" + rest) == "  " + RemoveGroups(rest)
  {
    var s := "(" + g + ")" + rest;
    assert s[1..] == g + ")" + rest;
    FirstIndexAfter(g, ')', rest);
    assert s[|g| + 2..] == rest;
  }

  /** `s.replace(/\s+/g, ' ')`. */
  function Collapse(s: string): (r: string)
    decreases |s|
    ensures Collapsed(r)
    ensures |r| == 0 <==> |s| == 0
    ensures |s| > 0 ==> (if IsSpace(s[0]) then r[0] == ' ' else r[0] == s[0])
    ensures forall k :: 0 <= k < |r| ==> r[k] == ' ' || (!IsSpace(r[k]) && r[k] in s)
    ensures NoGroup(s) ==> NoGroup(r)
    ensures Collapsed(s) ==> r == s
  {
    if |s| == 0 then ""
    else if IsSpace(s[0]) then
      var n := LeadingSpaces(s);
      var rest := Collapse(s[n..]);
      CollapseStep(s, n, rest);
      " " + rest
    else
      var rest := Collapse(s[1..]);
      CollapseKeep(s, rest);
      [s[0]] + rest
  }

  /** The whitespace case of `Collapse`: a run becomes one space. */
  lemma CollapseStep(s: string, n: nat, rest: string)
    requires 0 < n <= |s| && IsSpace(s[0])
    requires forall i :: 0 <= i < n ==> IsSpace(s[i])
    requires n < |s| ==> !IsSpace(s[n])
    requires Collapsed(rest)
    requires |rest| == 0 <==> n == |s|
    requires n < |s| ==> rest[0] == s[n]
    requires forall k :: 0 <= k < |rest| ==> rest[k] == ' ' || (!IsSpace(rest[k]) && rest[k] in s[n..])
    requires NoGroup(s[n..]) ==> NoGroup(rest)
    requires Collapsed(s[n..]) ==> rest == s[n..]
    ensures Collapsed(" " + rest)
    ensures forall k :: 0 <= k < |" " + rest| ==> (" " + rest)[k] == ' ' || (!IsSpace((" " + rest)[k]) && (" " + rest)[k] in s)
    ensures NoGroup(s) ==> NoGroup(" " + rest)
    ensures Collapsed(s) ==> " " + rest == s
  {
    var r := " " + rest;
    forall k | 0 <= k < |r| && r[k] != ' '
      ensures !IsSpace(r[k]) && r[k] in s
    {
      var c := rest[k - 1];
      assert c in s[n..];
      var m :| 0 <= m < |s[n..]| && s[n..][m] == c;
      assert s[n + m] == c;
    }
    if NoGroup(s) {
      assert NoGroup(s[n..]) by {
        forall i, j | 0 <= i < j < |s[n..]| && s[n..][i] == '('
          ensures s[n..][j] != ')'
        {
          assert s[n + i] == '(';
        }
      }
    }
    if Collapsed(s) {
      CollapsedRun(s, n);
    }
  }

  /** In a collapsed text a whitespace run is one plain space, and what
      follows it is collapsed too. */
  lemma CollapsedRun(s: string, n: nat)
    requires 0 < n <= |s| && IsSpace(s[0])
    requires forall i :: 0 <= i < n ==> IsSpace(s[i])
    requires Collapsed(s)
    ensures n == 1 && s[0] == ' ' && Collapsed(s[1..]) && s == [s[0]] + s[1..]
  {
    assert n == 1 by {
      if |s| > 1 {
        assert !IsSpace(s[1]);
      }
    }
    forall i | 0 <= i < |s[1..]| && IsSpace(s[1..][i])
      ensures s[1..][i] == ' ' && (i + 1 < |s[1..]| ==> !IsSpace(s[1..][i + 1]))
    {
      assert s[1 + i] == s[1..][i];
    }
  }

  /** The other case of `Collapse`: a non-space character is kept. */
  lemma CollapseKeep(s: string, rest: string)
    requires |s| > 0 && !IsSpace(s[0])
    requires Collapsed(rest)
    requires |rest| == 0 <==> |s| == 1
    requires |s| > 1 ==> (if IsSpace(s[1]) then rest[0] == ' ' else rest[0] == s[1])
    requires forall k :: 0 <= k < |rest| ==> rest[k] == ' ' || (!IsSpace(rest[k]) && rest[k] in s[1..])
    requires NoGroup(s[1..]) ==> NoGroup(rest)
    requires Collapsed(s[1..]) ==> rest == s[1..]
    ensures Collapsed([s[0]] + rest)
    ensures forall k :: 0 <= k < |[s[0]] + rest| ==>
              ([s[0]] + rest)[k] == ' ' || (!IsSpace(([s[0]] + rest)[k]) && ([s[0]] + rest)[k] in s)
    ensures NoGroup(s) ==> NoGroup([s[0]] + rest)
    ensures Collapsed(s) ==> [s[0]] + rest == s
  {
    var r := [s[0]] + rest;
    forall k | 0 <= k < |r| && r[k] != ' '
      ensures !IsSpace(r[k]) && r[k] in s
    {
      if k > 0 {
        var c := rest[k - 1];
        var m :| 0 <= m < |s[1..]| && s[1..][m] == c;
        assert s[1 + m] == c;
      }
    }
    if NoGroup(s) {
      assert NoGroup(s[1..]) by {
        forall i, j | 0 <= i < j < |s[1..]| && s[1..][i] == '('
          ensures s[1..][j] != ')'
        {
          assert s[1 + i] == '(';
        }
      }
      forall i, j | 0 <= i < j < |r| && r[i] == '('
        ensures r[j] != ')'
      {
        if i == 0 {
          forall m | 0 <= m < |s[1..]|
            ensures s[1..][m] != ')'
          {
            assert s[1..][m] == s[1 + m];
          }
        }
      }
    }
    if Collapsed(s) {
      assert Collapsed(s[1..]) by {
        forall i | 0 <= i < |s[1..]| && IsSpace(s[1..][i])
          ensures s[1..][i] == ' ' && (i + 1 < |s[1..]| ==> !IsSpace(s[1..][i + 1]))
        {
          assert s[1 + i] == s[1..][i];
        }
      }
      assert s == [s[0]] + s[1..];
    }
  }

  /** A whitespace run, however long, becomes one space. */
  lemma CollapseRun(ws: string, rest: string)
    requires |ws| > 0 && forall i :: 0 <= i < |ws| ==> IsSpace(ws[i])
    requires rest == "" || !IsSpace(rest[0])
    ensures Collapse(ws + rest) == " " + Collapse(rest)
  {
    var s := ws + rest;
    var n := LeadingSpaces(s);
    assert forall i :: 0 <= i < |ws| ==> s[i] == ws[i];
    assert |rest| > 0 ==> s[|ws|] == rest[0];
    assert n == |ws|;
    assert s[|ws|..] == rest;
  }

  /** A character other than whitespace is kept as it is. */
  lemma CollapseChar(c: char, rest: string)
    requires !IsSpace(c)
    ensures Collapse([c] + rest) == [c] + Collapse(rest)
  {
    assert ([c] + rest)[1..] == rest;
  }

  /** A slice of a text without groups has none either. */
  lemma NoGroupSlice(s: string, a: nat, b: nat)
    requires a <= b <= |s|
    ensures NoGroup(s) ==> NoGroup(s[a..b])
  {
    forall i, j | NoGroup(s) && 0 <= i < j < |s[a..b]| && s[a..b][i] == '('
      ensures s[a..b][j] != ')'
    {
      assert s[a + i] == '(';
    }
  }

  /** The part before the first `-`, trimmed, when there is a `-`. */
  function CutAtHyphen(p: string): (q: string)
    ensures '-' !in q
    ensures '-' !in p ==> q == p
    ensures NoGroup(p) ==> NoGroup(q)
  {
    if '-' in p then
      CutClean(p);
      Trim(p[..FirstIndex(p, '-')])
    else p
  }

  /** The trimmed part before the first `-` holds no `-`, and no group
      when the whole text holds none. */
  lemma CutClean(p: string)
    requires '-' in p
    ensures '-' !in Trim(p[..FirstIndex(p, '-')])
    ensures NoGroup(p) ==> NoGroup(Trim(p[..FirstIndex(p, '-')]))
  {
    var i := FirstIndex(p, '-');
    var a, b := TrimmedPrefix(p, i);
    forall k | 0 <= k < b - a
      ensures p[a..b][k] != '-'
    {
      assert p[a..b][k] == p[..i][a + k];
    }
    NoGroupSlice(p, a, b);
  }

  /** Trimming a prefix leaves a slice of the whole text. */
  lemma TrimmedPrefix(p: string, i: nat) returns (a: nat, b: nat)
    requires i <= |p|
    ensures a <= b <= i && Trim(p[..i]) == p[a..b]
  {
    var h := p[..i];
    a, b :| 0 <= a <= b <= |h| && Trim(h) == h[a..b];
    assert h[a..b] == p[a..b];
  }

  /** Only the text before the first `-` is kept, trimmed. */
  lemma CutAtFirstHyphen(x: string, y: string)
    requires '-' !in x
    ensures CutAtHyphen(x + "-" + y) == Trim(x)
  {
    FirstIndexAfter(x, '-', y);
    assert (x + "-" + y)[..|x|] == x;
  }

  /** `processRoomInfo(info)`; `""` stands for every falsy value. */
  function ProcessRoomInfo(info: string): (r: string)
    ensures info == "" ==> r == NoInfo
    ensures r != ""
    ensures '-' !in r
    ensures NoGroup(r)
    ensures Collapsed(r)
  {
    if info == "" then NoInfo
    else
      var p := RemoveGroups(info);
      var q := CutAtHyphen(p);
      var r := Collapse(q);
      assert '-' !in r by {
        forall k | 0 <= k < |r|
          ensures r[k] != '-'
        {
          assert r[k] == ' ' || r[k] in q;
        }
      }
      NoInfoIsClean();
      if r == "" then NoInfo else r
  }

  /** When no `(` comes before the first hyphen, the description prints as
      the text before that hyphen, trimmed and with its whitespace runs
      collapsed, whatever follows the hyphen. */
  lemma TextAfterHyphenDropped(x: string, y: string)
    requires '(' !in x && '-' !in x
    ensures ProcessRoomInfo(x + "-" + y) == if Collapse(Trim(x)) == "" then NoInfo else Collapse(Trim(x))
  {
    var head := x + "-";
    assert '(' !in head;
    RemoveGroupsKeeps(head, y);
    assert head + y == x + "-" + y;
    var rest := RemoveGroups(y);
    assert head + rest == x + "-" + rest;
    CutAtFirstHyphen(x, rest);
  }

  /** A group is removed with any hyphen inside it and leaves one space
      between the text around it. */
  lemma GroupBecomesOneSpace(x: string, g: string, y: string)
    requires '(' !in x && '-' !in x && ')' !in g && '(' !in y && '-' !in y
    ensures ProcessRoomInfo(x + "(" + g + ")" + y) == Collapse(x + "  " + y)
  {
    var info := x + "(" + g + ")" + y;
    var p := x + "  " + y;
    GroupRemoved(x, g, y);
    assert info[|x|] == '(';
    assert '-' !in p;
    assert CutAtHyphen(p) == p;
    assert |Collapse(p)| > 0;
  }

  lemma GroupRemoved(x: string, g: string, y: string)
    requires '(' !in x && ')' !in g && '(' !in y
    ensures RemoveGroups(x + "(" + g + ")" + y) == x + "  " + y
  {
    var tail := "(" + g + ")" + y;
    assert x + tail == x + "(" + g + ")" + y;
    RemoveGroupsKeeps(x, tail);
    RemoveGroupsGroup(g, y);
    assert NoGroup(y);
    assert RemoveGroups(tail) == "  " + y;
  }

  /** The fallback text is itself clean. */
  lemma NoInfoIsClean()
    ensures NoInfo != "" && '-' !in NoInfo && NoGroup(NoInfo) && Collapsed(NoInfo)
  {
    assert NoInfo == ['정', '보', ' ', '없', '음'];
    assert !IsSpace('없');
  }

  /** A description that is already clean (no group, no hyphen, single
      plain spaces) is printed as it is. */
  lemma CleanRoomInfoUnchanged(info: string)
    requires info != "" && NoGroup(info) && '-' !in info && Collapsed(info)
    ensures ProcessRoomInfo(info) == info
  {
  }

  /** Processing twice is processing once. */
  lemma ProcessRoomInfoIdempotent(info: string)
    ensures ProcessRoomInfo(ProcessRoomInfo(info)) == ProcessRoomInfo(info)
  {
    CleanRoomInfoUnchanged(ProcessRoomInfo(info));
  }

  /** `typeof curr.rate === 'number' ? curr.rate : 0`. */
  function RateOrZero(rate: Value): (n: Num)
    ensures rate.Number? ==> n == rate.n
    ensures !rate.Number? ==> n == Int(0)
  {
    if rate.Number? then rate.n else Int(0)
  }

  /** `nightlyRates.reduce((acc, curr) => acc + RateOrZero(curr.rate), 0)`. */
  function SumNumericRates(rates: seq<Value>): (r: Num)
    ensures r.NaN? <==> exists k :: 0 <= k < |rates| && rates[k] == Number(NaN)
  {
    if |rates| == 0 then Int(0)
    else
      var init := rates[..|rates| - 1];
      assert forall k :: 0 <= k < |init| ==> init[k] == rates[k];
      AddNum(SumNumericRates(init), RateOrZero(rates[|rates| - 1]))
  }

  /** The invoice total: the sum of the numeric nightly rates when the
      reservation has a rate list (`None` when it has none), else the
      invoice parser's reading of `price`. */
  function InvoiceTotal(nightlyRates: Option<seq<Value>>, price: Value): (r: Num)
    ensures nightlyRates.None? ==> r == InvoiceExtractPrice(price)
    ensures nightlyRates.Some? && nightlyRates.value == [] ==> r == Int(0)
    ensures nightlyRates.Some? ==> (r.NaN? <==> exists k :: 0 <= k < |nightlyRates.value| && nightlyRates.value[k] == Number(NaN))
  {
    match nightlyRates
    case None => InvoiceExtractPrice(price)
    case Some(rates) => SumNumericRates(rates)
  }

  /** The rates of a processed reservation, as field values. */
  function RateValues(rs: seq<NightlyRate>): (vs: seq<Value>)
    ensures |vs| == |rs|
    ensures forall k :: 0 <= k < |rs| ==> vs[k] == Number(rs[k].rate)
  {
    seq(|rs|, k requires 0 <= k < |rs| => Number(rs[k].rate))
  }

  /** Adding the rates front to back or back to front gives the same sum. */
  lemma {:induction false} SumOrders(rs: seq<NightlyRate>)
    ensures SumNumericRates(RateValues(rs)) == SumRates(rs)
  {
    if |rs| > 0 {
      var n := |rs| - 1;
      var init := rs[..n];
      assert RateValues(rs)[..n] == RateValues(init);
      SumOrders(init);
      if n > 0 {
        assert init[1..] == rs[1..][..n - 1];
        SumLast(rs);
      } else {
        AddNumAssoc(Int(0), rs[0].rate, Int(0));
      }
    }
  }

  /** Splitting off the last rate of the right-to-left sum. */
  lemma {:induction false} SumLast(rs: seq<NightlyRate>)
    requires |rs| > 0
    ensures SumRates(rs) == AddNum(SumRates(rs[..|rs| - 1]), rs[|rs| - 1].rate)
  {
    var n := |rs| - 1;
    if n == 0 {
      AddNumAssoc(rs[0].rate, Int(0), Int(0));
    } else {
      assert rs[1..][..n - 1] == rs[..n][1..];
      SumLast(rs[1..]);
      AddNumAssoc(rs[0].rate, SumRates(rs[1..][..n - 1]), rs[n].rate);
    }
  }

  /** For a processed reservation with a stay, the invoice charges the
      total the main window computed. */
  lemma InvoiceChargesProcessedTotal(res: Reservation, catalog: seq<RoomType>, price: Value)
    requires HasStay(res)
    ensures var p := ProcessReservation(res, catalog);
            InvoiceTotal(Some(RateValues(p.nightlyRates.value)), price) == p.totalPrice
  {
    var p := ProcessReservation(res, catalog);
    var ci := res.parsedCheckIn.value;
    var nights := Nights(ci, res.parsedCheckOut.value);
    var perNight := PerNightPrice(GetPriceForDisplay(Some(res), catalog).amount, nights);
    assert p.nightlyRates.value == RatesFrom(DayOf(ci), nights, perNight);
    SumOrders(p.nightlyRates.value);
    SumOfUniformRates(DayOf(ci), nights, perNight);
  }
}
