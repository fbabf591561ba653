/** String primitives shared by every component: JavaScript's notion of
    whitespace, `toLowerCase`, `includes`, `trim`, `split` and `replace`,
    written over `seq<char>`. */
module Text {

  /** A character is whitespace for `\s` and `trim()`: the ECMAScript
      WhiteSpace and LineTerminator code points. */
  predicate IsSpace(c: char)
  {
    || c == ' ' || c == '\t' || c == '\n' || c == '\r'
    || c == '\U{000B}' || c == '\U{000C}' || c == '\U{00A0}' || c == '\U{1680}'
    || ('\U{2000}' <= c <= '\U{200A}')
    || c == '\U{2028}' || c == '\U{2029}' || c == '\U{202F}' || c == '\U{205F}'
    || c == '\U{3000}' || c == '\U{FEFF}'
  }

  /** `\d`: an ASCII decimal digit. */
  predicate IsDigit(c: char)
  {
    '0' <= c <= '9'
  }

  predicate IsUpper(c: char)
  {
    ('A' <= c <= 'Z') || ('\U{00C0}' <= c <= '\U{00DE}' && c != '\U{00D7}')
  }

  /** Lower-case mapping of one character: ASCII and Latin-1 capitals move
      down by 32; every other character is its own lower case. */
  function LowerChar(c: char): (r: char)
    ensures IsUpper(c) ==> r as int == c as int + 32
    ensures !IsUpper(c) ==> r == c
    ensures !IsUpper(r)
  {
    if IsUpper(c) then (c as int + 32) as char else c
  }

  /** `toLowerCase()`, character by character. */
  function Lower(s: string): (r: string)
    ensures |r| == |s|
    ensures forall i :: 0 <= i < |s| ==> r[i] == LowerChar(s[i])
  {
    seq(|s|, i requires 0 <= i < |s| => LowerChar(s[i]))
  }

  lemma LowerIdempotent(s: string)
    ensures Lower(Lower(s)) == Lower(s)
  {
  }

  lemma LowerConcat(a: string, b: string)
    ensures Lower(a + b) == Lower(a) + Lower(b)
  {
  }

  /** `sub` occurs in `s` starting at index `i`. */
  predicate OccursAt(s: string, sub: string, i: int)
  {
    0 <= i && i + |sub| <= |s| && s[i..i + |sub|] == sub
  }

  /** `s.includes(sub)`. */
  predicate Contains(s: string, sub: string)
  {
    exists i :: 0 <= i <= |s| && OccursAt(s, sub, i)
  }

  /** An occurrence of an occurrence is an occurrence. */
  lemma ContainsTrans(s: string, a: string, b: string)
    requires Contains(s, a) && Contains(a, b)
    ensures Contains(s, b)
  {
    var i :| 0 <= i <= |s| && OccursAt(s, a, i);
    var j :| 0 <= j <= |a| && OccursAt(a, b, j);
    forall m | 0 <= m < |b|
      ensures s[i + j + m] == b[m]
    {
      assert s[i..i + |a|][j + m] == a[j + m];
      assert a[j..j + |b|][m] == b[m];
    }
    assert s[i + j..i + j + |b|] == b;
    assert OccursAt(s, b, i + j);
  }

  /** Index of the first occurrence of `sub` in `s` at or after `from`, as
      `indexOf` computes it; `-1` when there is none. */
  function IndexOfFrom(s: string, sub: string, from: nat): (r: int)
    decreases |s| - from
    ensures r == -1 || (from <= r && OccursAt(s, sub, r))
    ensures r == -1 ==> forall j :: from <= j <= |s| ==> !OccursAt(s, sub, j)
    ensures r != -1 ==> forall j :: from <= j < r ==> !OccursAt(s, sub, j)
  {
    if from > |s| then -1
    else if OccursAt(s, sub, from) then from
    else IndexOfFrom(s, sub, from + 1)
  }

  function IndexOf(s: string, sub: string): (r: int)
    ensures r == -1 <==> !Contains(s, sub)
    ensures r != -1 ==> OccursAt(s, sub, r) && forall j :: 0 <= j < r ==> !OccursAt(s, sub, j)
  {
    IndexOfFrom(s, sub, 0)
  }

  /** `s.replace(sub, repl)` with a string pattern: only the first occurrence
      is replaced; without one `s` is returned unchanged. */
  function ReplaceFirst(s: string, sub: string, repl: string): (r: string)
    ensures !Contains(s, sub) ==> r == s
    ensures Contains(s, sub) ==>
      var i := IndexOf(s, sub); r == s[..i] + repl + s[i + |sub|..]
  {
    var i := IndexOf(s, sub);
    if i == -1 then s else s[..i] + repl + s[i + |sub|..]
  }

  /** Number of leading whitespace characters of `s`. */
  function LeadingSpaces(s: string): (n: nat)
    ensures n <= |s|
    ensures forall i :: 0 <= i < n ==> IsSpace(s[i])
    ensures n < |s| ==> !IsSpace(s[n])
  {
    if |s| == 0 || !IsSpace(s[0]) then 0 else 1 + LeadingSpaces(s[1..])
  }

  /** Length of `s` without its trailing whitespace. */
  function EndWithoutSpaces(s: string): (n: nat)
    ensures n <= |s|
    ensures forall i :: n <= i < |s| ==> IsSpace(s[i])
    ensures n > 0 ==> !IsSpace(s[n - 1])
  {
    if |s| == 0 || !IsSpace(s[|s| - 1]) then |s| else EndWithoutSpaces(s[..|s| - 1])
  }

  /** `trim()`: the slice of `s` between its leading and trailing
      whitespace. */
  function Trim(s: string): (r: string)
    ensures |r| <= |s|
    ensures |r| > 0 ==> !IsSpace(r[0]) && !IsSpace(r[|r| - 1])
    ensures exists a, b ::
              && 0 <= a <= b <= |s| && r == s[a..b]
              && (forall i :: 0 <= i < a ==> IsSpace(s[i]))
              && (forall i :: b <= i < |s| ==> IsSpace(s[i]))
  {
    var a := LeadingSpaces(s);
    var rest := s[a..];
    var b := EndWithoutSpaces(rest);
    assert rest[..b] == s[a..a + b];
    assert forall i :: a + b <= i < |s| ==> s[i] == rest[i - a];
    rest[..b]
  }

  /** Trimming a string that is entirely whitespace gives the empty
      string, and only then. */
  lemma TrimEmptyIffBlank(s: string)
    ensures Trim(s) == "" <==> forall i :: 0 <= i < |s| ==> IsSpace(s[i])
  {
  }

  lemma TrimIdempotent(s: string)
    ensures Trim(Trim(s)) == Trim(s)
  {
    var t := Trim(s);
    if |t| > 0 {
      assert LeadingSpaces(t) == 0;
      assert EndWithoutSpaces(t) == |t|;
    }
  }

  /** Trimming removes exactly the whitespace before `a` and from `b` on
      when `s[a]` and `s[b - 1]` are not whitespace. */
  lemma TrimBetween(s: string, a: nat, b: nat)
    requires a < b <= |s|
    requires forall i :: 0 <= i < a ==> IsSpace(s[i])
    requires forall i :: b <= i < |s| ==> IsSpace(s[i])
    requires !IsSpace(s[a]) && !IsSpace(s[b - 1])
    ensures Trim(s) == s[a..b]
  {
    var n := LeadingSpaces(s);
    assert n == a by {
      assert n < |s| ==> !IsSpace(s[n]);
      assert forall i :: 0 <= i < n ==> IsSpace(s[i]);
    }
    var rest := s[a..];
    var e := EndWithoutSpaces(rest);
    assert e == b - a by {
      assert rest[b - a - 1] == s[b - 1];
      assert e > 0 ==> rest[e - 1] == s[a + e - 1];
    }
    assert rest[..b - a] == s[a..b];
  }

  /** `s.split(sep)` for a one-character separator. */
  function Split(s: string, sep: char): (parts: seq<string>)
    decreases |s|
    ensures |parts| >= 1
    ensures forall k :: 0 <= k < |parts| ==> sep !in parts[k]
    ensures sep !in s ==> parts == [s]
  {
    if sep !in s then [s]
    else
      var i := FirstIndex(s, sep);
      [s[..i]] + Split(s[i + 1..], sep)
  }

  /** Index of the first occurrence of `c` in `s`. */
  function FirstIndex(s: string, c: char): (i: nat)
    requires c in s
    ensures i < |s| && s[i] == c && c !in s[..i]
  {
    if s[0] == c then 0 else 1 + FirstIndex(s[1..], c)
  }

  /** The first `c` of `a + [c] + b` is the one after `a` when `a` has
      none. */
  lemma {:induction false} FirstIndexAfter(a: string, c: char, b: string)
    requires c !in a
    ensures c in a + [c] + b && FirstIndex(a + [c] + b, c) == |a|
  {
    var s := a + [c] + b;
    assert s[|a|] == c;
    if |a| > 0 {
      assert s[1..] == a[1..] + [c] + b;
      FirstIndexAfter(a[1..], c, b);
    }
  }

  /** Joining the parts of a split with the separator gives back the
      original string. */
  function Join(parts: seq<string>, sep: char): string
  {
    if |parts| == 0 then "" else if |parts| == 1 then parts[0]
    else parts[0] + [sep] + Join(parts[1..], sep)
  }

  lemma {:induction false} JoinSplit(s: string, sep: char)
    ensures Join(Split(s, sep), sep) == s
    decreases |s|
  {
    if sep in s {
      var i := FirstIndex(s, sep);
      JoinSplit(s[i + 1..], sep);
      assert s == s[..i] + [sep] + s[i + 1..];
    }
  }

  /** Lowering changes no character's whitespace status. */
  lemma LowerCharSpace(c: char)
    ensures IsSpace(LowerChar(c)) <==> IsSpace(c)
  {
    if IsUpper(c) {
      assert !IsSpace(c);
      assert 'a' <= LowerChar(c) <= 'z' || '\U{00E0}' <= LowerChar(c) <= '\U{00FE}';
    }
  }

  lemma {:induction false} LeadingSpacesLower(s: string)
    ensures LeadingSpaces(Lower(s)) == LeadingSpaces(s)
  {
    if |s| > 0 {
      LowerCharSpace(s[0]);
      assert Lower(s)[1..] == Lower(s[1..]);
      LeadingSpacesLower(s[1..]);
    }
  }

  lemma {:induction false} EndWithoutSpacesLower(s: string)
    ensures EndWithoutSpaces(Lower(s)) == EndWithoutSpaces(s)
  {
    if |s| > 0 {
      LowerCharSpace(s[|s| - 1]);
      assert Lower(s)[..|s| - 1] == Lower(s[..|s| - 1]);
      EndWithoutSpacesLower(s[..|s| - 1]);
    }
  }

  /** Trimming and lowering commute. */
  lemma TrimLowerCommute(s: string)
    ensures Trim(Lower(s)) == Lower(Trim(s))
  {
    LeadingSpacesLower(s);
    var a := LeadingSpaces(s);
    LowerDrop(s, a);
    EndWithoutSpacesLower(s[a..]);
    LowerTake(s[a..], EndWithoutSpaces(s[a..]));
  }

  /** Lowering commutes with dropping a prefix. */
  lemma LowerDrop(s: string, a: nat)
    requires a <= |s|
    ensures Lower(s)[a..] == Lower(s[a..])
  {
  }

  /** Lowering commutes with taking a prefix. */
  lemma LowerTake(s: string, b: nat)
    requires b <= |s|
    ensures Lower(s)[..b] == Lower(s[..b])
  {
  }

  /** A string with a single separator splits into the text before it and
      the text after it. */
  lemma SplitOnce(s: string, sep: char, i: nat)
    requires i < |s| && s[i] == sep && sep !in s[..i] && sep !in s[i + 1..]
    ensures Split(s, sep) == [s[..i], s[i + 1..]]
  {
    assert sep in s;
    forall k | 0 <= k < i ensures s[k] != sep {
      assert s[..i][k] == s[k];
    }
    assert FirstIndex(s, sep) == i;
  }

  /** The first part of a split is the text before the first separator,
      and it is the whole string when there is no separator. */
  lemma SplitHead(s: string, sep: char)
    ensures sep in s ==> Split(s, sep)[0] == s[..FirstIndex(s, sep)]
    ensures sep !in s ==> Split(s, sep)[0] == s
  {
  }

  /** The second part of a split is the text between the first and the
      second separator, or up to the end when there is no second one. */
  lemma SplitSecond(s: string, sep: char)
    requires sep in s
    ensures var rest := s[FirstIndex(s, sep) + 1..];
            && |Split(s, sep)| > 1
            && Split(s, sep)[1] == if sep in rest then rest[..FirstIndex(rest, sep)] else rest
  {
    var rest := s[FirstIndex(s, sep) + 1..];
    assert Split(s, sep) == [s[..FirstIndex(s, sep)]] + Split(rest, sep);
    SplitHead(rest, sep);
  }

  /** Splitting at maximal runs of separator characters, as
      `split(/[\s\-]+/)` does: the pieces between consecutive runs, with an
      empty first or last piece when `s` starts or ends with a run. */
  function SplitRuns(s: string, isSep: char -> bool): (parts: seq<string>)
    decreases |s|
    ensures |parts| >= 1
    ensures forall k :: 0 <= k < |parts| ==> forall j :: 0 <= j < |parts[k]| ==> !isSep(parts[k][j])
  {
    var i := FirstSep(s, isSep, 0);
    if i == |s| then [s]
    else
      var j := RunEnd(s, isSep, i);
      [s[..i]] + SplitRuns(s[j..], isSep)
  }

  /** Index of the first separator at or after `from`, `|s|` if none. */
  function FirstSep(s: string, isSep: char -> bool, from: nat): (i: nat)
    requires from <= |s|
    decreases |s| - from
    ensures from <= i <= |s|
    ensures i < |s| ==> isSep(s[i])
    ensures forall k :: from <= k < i ==> !isSep(s[k])
  {
    if from == |s| || isSep(s[from]) then from else FirstSep(s, isSep, from + 1)
  }

  /** End of the run of separators starting at `from`. */
  function RunEnd(s: string, isSep: char -> bool, from: nat): (j: nat)
    requires from <= |s|
    decreases |s| - from
    ensures from <= j <= |s|
    ensures forall k :: from <= k < j ==> isSep(s[k])
    ensures j < |s| ==> !isSep(s[j])
  {
    if from == |s| || !isSep(s[from]) then from else RunEnd(s, isSep, from + 1)
  }

  /** A slice of `s` occurs in `s`, so whatever occurs in the slice occurs
      in `s`. */
  lemma SliceContains(s: string, a: nat, b: nat, sub: string)
    requires a <= b <= |s|
    ensures Contains(s[a..b], sub) ==> Contains(s, sub)
  {
    assert OccursAt(s, s[a..b], a);
    if Contains(s[a..b], sub) {
      ContainsTrans(s, s[a..b], sub);
    }
  }

  /** Trimming never creates an occurrence. */
  lemma TrimKeepsAbsent(s: string, sub: string)
    ensures !Contains(s, sub) ==> !Contains(Trim(s), sub)
  {
    var a, b :| 0 <= a <= b <= |s| && Trim(s) == s[a..b];
    SliceContains(s, a, b, sub);
  }

  /** `s.split(sep)` for a non-empty string separator: the pieces between
      the non-overlapping occurrences of `sep`, found left to right. */
  function SplitOn(s: string, sep: string): (parts: seq<string>)
    requires |sep| > 0
    decreases |s|
    ensures |parts| >= 1
    ensures forall k :: 0 <= k < |parts| ==> !Contains(parts[k], sep)
    ensures !Contains(s, sep) ==> parts == [s]
  {
    var i := IndexOf(s, sep);
    if i == -1 then [s]
    else
      forall j | 0 <= j <= i
        ensures !OccursAt(s[..i], sep, j)
      {
        if j + |sep| <= i {
          assert s[..i][j..j + |sep|] == s[j..j + |sep|];
          assert j < i;
          assert !OccursAt(s, sep, j);
        }
      }
      [s[..i]] + SplitOn(s[i + |sep|..], sep)
  }

  /** `parts.join(sep)`. */
  function JoinOn(parts: seq<string>, sep: string): string
  {
    if |parts| == 0 then "" else if |parts| == 1 then parts[0]
    else parts[0] + sep + JoinOn(parts[1..], sep)
  }

  /** Joining the pieces of a split with the separator gives back the
      text. */
  lemma {:induction false} JoinSplitOn(s: string, sep: string)
    requires |sep| > 0
    decreases |s|
    ensures JoinOn(SplitOn(s, sep), sep) == s
  {
    var i := IndexOf(s, sep);
    if i != -1 {
      var t := s[i + |sep|..];
      JoinSplitOn(t, sep);
      SplitOnStep(s, sep);
      JoinOnCons(s[..i], SplitOn(t, sep), sep);
      SliceAround(s, i, i + |sep|);
    }
  }

  /** A text is its part before `a`, its part from `a` to `b`, and the
      rest. */
  lemma SliceAround(s: string, a: nat, b: nat)
    requires a <= b <= |s|
    ensures s == s[..a] + s[a..b] + s[b..]
  {
  }

  /** One step of `SplitOn` at the first occurrence of the separator. */
  lemma SplitOnStep(s: string, sep: string)
    requires |sep| > 0 && IndexOf(s, sep) != -1
    ensures var i := IndexOf(s, sep);
            SplitOn(s, sep) == [s[..i]] + SplitOn(s[i + |sep|..], sep)
  {
  }

  /** One step of `JoinOn` on a list of at least two pieces. */
  lemma JoinOnCons(head: string, rest: seq<string>, sep: string)
    requires |rest| >= 1
    ensures JoinOn([head] + rest, sep) == head + sep + JoinOn(rest, sep)
  {
    assert ([head] + rest)[1..] == rest;
  }

  /** Splitting a join gives back the pieces when no piece holds the
      separator's first character. */
  lemma {:induction false} SplitJoinOn(parts: seq<string>, sep: string)
    requires |sep| > 0 && |parts| >= 1
    requires forall k :: 0 <= k < |parts| ==> sep[0] !in parts[k]
    decreases |parts|
    ensures SplitOn(JoinOn(parts, sep), sep) == parts
  {
    var s := JoinOn(parts, sep);
    var p := parts[0];
    forall j | 0 <= j < |p|
      ensures !OccursAt(s, sep, j)
    {
      assert s[j] == p[j];
      if j + |sep| <= |s| {
        assert s[j..j + |sep|][0] == s[j];
      }
    }
    if |parts| == 1 {
      assert s == p;
      forall j | 0 <= j <= |s|
        ensures !OccursAt(s, sep, j)
      {
        if j == |s| {
          assert j + |sep| > |s|;
        }
      }
    } else {
      var tail := JoinOn(parts[1..], sep);
      assert s == p + sep + tail;
      assert s[|p|..|p| + |sep|] == sep;
      assert OccursAt(s, sep, |p|);
      assert IndexOf(s, sep) == |p|;
      assert s[..|p|] == p;
      assert s[|p| + |sep|..] == tail;
      SplitJoinOn(parts[1..], sep);
      assert parts == [p] + parts[1..];
    }
  }
}
