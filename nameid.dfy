/** Extraction of the numeric product code from a nameid cell. The current
    importers first look for a dash followed by ten or more digits and take
    those digits; otherwise (and in the older scripts, always) they take the
    leftmost run of digits with dot-separated digit groups. Regex search is
    modelled by its leftmost-longest result on ASCII digits. */
module NameId {
  import opened PyValues

  /** Where a regex match lies in the searched text. */
  datatype Span = Span(start: nat, end: nat)

  // ---------------------------------------------------------------------------
  // The priority pattern: a dash, then ten or more digits

  predicate LongCodeStart(s: string, q: nat)
    requires q < |s|
  {
    s[q] == '-' && DigitsFrom(s, q + 1) >= 10
  }

  /** The leftmost position at or after p where the priority pattern matches. */
  function LongCodeAt(s: string, p: nat): (r: Option<nat>)
    requires p <= |s|
    ensures r.Some? ==> p <= r.value < |s| && LongCodeStart(s, r.value)
    ensures r.Some? ==> forall q :: p <= q < r.value ==> !LongCodeStart(s, q)
    ensures r.None? ==> forall q :: p <= q < |s| ==> !LongCodeStart(s, q)
    decreases |s| - p
  {
    if p == |s| then None
    else if LongCodeStart(s, p) then Some(p)
    else LongCodeAt(s, p + 1)
  }

  // ---------------------------------------------------------------------------
  // The fallback pattern: digits, then any number of "." + digits groups

  /** The leftmost digit at or after p. */
  function FirstDigitAt(s: string, p: nat): (r: Option<nat>)
    requires p <= |s|
    ensures r.Some? ==> p <= r.value < |s| && IsDigit(s[r.value])
    ensures r.Some? ==> forall q :: p <= q < r.value ==> !IsDigit(s[q])
    ensures r.None? ==> forall q :: p <= q < |s| ==> !IsDigit(s[q])
    decreases |s| - p
  {
    if p == |s| then None
    else if IsDigit(s[p]) then Some(p)
    else FirstDigitAt(s, p + 1)
  }

  /** Where the greedy match of the fallback pattern starting at i ends: the
      digit run, and again after each '.' that a digit follows. */
  function DottedEnd(s: string, i: nat): (e: nat)
    requires i <= |s|
    ensures i <= e <= |s|
    decreases |s| - i
  {
    var j := i + DigitsFrom(s, i);
    if j < |s| && s[j] == '.' && DigitsFrom(s, j + 1) > 0 then DottedEnd(s, j + 1) else j
  }

  predicate AllDigits(r: string) {
    forall k :: 0 <= k < |r| ==> IsDigit(r[k])
  }

  /** Digit groups joined by single dots: what the fallback pattern matches.
      Every character is a digit or a dot, the ends are digits, and no two
      dots are adjacent. */
  predicate DottedNumber(r: string) {
    |r| > 0 && IsDigit(r[0]) && IsDigit(r[|r| - 1]) &&
    (forall k :: 0 <= k < |r| ==> IsDigit(r[k]) || r[k] == '.') &&
    (forall j, k :: 0 <= j < k < |r| && r[j] == '.' && r[k] == '.' ==> j + 1 < k)
  }

  /** DottedNumber of s[i..e], stated on the positions of s. */
  predicate DottedSpan(s: string, i: nat, e: nat)
    requires i <= e <= |s|
  {
    i < e && IsDigit(s[i]) && IsDigit(s[e - 1]) &&
    (forall k :: i <= k < e ==> IsDigit(s[k]) || s[k] == '.') &&
    (forall j, k :: i <= j < k < e && s[j] == '.' && s[k] == '.' ==> j + 1 < k)
  }

  lemma DottedSpanSlice(s: string, i: nat, e: nat)
    requires i <= e <= |s|
    ensures DottedSpan(s, i, e) <==> DottedNumber(s[i..e])
  {
    var r := s[i..e];
    assert forall k :: 0 <= k < |r| ==> r[k] == s[i + k];
    if DottedNumber(r) {
      forall k | i <= k < e ensures IsDigit(s[k]) || s[k] == '.' {
        assert s[k] == r[k - i];
      }
      forall j, k | i <= j < k < e && s[j] == '.' && s[k] == '.' ensures j + 1 < k {
        assert s[j] == r[j - i] && s[k] == r[k - i];
      }
    }
  }

  /** The greedy match holds only digits and dots ... */
  lemma {:induction false} DottedEndChars(s: string, i: nat)
    requires i <= |s|
    ensures forall k :: i <= k < DottedEnd(s, i) ==> IsDigit(s[k]) || s[k] == '.'
    decreases |s| - i
  {
    var j := i + DigitsFrom(s, i);
    if j < |s| && s[j] == '.' && DigitsFrom(s, j + 1) > 0 {
      DottedEndChars(s, j + 1);
    }
  }

  /** ... ends with a digit ... */
  lemma {:induction false} DottedEndLast(s: string, i: nat)
    requires i < |s| && IsDigit(s[i])
    ensures i < DottedEnd(s, i) && IsDigit(s[DottedEnd(s, i) - 1])
    decreases |s| - i
  {
    var j := i + DigitsFrom(s, i);
    if j < |s| && s[j] == '.' && DigitsFrom(s, j + 1) > 0 {
      assert IsDigit(s[j + 1]);
      DottedEndLast(s, j + 1);
    } else {
      assert IsDigit(s[j - 1]);
    }
  }

  /** ... and has no two adjacent dots. */
  lemma {:induction false} DottedEndDots(s: string, i: nat)
    requires i <= |s|
    ensures forall a, b :: i <= a < b < DottedEnd(s, i) && s[a] == '.' && s[b] == '.' ==> a + 1 < b
    decreases |s| - i
  {
    var j := i + DigitsFrom(s, i);
    if j < |s| && s[j] == '.' && DigitsFrom(s, j + 1) > 0 {
      assert IsDigit(s[j + 1]);
      DottedEndDots(s, j + 1);
      forall a, b | i <= a < b < DottedEnd(s, i) && s[a] == '.' && s[b] == '.' ensures a + 1 < b {
      }
    }
  }

  lemma DottedEndSpan(s: string, i: nat)
    requires i < |s| && IsDigit(s[i])
    ensures DottedSpan(s, i, DottedEnd(s, i))
  {
    DottedEndChars(s, i);
    DottedEndLast(s, i);
    DottedEndDots(s, i);
  }

  /** The greedy match of the fallback pattern is a dotted number. */
  lemma DottedEndMatches(s: string, i: nat)
    requires i < |s| && IsDigit(s[i])
    ensures DottedNumber(s[i..DottedEnd(s, i)])
  {
    DottedEndSpan(s, i);
    DottedSpanSlice(s, i, DottedEnd(s, i));
  }

  lemma DigitsAreDotted(x: string)
    requires |x| > 0 && AllDigits(x)
    ensures DottedNumber(x)
  {
  }

  lemma DigitRunIsDigits(s: string, i: nat, j: nat)
    requires i <= j <= |s| && forall k :: i <= k < j ==> IsDigit(s[k])
    ensures AllDigits(s[i..j])
  {
    forall k | 0 <= k < j - i ensures IsDigit(s[i..j][k]) {
      assert s[i..j][k] == s[i + k];
    }
  }

  /** A digit run followed by a non-digit ends there. */
  lemma DigitsFromEnds(s: string, i: nat, e: nat)
    requires i <= e <= |s|
    requires forall k :: i <= k < e ==> IsDigit(s[k])
    requires e == |s| || !IsDigit(s[e])
    ensures DigitsFrom(s, i) == e - i
    decreases e - i
  {
    if i < e {
      DigitsFromEnds(s, i + 1, e);
    }
  }

  /** A digit run cannot pass a position that holds no digit. */
  lemma {:induction false} DigitsStopBefore(s: string, i: nat, e: nat)
    requires i <= e <= |s| && (e == |s| || !IsDigit(s[e]))
    ensures i + DigitsFrom(s, i) <= e
    decreases e - i
  {
    if i < e {
      DigitsStopBefore(s, i + 1, e);
    }
  }

  lemma NoDigitsAt(s: string, p: nat)
    requires p <= |s| && (p == |s| || !IsDigit(s[p]))
    ensures DigitsFrom(s, p) == 0
  {
  }

  lemma {:induction false} DottedEndOfSpan(s: string, i: nat, e: nat)
    requires i < e <= |s| && DottedSpan(s, i, e)
    requires e == |s| || (!IsDigit(s[e]) && !(s[e] == '.' && e + 1 < |s| && IsDigit(s[e + 1])))
    ensures DottedEnd(s, i) == e
    decreases e - i
  {
    var j := i + DigitsFrom(s, i);
    DigitsStopBefore(s, i, e);
    if j < e {
      DotAfterRun(s, i, e);
      DottedEndOfSpan(s, j + 1, e);
    } else {
      assert j == e;
      if e < |s| && s[e] == '.' {
        NoDigitsAt(s, e + 1);
      }
    }
  }

  /** Inside a dotted number, a digit run that stops early stops at a '.'
      that the rest of the dotted number follows. */
  lemma DotAfterRun(s: string, i: nat, e: nat)
    requires i < e <= |s| && DottedSpan(s, i, e) && i + DigitsFrom(s, i) < e
    ensures var j := i + DigitsFrom(s, i);
      j + 1 < e && s[j] == '.' && DigitsFrom(s, j + 1) > 0 && DottedSpan(s, j + 1, e)
  {
    var j := i + DigitsFrom(s, i);
    assert !IsDigit(s[j]) && s[j] == '.';
    assert j + 1 < e && IsDigit(s[j + 1]);
  }

  /** Conversely, a dotted number that nothing extends (no digit, and no '.'
      with a digit after it, follows it) is matched exactly. */
  lemma DottedEndOf(s: string, i: nat, e: nat)
    requires i < e <= |s| && DottedNumber(s[i..e])
    requires e == |s| || (!IsDigit(s[e]) && !(s[e] == '.' && e + 1 < |s| && IsDigit(s[e + 1])))
    ensures DottedEnd(s, i) == e
  {
    DottedSpanSlice(s, i, e);
    DottedEndOfSpan(s, i, e);
  }

  // ---------------------------------------------------------------------------
  // extract_number

  /** The match of the current extract_number on a text, if any: the digits of
      the leftmost long dash code, else the leftmost dotted number. */
  function Search(s: string): (m: Option<Span>)
    ensures m.Some? ==> m.value.start < m.value.end <= |s|
  {
    match LongCodeAt(s, 0)
    case Some(p) => Some(Span(p + 1, p + 1 + DigitsFrom(s, p + 1)))
    case None => SearchDotted(s)
  }

  /** The match of the older extract_number: the leftmost dotted number only. */
  function SearchDotted(s: string): (m: Option<Span>)
    ensures m.Some? ==> m.value.start < m.value.end <= |s|
  {
    match FirstDigitAt(s, 0)
    case Some(i) => Some(Span(i, DottedEnd(s, i)))
    case None => None
  }

  function Matched(s: string, m: Option<Span>): Option<string>
    requires m.Some? ==> m.value.start <= m.value.end <= |s|
  {
    match m
    case Some(sp) => Some(s[sp.start..sp.end])
    case None => None
  }

  /** The text extract_number takes from a str() text, if any. */
  function ExtractText(s: string): Option<string> {
    Matched(s, Search(s))
  }

  function ExtractTextOld(s: string): Option<string> {
    Matched(s, SearchDotted(s))
  }

  /** extract_number (current importers): the matched text as a str, or the
      cell itself when its str() has no match. */
  function ExtractNumber(v: Value): Value {
    match ExtractText(Text(v))
    case Some(r) => Str(r)
    case None => v
  }

  /** extract_number of the older scripts. */
  function ExtractNumberOld(v: Value): Value {
    match ExtractTextOld(Text(v))
    case Some(r) => Str(r)
    case None => v
  }

  /** The older extraction finds a match exactly when the text has a digit,
      and the match is a dotted number. */
  lemma ExtractTextOldShape(s: string)
    ensures ExtractTextOld(s).Some? <==> ContainsDigit(s)
    ensures ExtractTextOld(s).Some? ==> DottedNumber(ExtractTextOld(s).value)
  {
    match FirstDigitAt(s, 0)
    case Some(i) => DottedEndMatches(s, i);
    case None =>
  }

  /** What the current extraction returns: a long dash code yields its ten or
      more digits, otherwise a text with a digit yields a dotted number, and a
      text without digits yields nothing. */
  lemma ExtractTextShape(s: string)
    ensures ExtractText(s).Some? <==> ContainsDigit(s)
    ensures LongCodeAt(s, 0).Some? ==>
      |ExtractText(s).value| >= 10 && AllDigits(ExtractText(s).value)
    ensures LongCodeAt(s, 0).None? ==> ExtractText(s) == ExtractTextOld(s)
    ensures ExtractText(s).Some? ==> DottedNumber(ExtractText(s).value)
  {
    ExtractTextOldShape(s);
    match LongCodeAt(s, 0)
    case None =>
    case Some(p) =>
      var n := DigitsFrom(s, p + 1);
      assert ExtractText(s) == Some(s[p + 1..p + 1 + n]);
      assert IsDigit(s[p + 1]);
      DigitRunIsDigits(s, p + 1, p + 1 + n);
      DigitsAreDotted(s[p + 1..p + 1 + n]);
  }

  /** Both versions extract a non-empty piece of the text itself. */
  lemma ExtractedIsSubstring(s: string)
    ensures ExtractText(s).Some? ==> exists i, j :: 0 <= i < j <= |s| && ExtractText(s).value == s[i..j]
    ensures ExtractTextOld(s).Some? ==> exists i, j :: 0 <= i < j <= |s| && ExtractTextOld(s).value == s[i..j]
  {
    if Search(s).Some? {
      var sp := Search(s).value;
      assert ExtractText(s).value == s[sp.start..sp.end];
    }
    if SearchDotted(s).Some? {
      var sp := SearchDotted(s).value;
      assert ExtractTextOld(s).value == s[sp.start..sp.end];
    }
  }

  /** A dotted number has no dash, hence no long dash code. */
  lemma DottedNoDash(r: string)
    requires DottedNumber(r)
    ensures LongCodeAt(r, 0).None?
  {
    forall q | 0 <= q < |r| ensures !LongCodeStart(r, q) {
      assert IsDigit(r[q]) || r[q] == '.';
    }
  }

  /** An extracted code is its own match, so extracting again changes nothing. */
  lemma ExtractTextIdempotent(s: string)
    requires ExtractText(s).Some?
    ensures ExtractText(ExtractText(s).value) == ExtractText(s)
  {
    ExtractTextShape(s);
    var r := ExtractText(s).value;
    DottedNoDash(r);
    assert FirstDigitAt(r, 0) == Some(0);
    DottedEndOf(r, 0, |r|);
    assert r[0..|r|] == r;
  }

  lemma ExtractNumberIdempotent(v: Value)
    ensures ExtractNumber(ExtractNumber(v)) == ExtractNumber(v)
  {
    if ExtractText(Text(v)).Some? {
      ExtractTextIdempotent(Text(v));
    }
  }

  /** The older extraction is idempotent too: its match is a dotted number,
      which is its own leftmost match. */
  lemma ExtractTextOldIdempotent(s: string)
    requires ExtractTextOld(s).Some?
    ensures ExtractTextOld(ExtractTextOld(s).value) == ExtractTextOld(s)
  {
    ExtractTextOldShape(s);
    var r := ExtractTextOld(s).value;
    assert FirstDigitAt(r, 0) == Some(0);
    DottedEndOf(r, 0, |r|);
    assert r[0..|r|] == r;
  }

  lemma ExtractNumberOldIdempotent(v: Value)
    ensures ExtractNumberOld(ExtractNumberOld(v)) == ExtractNumberOld(v)
  {
    if ExtractTextOld(Text(v)).Some? {
      ExtractTextOldIdempotent(Text(v));
    }
  }

  /** A cell whose text has no digit is returned unchanged; any other cell
      becomes the str of a dotted number. */
  lemma ExtractNumberCases(v: Value)
    ensures !ContainsDigit(Text(v)) ==> ExtractNumber(v) == v && ExtractNumberOld(v) == v
    ensures ContainsDigit(Text(v)) ==>
      ExtractNumber(v).Str? && DottedNumber(ExtractNumber(v).s) &&
      ExtractNumberOld(v).Str? && DottedNumber(ExtractNumberOld(v).s)
  {
    ExtractTextShape(Text(v));
    ExtractTextOldShape(Text(v));
  }

  /** A text of at most ten characters cannot hold a dash and ten digits. */
  lemma ShortTextNoLongCode(s: string)
    requires |s| <= 10
    ensures LongCodeAt(s, 0).None?
  {
    forall q | 0 <= q < |s| ensures !LongCodeStart(s, q) {
      assert DigitsFrom(s, q + 1) <= |s| - (q + 1);
    }
  }

  /** A dash-free prefix, a dash and ten or more digits: the digits are extracted. */
  lemma LongCodeAfterPrefix(s: string, a: string, d: string)
    requires s == a + "-" + d
    requires forall k :: 0 <= k < |a| ==> a[k] != '-'
    requires |d| >= 10 && AllDigits(d)
    ensures ExtractText(s) == Some(d)
  {
    assert s[|a|] == '-';
    DigitsFromEnds(s, |a| + 1, |s|);
    assert LongCodeStart(s, |a|);
    forall q | 0 <= q < |a| ensures !LongCodeStart(s, q) {
      assert s[q] == a[q];
    }
    assert LongCodeAt(s, 0) == Some(|a|);
    assert s[|a| + 1..|s|] == d;
  }

  /** A digit-free prefix, a dotted number, and a rest that does not extend it:
      the older extraction takes that dotted number. */
  lemma DottedAfterPrefix(s: string, a: string, d: string, rest: string)
    requires s == a + d + rest
    requires !ContainsDigit(a) && DottedNumber(d)
    requires rest == [] || (!IsDigit(rest[0]) && !(rest[0] == '.' && |rest| > 1 && IsDigit(rest[1])))
    ensures ExtractTextOld(s) == Some(d)
  {
    var e := |a| + |d|;
    assert s[|a|..e] == d;
    assert IsDigit(s[|a|]);
    forall q | 0 <= q < |a| ensures !IsDigit(s[q]) {
      assert s[q] == a[q];
    }
    assert FirstDigitAt(s, 0) == Some(|a|);
    if rest != [] {
      assert s[e] == rest[0];
      if |rest| > 1 { assert s[e + 1] == rest[1]; }
    }
    DottedEndOf(s, |a|, e);
  }

  /** Without a long dash code the current and the older extraction agree. */
  lemma AgreesWithOldWithoutLongCode(v: Value)
    requires LongCodeAt(Text(v), 0).None?
    ensures ExtractNumber(v) == ExtractNumberOld(v)
  {
    ExtractTextShape(Text(v));
  }

  /** The success test of the clean-up report: the cell became a string that
      starts with a digit. */
  predicate Extracted(v: Value) {
    v.Str? && |v.s| > 0 && IsDigit(v.s[0])
  }

  /** A cell counts as a successful extraction exactly when its text has a digit. */
  lemma ExtractedIffDigit(v: Value)
    ensures Extracted(ExtractNumberOld(v)) <==> ContainsDigit(Text(v))
  {
    ExtractTextOldShape(Text(v));
    if Extracted(v) {
      assert IsDigit(Text(v)[0]);
    }
  }

  /** The number of successful extractions in a column. */
  function CountExtracted(col: seq<Value>): (n: nat)
    ensures n <= |col|
  {
    if col == [] then 0 else (if Extracted(col[0]) then 1 else 0) + CountExtracted(col[1..])
  }

  function CountWithDigit(col: seq<Value>): (n: nat)
    ensures n <= |col|
  {
    if col == [] then 0 else (if ContainsDigit(Text(col[0])) then 1 else 0) + CountWithDigit(col[1..])
  }

  /** The nameid column after the older extraction. */
  function ExtractColumn(col: seq<Value>): (r: seq<Value>)
    ensures |r| == |col|
    ensures forall i :: 0 <= i < |col| ==> r[i] == ExtractNumberOld(col[i])
  {
    if col == [] then [] else [ExtractNumberOld(col[0])] + ExtractColumn(col[1..])
  }

  /** The report's success count equals the number of cells whose text has a digit. */
  lemma {:induction false} SuccessCount(col: seq<Value>)
    ensures CountExtracted(ExtractColumn(col)) == CountWithDigit(col)
  {
    if col != [] {
      CountExtractedCons(ExtractNumberOld(col[0]), ExtractColumn(col[1..]));
      ExtractedIffDigit(col[0]);
      SuccessCount(col[1..]);
    }
  }

  /** The statistics step of back/dataHandle.py: `.str.contains` on the
      extracted column. pandas refuses the `.str` accessor (AttributeError)
      on a non-empty column none of whose cells is a str, and the script
      stops there; that is None. Otherwise the count of cells with a digit. */
  function SuccessReport(col: seq<Value>): (n: Option<nat>)
    ensures n.None? <==>
      |col| > 0 && forall i :: 0 <= i < |col| ==> !col[i].Str? && !ContainsDigit(Text(col[i]))
    ensures n.Some? ==> n.value == CountWithDigit(col)
  {
    var extracted := ExtractColumn(col);
    SuccessCount(col);
    ExtractedStrIffStrOrDigit(col);
    if |extracted| > 0 && forall i :: 0 <= i < |extracted| ==> !extracted[i].Str? then None
    else Some(CountExtracted(extracted))
  }

  /** A cell of the extracted column is a str exactly when the original cell
      is a str or its text has a digit. */
  lemma ExtractedStrIffStrOrDigit(col: seq<Value>)
    ensures forall i :: 0 <= i < |col| ==>
      (ExtractColumn(col)[i].Str? <==> col[i].Str? || ContainsDigit(Text(col[i])))
  {
    forall i | 0 <= i < |col|
      ensures ExtractColumn(col)[i].Str? <==> col[i].Str? || ContainsDigit(Text(col[i]))
    {
      ExtractNumberCases(col[i]);
    }
  }

  lemma CountExtractedCons(v: Value, rest: seq<Value>)
    ensures CountExtracted([v] + rest) == (if Extracted(v) then 1 else 0) + CountExtracted(rest)
  {
    assert ([v] + rest)[1..] == rest;
  }

  // ---------------------------------------------------------------------------
  // The cases of the extraction test script

  /** A long dash code wins over the digits before it. */
  lemma TestCaseLongCodeAfterDigits(s: string)
    requires s == "猪肉糜（肥2瘦8）-0701012400"
    ensures ExtractText(s) == Some("0701012400")
  {
    LongCodeAfterPrefix(s, "猪肉糜（肥2瘦8）", "0701012400");
  }

  lemma TestCaseLongCode(s: string)
    requires s == "牛肉-0702013500"
    ensures ExtractText(s) == Some("0702013500")
  {
    LongCodeAfterPrefix(s, "牛肉", "0702013500");
  }

  /** Digits without a dash code: the digit group. */
  lemma TestCaseDigits(s: string)
    requires s == "鸡肉123"
    ensures ExtractText(s) == Some("123")
  {
    DottedAfterPrefix(s, "鸡肉", "123", "");
    ShortTextNoLongCode(s);
    ExtractTextShape(s);
  }

  /** A dash code shorter than ten digits falls back to the digit group. */
  lemma TestCaseShortCode(s: string)
    requires s == "蔬菜类-070301"
    ensures ExtractText(s) == Some("070301")
  {
    DottedAfterPrefix(s, "蔬菜类-", "070301", "");
    ShortTextNoLongCode(s);
    ExtractTextShape(s);
  }

  /** No digit: no match, so the cell is returned as it is. */
  lemma TestCaseNoDigits(s: string)
    requires s == "无数字文本"
    ensures ExtractText(s) == None
  {
    ExtractTextShape(s);
  }

  /** The older extraction takes the first digit group instead of the code. */
  lemma OldVersionTakesFirstDigits(s: string)
    requires s == "猪肉糜（肥2瘦8）-0701012400"
    ensures ExtractTextOld(s) == Some("2")
  {
    DottedAfterPrefix(s, "猪肉糜（肥", "2", "瘦8）-0701012400");
  }

  /** A dot not followed by a digit ends the match, and so does a dash. */
  lemma OldVersionStopsAtNonGroup(s: string, t: string)
    requires s == "12.a" && t == "1.2.3-4"
    ensures ExtractTextOld(s) == Some("12")
    ensures ExtractTextOld(t) == Some("1.2.3")
  {
    assert ExtractTextOld(s) == Some("12") by {
      DottedAfterPrefix(s, "", "12", ".a");
    }
    assert ExtractTextOld(t) == Some("1.2.3") by {
      DottedAfterPrefix(t, "", "1.2.3", "-4");
    }
  }
}
