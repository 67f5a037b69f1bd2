/** The string operations the responder and the feature pipeline rely on. */
module Text {
  import opened Outcomes

  predicate IsDigit(c: char) { '0' <= c <= '9' }

  /** A character of the regular-expression class `\w` (ASCII letters, digits and `_`). */
  predicate IsWordChar(c: char) { 'a' <= c <= 'z' || 'A' <= c <= 'Z' || IsDigit(c) || c == '_' }

  predicate AllDigits(s: string) { forall i :: 0 <= i < |s| ==> IsDigit(s[i]) }

  function DigitValue(c: char): (d: nat)
    requires IsDigit(c)
    ensures d < 10
  {
    (c as int) - ('0' as int)
  }

  function DigitChar(d: nat): (c: char)
    requires d < 10
    ensures IsDigit(c) && DigitValue(c) == d
  {
    ((('0' as int) + d) as char)
  }

  // ---------------------------------------------------------------
  // Case and substrings
  // ---------------------------------------------------------------

  function LowerChar(c: char): char {
    if 'A' <= c <= 'Z' then ((c as int) + 32) as char else c
  }

  /** Python's `str.lower()` on the ASCII letters. */
  function ToLower(s: string): (r: string)
    ensures |r| == |s|
    ensures forall i :: 0 <= i < |s| ==> r[i] == LowerChar(s[i])
    ensures forall i :: 0 <= i < |r| ==> !('A' <= r[i] <= 'Z')
  {
    if s == [] then [] else [LowerChar(s[0])] + ToLower(s[1..])
  }

  predicate OccursAt(s: string, sub: string, i: int) {
    0 <= i && i + |sub| <= |s| && s[i..i + |sub|] == sub
  }

  /** Python's `sub in s`: sub occurs in s at some index. */
  predicate Contains(s: string, sub: string)
    decreases |s|
  {
    if |sub| > |s| then false else s[..|sub|] == sub || Contains(s[1..], sub)
  }

  lemma {:induction false} ContainsOccurs(s: string, sub: string)
    ensures Contains(s, sub) <==> exists i :: 0 <= i <= |s| - |sub| && OccursAt(s, sub, i)
    decreases |s|
  {
    if |sub| <= |s| && s != [] {
      ContainsOccurs(s[1..], sub);
      assert forall i :: 1 <= i <= |s| - |sub| ==> (OccursAt(s, sub, i) <==> OccursAt(s[1..], sub, i - 1)) by {
        forall i | 1 <= i <= |s| - |sub| ensures OccursAt(s, sub, i) <==> OccursAt(s[1..], sub, i - 1) {
          var x, y := s[i..i + |sub|], s[1..][i - 1..i - 1 + |sub|];
          assert |x| == |y| && forall k :: 0 <= k < |x| ==> x[k] == s[i + k] == y[k];
          assert x == y;
        }
      }
      if Contains(s[1..], sub) {
        var i :| 0 <= i <= |s[1..]| - |sub| && OccursAt(s[1..], sub, i);
        assert OccursAt(s, sub, i + 1);
      }
      if s[..|sub|] == sub {
        assert OccursAt(s, sub, 0);
      }
    } else if |sub| <= |s| {
      assert sub == [] && OccursAt(s, sub, 0);
    }
  }

  /** Python's `any(w in s for w in words)`. */
  predicate ContainsAny(s: string, words: seq<string>) {
    if words == [] then false else Contains(s, words[0]) || ContainsAny(s, words[1..])
  }

  // ---------------------------------------------------------------
  // Code-point order of strings (Python's `<` on str)
  // ---------------------------------------------------------------

  predicate StrLess(a: string, b: string) {
    if a == [] then b != []
    else if b == [] then false
    else if a[0] != b[0] then a[0] < b[0]
    else StrLess(a[1..], b[1..])
  }

  lemma {:induction false} StrLessIrreflexive(a: string)
    ensures !StrLess(a, a)
  {
    if a != [] { StrLessIrreflexive(a[1..]); }
  }

  lemma {:induction false} StrLessTransitive(a: string, b: string, c: string)
    requires StrLess(a, b) && StrLess(b, c)
    ensures StrLess(a, c)
  {
    if a != [] && b != [] && c != [] && a[0] == b[0] && b[0] == c[0] {
      StrLessTransitive(a[1..], b[1..], c[1..]);
    }
  }

  lemma {:induction false} StrLessTotal(a: string, b: string)
    requires a != b
    ensures StrLess(a, b) || StrLess(b, a)
  {
    if a != [] && b != [] && a[0] == b[0] {
      assert a == [a[0]] + a[1..] && b == [b[0]] + b[1..];
      StrLessTotal(a[1..], b[1..]);
    }
  }

  // ---------------------------------------------------------------
  // Leftmost search, the scanning order of `re.search`
  // ---------------------------------------------------------------

  /** The smallest index in [k, hi) that satisfies `p`, if any. */
  function FirstIndex(k: nat, hi: nat, p: int -> bool): (r: Option<nat>)
    requires k <= hi
    decreases hi - k
    ensures r.Some? ==> k <= r.value < hi && p(r.value) && forall j :: k <= j < r.value ==> !p(j)
    ensures r.None? ==> forall j :: k <= j < hi ==> !p(j)
  {
    if k == hi then None
    else if p(k) then Some(k)
    else FirstIndex(k + 1, hi, p)
  }

  /** The end of the maximal run of digits starting at index k (greedy `\d+`). */
  function DigitRunEnd(s: string, k: nat): (e: nat)
    requires k <= |s|
    decreases |s| - k
    ensures k <= e <= |s|
    ensures forall j :: k <= j < e ==> IsDigit(s[j])
    ensures e == |s| || !IsDigit(s[e])
  {
    if k == |s| || !IsDigit(s[k]) then k else DigitRunEnd(s, k + 1)
  }

  /** Python's `int(s)` on a string of decimal digits (leading zeros allowed). */
  function DecimalValue(s: string): nat
    requires AllDigits(s)
  {
    if s == [] then 0 else DecimalValue(s[..|s| - 1]) * 10 + DigitValue(s[|s| - 1])
  }

  /** `re.search(r"top (\d+)", q)` matches at index i. */
  predicate TopMatchAt(q: string, i: int) {
    OccursAt(q, "top ", i) && i + 4 < |q| && IsDigit(q[i + 4])
  }

  /**
   * The count requested by `top N`: the number written after the leftmost
   * `top ` that is followed by a digit, read as the whole digit run; 1 when
   * there is no such match.
   */
  function TopCount(q: string): nat {
    match FirstIndex(0, |q|, i => TopMatchAt(q, i))
    case None => 1
    case Some(i) =>
      var e := DigitRunEnd(q, i + 4);
      assert AllDigits(q[i + 4..e]);
      DecimalValue(q[i + 4..e])
  }

  /** CPython's default `sys.int_max_str_digits`: `int()` refuses a longer decimal string. */
  const IntMaxStrDigits := 4300

  /**
   * `int(top_n_match.group(1))` raises ValueError: the digit run after the
   * leftmost match has more digits than the limit (leading zeros included).
   */
  predicate TopCountTooLong(q: string) {
    match FirstIndex(0, |q|, i => TopMatchAt(q, i))
    case None => false
    case Some(i) => DigitRunEnd(q, i + 4) - (i + 4) > IntMaxStrDigits
  }

  lemma TopCountSpec(q: string)
    ensures (forall i :: 0 <= i < |q| ==> !TopMatchAt(q, i)) ==> TopCount(q) == 1
    ensures forall i :: 0 <= i < |q| && TopMatchAt(q, i) && (forall j :: 0 <= j < i ==> !TopMatchAt(q, j)) ==>
      AllDigits(q[i + 4..DigitRunEnd(q, i + 4)]) && TopCount(q) == DecimalValue(q[i + 4..DigitRunEnd(q, i + 4)])
  {
    var p := i => TopMatchAt(q, i);
    assert forall j :: p(j) == TopMatchAt(q, j);
    var m := FirstIndex(0, |q|, p);
    if m.Some? {
      var k := m.value;
      var e := DigitRunEnd(q, k + 4);
      assert AllDigits(q[k + 4..e]);
      assert TopCount(q) == DecimalValue(q[k + 4..e]);
      forall i | 0 <= i < |q| && TopMatchAt(q, i) && (forall j :: 0 <= j < i ==> !TopMatchAt(q, j))
        ensures AllDigits(q[i + 4..DigitRunEnd(q, i + 4)]) && TopCount(q) == DecimalValue(q[i + 4..DigitRunEnd(q, i + 4)])
      {
        assert p(i) && p(k);
        assert i == k;
      }
    } else {
      forall i | 0 <= i < |q| ensures !TopMatchAt(q, i) {
        assert !p(i);
      }
    }
  }

  /** `int()` fails exactly when the leftmost `top ` match is followed by more than 4300 digits. */
  lemma TopCountTooLongSpec(q: string)
    ensures (forall i :: 0 <= i < |q| ==> !TopMatchAt(q, i)) ==> !TopCountTooLong(q)
    ensures forall i :: 0 <= i < |q| && TopMatchAt(q, i) && (forall j :: 0 <= j < i ==> !TopMatchAt(q, j)) ==>
      (TopCountTooLong(q) <==> DigitRunEnd(q, i + 4) - (i + 4) > IntMaxStrDigits)
  {
    var p := i => TopMatchAt(q, i);
    assert forall j :: p(j) == TopMatchAt(q, j);
    var m := FirstIndex(0, |q|, p);
    if m.Some? {
      var k := m.value;
      forall i | 0 <= i < |q| && TopMatchAt(q, i) && (forall j :: 0 <= j < i ==> !TopMatchAt(q, j))
        ensures TopCountTooLong(q) <==> DigitRunEnd(q, i + 4) - (i + 4) > IntMaxStrDigits
      {
        assert p(i) && p(k);
        assert i == k;
      }
    } else {
      forall i | 0 <= i < |q| ensures !TopMatchAt(q, i) {
        assert !p(i);
      }
    }
  }

  /** `re.search(r"\b20\d{2}\b", q)` matches at index i. */
  predicate YearMatchAt(q: string, i: int) {
    0 <= i && i + 4 <= |q| && q[i] == '2' && q[i + 1] == '0' && IsDigit(q[i + 2]) && IsDigit(q[i + 3])
    && (i == 0 || !IsWordChar(q[i - 1]))
    && (i + 4 == |q| || !IsWordChar(q[i + 4]))
  }

  /** The value of the leftmost standalone `20dd` token of q, if any. */
  function YearToken(q: string): Option<int> {
    match FirstIndex(0, |q|, i => YearMatchAt(q, i))
    case None => None
    case Some(i) => Some(2000 + 10 * DigitValue(q[i + 2]) + DigitValue(q[i + 3]))
  }

  lemma YearTokenSpec(q: string)
    ensures YearToken(q).None? <==> forall i :: 0 <= i < |q| ==> !YearMatchAt(q, i)
    ensures forall i :: 0 <= i < |q| && YearMatchAt(q, i) && (forall j :: 0 <= j < i ==> !YearMatchAt(q, j)) ==>
      YearToken(q) == Some(2000 + 10 * DigitValue(q[i + 2]) + DigitValue(q[i + 3]))
    ensures YearToken(q).Some? ==> 2000 <= YearToken(q).value <= 2099
  {
    var p := i => YearMatchAt(q, i);
    assert forall j :: p(j) == YearMatchAt(q, j);
    var m := FirstIndex(0, |q|, p);
    if m.Some? {
      var k := m.value;
      var d2, d3 := DigitValue(q[k + 2]), DigitValue(q[k + 3]);
      assert 10 * d2 <= 90;
      assert YearToken(q) == Some(2000 + 10 * d2 + d3);
      forall i | 0 <= i < |q| && YearMatchAt(q, i) && (forall j :: 0 <= j < i ==> !YearMatchAt(q, j))
        ensures YearToken(q) == Some(2000 + 10 * DigitValue(q[i + 2]) + DigitValue(q[i + 3]))
      {
        assert p(i) && p(k);
        assert i == k;
      }
    } else {
      forall i | 0 <= i < |q| ensures !YearMatchAt(q, i) {
        assert !p(i);
      }
    }
  }

  // ---------------------------------------------------------------
  // Integer formatting: `str(n)` and `f"{n:,}"`
  // ---------------------------------------------------------------

  function NatToString(n: nat): (s: string)
    ensures |s| > 0 && AllDigits(s)
  {
    if n < 10 then [DigitChar(n)] else NatToString(n / 10) + [DigitChar(n % 10)]
  }

  /** Python's `str(n)` on an int. */
  function IntToString(n: int): string {
    if n < 0 then "-" + NatToString(-n) else NatToString(n)
  }

  /** Three digits with leading zeros: the groups after the first in `{n:,}`. */
  function Pad3(r: nat): (s: string)
    requires r < 1000
    ensures |s| == 3 && AllDigits(s)
  {
    [DigitChar(r / 100), DigitChar(r / 10 % 10), DigitChar(r % 10)]
  }

  function Grouped(n: nat): string {
    if n < 1000 then NatToString(n) else Grouped(n / 1000) + "," + Pad3(n % 1000)
  }

  /** Python's `f"{n:,}"`: decimal digits grouped by three with commas. */
  function FormatThousands(n: int): string {
    if n < 0 then "-" + Grouped(-n) else Grouped(n)
  }

  function RemoveCommas(s: string): (r: string)
    ensures forall i :: 0 <= i < |r| ==> r[i] != ','
  {
    if s == [] then [] else (if s[0] == ',' then [] else [s[0]]) + RemoveCommas(s[1..])
  }

  /** Reads back a string written by `{n:,}`, ignoring its grouping commas. */
  function ParseThousands(s: string): Option<int> {
    if |s| > 0 && s[0] == '-' then
      var ds := RemoveCommas(s[1..]);
      if AllDigits(ds) then var v: int := DecimalValue(ds); Some(-v) else None
    else
      var ds := RemoveCommas(s);
      if AllDigits(ds) then Some(DecimalValue(ds)) else None
  }

  function Pow10(k: nat): (p: nat)
    ensures p >= 1
  {
    if k == 0 then 1 else 10 * Pow10(k - 1)
  }

  lemma ShiftDigit(x: int, p: int, y: int, d: int)
    ensures (x * p + y) * 10 + d == x * (p * 10) + (y * 10 + d)
  {
  }

  lemma {:induction false} DecimalValueConcat(a: string, b: string)
    requires AllDigits(a) && AllDigits(b)
    ensures AllDigits(a + b)
    ensures DecimalValue(a + b) == DecimalValue(a) * Pow10(|b|) + DecimalValue(b)
  {
    if b == [] {
      assert a + b == a;
    } else {
      var b' := b[..|b| - 1];
      var d := DigitValue(b[|b| - 1]);
      assert (a + b)[..|a + b| - 1] == a + b';
      DecimalValueConcat(a, b');
      var x, y, p := DecimalValue(a), DecimalValue(b'), Pow10(|b'|);
      assert DecimalValue(a + b) == DecimalValue(a + b') * 10 + d;
      assert DecimalValue(b) == y * 10 + d;
      assert Pow10(|b|) == p * 10;
      ShiftDigit(x, p, y, d);
    }
  }

  lemma {:induction false} NatToStringValue(n: nat)
    ensures DecimalValue(NatToString(n)) == n
  {
    var s := NatToString(n);
    if n < 10 {
      assert s[..0] == [];
    } else {
      NatToStringValue(n / 10);
      assert s[..|s| - 1] == NatToString(n / 10);
    }
  }

  lemma Pad3Value(r: nat)
    requires r < 1000
    ensures DecimalValue(Pad3(r)) == r
  {
    var s := Pad3(r);
    var a, b, c := r / 100, r / 10 % 10, r % 10;
    assert s[..2][..1][..0] == [];
    assert s[..2][..1] == [DigitChar(a)];
    assert s[..2] == [DigitChar(a), DigitChar(b)];
    assert DecimalValue(s[..2][..1]) == a;
    assert DecimalValue(s[..2]) == a * 10 + b;
    assert DecimalValue(s) == (a * 10 + b) * 10 + c;
    assert r / 10 == a * 10 + b;
    assert r == (r / 10) * 10 + c;
  }

  lemma {:induction false} RemoveCommasConcat(a: string, b: string)
    ensures RemoveCommas(a + b) == RemoveCommas(a) + RemoveCommas(b)
  {
    if a == [] {
      assert a + b == b;
    } else {
      assert (a + b)[1..] == a[1..] + b;
      RemoveCommasConcat(a[1..], b);
    }
  }

  lemma {:induction false} RemoveCommasOfDigits(s: string)
    requires AllDigits(s)
    ensures RemoveCommas(s) == s
  {
    if s != [] {
      RemoveCommasOfDigits(s[1..]);
    }
  }

  /** Removing the grouping commas of `{n:,}` leaves the digits of n. */
  lemma {:induction false} GroupedValue(n: nat)
    ensures AllDigits(RemoveCommas(Grouped(n)))
    ensures DecimalValue(RemoveCommas(Grouped(n))) == n
  {
    if n < 1000 {
      RemoveCommasOfDigits(NatToString(n));
      NatToStringValue(n);
    } else {
      var head, tail := Grouped(n / 1000), Pad3(n % 1000);
      GroupedValue(n / 1000);
      RemoveCommasConcat(head + ",", tail);
      RemoveCommasConcat(head, ",");
      assert RemoveCommas(",") == [];
      RemoveCommasOfDigits(tail);
      assert RemoveCommas(Grouped(n)) == RemoveCommas(head) + tail;
      DecimalValueConcat(RemoveCommas(head), tail);
      Pad3Value(n % 1000);
      assert Pow10(3) == 1000;
    }
  }

  /** Every character `{n:,}` writes for a natural number is a digit or a comma. */
  lemma {:induction false} GroupedAlphabet(n: nat)
    ensures |Grouped(n)| > 0
    ensures forall i :: 0 <= i < |Grouped(n)| ==> IsDigit(Grouped(n)[i]) || Grouped(n)[i] == ','
  {
    if n >= 1000 {
      GroupedAlphabet(n / 1000);
    }
  }

  /**
   * The layout of `{n:,}` for a natural number: counted from the right, every
   * fourth character is a comma and no other is, so every group after the
   * first has exactly three digits and the first has one to three; and the
   * text starts with a zero only when it is "0".
   */
  predicate ThousandsGrouped(s: string) {
    |s| % 4 != 0 &&
    (forall i :: 0 <= i < |s| ==> (s[i] == ',' <==> (|s| - i) % 4 == 0)) &&
    (s[0] == '0' ==> s == "0")
  }

  /** `str(n)` below 1000 has at most three digits, and no leading zero. */
  lemma {:induction false} NatToStringShape(n: nat)
    ensures n < 1000 ==> |NatToString(n)| <= 3
    ensures n > 0 ==> NatToString(n)[0] != '0'
    ensures NatToString(n)[0] == '0' ==> n == 0
  {
    if n >= 10 {
      NatToStringShape(n / 10);
      assert NatToString(n)[0] == NatToString(n / 10)[0];
    }
  }

  lemma {:induction false} GroupedShape(n: nat)
    ensures ThousandsGrouped(Grouped(n))
    ensures n > 0 ==> Grouped(n)[0] != '0'
  {
    NatToStringShape(n);
    if n < 1000 {
      var s := NatToString(n);
      forall i | 0 <= i < |s| ensures (s[i] == ',' <==> (|s| - i) % 4 == 0) {
        assert IsDigit(s[i]);
      }
    } else {
      GroupedShape(n / 1000);
      GroupCommas(Grouped(n / 1000), Pad3(n % 1000));
      assert Grouped(n) == Grouped(n / 1000) + "," + Pad3(n % 1000);
    }
  }

  /** One more group of three digits keeps a comma at every fourth place from the right. */
  lemma GroupCommas(h: string, p: string)
    requires ThousandsGrouped(h) && |p| == 3 && AllDigits(p)
    ensures |h + "," + p| % 4 != 0 && (h + "," + p)[0] == h[0]
    ensures forall i :: 0 <= i < |h + "," + p| ==> ((h + "," + p)[i] == ',' <==> (|h + "," + p| - i) % 4 == 0)
  {
    var s := h + "," + p;
    forall i | 0 <= i < |s| ensures (s[i] == ',' <==> (|s| - i) % 4 == 0) {
      if i < |h| {
        assert s[i] == h[i];
      } else if i > |h| {
        assert s[i] == p[i - |h| - 1];
        assert IsDigit(p[i - |h| - 1]);
      }
    }
  }

  /** `f"{n:,}"` is an optional minus sign followed by the grouped digits of |n|. */
  lemma FormatThousandsShape(n: int)
    ensures n < 0 ==> FormatThousands(n) == "-" + Grouped(-n) && ThousandsGrouped(Grouped(-n)) && -n >= 1
    ensures n >= 0 ==> ThousandsGrouped(FormatThousands(n))
  {
    GroupedShape(if n < 0 then -n else n);
  }

  /** `f"{n:,}"` loses nothing: parsing its output gives n back. */
  lemma FormatThousandsRoundTrip(n: int)
    ensures ParseThousands(FormatThousands(n)) == Some(n)
  {
    var m: nat := if n < 0 then -n else n;
    var g := Grouped(m);
    GroupedValue(m);
    GroupedAlphabet(m);
    if n < 0 {
      var s := "-" + g;
      assert s[1..] == g;
      assert FormatThousands(n) == s;
    } else {
      assert g[0] != '-';
      assert FormatThousands(n) == g;
    }
  }

  // ---------------------------------------------------------------
  // Python's `str.strip()`
  // ---------------------------------------------------------------

  /** The characters for which Python's `str.isspace()` holds. */
  predicate IsSpace(c: char) {
    var n := c as int;
    n == 32 || 9 <= n <= 13 || 28 <= n <= 31 || n == 0x85 || n == 0xA0 || n == 0x1680
    || 0x2000 <= n <= 0x200A || n == 0x2028 || n == 0x2029 || n == 0x202F || n == 0x205F || n == 0x3000
  }

  /** The number of white-space characters s begins with. */
  function LeadingSpace(s: string): (k: nat)
    ensures k <= |s|
    ensures forall j :: 0 <= j < k ==> IsSpace(s[j])
    ensures k == |s| || !IsSpace(s[k])
  {
    if s != [] && IsSpace(s[0]) then 1 + LeadingSpace(s[1..]) else 0
  }

  /** The number of white-space characters s ends with. */
  function TrailingSpace(s: string): (k: nat)
    ensures k <= |s|
    ensures forall j :: |s| - k <= j < |s| ==> IsSpace(s[j])
    ensures k == |s| || !IsSpace(s[|s| - 1 - k])
  {
    if s != [] && IsSpace(s[|s| - 1]) then 1 + TrailingSpace(s[..|s| - 1]) else 0
  }

  /**
   * Python's `str.strip()`: the part of s between its leading and its
   * trailing white space, which neither begins nor ends with white space.
   */
  function Strip(s: string): (r: string)
    ensures r == [] || (!IsSpace(r[0]) && !IsSpace(r[|r| - 1]))
    ensures LeadingSpace(s) == |s| ==> r == []
    ensures LeadingSpace(s) < |s| ==> LeadingSpace(s) < |s| - TrailingSpace(s)
                                      && r == s[LeadingSpace(s)..|s| - TrailingSpace(s)]
  {
    var i := LeadingSpace(s);
    if i == |s| then [] else
    var t := TrailingSpace(s);
    assert !IsSpace(s[i]);
    s[i..|s| - t]
  }

  /** A string with no white space at either end is left as it is. */
  lemma StripKeepsTrimmed(s: string)
    requires s == [] || (!IsSpace(s[0]) && !IsSpace(s[|s| - 1]))
    ensures Strip(s) == s
  {
  }

  lemma StripIdempotent(s: string)
    ensures Strip(Strip(s)) == Strip(s)
  {
    StripKeepsTrimmed(Strip(s));
  }
}
