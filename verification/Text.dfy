/** The string operations the coordination file uses: find, substr, decimal printing and parsing. */
module Text {
  import opened Word64

  /** `std::string::npos`; a string is always shorter. */
  const NPOS: u64 := TWO64 - 1

  datatype Outcome<T> = Value(value: T) | Throws

  predicate At(s: string, pat: string, i: nat) {
    i + |pat| <= |s| && s[i..i + |pat|] == pat
  }

  /** `s.find(pat, from)`: the first occurrence at or after `from`. */
  function Find(s: string, pat: string, from: nat): (i: u64)
    requires |s| < NPOS && pat != ""
    ensures i == NPOS || (from <= i < |s| && At(s, pat, i))
    ensures forall j: nat :: from <= j && (i == NPOS || j < i) ==> !At(s, pat, j)
    decreases |s| + 1 - from
  {
    if from > |s| then NPOS else if At(s, pat, from) then from else Find(s, pat, from + 1)
  }

  lemma FindIs(s: string, pat: string, from: nat, i: nat)
    requires |s| < NPOS && pat != ""
    requires from <= i && At(s, pat, i) && forall j: nat :: from <= j < i ==> !At(s, pat, j)
    ensures Find(s, pat, from) == i
  {
  }

  lemma FindChar(s: string, c: char, from: nat, i: nat)
    requires |s| < NPOS && from <= i < |s| && s[i] == c
    requires forall j :: from <= j < i ==> s[j] != c
    ensures Find(s, [c], from) == i
  {
    assert At(s, [c], i);
    forall j: nat | from <= j < i ensures !At(s, [c], j) {
      assert s[j..j + 1] == [s[j]];
    }
  }

  /** `s.substr(pos, n)`. */
  function Substr(s: string, pos: nat, n: nat): Outcome<string> {
    if pos > |s| then Throws
    else if pos + n > |s| then Value(s[pos..]) else Value(s[pos..pos + n])
  }

  // ---- Decimal numbers ----

  predicate IsDigit(c: char) {
    '0' <= c <= '9'
  }

  predicate IsSpace(c: char) {
    c == ' ' || '\t' <= c <= '\r'
  }

  function DigitOf(c: char): nat
    requires IsDigit(c)
  {
    (c - '0') as nat
  }

  function DigitChar(d: nat): (c: char)
    requires d < 10
    ensures IsDigit(c) && DigitOf(c) == d
  {
    '0' + d as char
  }

  function PrintNat(n: nat): (s: string)
    ensures s != "" && forall c :: c in s ==> IsDigit(c)
  {
    if n < 10 then [DigitChar(n)] else PrintNat(n / 10) + [DigitChar(n % 10)]
  }

  function PrintInt(n: int): string {
    if n < 0 then "-" + PrintNat(-n) else PrintNat(n)
  }

  function DigitsValue(s: string): nat
    requires forall c :: c in s ==> IsDigit(c)
  {
    if s == "" then 0 else 10 * DigitsValue(s[..|s| - 1]) + DigitOf(s[|s| - 1])
  }

  /** Reading back the digits of a number gives the number. */
  lemma {:induction false} DigitsOfPrinted(n: nat)
    ensures DigitsValue(PrintNat(n)) == n
  {
    if n < 10 {
      assert PrintNat(n)[..0] == "";
    } else {
      DigitsOfPrinted(n / 10);
      assert PrintNat(n)[..|PrintNat(n)| - 1] == PrintNat(n / 10);
    }
  }

  /** The length of the longest prefix of digits. */
  function DigitRun(s: string): (n: nat)
    ensures n <= |s|
    ensures forall c :: c in s[..n] ==> IsDigit(c)
    ensures n < |s| ==> !IsDigit(s[n])
  {
    if s == "" || !IsDigit(s[0]) then 0
    else
      var n := DigitRun(s[1..]);
      assert s[..n + 1] == [s[0]] + s[1..][..n];
      n + 1
  }

  lemma {:induction false} DigitRunIs(digits: string, rest: string)
    requires forall c :: c in digits ==> IsDigit(c)
    requires rest == "" || !IsDigit(rest[0])
    ensures DigitRun(digits + rest) == |digits| && (digits + rest)[..|digits|] == digits
    decreases |digits|
  {
    if digits == "" {
      assert digits + rest == rest;
    } else {
      assert digits[0] in digits;
      assert (digits + rest)[1..] == digits[1..] + rest;
      DigitRunIs(digits[1..], rest);
    }
  }

  function SkipSpaces(s: string): string {
    if s != "" && IsSpace(s[0]) then SkipSpaces(s[1..]) else s
  }

  /** The number a decimal conversion reads: leading spaces, an optional sign, digits; the rest is ignored. */
  function ReadNumber(s: string): Outcome<int> {
    var t := SkipSpaces(s);
    var negative := t != "" && t[0] == '-';
    var u := if t != "" && (t[0] == '-' || t[0] == '+') then t[1..] else t;
    var n := DigitRun(u);
    if n == 0 then Throws
    else Value(if negative then -(DigitsValue(u[..n]) as int) else DigitsValue(u[..n]))
  }

  const INT64_MIN: int := -0x8000_0000_0000_0000
  const INT64_MAX: int := 0x7FFF_FFFF_FFFF_FFFF

  /** `std::stoull`: a negative number wraps, one too large throws. */
  function Stoull(s: string): Outcome<u64> {
    match ReadNumber(s)
    case Throws => Throws
    case Value(n) => if -(TWO64 as int) < n < TWO64 then Value(Wrap(n)) else Throws
  }

  function Stoll(s: string): Outcome<int> {
    match ReadNumber(s)
    case Throws => Throws
    case Value(n) => if INT64_MIN <= n <= INT64_MAX then Value(n) else Throws
  }

  lemma LeadingSpace(t: string)
    requires t != "" && !IsSpace(t[0])
    ensures SkipSpaces(" " + t) == t
  {
    assert (" " + t)[1..] == t;
    assert SkipSpaces(" " + t) == SkipSpaces(t);
  }

  lemma UnsignedIsRead(digits: string, rest: string, negative: bool)
    requires digits != "" && (forall c :: c in digits ==> IsDigit(c)) && (rest == "" || !IsDigit(rest[0]))
    ensures var n: int := DigitsValue(digits);
            ReadNumber(" " + ((if negative then "-" + digits else digits) + rest)) == Value(if negative then -n else n)
  {
    hide DigitsValue;
    var t := (if negative then "-" + digits else digits) + rest;
    assert digits[0] in digits;
    LeadingSpace(t);
    DigitRunIs(digits, rest);
    assert negative ==> t[1..] == digits + rest;
  }

  lemma {:induction false} SpacesSkipped(spaces: string, t: string)
    requires (forall c :: c in spaces ==> IsSpace(c)) && (t == "" || !IsSpace(t[0]))
    ensures SkipSpaces(spaces + t) == t
    decreases |spaces|
  {
    if spaces == "" {
      assert spaces + t == t;
    } else {
      assert spaces[0] in spaces;
      assert (spaces + t)[1..] == spaces[1..] + t;
      SpacesSkipped(spaces[1..], t);
    }
  }

  /** What a conversion makes of any spaces, an optional sign, digits and any rest. */
  lemma NumberIsRead(spaces: string, sign: string, digits: string, rest: string)
    requires (forall c :: c in spaces ==> IsSpace(c)) && (sign == "" || sign == "+" || sign == "-")
    requires (forall c :: c in digits ==> IsDigit(c)) && (rest == "" || !IsDigit(rest[0]))
    requires digits == "" && sign == "" && rest != "" ==> !IsSpace(rest[0]) && rest[0] != '+' && rest[0] != '-'
    ensures ReadNumber(spaces + (sign + (digits + rest))) ==
              if digits == "" then Throws
              else var n: int := DigitsValue(digits); Value(if sign == "-" then -n else n)
  {
    hide DigitsValue;
    var u := digits + rest;
    var t := sign + u;
    assert digits != "" ==> digits[0] in digits && u[0] == digits[0];
    assert digits == "" ==> u == rest;
    assert sign == "" ==> t == u;
    assert sign != "" ==> t[0] == sign[0] && t[1..] == u;
    SpacesSkipped(spaces, t);
    DigitRunIs(digits, rest);
  }

  /** The digits printed have no leading zero. */
  lemma {:induction false} PrintedIsCanonical(n: nat)
    ensures n >= 10 ==> PrintNat(n)[0] != '0'
    ensures n < 10 ==> PrintNat(n) == ["0123456789"[n]]
    decreases n
  {
    if n >= 10 {
      PrintedIsCanonical(n / 10);
      assert PrintNat(n)[0] == PrintNat(n / 10)[0];
      if n / 10 < 10 {
        assert "0123456789"[n / 10] != '0';
      }
    }
  }

  /** A printed number is read back, whatever non-digit follows it. */
  lemma PrintedIsRead(n: int, rest: string)
    requires rest == "" || !IsDigit(rest[0])
    ensures ReadNumber(" " + PrintInt(n) + rest) == Value(n)
  {
    hide ReadNumber, DigitsValue;
    var m: nat := if n < 0 then -n else n;
    DigitsOfPrinted(m);
    UnsignedIsRead(PrintNat(m), rest, n < 0);
    assert " " + PrintInt(n) + rest == " " + (PrintInt(n) + rest);
  }

  /** A quote where the number should start makes the conversion throw. */
  lemma QuoteIsNoNumber(s: string)
    requires |s| >= 2 && s[0] == ' ' && s[1] == '\"'
    ensures ReadNumber(s) == Throws
  {
    assert SkipSpaces(s) == SkipSpaces(s[1..]) == s[1..];
  }

  // ---- Texts cut at their quotes ----

  predicate NoQuote(s: string) {
    '\"' !in s
  }

  /** The segments joined by quotes. */
  function Join(segs: seq<string>): string {
    if segs == [] then "" else if |segs| == 1 then segs[0] else segs[0] + "\"" + Join(segs[1..])
  }

  /** Where segment `i` starts in the joined text. */
  function Offset(segs: seq<string>, i: nat): (o: nat)
    requires i < |segs|
    ensures i > 0 ==> o > 0
  {
    if i == 0 then 0 else |segs[0]| + 1 + Offset(segs[1..], i - 1)
  }

  lemma {:induction false} SegmentAt(segs: seq<string>, i: nat)
    requires i < |segs|
    ensures At(Join(segs), segs[i], Offset(segs, i))
    ensures i + 1 < |segs| ==> Offset(segs, i + 1) == Offset(segs, i) + |segs[i]| + 1 <= |Join(segs)|
    ensures i + 1 < |segs| ==> Join(segs)[Offset(segs, i + 1) - 1] == '\"'
    decreases i
  {
    if i == 0 {
      if |segs| > 1 {
        assert Offset(segs[1..], 0) == 0;
      }
    } else {
      SegmentAt(segs[1..], i - 1);
      JoinTail(segs);
      hide Join;
      var skip := |segs[0]| + 1;
      AtTail(Join(segs), segs[i], skip, Offset(segs, i));
      if i + 1 < |segs| {
        assert Join(segs)[skip..][Offset(segs, i + 1) - 1 - skip] == Join(segs)[Offset(segs, i + 1) - 1];
      }
    }
  }

  /** A joined text starts with a key and a quote exactly when its first segment is the key. */
  lemma KeyFirst(segs: seq<string>, key: string)
    requires segs != [] && NoQuote(key) && NoQuote(segs[0])
    ensures At(Join(segs), key + "\"", 0) <==> |segs| > 1 && segs[0] == key
  {
    var text, n := Join(segs), |segs[0]|;
    assert text[..n] == segs[0];
    assert |segs| == 1 ==> |text| == n;
    if |segs| > 1 {
      JoinTail(segs);
      assert text[0..n + 1] == text[..n] + [text[n]];
    }
    hide Join;
    forall j | 0 <= j < n ensures text[j] == segs[0][j] && text[j] != '\"' {
      assert text[j] == text[..n][j];
      assert segs[0][j] in segs[0];
    }
    if At(text, key + "\"", 0) {
      StartsWith(text, key);
    }
  }

  lemma StartsWith(text: string, key: string)
    requires At(text, key + "\"", 0) && NoQuote(key)
    ensures |key| < |text| && text[|key|] == '\"' && text[..|key|] == key
    ensures forall j :: 0 <= j < |key| ==> text[j] != '\"'
  {
    assert text[0..|key| + 1] == key + "\"";
    forall j | 0 <= j < |key| ensures text[j] == key[j] && text[j] != '\"' {
      assert text[j] == (key + "\"")[j];
      assert key[j] in key;
    }
    assert text[|key|] == (key + "\"")[|key|];
  }

  /** The text after the first quote. */
  lemma JoinTail(segs: seq<string>)
    requires |segs| > 1
    ensures |segs[0]| + 1 <= |Join(segs)| && Join(segs)[|segs[0]| + 1..] == Join(segs[1..])
    ensures Join(segs)[|segs[0]|] == '\"'
  {
  }

  lemma AtTail(text: string, pat: string, skip: nat, p: nat)
    requires skip <= p && skip <= |text|
    ensures At(text, pat, p) <==> At(text[skip..], pat, p - skip)
  {
    if p + |pat| <= |text| {
      assert text[p..p + |pat|] == text[skip..][p - skip..p - skip + |pat|];
    }
  }

  /** Segment `i` is the key, has a quote on both sides, and the quote before it is at `p`. */
  ghost predicate KeyIsAt(segs: seq<string>, key: string, p: int, i: nat) {
    0 < i < |segs| - 1 && segs[i] == key && p == Offset(segs, i) - 1
  }

  lemma KeyShift(segs: seq<string>, key: string, p: nat, i: nat)
    requires |segs| > 1
    ensures KeyIsAt(segs, key, p, i + 1) <==>
            KeyIsAt(segs[1..], key, p - |segs[0]| - 1, i) || (i == 0 && p == |segs[0]| && |segs| > 2 && segs[1] == key)
  {
    assert Offset(segs[1..], 0) == 0;
  }

  /** A quoted key is found exactly where a segment between two quotes equals it. */
  lemma {:induction false} KeyOccurs(segs: seq<string>, key: string, p: nat)
    requires segs != [] && NoQuote(key) && forall i :: 0 <= i < |segs| ==> NoQuote(segs[i])
    ensures At(Join(segs), "\"" + key + "\"", p) <==> exists i: nat :: KeyIsAt(segs, key, p, i)
    decreases |segs|
  {
    var text, pat := Join(segs), "\"" + key + "\"";
    assert At(text, pat, p) ==> text[p..p + |pat|][0] == text[p] == '\"';
    if |segs| == 1 || p < |segs[0]| {
      assert p < |segs[0]| ==> text[p] == segs[0][p] && text[p] in segs[0];
    } else {
      var rest, skip := segs[1..], |segs[0]| + 1;
      JoinTail(segs);
      if p == |segs[0]| {
        KeyFirst(rest, key);
        assert text[p..] == "\"" + Join(rest);
        AtTail(text, pat, p, p);
        AtTail(text[p..], pat[1..], 1, 1);
        assert pat == "\"" + pat[1..] && pat[1..] == key + "\"";
        assert At(text, pat, p) <==> At(Join(rest), key + "\"", 0) by { AtCons(Join(rest), key + "\""); }
        if At(text, pat, p) {
          KeyShift(segs, key, p, 0);
        }
        forall i: nat | KeyIsAt(segs, key, p, i) ensures At(text, pat, p) { KeyShift(segs, key, p, i - 1); }
      } else {
        KeyOccurs(rest, key, p - skip);
        AtTail(text, pat, skip, p);
        if At(text, pat, p) {
          var i: nat :| KeyIsAt(rest, key, p - skip, i);
          KeyShift(segs, key, p, i);
        }
        forall i: nat | KeyIsAt(segs, key, p, i) ensures At(text, pat, p) { KeyShift(segs, key, p, i - 1); }
      }
    }
  }

  lemma AtCons(s: string, pat: string)
    ensures At("\"" + s, "\"" + pat, 0) <==> At(s, pat, 0)
  {
    if |pat| <= |s| {
      assert ("\"" + s)[0..1 + |pat|] == "\"" + s[..|pat|];
      assert ("\"" + s[..|pat|])[1..] == s[..|pat|] && ("\"" + pat)[1..] == pat;
    }
  }

  /** The search for a quoted key stops at the first segment equal to it. */
  lemma FindKey(segs: seq<string>, key: string, i: nat)
    requires |Join(segs)| < NPOS
    requires NoQuote(key) && forall j :: 0 <= j < |segs| ==> NoQuote(segs[j])
    requires 0 < i < |segs| - 1 && segs[i] == key && forall j :: 0 < j < i ==> segs[j] != key
    ensures Find(Join(segs), "\"" + key + "\"", 0) == Offset(segs, i) - 1
  {
    var p := Offset(segs, i) - 1;
    KeyOccurs(segs, key, p);
    assert KeyIsAt(segs, key, p, i);
    forall q: nat | q < p ensures !At(Join(segs), "\"" + key + "\"", q) {
      KeyOccurs(segs, key, q);
      forall j: nat | j < |segs| ensures !KeyIsAt(segs, key, q, j) {
        if j > i { OffsetsGrow(segs, i, j); }
      }
    }
    FindIs(Join(segs), "\"" + key + "\"", 0, p);
  }

  lemma {:induction false} OffsetsGrow(segs: seq<string>, i: nat, j: nat)
    requires i < j < |segs|
    ensures Offset(segs, i) < Offset(segs, j)
    decreases i
  {
    if i > 0 {
      OffsetsGrow(segs[1..], i - 1, j - 1);
    }
  }
}
