/** Money as text: how whole cents are printed, how a typed amount is split, padded and read back,
    and which texts and percentages are let through. Everything is exact; no text is ever read as a
    floating-point number. */
module CentsText {
  import opened Sequences

  /** The native decimal coefficient is 96 bits. */
  const MAX_COEFFICIENT: nat := 79228162514264337593543950335

  predicate IsDigit(c: char) {
    '0' <= c <= '9'
  }

  predicate AllDigits(s: string) {
    forall i :: 0 <= i < |s| ==> IsDigit(s[i])
  }

  function DigitValue(c: char): nat
    requires IsDigit(c)
  {
    (c as int) - ('0' as int)
  }

  function DigitChar(n: nat): (c: char)
    requires n < 10
    ensures IsDigit(c) && DigitValue(c) == n
  {
    ('0' as int + n) as char
  }

  function Pow10(k: nat): (p: nat)
    ensures p >= 1
  {
    if k == 0 then 1 else 10 * Pow10(k - 1)
  }

  /** `BigInt(s)` for a text of digits; the empty text reads as 0. */
  function ParseNat(s: string): nat
    requires AllDigits(s)
  {
    if s == "" then 0 else ParseNat(s[..|s| - 1]) * 10 + DigitValue(s[|s| - 1])
  }

  /** `String(n)`. */
  function Decimal(n: nat): (s: string)
    ensures AllDigits(s) && s != ""
  {
    if n < 10 then [DigitChar(n)] else Decimal(n / 10) + [DigitChar(n % 10)]
  }

  function PadStart(s: string, width: nat): (r: string)
    ensures |r| == if |s| >= width then |s| else width
    ensures AllDigits(s) ==> AllDigits(r)
    decreases width - |s|
  {
    if |s| >= width then s else PadStart("0" + s, width)
  }

  function PadEnd(s: string, width: nat): (r: string)
    ensures |r| == if |s| >= width then |s| else width
    ensures AllDigits(s) ==> AllDigits(r)
    decreases width - |s|
  {
    if |s| >= width then s else PadEnd(s + "0", width)
  }

  /** The first piece of `text.split(".")`. */
  function Whole(text: string): string {
    if '.' in text then text[..IndexOf(text, '.')] else text
  }

  /** The second piece, or nothing. */
  function Part(text: string): string {
    if '.' in text then Whole(text[IndexOf(text, '.') + 1..]) else ""
  }

  /** Whole cents as "d.dd". */
  function CentsText(n: nat): string {
    var v := PadStart(Decimal(n), 3);
    v[..|v| - 2] + "." + v[|v| - 2..]
  }

  predicate Readable(text: string) {
    AllDigits(Whole(text)) && AllDigits(Part(text))
  }

  /** The split-and-pad parser: `BigInt(whole + part.padEnd(2, "0"))`. */
  function Hundredths(text: string): nat
    requires Readable(text)
  {
    ParseNat(Whole(text) + PadEnd(Part(text), 2))
  }

  // ---- Reading and writing whole numbers ----

  lemma ParseSnoc(s: string, c: char)
    requires AllDigits(s) && IsDigit(c)
    ensures AllDigits(s + [c]) && ParseNat(s + [c]) == ParseNat(s) * 10 + DigitValue(c)
  {
    assert (s + [c])[..|s|] == s;
  }

  lemma {:induction false} ParseConcat(a: string, b: string)
    requires AllDigits(a) && AllDigits(b)
    ensures AllDigits(a + b) && ParseNat(a + b) == ParseNat(a) * Pow10(|b|) + ParseNat(b)
  {
    if b == "" {
      assert a + b == a;
    } else {
      var front := b[..|b| - 1];
      ParseConcat(a, front);
      ParseSnoc(a + front, b[|b| - 1]);
      assert a + b == (a + front) + [b[|b| - 1]];
      Regroup(ParseNat(a), Pow10(|front|), ParseNat(front));
    }
  }

  lemma Regroup(a: nat, p: nat, f: nat)
    ensures (a * p + f) * 10 == a * (10 * p) + f * 10
  {
  }

  lemma {:induction false} ParseBound(s: string)
    requires AllDigits(s)
    ensures ParseNat(s) < Pow10(|s|)
  {
    if s == "" {
    } else {
      ParseBound(s[..|s| - 1]);
    }
  }

  /** Reading what was printed gives the number back. */
  lemma {:induction false} ParseDecimal(n: nat)
    ensures ParseNat(Decimal(n)) == n
  {
    if n < 10 {
      ParseSnoc("", DigitChar(n));
      assert "" + [DigitChar(n)] == [DigitChar(n)];
    } else {
      ParseDecimal(n / 10);
      ParseSnoc(Decimal(n / 10), DigitChar(n % 10));
    }
  }

  /** A whole number written without a needless leading zero: `0|[1-9]\d*`. */
  predicate PlainWhole(s: string) {
    s != "" && AllDigits(s) && (s[0] == '0' ==> |s| == 1)
  }

  lemma {:induction false} DecimalIsPlain(n: nat)
    ensures PlainWhole(Decimal(n))
    ensures n > 0 ==> Decimal(n)[0] != '0'
  {
    if n < 10 {
    } else {
      DecimalIsPlain(n / 10);
    }
  }

  lemma {:induction false} LeadingDigit(s: string)
    requires PlainWhole(s) && s[0] != '0'
    ensures ParseNat(s) >= Pow10(|s| - 1)
  {
    if |s| == 1 {
      ParseSnoc("", s[0]);
      assert s == "" + [s[0]];
    } else {
      LeadingDigit(s[..|s| - 1]);
    }
  }

  lemma DecimalStep(n: nat, c: char)
    requires IsDigit(c)
    ensures Decimal(n * 10 + DigitValue(c)) == (if n == 0 then [c] else Decimal(n) + [c])
  {
  }

  /** Printing what was read gives the text back: a plain number has one spelling. */
  lemma {:induction false} DecimalParse(s: string)
    requires PlainWhole(s)
    ensures Decimal(ParseNat(s)) == s
  {
    hide ParseNat, Decimal;
    var front, last := s[..|s| - 1], s[|s| - 1];
    assert s == front + [last];
    if |s| == 1 {
      assert s == [last];
      SingleDigit(last);
      DecimalStep(0, last);
    } else {
      ParseSnoc(front, last);
      DecimalParse(front);
      LeadingDigit(front);
      DecimalStep(ParseNat(front), last);
    }
  }

  // ---- Printing cents and reading them back ----

  lemma {:induction false} PadStartParse(s: string, width: nat)
    requires AllDigits(s)
    ensures ParseNat(PadStart(s, width)) == ParseNat(s)
    decreases width - |s|
  {
    if |s| >= width {
    } else {
      PadStartParse("0" + s, width);
      ParseConcat("0", s);
      ParseSnoc("", '0');
      assert "" + ['0'] == "0";
    }
  }

  /** Splitting at the point undoes putting it in. */
  lemma SplitJoin(a: string, b: string)
    requires AllDigits(a) && AllDigits(b)
    ensures '.' in a + "." + b
    ensures Whole(a + "." + b) == a && Part(a + "." + b) == b
    ensures Readable(a + "." + b)
  {
    hide IndexOf;
    var text := a + "." + b;
    assert text[|a|] == '.' && text[..|a|] == a && text[|a| + 1..] == b;
    NoPoint(a);
    NoPoint(b);
    FirstAt(text, '.', |a|);
  }

  lemma NoPoint(s: string)
    requires AllDigits(s)
    ensures '.' !in s
  {
  }

  lemma CentsPieces(n: nat) returns (v: string)
    ensures AllDigits(v) && |v| >= 3 && ParseNat(v) == n
    ensures v == PadStart(Decimal(n), 3) && CentsText(n) == v[..|v| - 2] + "." + v[|v| - 2..]
    ensures '.' in CentsText(n)
    ensures Whole(CentsText(n)) == v[..|v| - 2] && Part(CentsText(n)) == v[|v| - 2..]
    ensures Readable(CentsText(n))
  {
    v := PadStart(Decimal(n), 3);
    ParseDecimal(n);
    PadStartParse(Decimal(n), 3);
    SplitJoin(v[..|v| - 2], v[|v| - 2..]);
  }

  /** Reading the text that is printed for a number of cents gives that number of cents. */
  lemma RoundTrip(n: nat)
    ensures Readable(CentsText(n)) && Hundredths(CentsText(n)) == n
  {
    hide PadStart, Decimal, ParseNat, CentsText, Whole, Part;
    var v := CentsPieces(n);
    assert v[..|v| - 2] + v[|v| - 2..] == v;
  }

  // ---- What a text is worth ----

  function FractionValue(part: string): real
    requires AllDigits(part)
  {
    if part == "" then 0.0 else (DigitValue(part[0]) as real + FractionValue(part[1..])) / 10.0
  }

  /** The number a readable text stands for, digit by digit. */
  function Worth(text: string): real
    requires Readable(text)
  {
    ParseNat(Whole(text)) as real + FractionValue(Part(text))
  }

  /** Value f written over the power p is the whole number r. */
  predicate ScaledTo(f: real, p: nat, r: nat) {
    f * p as real == r as real
  }

  lemma {:induction false} FractionDigits(part: string)
    requires AllDigits(part)
    ensures ScaledTo(FractionValue(part), Pow10(|part|), ParseNat(part))
  {
    if part == "" {
    } else {
      FractionStep(part);
      hide *;
      var rest := part[1..];
      FractionDigits(rest);
      LeadingPart(part);
      TenTimes(DigitValue(part[0]), FractionValue(rest), Pow10(|rest|), ParseNat(rest));
    }
  }

  lemma FractionStep(part: string)
    requires AllDigits(part) && part != ""
    ensures IsDigit(part[0]) && AllDigits(part[1..])
    ensures FractionValue(part) == (DigitValue(part[0]) as real + FractionValue(part[1..])) / 10.0
  {
  }

  lemma SingleDigit(c: char)
    requires IsDigit(c)
    ensures AllDigits([c]) && ParseNat([c]) == DigitValue(c)
  {
    hide ParseNat;
    ParseNothing();
    ParseSnoc("", c);
    assert "" + [c] == [c];
  }

  lemma ParseNothing()
    ensures ParseNat("") == 0
  {
  }

  lemma LeadingPart(s: string)
    requires AllDigits(s) && s != ""
    ensures ParseNat(s) == DigitValue(s[0]) * Pow10(|s| - 1) + ParseNat(s[1..])
    ensures Pow10(|s|) == 10 * Pow10(|s| - 1)
  {
    hide ParseNat;
    SingleDigit(s[0]);
    ParseConcat([s[0]], s[1..]);
    assert [s[0]] + s[1..] == s;
  }

  lemma TenTimes(d: nat, f: real, p: nat, r: nat)
    requires ScaledTo(f, p, r)
    ensures ScaledTo((d as real + f) / 10.0, 10 * p, d * p + r)
  {
    var q := p as real;
    assert (10 * p) as real == 10.0 * q;
    assert (d as real + f) / 10.0 * (10.0 * q) == (d as real + f) * q;
    assert (d as real + f) * q == d as real * q + f * q;
    assert (d * p) as real == d as real * q;
  }

  lemma {:induction false} PadEndParse(s: string, width: nat)
    requires AllDigits(s)
    ensures PadEnd(s, width) == s + PadEnd(s, width)[|s|..]
    ensures ParseNat(PadEnd(s, width)) == ParseNat(s) * Pow10(|PadEnd(s, width)| - |s|)
    decreases width - |s|
  {
    if |s| >= width {
    } else {
      PadEndParse(s + "0", width);
      ParseSnoc(s, '0');
      Shift(ParseNat(s), Pow10(width - |s| - 1));
    }
  }

  lemma Shift(a: nat, p: nat)
    ensures a * 10 * p == a * (10 * p)
  {
  }

  lemma Scaled(w: nat, f: real, part: nat, k: nat, m: nat)
    requires ScaledTo(f, k, part)
    ensures ScaledTo(w as real + f, k * m, w * (k * m) + part * m)
  {
    var kr, mr := k as real, m as real;
    assert (k * m) as real == kr * mr;
    assert (part * m) as real == f * kr * mr;
    assert f * kr * mr == f * (kr * mr);
    assert (w * (k * m)) as real == w as real * (kr * mr);
    assert (w as real + f) * (kr * mr) == w as real * (kr * mr) + f * (kr * mr);
  }

  lemma PowSum(a: nat, b: nat)
    ensures Pow10(a + b) == Pow10(a) * Pow10(b)
    decreases b
  {
    if b == 0 {
    } else {
      PowSum(a, b - 1);
      Shift2(Pow10(a), Pow10(b - 1));
    }
  }

  lemma Shift2(a: nat, p: nat)
    ensures a * (10 * p) == 10 * (a * p)
  {
  }

  /** What the split-and-pad parser computes for any readable text, however many digits follow the
      point: the worth scaled by two places, or by as many places as there are digits if that is
      more. */
  lemma HundredthsOf(text: string)
    requires Readable(text)
    ensures ScaledTo(Worth(text), Pow10(if |Part(text)| <= 2 then 2 else |Part(text)|), Hundredths(text))
  {
    hide ParseNat, Pow10, Whole, Part, PadEnd, FractionValue, ScaledTo;
    var w, p := Whole(text), Part(text);
    var padded := PadEnd(p, 2);
    ParseConcat(w, padded);
    PadEndParse(p, 2);
    FractionDigits(p);
    PowSum(|p|, |padded| - |p|);
    Scaled(ParseNat(w), FractionValue(p), ParseNat(p), Pow10(|p|), Pow10(|padded| - |p|));
  }

  /** The parser gives hundredths of the typed number exactly when at most two digits follow the
      point (or the number is zero): the amount rule is what makes it correct. */
  lemma HundredthsExactWhen(text: string)
    requires Readable(text)
    ensures Hundredths(text) as real == 100.0 * Worth(text) <==> |Part(text)| <= 2 || Worth(text) == 0.0
  {
    hide ParseNat, Whole, Part, PadEnd, FractionValue, Worth, Hundredths;
    HundredthsOf(text);
    assert Pow10(2) == 100;
    var k := |Part(text)|;
    if k > 2 {
      PowSum(3, k - 3);
      assert Pow10(3) == 1000;
      var w, p := Worth(text), Pow10(k) as real;
      assert p >= 1000.0;
      if w != 0.0 {
        assert w * p != w * 100.0 by {
          assert w * p - w * 100.0 == w * (p - 100.0);
        }
      }
    }
  }

  // ---- Which texts are let through ----

  /** `^(0|[1-9]\d*)(?:\.\d{1,2})?$` */
  predicate PlainShape(text: string) {
    if '.' in text then
      var k := IndexOf(text, '.');
      PlainWhole(text[..k]) && AllDigits(text[k + 1..]) && 1 <= |text[k + 1..]| <= 2
    else
      PlainWhole(text)
  }

  lemma ShapeReadable(text: string)
    requires PlainShape(text)
    ensures Readable(text) && |Part(text)| <= 2
    ensures '.' in text ==> text == Whole(text) + "." + Part(text) && |Part(text)| >= 1
    ensures PlainWhole(Whole(text))
  {
    if '.' in text {
      var k := IndexOf(text, '.');
      NoPoint(text[k + 1..]);
      assert text == text[..k] + "." + text[k + 1..];
    }
  }

  /** `s.replace(/0+$/, "")` */
  function StripZeros(s: string): string {
    if s != "" && s[|s| - 1] == '0' then StripZeros(s[..|s| - 1]) else s
  }

  /** Insignificant zeros after the point go, then a bare point, then the point itself. */
  function Digits(text: string): string {
    var stripped := if '.' in text then StripZeros(text) else text;
    var normalized := if '.' in text && stripped != "" && stripped[|stripped| - 1] == '.'
                      then stripped[..|stripped| - 1] else stripped;
    if '.' in normalized then Whole(normalized) + normalized[IndexOf(normalized, '.') + 1..] else normalized
  }

  predicate TypedAmount(text: string) {
    |text| <= 32 && PlainShape(text) && (DigitsAreDigits(text); ParseNat(Digits(text)) <= MAX_COEFFICIENT)
  }

  /** A number of hundredths without its insignificant zeros: the coefficient the limit is about. */
  function Coefficient(hundredths: nat): nat {
    if hundredths % 100 == 0 then hundredths / 100
    else if hundredths % 10 == 0 then hundredths / 10
    else hundredths
  }

  /** Stripping zeros stops at the point. */
  lemma {:induction false} StripAfterPoint(w: string, part: string)
    requires AllDigits(part)
    ensures StripZeros(w + "." + part) == w + "." + StripZeros(part)
  {
    var s := w + "." + part;
    if part == "" {
      assert s[|s| - 1] == '.';
    } else {
      var front := part[..|part| - 1];
      assert s[..|s| - 1] == w + "." + front && s[|s| - 1] == part[|part| - 1];
      StripAfterPoint(w, front);
    }
  }

  lemma PointDropped(w: string, kept: string)
    requires AllDigits(w) && AllDigits(kept)
    ensures var n := w + "." + kept; n[|n| - 1] == '.' <==> kept == ""
    ensures kept == "" ==> (w + "." + kept)[..|w|] == w && |w + "." + kept| == |w| + 1
    ensures '.' in w + "." + kept && Whole(w + "." + kept) == w
    ensures (w + "." + kept)[IndexOf(w + "." + kept, '.') + 1..] == kept
  {
    hide IndexOf;
    var n := w + "." + kept;
    SplitJoin(w, kept);
    NoPoint(w);
    assert n[|w|] == '.' && n[..|w|] == w && n[|w| + 1..] == kept;
    FirstAt(n, '.', |w|);
    if kept != "" {
      assert n[|n| - 1] == kept[|kept| - 1];
    }
  }

  lemma DigitsWith(w: string, part: string)
    requires AllDigits(w) && AllDigits(part)
    ensures Digits(w + "." + part) == w + StripZeros(part)
  {
    hide IndexOf, StripZeros, Whole, Part;
    SplitJoin(w, part);
    StripAfterPoint(w, part);
    StripKeeps(part);
    NoPoint(w);
    PointDropped(w, StripZeros(part));
  }

  lemma {:induction false} StripKeeps(s: string)
    requires AllDigits(s)
    ensures AllDigits(StripZeros(s)) && |StripZeros(s)| <= |s|
    ensures StripZeros(s) != "" ==> StripZeros(s)[|StripZeros(s)| - 1] != '0'
    ensures StripZeros(s) == s[..|StripZeros(s)|]
  {
    if s == "" || s[|s| - 1] != '0' {
    } else {
      StripKeeps(s[..|s| - 1]);
    }
  }

  lemma DigitsAreDigits(text: string)
    requires PlainShape(text)
    ensures AllDigits(Digits(text))
  {
    ShapeReadable(text);
    if '.' in text {
      DigitsWith(Whole(text), Part(text));
      StripKeeps(Part(text));
    }
  }

  lemma TwoDigits(part: string)
    requires AllDigits(part) && |part| <= 2
    ensures ParseNat(part) == if part == "" then 0 else if |part| == 1 then DigitValue(part[0])
                              else DigitValue(part[0]) * 10 + DigitValue(part[1])
  {
    hide ParseNat, DigitValue;
    if part == "" {
      ParseNothing();
    } else {
      SingleDigit(part[0]);
      if |part| == 1 {
        assert part == [part[0]];
      } else {
        assert part == [part[0]] + [part[1]];
        ParseSnoc([part[0]], part[1]);
      }
    }
  }

  /** The limited coefficient depends only on the amount, not on how it was spelled. */
  lemma CoefficientOf(text: string)
    requires PlainShape(text)
    ensures Readable(text) && AllDigits(Digits(text))
    ensures ParseNat(Digits(text)) == Coefficient(Hundredths(text))
  {
    hide ParseNat, PlainShape, Digits, StripZeros, IndexOf;
    ShapeReadable(text);
    DigitsAreDigits(text);
    var w, part := Whole(text), Part(text);
    var padded := PadEnd(part, 2);
    ParseConcat(w, padded);
    assert Pow10(2) == 100 && Pow10(1) == 10 && Pow10(0) == 1;
    if '.' in text {
      CoefficientDigits(w, part);
    } else {
      TwoDigits(padded);
      PlainDigits(text);
    }
  }

  lemma PlainDigits(text: string)
    requires '.' !in text
    ensures Digits(text) == text && Whole(text) == text && Part(text) == "" && PadEnd(Part(text), 2) == "00"
  {
    assert PadEnd("", 2) == PadEnd("0", 2) == PadEnd("00", 2) by {
      assert "" + "0" == "0" && "0" + "0" == "00";
    }
  }

  lemma CoefficientDigits(w: string, part: string)
    requires AllDigits(w) && AllDigits(part) && 1 <= |part| <= 2
    ensures AllDigits(Digits(w + "." + part))
    ensures ParseNat(Digits(w + "." + part)) == Coefficient(ParseNat(w) * 100 + ParseNat(PadEnd(part, 2)))
  {
    hide ParseNat, Digits, StripZeros, PadEnd, Pow10;
    DigitsWith(w, part);
    StripKeeps(part);
    KeptDigits(part);
    ParseConcat(w, StripZeros(part));
    SmallPowers();
    CoefficientCases(ParseNat(w), DigitValue(part[0]), if |part| == 2 then DigitValue(part[1]) else 0);
  }

  lemma PadTwo(part: string)
    requires 1 <= |part| <= 2
    ensures PadEnd(part, 2) == if |part| == 1 then part + "0" else part
  {
  }

  lemma KeptDigits(part: string)
    requires AllDigits(part) && 1 <= |part| <= 2
    ensures AllDigits(StripZeros(part))
    ensures var a, b := DigitValue(part[0]), if |part| == 2 then DigitValue(part[1]) else 0;
            |StripZeros(part)| == if b != 0 then 2 else if a != 0 then 1 else 0
    ensures var a, b := DigitValue(part[0]), if |part| == 2 then DigitValue(part[1]) else 0;
            ParseNat(PadEnd(part, 2)) == a * 10 + b
    ensures var a, b := DigitValue(part[0]), if |part| == 2 then DigitValue(part[1]) else 0;
            ParseNat(StripZeros(part)) == if b != 0 then a * 10 + b else a
  {
    hide ParseNat;
    PadTwo(part);
    TwoDigits(PadEnd(part, 2));
    StripKeeps(part);
    TwoDigits(StripZeros(part));
    assert part[..1][..0] == "" && (|part| == 2 ==> part[..|part| - 1] == part[..1]);
  }

  lemma CoefficientCases(w: nat, a: nat, b: nat)
    requires a < 10 && b < 10
    ensures Coefficient(w * 100 + (a * 10 + b)) ==
            if b != 0 then w * 100 + (a * 10 + b) else if a != 0 then w * 10 + a else w
  {
    LastDigit(w * 100 + (a * 10 + b), w * 10 + a, b);
    LastTwoDigits(w * 100 + (a * 10 + b), w, a * 10 + b);
  }

  lemma LastDigit(h: nat, q: nat, r: nat)
    requires h == q * 10 + r && r < 10
    ensures h % 10 == r && h / 10 == q
  {
  }

  lemma LastTwoDigits(h: nat, q: nat, r: nat)
    requires h == q * 100 + r && r < 100
    ensures h % 100 == r && h / 100 == q
  {
  }

  lemma SmallPowers()
    ensures Pow10(0) == 1 && Pow10(1) == 10 && Pow10(2) == 100 && Pow10(4) == 10000 && Pow10(5) == 100000
  {
  }

  lemma LongMeansLarge(text: string)
    requires PlainShape(text) && |text| > 32
    ensures Readable(text) && Coefficient(Hundredths(text)) > MAX_COEFFICIENT
  {
    hide ParseNat, PlainShape, IndexOf, Whole, Part;
    ShapeReadable(text);
    var w, padded := Whole(text), PadEnd(Part(text), 2);
    assert '.' !in text ==> w == text by { PlainDigitsWhole(text); }
    assert |w| >= 30;
    ThirtyDigits(w);
    ParseConcat(w, padded);
    SmallPowers();
    hide Pow10;
  }

  lemma ThirtyDigits(w: string)
    requires PlainWhole(w) && |w| >= 30
    ensures ParseNat(w) > MAX_COEFFICIENT
  {
    hide ParseNat, Pow10;
    LeadingDigit(w);
    PowSum(29, |w| - 30);
    BigPower();
    AtLeast(Pow10(29), Pow10(|w| - 30));
  }

  lemma PlainDigitsWhole(text: string)
    ensures '.' !in text ==> Whole(text) == text
  {
  }

  lemma AtLeast(a: nat, b: nat)
    requires b >= 1
    ensures a * b >= a
  {
  }

  lemma BigPower()
    ensures Pow10(29) > MAX_COEFFICIENT
  {
    hide Pow10;
    SmallPowers();
    PowSum(5, 5);
    PowSum(10, 10);
    PowSum(20, 5);
    PowSum(25, 4);
  }

  /** A text is let through exactly when it has the plain shape and its amount, without insignificant
      zeros, fits the native coefficient; the length limit never refuses anything more. */
  lemma AcceptedExactly(text: string)
    ensures TypedAmount(text) <==>
            PlainShape(text) && (ShapeReadable(text); Coefficient(Hundredths(text)) <= MAX_COEFFICIENT)
    ensures MAX_COEFFICIENT + 1 == 0x1_0000_0000 * 0x1_0000_0000 * 0x1_0000_0000
  {
    hide PlainShape, ParseNat, Digits, Hundredths;
    if PlainShape(text) {
      CoefficientOf(text);
      if |text| > 32 {
        LongMeansLarge(text);
      }
    }
  }

  /** Every printed amount of cents is a text the fields accept, as long as it fits. */
  lemma PrintedIsAccepted(n: nat)
    ensures PlainShape(CentsText(n))
    ensures TypedAmount(CentsText(n)) <==> Coefficient(n) <= MAX_COEFFICIENT
  {
    hide ParseNat, Digits, Hundredths, TypedAmount;
    PrintedIsPlain(n);
    RoundTrip(n);
    AcceptedExactly(CentsText(n));
  }

  lemma PrintedIsPlain(n: nat)
    ensures PlainShape(CentsText(n))
  {
    hide ParseNat, Decimal;
    var v := CentsPieces(n);
    DecimalIsPlain(n);
    var d := Decimal(n);
    PadStartLeads(d);
    var w := v[..|v| - 2];
    assert PlainWhole(w);
  }

  lemma PadStartLeads(d: string)
    requires PlainWhole(d)
    ensures |d| >= 3 ==> PadStart(d, 3) == d
    ensures |d| < 3 ==> |PadStart(d, 3)| == 3
  {
  }

  /** The other way round: an amount typed with both decimals is printed back as it was typed. */
  lemma TwoDecimalsPrintBack(text: string)
    requires PlainShape(text) && '.' in text && |text[IndexOf(text, '.') + 1..]| == 2
    ensures Readable(text) && CentsText(Hundredths(text)) == text
  {
    hide ParseNat, Decimal, PadStart;
    ShapeReadable(text);
    var w, part := Whole(text), Part(text);
    assert part == text[IndexOf(text, '.') + 1..] by { NoPoint(text[IndexOf(text, '.') + 1..]); }
    var s := w + part;
    assert PadEnd(part, 2) == part;
    PadBack(s);
    assert s[..|s| - 2] == w && s[|s| - 2..] == part;
  }

  /** Digits are printed back as they were when only the padding could be a needless zero. */
  lemma PadBack(s: string)
    requires AllDigits(s) && |s| >= 3 && (s[0] == '0' ==> |s| == 3)
    ensures PadStart(Decimal(ParseNat(s)), 3) == s
  {
    hide ParseNat, Decimal;
    if s[0] != '0' {
      DecimalParse(s);
    } else {
      var t := s[1..];
      assert s == "0" + t;
      ZeroInFront(t);
      if t[0] != '0' {
        DecimalParse(t);
        assert PadStart(t, 3) == "0" + t;
      } else {
        var u := t[1..];
        assert t == "0" + u;
        ZeroInFront(u);
        DecimalParse(u);
        assert PadStart(u, 3) == PadStart("0" + u, 3) == PadStart("0" + ("0" + u), 3);
      }
    }
  }

  lemma ZeroInFront(t: string)
    requires AllDigits(t)
    ensures AllDigits("0" + t) && ParseNat("0" + t) == ParseNat(t)
  {
    ParseConcat("0", t);
    ParseSnoc("", '0');
    assert "" + ['0'] == "0";
  }

  /** The plain shape is a whole number without a needless zero, alone or with a point and one or two
      digits. */
  lemma PlainShapeExactly(text: string)
    ensures PlainShape(text) <==>
            PlainWhole(text)
            || exists w, p :: text == w + "." + p && PlainWhole(w) && AllDigits(p) && 1 <= |p| <= 2
  {
    hide IndexOf;
    if PlainShape(text) {
      ShapeReadable(text);
    }
    if PlainWhole(text) {
      NoPoint(text);
    }
    if w, p :| text == w + "." + p && PlainWhole(w) && AllDigits(p) && 1 <= |p| <= 2 {
      SplitJoin(w, p);
      NoPoint(w);
      assert text[|w|] == '.' && text[..|w|] == w && text[|w| + 1..] == p;
      FirstAt(text, '.', |w|);
    }
  }

  // ---- The field's own message ----

  predicate IsSpace(c: char) {
    c in {'\t', '\n', '\r', ' ', '\U{000B}', '\U{000C}', '\U{00A0}', '\U{1680}', '\U{2028}', '\U{2029}',
          '\U{202F}', '\U{205F}', '\U{3000}', '\U{FEFF}'} || '\U{2000}' <= c <= '\U{200A}'
  }

  /** The spaces are the white space and the line ends of the language. */
  lemma SpacesExactly(c: char)
    ensures IsSpace(c) <==>
            || c as int in {0x9, 0xA, 0xB, 0xC, 0xD, 0x20, 0xA0, 0x1680, 0x2028, 0x2029, 0x202F, 0x205F, 0x3000, 0xFEFF}
            || 0x2000 <= c as int <= 0x200A
  {
    assert '\t' as int == 0x9 && '\n' as int == 0xA && '\r' as int == 0xD && ' ' as int == 0x20;
    assert c as int as char == c;
  }

  /** `text.trim()` */
  function Trim(text: string): string {
    if text == "" then ""
    else if IsSpace(text[0]) then Trim(text[1..])
    else if IsSpace(text[|text| - 1]) then Trim(text[..|text| - 1])
    else text
  }

  lemma {:induction false} TrimEmpty(text: string)
    ensures Trim(text) == "" <==> forall i :: 0 <= i < |text| ==> IsSpace(text[i])
  {
    hide IsSpace;
    if text == "" || (!IsSpace(text[0]) && !IsSpace(text[|text| - 1])) {
    } else if IsSpace(text[0]) {
      TrimEmpty(text[1..]);
      assert text == [text[0]] + text[1..];
    } else {
      TrimEmpty(text[..|text| - 1]);
      assert text == text[..|text| - 1] + [text[|text| - 1]];
    }
  }

  /** What is trimmed is a run of spaces before and one after; what is left neither begins nor ends with one. */
  lemma {:induction false} TrimExactly(text: string) returns (a: nat, b: nat)
    ensures a <= b <= |text| && Trim(text) == text[a..b]
    ensures forall i :: 0 <= i < a || b <= i < |text| ==> IsSpace(text[i])
    ensures Trim(text) != "" ==> !IsSpace(Trim(text)[0]) && !IsSpace(Trim(text)[|Trim(text)| - 1])
  {
    hide IsSpace;
    if text == "" {
      a, b := 0, 0;
    } else if IsSpace(text[0]) {
      a, b := TrimExactly(text[1..]);
      assert text[1..][a..b] == text[a + 1..b + 1];
      assert forall i :: 1 <= i < |text| ==> text[i] == text[1..][i - 1];
      a, b := a + 1, b + 1;
    } else if IsSpace(text[|text| - 1]) {
      a, b := TrimExactly(text[..|text| - 1]);
      assert text[..|text| - 1][a..b] == text[a..b];
    } else {
      a, b := 0, |text|;
    }
  }

  datatype AmountProblem = NoProblem | NotAnAmount | NotAPercentage

  function AmountProblemOf(text: string, percent: bool): AmountProblem {
    if text == "" then NoProblem
    else if !TypedAmount(Trim(text)) then NotAnAmount
    else if percent && (ShapeReadable(Trim(text)); Hundredths(Trim(text)) > 10000) then NotAPercentage
    else NoProblem
  }

  /** The percentage check refuses an amount exactly when what was typed is more than 100. */
  lemma PercentExactly(text: string)
    requires TypedAmount(Trim(text)) && text != ""
    ensures Readable(Trim(text))
    ensures AmountProblemOf(text, true) == NoProblem <==> Worth(Trim(text)) <= 100.0
    ensures AmountProblemOf(text, false) == NoProblem
  {
    hide PlainShape, ParseNat, Worth, Hundredths, Trim;
    ShapeReadable(Trim(text));
    HundredthsExactWhen(Trim(text));
  }

  /** Every message of the field: none for an empty text; otherwise about the amount exactly when what is
      left after trimming may not be typed, and about the percentage exactly when it is more than 100. */
  lemma MessageExactly(text: string, percent: bool)
    ensures AmountProblemOf(text, percent) == NotAnAmount <==> text != "" && !TypedAmount(Trim(text))
    ensures AmountProblemOf(text, percent) == NotAPercentage <==>
            percent && text != "" && TypedAmount(Trim(text)) && Readable(Trim(text)) && Worth(Trim(text)) > 100.0
  {
    hide PlainShape, ParseNat, Worth, Hundredths, Trim, AmountProblemOf;
    if text == "" {
      NoMessage(percent);
    } else if TypedAmount(Trim(text)) {
      PercentExactly(text);
      TypedMessage(text, percent);
    } else {
      TypedMessage(text, percent);
    }
  }

  lemma NoMessage(percent: bool)
    ensures AmountProblemOf("", percent) == NoProblem
  {
  }

  lemma TypedMessage(text: string, percent: bool)
    requires text != ""
    ensures AmountProblemOf(text, percent) == NotAnAmount <==> !TypedAmount(Trim(text))
    ensures AmountProblemOf(text, percent) == NotAPercentage ==> percent
  {
    hide TypedAmount, Trim;
  }

  // ---- Rounding an exact amount for display ----

  /** Cents of n/d dollars, half rounded up. */
  function RoundedCents(n: nat, d: nat): nat
    requires d > 0
  {
    (2 * n * 100 + d) / (2 * d)
  }

  lemma RoundedWithin(n: nat, d: nat)
    requires d > 0
    ensures var off: int := (RoundedCents(n, d) * d - 100 * n) * 2;
            -(d as int) < off <= d
  {
    var c := RoundedCents(n, d);
    DivisionBounds(2 * n * 100 + d, 2 * d);
    assert c * (2 * d) == c * d * 2;
  }

  lemma Apart(a: int, b: int, d: int)
    requires d > 0
    ensures a < b ==> a * d + d <= b * d
  {
    if a < b {
      var k: nat := b - a;
      AtLeast(d, k);
      assert b * d == a * d + d * k;
    }
  }

  /** The displayed cents are the nearest to the exact amount, and of two equally near the larger. */
  lemma RoundedIsNearest(n: nat, d: nat, other: int)
    requires d > 0
    ensures var c := RoundedCents(n, d);
            other != c ==> Distance(other * d, 100 * n) >= Distance(c * d, 100 * n)
    ensures var c := RoundedCents(n, d);
            other > c ==> Distance(other * d, 100 * n) > Distance(c * d, 100 * n)
  {
    RoundedWithin(n, d);
    var c := RoundedCents(n, d);
    hide RoundedCents;
    Apart(c, other, d);
    Apart(other, c, d);
  }

  function Distance(a: int, b: int): nat {
    if a < b then b - a else a - b
  }

  lemma DivisionBounds(a: nat, b: nat)
    requires b > 0
    ensures (a / b) * b <= a < (a / b) * b + b
  {
  }

  /** An amount that is already whole cents is shown, and read back, unchanged. */
  lemma WholeCentsShownExactly(cents: nat, d: nat)
    requires d > 0
    ensures RoundedCents(cents * d, 100 * d) == cents
    ensures Readable(CentsText(RoundedCents(cents * d, 100 * d)))
    ensures Hundredths(CentsText(RoundedCents(cents * d, 100 * d))) == cents
  {
    RoundedWithin(cents * d, 100 * d);
    var c := RoundedCents(cents * d, 100 * d);
    hide RoundedCents;
    Apart(c, cents, 100 * d);
    Apart(cents, c, 100 * d);
    assert cents * (100 * d) == 100 * (cents * d);
    RoundTrip(c);
  }
}
