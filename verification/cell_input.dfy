/**
 * The number a grid cell takes from what was typed into it (`updateValue`): strip every
 * character other than a digit, '-', '.' or ',', turn the first comma into a decimal
 * point, and read the longest decimal number at the front with `parseFloat`; an empty
 * string or NaN gives 0.
 */
module CellInput {
  import opened Wrappers
  import opened Decimal

  /** The characters the cell filter keeps. */
  predicate Kept(c: char) { IsDigit(c) || c == '-' || c == '.' || c == ',' }

  predicate AllKept(s: string) { forall i :: 0 <= i < |s| ==> Kept(s[i]) }

  /** `raw.replace(/[^\d\-\.\,]/g, '')`. */
  function Clean(raw: string): (r: string)
    ensures AllKept(r) && |r| <= |raw|
  {
    if raw == [] then []
    else (if Kept(raw[0]) then [raw[0]] else []) + Clean(raw[1..])
  }

  /** `s.replace(',', '.')` with a string pattern, which replaces the first comma only. */
  function ReplaceFirstComma(s: string): (r: string)
    ensures |r| == |s|
    ensures forall i :: 0 <= i < |s| ==> r[i] == s[i] || (s[i] == ',' && r[i] == '.')
  {
    if s == [] then []
    else if s[0] == ',' then "." + s[1..]
    else [s[0]] + ReplaceFirstComma(s[1..])
  }

  /** The digits after a leading '.', up to the first non-digit; "" without a leading '.'. */
  function Fraction(rest: string): (f: string)
    ensures AllDigits(f)
  {
    if |rest| > 0 && rest[0] == '.' then rest[1..][..DigitRun(rest[1..])] else ""
  }

  /** The longest unsigned decimal number at the front of `body`, or `None` (NaN). */
  function Unsigned(body: string): Option<real>
  {
    var k := DigitRun(body);
    var frac := Fraction(body[k..]);
    if k == 0 && frac == "" then None
    else Some(Magnitude(body[..k], frac))
  }

  /** The value of an integer part and a fraction part written in decimal. */
  function Magnitude(whole: string, frac: string): real
    requires AllDigits(whole) && AllDigits(frac)
  {
    DigitsValue(whole) as real + FractionValue(frac)
  }

  /** The value of the digits after a decimal point: "25" is 0.25. */
  function FractionValue(frac: string): real
    requires AllDigits(frac)
  {
    if frac == [] then 0.0
    else ((frac[0] as int - '0' as int) as real + FractionValue(frac[1..])) / 10.0
  }

  /** The digits after a decimal point add less than one. */
  lemma {:induction false} FractionBelowOne(frac: string)
    requires AllDigits(frac)
    ensures 0.0 <= FractionValue(frac) < 1.0
  {
    if frac != [] {
      FractionBelowOne(frac[1..]);
    }
  }

  /**
   * `parseFloat` on a string of kept characters: an optional '-', then digits with an
   * optional fraction, or a '.' and at least one digit; whatever follows the longest such
   * prefix is ignored. `None` is NaN.
   */
  function ParseFloat(s: string): Option<real>
    requires AllKept(s)
  {
    if |s| > 0 && s[0] == '-' then Negated(Unsigned(s[1..])) else Unsigned(s)
  }

  function Negated(n: Option<real>): Option<real>
  {
    match n
    case Some(m) => Some(-m)
    case None => None
  }

  /** The number `updateValue` stores for the text `raw`. */
  function CellValue(raw: string): real
  {
    var cleaned := ReplaceFirstComma(Clean(raw));
    if cleaned == "" then 0.0
    else
      match ParseFloat(cleaned)
      case Some(n) => n
      case None => 0.0
  }

  /** Cleaning keeps a string exactly when every character of it is kept. */
  lemma {:induction false} CleanIdentity(raw: string)
    ensures Clean(raw) == raw <==> AllKept(raw)
  {
    if raw != [] {
      CleanIdentity(raw[1..]);
      if Kept(raw[0]) {
        assert [raw[0]] + raw[1..] == raw;
      } else {
        assert |Clean(raw)| < |raw|;
      }
    }
  }

  /** Cleaning is idempotent. */
  lemma CleanIdempotent(raw: string)
    ensures Clean(Clean(raw)) == Clean(raw)
  {
    CleanIdentity(Clean(raw));
  }

  /** Cleaning works character by character: it distributes over concatenation. */
  lemma {:induction false} CleanAppend(a: string, b: string)
    ensures Clean(a + b) == Clean(a) + Clean(b)
  {
    if a != [] {
      assert (a + b)[0] == a[0] && (a + b)[1..] == a[1..] + b;
      CleanAppend(a[1..], b);
    } else {
      assert a + b == b;
    }
  }

  /** Without a comma the string is unchanged. */
  lemma {:induction false} ReplaceNoComma(s: string)
    requires forall i :: 0 <= i < |s| ==> s[i] != ','
    ensures ReplaceFirstComma(s) == s
  {
    if s != [] {
      ReplaceNoComma(s[1..]);
      assert [s[0]] + s[1..] == s;
    }
  }

  /** The first comma, at `k`, becomes a '.', and every later comma stays. */
  lemma {:induction false} ReplaceFirstCommaAt(s: string, k: nat)
    requires k < |s| && s[k] == ','
    requires forall i :: 0 <= i < k ==> s[i] != ','
    ensures ReplaceFirstComma(s) == s[..k] + "." + s[k + 1..]
  {
    if k > 0 {
      ReplaceFirstCommaAt(s[1..], k - 1);
      assert s[..k] == [s[0]] + s[1..][..k - 1];
      assert s[k + 1..] == s[1..][k..];
    }
  }

  /** A run of digits reads as its value. */
  lemma ParseWhole(d: string)
    requires |d| >= 1 && AllDigits(d)
    ensures AllKept(d) && ParseFloat(d) == Some(DigitsValue(d) as real)
  {
    assert IsDigit(d[0]);
    UnsignedWhole(d);
  }

  /** A '-' in front of a number negates it, and NaN stays NaN. */
  lemma ParseNegative(b: string)
    requires AllKept(b) && (b == [] || b[0] != '-')
    ensures AllKept("-" + b) && ParseFloat("-" + b) == Negated(ParseFloat(b))
  {
    var s := "-" + b;
    assert AllKept(s) by {
      forall i | 0 <= i < |s| ensures Kept(s[i]) {
        if i > 0 { assert s[i] == b[i - 1]; }
      }
    }
    assert s[0] == '-' && s[1..] == b;
  }

  lemma UnsignedWhole(d: string)
    requires |d| >= 1 && AllDigits(d)
    ensures Unsigned(d) == Some(DigitsValue(d) as real)
  {
    DigitRunAll(d);
    assert d[..|d|] == d && d[|d|..] == [];
    assert Fraction([]) == "";
    assert Magnitude(d, "") == DigitsValue(d) as real;
  }

  /** Digits, a '.', and digits read as a decimal fraction. */
  lemma ParseDecimal(d: string, f: string)
    requires |d| >= 1 && AllDigits(d) && AllDigits(f)
    ensures AllKept(d + "." + f)
    ensures ParseFloat(d + "." + f) == Some(Magnitude(d, f))
  {
    var s := d + "." + f;
    assert IsDigit(s[0]);
    PrefixRun(d, "." + f);
    assert s[..|d|] == d;
    var rest := s[|d|..];
    assert rest == "." + f && rest[1..] == f;
    DigitRunAll(f);
    assert f[..|f|] == f;
    assert Fraction(rest) == f;
    assert DigitRun(s) == |d|;
    assert Unsigned(s) == Some(Magnitude(d, f));
    assert AllKept(s) by {
      forall i | 0 <= i < |s| ensures Kept(s[i]) {
        if i < |d| { assert s[i] == d[i]; }
        else if i > |d| { assert s[i] == f[i - |d| - 1]; }
      }
    }
    assert ParseFloat(s) == Unsigned(s);
  }

  /**
   * `parseFloat` gives NaN exactly when, after an optional '-', the string neither starts
   * with a digit nor with a '.' followed by a digit.
   */
  lemma ParseNaN(s: string)
    requires AllKept(s)
    ensures ParseFloat(s).None? <==>
      (var b := if |s| > 0 && s[0] == '-' then s[1..] else s;
       (b == [] || !IsDigit(b[0])) && !(|b| >= 2 && b[0] == '.' && IsDigit(b[1])))
  {
  }

  /** Text with nothing of a number left after cleaning stores 0. */
  lemma CellValueEmpty(raw: string)
    requires forall i :: 0 <= i < |raw| ==> !Kept(raw[i])
    ensures CellValue(raw) == 0.0
  {
    if Clean(raw) != [] {
      assert Kept(Clean(raw)[0]);
      CleanNotKept(raw);
    }
  }

  lemma {:induction false} CleanNotKept(raw: string)
    requires forall i :: 0 <= i < |raw| ==> !Kept(raw[i])
    ensures Clean(raw) == []
  {
    if raw != [] {
      CleanNotKept(raw[1..]);
    }
  }

  /** The digit run of digits followed by a non-digit ends where the digits end. */
  lemma {:induction false} PrefixRun(d: string, t: string)
    requires AllDigits(d) && (t == [] || !IsDigit(t[0]))
    ensures DigitRun(d + t) == |d|
  {
    if d != [] {
      assert (d + t)[1..] == d[1..] + t;
      PrefixRun(d[1..], t);
    } else {
      assert d + t == t;
    }
  }

  /** A comma between digits is read as a decimal point. */
  lemma CommaDecimal()
    ensures CellValue("1,5") == 1.5
  {
    CleanIdentity("1,5");
    ReplaceFirstCommaAt("1,5", 1);
    assert ReplaceFirstComma("1,5") == "1" + "." + "5";
    ParseDecimal("1", "5");
  }

  /** Only the first comma becomes a point, so the number stops at the second. */
  lemma SecondCommaEndsNumber()
    ensures CellValue("1,2,3") == 1.2
  {
    CleanIdentity("1,2,3");
    ReplaceFirstCommaAt("1,2,3", 1);
    var c := ReplaceFirstComma("1,2,3");
    assert c == "1.2,3";
    PrefixRun("1", ".2,3");
    assert c[..1] == "1" && c[1..] == ".2,3";
    PrefixRun("2", ",3");
    assert Fraction(".2,3") == "2";
    assert Unsigned(c) == Some(Magnitude("1", "2"));
  }

  /** A sign or a point without a digit is NaN, stored as 0; so is an empty input. */
  lemma NoDigitsStoreZero()
    ensures CellValue("--") == 0.0
    ensures CellValue("-") == 0.0
    ensures CellValue(".") == 0.0
    ensures CellValue("") == 0.0
  {
    CleanIdentity("--");
    ReplaceNoComma("--");
    CleanIdentity("-");
    ReplaceNoComma("-");
    CleanIdentity(".");
    ReplaceNoComma(".");
  }

  /** Letters and spaces are dropped before the number is read. */
  lemma LettersDropped()
    ensures CellValue("-12 EUR") == -12.0
  {
    CleanCurrency();
    ReplaceNoComma("-12");
    assert ReplaceFirstComma(Clean("-12 EUR")) == "-12";
    NegativeTwelve();
  }

  lemma CleanCurrency()
    ensures Clean("-12 EUR") == "-12"
  {
    assert "-12 EUR" == "-12" + " EUR";
    CleanAppend("-12", " EUR");
    CleanIdentity("-12");
    CleanNotKept(" EUR");
  }

  lemma NegativeTwelve()
    ensures AllKept("-12") && ParseFloat("-12") == Some(-12.0)
  {
    ParseWhole("12");
    ParseNegative("12");
    assert "-" + "12" == "-12";
    assert DigitsValue("12") == 12;
  }
}
