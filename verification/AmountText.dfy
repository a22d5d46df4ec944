/** The text of an amount: what `format_one` writes and what `parse_amount` reads (airdrop/tools/common.py). */
module AmountText {
  import opened Lists
  import opened Options
  import opened Amounts

  // ----- digits

  predicate IsDigit(c: char) { '0' <= c <= '9' }

  predicate AllDigits(s: string) { forall i :: 0 <= i < |s| ==> IsDigit(s[i]) }

  function Num(s: string): nat
    requires AllDigits(s)
  {
    if s == "" then 0 else Num(s[..|s| - 1]) * 10 + (s[|s| - 1] as int - 48)
  }

  function DigitChar(d: nat): (c: char)
    requires d < 10
    ensures IsDigit(c) && c as int - 48 == d
  {
    (48 + d) as char
  }

  /** `str(n)` */
  function Decimal(n: nat): (s: string)
    ensures s != "" && AllDigits(s)
  {
    if n < 10 then [DigitChar(n)] else Decimal(n / 10) + [DigitChar(n % 10)]
  }

  lemma {:induction false} NumOfDecimal(n: nat)
    ensures Num(Decimal(n)) == n
  {
    var s := Decimal(n);
    if n < 10 {
      assert s[..|s| - 1] == "";
    } else {
      NumOfDecimal(n / 10);
      assert s[..|s| - 1] == Decimal(n / 10);
    }
  }

  lemma {:induction false} NumConcat(u: string, v: string)
    requires AllDigits(u) && AllDigits(v)
    ensures AllDigits(u + v) && Num(u + v) == Num(u) * Pow10(|v|) + Num(v)
  {
    if v == "" {
      assert u + v == u;
    } else {
      var w, c := v[..|v| - 1], v[|v| - 1] as int - 48;
      NumConcat(u, w);
      assert (u + v)[..|u + v| - 1] == u + w;
      TimesTen(Num(u), Pow10(|w|));
    }
  }

  lemma {:induction false} DecimalLength(n: nat, k: nat)
    requires n < Pow10(k) && k >= 1
    ensures |Decimal(n)| <= k
  {
    if n >= 10 {
      DecimalLength(n / 10, k - 1);
    }
  }

  // ----- format_one

  /** `f"{n:,}"` */
  function Grouped(s: string): string
  {
    if |s| <= 3 then s else Grouped(s[..|s| - 3]) + "," + s[|s| - 3..]
  }

  function Nulls(k: nat): (s: string)
    ensures |s| == k && AllDigits(s)
  {
    if k == 0 then "" else Nulls(k - 1) + "0"
  }

  /** `rjust(k, "0")` */
  function PadLeft(s: string, k: nat): string
  {
    if |s| < k then Nulls(k - |s|) + s else s
  }

  /** `rstrip("0")` */
  function StripZeros(s: string): string
  {
    if s != "" && s[|s| - 1] == '0' then StripZeros(s[..|s| - 1]) else s
  }

  /** `ATTO_PER_ONE` */
  function Atto(): nat { 1_000_000_000_000_000_000 }

  lemma AttoIs()
    ensures Atto() == Pow10(18)
  {
    Pow10Sum(9, 9);
    assert Pow10(9) == 1_000_000_000;
  }

  function FormatOne(n: nat): string
  {
    var whole, frac := n / Atto(), n % Atto();
    if frac == 0 then Grouped(Decimal(whole))
    else Grouped(Decimal(whole)) + "." + StripZeros(PadLeft(Decimal(frac), 18))
  }

  // ----- parse_amount

  /** Removes `,` and `_`. */
  function Clean(t: string): string
  {
    if t == "" then "" else (if t[0] == ',' || t[0] == '_' then "" else [t[0]]) + Clean(t[1..])
  }

  /** The part before the first point, and the part after it. */
  function Split(t: string): (string, string)
  {
    if t == "" then ("", "")
    else if t[0] == '.' then ("", t[1..])
    else
      var (u, v) := Split(t[1..]);
      ([t[0]] + u, v)
  }

  function ReadUnsigned(t: string, negative: bool): Option<Dec>
  {
    var (u, v) := Split(t);
    if AllDigits(u) && AllDigits(v) && u + v != "" then
      assert AllDigits(u + v);
      Some(Dec(negative, Num(u + v), -|v|))
    else None
  }

  function ReadDecimal(t: string): Option<Dec>
  {
    if t != "" && t[0] == '-' then ReadUnsigned(t[1..], true)
    else if t != "" && t[0] == '+' then ReadUnsigned(t[1..], false)
    else ReadUnsigned(t, false)
  }

  /** `parse_amount(text, "one")` in a context of precision `p`; Python's is 28. */
  function ParseOne(text: string, p: nat): Result
    requires p >= 1
  {
    match ReadDecimal(Clean(text))
    case None => NotANumber
    case Some(d) => ParseDecimal(d, p)
  }

  /** A sign in front makes the number negative, or changes nothing. */
  lemma SignedReads(t: string)
    requires t == "" || (t[0] != '-' && t[0] != '+')
    ensures ReadDecimal("+" + t) == ReadDecimal(t)
    ensures ReadDecimal("-" + t) == match ReadDecimal(t) case None => None case Some(d) => Some(d.(negative := true))
    ensures ReadDecimal(t).Some? ==> !ReadDecimal(t).value.negative
  {
    assert ("+" + t)[1..] == t && ("-" + t)[1..] == t;
  }

  /** So an amount with a minus sign is never accepted. */
  lemma NegativeRefused(text: string, p: nat)
    requires p >= 1 && Clean(text) != "" && Clean(text)[0] == '-'
    ensures !ParseOne(text, p).Ok?
  {
    hide Clean, ReadUnsigned, Round, Whole;
    NegativeReads(Clean(text));
  }

  lemma NegativeReads(t: string)
    requires t != "" && t[0] == '-'
    ensures ReadDecimal(t).Some? ==> ReadDecimal(t).value.negative
  {
  }

  // ----- round trip

  lemma {:induction false} CleanConcat(u: string, v: string)
    ensures Clean(u + v) == Clean(u) + Clean(v)
  {
    if u == "" {
      assert u + v == v;
    } else {
      CleanConcat(u[1..], v);
      assert (u + v)[1..] == u[1..] + v;
      Associative(if u[0] == ',' || u[0] == '_' then "" else [u[0]], Clean(u[1..]), Clean(v));
    }
  }

  lemma {:induction false} CleanPlain(s: string)
    requires forall i :: 0 <= i < |s| ==> s[i] != ',' && s[i] != '_'
    ensures Clean(s) == s
  {
    if s != "" {
      CleanPlain(s[1..]);
    }
  }

  lemma {:induction false} NoSeparators(t: string)
    ensures forall i :: 0 <= i < |Clean(t)| ==> Clean(t)[i] != ',' && Clean(t)[i] != '_'
  {
    if t != "" {
      NoSeparators(t[1..]);
    }
  }

  lemma CleanComma()
    ensures Clean(",") == ""
  {
    assert ","[1..] == "";
  }

  /** A comma stands before every third digit from the right, and nowhere else. */
  lemma {:induction false} CommasStand(s: string, k: nat)
    requires AllDigits(s) && k < |Grouped(s)|
    ensures s != "" ==> |Grouped(s)| == |s| + (|s| - 1) / 3
    ensures Grouped(s)[|Grouped(s)| - 1 - k] == ',' <==> k % 4 == 3
  {
    if |s| > 3 {
      var u, v := s[..|s| - 3], s[|s| - 3..];
      var g := Grouped(u);
      assert u != "" && Grouped(s) == g + "," + v;
      GroupedNonempty(u);
      CommasStand(u, if k >= 4 then k - 4 else 0);
      assert k >= 4 ==> Grouped(s)[|Grouped(s)| - 1 - k] == g[|g| - 1 - (k - 4)];
    }
  }

  lemma GroupedNonempty(s: string)
    requires s != ""
    ensures Grouped(s) != ""
  {
  }

  /** Grouping only adds commas. */
  lemma {:induction false} CleanGrouped(s: string)
    requires AllDigits(s)
    ensures Clean(Grouped(s)) == s
  {
    if |s| <= 3 {
      CleanPlain(s);
    } else {
      var u, v := s[..|s| - 3], s[|s| - 3..];
      CleanGrouped(u);
      CleanPlain(v);
      CleanComma();
      hide Clean;
      CleanConcat(Grouped(u) + ",", v);
      CleanConcat(Grouped(u), ",");
      assert u + "" == u;
      assert s == u + v;
    }
  }

  lemma {:induction false} SplitPlain(u: string, v: string)
    requires AllDigits(u)
    ensures Split(u + "." + v) == (u, v) && Split(u) == (u, "")
  {
    if u == "" {
      assert (u + "." + v)[0] == '.' && (u + "." + v)[1..] == v;
    } else {
      SplitPlain(u[1..], v);
      assert (u + "." + v)[1..] == u[1..] + "." + v && (u + "." + v)[0] == u[0];
      assert [u[0]] + u[1..] == u;
    }
  }

  lemma {:induction false} NumNulls(k: nat)
    ensures Num(Nulls(k)) == 0
  {
    if k > 0 {
      NumNulls(k - 1);
      assert Nulls(k)[..k - 1] == Nulls(k - 1);
    }
  }

  lemma {:induction false} StripKeeps(s: string)
    requires AllDigits(s)
    ensures var t := StripZeros(s);
            |t| <= |s| && AllDigits(t) && Num(t) * Pow10(|s| - |t|) == Num(s)
  {
    if s != "" && s[|s| - 1] == '0' {
      var r := s[..|s| - 1];
      StripKeeps(r);
      TimesTen(Num(StripZeros(r)), Pow10(|r| - |StripZeros(r)|));
    }
  }

  /** The fraction written stands for the fraction. */
  lemma FractionText(frac: nat, k: nat)
    requires frac < Pow10(k) && k >= 1
    ensures var f := StripZeros(PadLeft(Decimal(frac), k));
            |f| <= k && AllDigits(f) && Num(f) * Pow10(k - |f|) == frac
  {
    hide Num, Decimal, Nulls, StripZeros, Pow10;
    var s := Decimal(frac);
    DecimalLength(frac, k);
    NumOfDecimal(frac);
    NumNulls(k - |s|);
    NumConcat(Nulls(k - |s|), s);
    StripKeeps(PadLeft(s, k));
  }

  lemma NoDigits()
    ensures Num("") == 0
  {
  }

  lemma {:induction false} StripsAll(s: string)
    ensures StripZeros(s) == "" || StripZeros(s)[|StripZeros(s)| - 1] != '0'
  {
    if s != "" && s[|s| - 1] == '0' {
      StripsAll(s[..|s| - 1]);
    }
  }

  lemma {:induction false} NoLeadingZero(n: nat)
    ensures n > 0 ==> Decimal(n)[0] != '0'
  {
    if n >= 10 {
      NoLeadingZero(n / 10);
    }
  }

  /** A formatted amount has no point when it is whole; otherwise its fraction has at most 18 digits, the last of them not
      zero. The digits before it start with a zero only where that is all there is. */
  lemma FormatShape(n: nat)
    ensures var whole := Decimal(n / Atto());
            && (n >= Atto() ==> whole[0] != '0')
            && (n % Atto() == 0 ==> FormatOne(n) == Grouped(whole))
            && (n % Atto() != 0 ==> exists f :: FormatOne(n) == Grouped(whole) + "." + f && AllDigits(f) && 1 <= |f| <= 18 && f[|f| - 1] != '0')
  {
    var frac := n % Atto();
    NoLeadingZero(n / Atto());
    if frac != 0 {
      AttoIs();
      FractionText(frac, 18);
      var f := StripZeros(PadLeft(Decimal(frac), 18));
      StripsAll(PadLeft(Decimal(frac), 18));
      NoDigits();
    }
  }

  /** What is read back from a formatted amount: its exact value. */
  lemma FormattedReads(n: nat)
    ensures var r := ReadDecimal(Clean(FormatOne(n)));
            r.Some? && !r.value.negative && -18 <= r.value.exp <= 0 && r.value.coef * Pow10(18 + r.value.exp) == n
  {
    hide Num, Decimal, Nulls, StripZeros, Grouped, Pow10, PadLeft, Split, Clean;
    var one := Atto();
    AttoIs();
    var whole, frac := n / one, n % one;
    DivideAndRest(n, one);
    var u := Decimal(whole);
    NumOfDecimal(whole);
    CleanGrouped(u);
    if frac == 0 {
      SplitPlain(u, "");
      assert u + "" == u;
    } else {
      var f := StripZeros(PadLeft(Decimal(frac), 18));
      FractionText(frac, 18);
      var t := Grouped(u) + "." + f;
      CleanConcat(Grouped(u) + ".", f);
      CleanConcat(Grouped(u), ".");
      CleanPlain(".");
      CleanPlain(f);
      SplitPlain(u, f);
      NumConcat(u, f);
      assert Clean(t) == u + "." + f;
      Unscale(whole, |f|, Num(f), frac);
    }
  }

  lemma Unscale(whole: nat, k: nat, f: nat, frac: nat)
    requires k <= 18 && f * Pow10(18 - k) == frac
    ensures (whole * Pow10(k) + f) * Pow10(18 - k) == whole * Pow10(18) + frac
  {
    hide Pow10;
    Pow10Sum(k, 18 - k);
    Distribute(whole * Pow10(k), f, Pow10(18 - k));
    Reassociate(whole, Pow10(k), Pow10(18 - k));
  }

  lemma Distribute(a: nat, b: nat, c: nat)
    ensures (a + b) * c == a * c + b * c
  {
  }

  /** Formatting and parsing an amount gives it back exactly when it is positive and has at most `p` significant digits;
      in particular below 10^p. */
  lemma RoundTripIff(n: nat, p: nat)
    requires p >= 1
    ensures ParseOne(FormatOne(n), p) == Ok(n) <==> n > 0 && Significant(n) < Pow10(p)
    ensures 0 < n < Pow10(p) ==> ParseOne(FormatOne(n), p) == Ok(n)
  {
    hide FormatOne, Clean, ReadDecimal, Pow10, ParseDecimal, Significant;
    FormattedReads(n);
    var d := ReadDecimal(Clean(FormatOne(n))).value;
    SignificantScaled(d.coef, 18 + d.exp);
    SignificantAtMost(n);
    assert Exactly(d, n);
    if ParseDecimal(d, p) == Ok(n) {
      ParsedExactlyIff(d, p);
      NoZero(d, p);
    }
    if Significant(n) < Pow10(p) {
      ShortLiteralIff(d, p, n);
    }
  }

  lemma NoZero(d: Dec, p: nat)
    requires p >= 1 && ParseDecimal(d, p).Ok?
    ensures ParseDecimal(d, p).amount > 0
  {
    hide Pow10, Round;
  }

  lemma OneOver(m: nat)
    ensures Significant(10 * m + 1) == 10 * m + 1
  {
  }

  /** The first amount that does not come back: 10^p + 1. */
  lemma LongAmountLost(p: nat)
    requires p >= 1
    ensures ParseOne(FormatOne(Pow10(p) + 1), p) != Ok(Pow10(p) + 1)
  {
    hide FormatOne, ParseOne;
    RoundTripIff(Pow10(p) + 1, p);
    OneOver(Pow10(p - 1));
    assert Pow10(p) == 10 * Pow10(p - 1);
  }
}
