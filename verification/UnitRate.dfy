/**
 Official exchange rates are quoted per nominal (`54,1200` for `100`). The
 connector turns a quote into the rate of one unit by moving the decimal point
 in the digit string, without ever computing with machine numbers.
 */
module UnitRate {
  import opened Text
  import opened Digits

  datatype RateError = InvalidRate | InvalidNominal | NonDecimalNominal | PrecisionExceeded | ZeroRate
  datatype Rate = Ok(text: string) | Err(reason: RateError)

  const MAX_SCALE := 9

  // ---------- Digit strings and what they denote ----------

  predicate IsPoint(c: char) { c == '.' }

  /** A decimal as written: the digits before and after the point. */
  datatype Decimal = Decimal(whole: string, frac: string) {
    predicate Valid() { AllDigits(whole) && AllDigits(frac) && whole != "" }

    /** The value in units of the last digit. */
    function Units(): nat
      requires Valid()
    {
      NatVal(whole + frac)
    }

    /** The only spelling a rate is printed in. */
    predicate Canonical() {
      && Valid()
      && (whole == "0" || whole[0] != '0')
      && (frac != "" ==> frac[|frac| - 1] != '0')
    }

    function Print(): string {
      if frac == "" then whole else whole + "." + frac
    }
  }

  /** `x` with its point moved `i` places left equals `y` with its point moved `j` places left. */
  predicate SameScaled(x: nat, i: nat, y: nat, j: nat) {
    Shifted(x, j) == Shifted(y, i)
  }

  // ---------- What a quote means ----------

  /** The amount column: blanks around it are ignored, either decimal mark will do. */
  function Amount(value: string): (d: Option<Decimal>)
    ensures d.Some? ==> d.value.Valid()
  {
    var parts := Split('.', ReplaceChar(',', '.', Trim(IsSpace, value)));
    if |parts| > 2 || parts[0] == "" then None
    else
      var d := Decimal(parts[0], if |parts| == 2 then parts[1] else "");
      if d.Valid() then Some(d) else None
  }

  /** `value` is the amount with blanks around it, the digits of a fraction standing behind a point or a comma. */
  ghost predicate SpelledAs(value: string, d: Decimal, left: string, mark: string, right: string) {
    && value == left + (d.whole + mark + d.frac) + right
    && (mark == "." || mark == "," || (mark == "" && d.frac == ""))
    && forall c :: c in left || c in right ==> IsSpace(c)
  }

  lemma DigitsPlain(s: string, i: nat)
    requires AllDigits(s) && i < |s|
    ensures s[i] != '.' && s[i] != ',' && !IsSpace(s[i])
  {
  }

  /** The replacement leaves digits alone, and makes none. */
  lemma {:induction false} DigitsKept(t: string, digits: string, at: nat)
    requires AllDigits(digits) && at + |digits| <= |ReplaceChar(',', '.', t)|
    requires ReplaceChar(',', '.', t)[at..at + |digits|] == digits
    ensures |t| == |ReplaceChar(',', '.', t)| && t[at..at + |digits|] == digits
  {
    var r := ReplaceChar(',', '.', t);
    ReplaceCharAt(',', '.', t);
    forall i | 0 <= i < |digits| ensures t[at + i] == digits[i] {
      assert r[at..at + |digits|][i] == r[at + i];
      DigitsPlain(digits, i);
    }
  }

  lemma PartsOf(a: string, b: string, c: string)
    ensures (a + b + c)[0..|a|] == a && (a + b + c)[|a| + |b|..|a| + |b| + |c|] == c
  {
  }

  lemma CutInThree(t: string, i: nat, j: nat)
    requires i <= j <= |t|
    ensures t == t[0..i] + t[i..j] + t[j..|t|]
  {
  }

  /** Undoing the replacement changes at most the mark. */
  lemma {:induction false} MarkFound(t: string, whole: string, mark: string, frac: string)
    requires AllDigits(whole) && AllDigits(frac) && ReplaceChar(',', '.', t) == whole + mark + frac
    ensures |t| == |whole| + |mark| + |frac| && t == whole + t[|whole|..|whole| + |mark|] + frac
  {
    PartsOf(whole, mark, frac);
    DigitsKept(t, whole, 0);
    DigitsKept(t, frac, |whole| + |mark|);
    CutInThree(t, |whole|, |whole| + |mark|);
  }

  lemma AmountIsSpelled(value: string) returns (left: string, mark: string, right: string)
    requires Amount(value).Some?
    ensures SpelledAs(value, Amount(value).value, left, mark, right)
  {
    var d, trimmed := Amount(value).value, TrimLeft(IsSpace, value);
    TrimLeftDropped(IsSpace, value);
    TrimRightDropped(IsSpace, trimmed);
    left := value[..|value| - |trimmed|];
    var t := Trim(IsSpace, value);
    right := trimmed[|t|..];
    assert value == left + t + right;
    mark := MarkOf(t, d);
  }

  lemma MarkOf(t: string, d: Decimal) returns (mark: string)
    requires d.Valid() && var parts := Split('.', ReplaceChar(',', '.', t));
             parts == [d.whole, d.frac] || (parts == [d.whole] && d.frac == "")
    ensures t == d.whole + mark + d.frac && (mark == "." || mark == "," || (mark == "" && d.frac == ""))
  {
    var r := ReplaceChar(',', '.', t);
    JoinSplit('.', r);
    ReplaceCharAt(',', '.', t);
    if |Split('.', r)| == 1 {
      assert r == d.whole + "" + d.frac;
      MarkFound(t, d.whole, "", d.frac);
      mark := "";
    } else {
      assert Split('.', r)[1..] == [d.frac];
      assert r == d.whole + "." + d.frac;
      MarkFound(t, d.whole, ".", d.frac);
      mark := t[|d.whole|..|d.whole| + 1];
      assert r[|d.whole|] == '.' && mark == [t[|d.whole|]];
    }
  }

  lemma {:induction false} MarkReplaced(d: Decimal, mark: string)
    requires d.Valid() && (mark == "." || mark == "," || (mark == "" && d.frac == ""))
    ensures Split('.', ReplaceChar(',', '.', d.whole + mark + d.frac)) == if mark == "" then [d.whole] else [d.whole, d.frac]
  {
    var t := d.whole + mark + d.frac;
    ReplaceCharAt(',', '.', t);
    forall i | 0 <= i < |t| && i != |d.whole| ensures t[i] != ',' {
      if i < |d.whole| {
        DigitsPlain(d.whole, i);
      } else {
        DigitsPlain(d.frac, i - |d.whole| - |mark|);
      }
    }
    assert '.' !in d.whole && '.' !in d.frac;
    SplitSeparatorFree('.', d.whole);
    SplitSeparatorFree('.', d.frac);
    if mark == "" {
      assert ReplaceChar(',', '.', t) == d.whole;
    } else {
      assert ReplaceChar(',', '.', t) == d.whole + ['.'] + d.frac;
      SplitAcross('.', d.whole, d.frac);
    }
  }

  lemma SpelledIsAmount(value: string, d: Decimal, left: string, mark: string, right: string)
    requires d.Valid() && SpelledAs(value, d, left, mark, right)
    ensures Amount(value) == Some(d)
  {
    var core := d.whole + mark + d.frac;
    DigitsPlain(d.whole, 0);
    assert core[0] == d.whole[0];
    if d.frac != "" {
      DigitsPlain(d.frac, |d.frac| - 1);
    } else if mark == "" {
      DigitsPlain(d.whole, |d.whole| - 1);
    }
    TrimPadded(IsSpace, left, core, right);
    MarkReplaced(d, mark);
  }

  /** An amount is read exactly from its spellings: digits, then perhaps a point or comma and more digits, between blanks. */
  lemma AmountIff(value: string, d: Decimal)
    ensures Amount(value) == Some(d) <==> d.Valid() && exists left, mark, right :: SpelledAs(value, d, left, mark, right)
  {
    if Amount(value) == Some(d) {
      var left, mark, right := AmountIsSpelled(value);
    }
    if d.Valid() {
      forall left, mark, right | SpelledAs(value, d, left, mark, right) ensures Amount(value) == Some(d) {
        SpelledIsAmount(value, d, left, mark, right);
      }
    }
  }

  function Nominal(nominal: string): (n: Option<int>)
    ensures n.Some? ==> n.value >= 1
  {
    var n := ParseInt64(Trim(IsSpace, nominal));
    if n.Some? && n.value >= 1 then n else None
  }

  /** The exponent of a power of ten. */
  ghost function Exponent(n: nat): Option<nat> {
    if n == 1 then Some(0)
    else if n == 0 || n % 10 != 0 || Exponent(n / 10).None? then None
    else Some(Exponent(n / 10).value + 1)
  }

  /** Why a quote is refused, in the order the checks are made; `None` when it is accepted. */
  ghost function Refusal(value: string, nominal: string): Option<RateError> {
    if Amount(value).None? then Some(InvalidRate)
    else if Nominal(nominal).None? then Some(InvalidNominal)
    else if Exponent(Nominal(nominal).value).None? then Some(NonDecimalNominal)
    else if |Amount(value).value.frac| + Exponent(Nominal(nominal).value).value > MAX_SCALE then Some(PrecisionExceeded)
    else if Amount(value).value.Units() == 0 then Some(ZeroRate)
    else None
  }

  /** `d` is the canonical decimal equal to `amount` with its point moved `shift` places left. */
  ghost predicate IsRateOf(d: Decimal, amount: Decimal, shift: nat)
    requires amount.Valid()
  {
    && d.Canonical() && |d.frac| <= MAX_SCALE && d.Units() > 0
    && SameScaled(d.Units(), |d.frac|, amount.Units(), |amount.frac| + shift)
  }

  /** What it means for a text to be the unit rate of a quote. */
  ghost predicate IsUnitRate(value: string, nominal: string, text: string) {
    && Amount(value).Some? && Nominal(nominal).Some? && Exponent(Nominal(nominal).value).Some?
    && exists d :: IsRateOf(d, Amount(value).value, Exponent(Nominal(nominal).value).value) && text == d.Print()
  }

  lemma {:induction false} ExponentOfPower(n: nat, k: nat)
    ensures Exponent(n) == Some(k) <==> n == Shifted(1, k)
    decreases n
  {
    ShiftedOrder(1, 0, k);
    ShiftedZero(k);
    if n % 10 == 0 && n > 0 {
      ExponentOfPower(n / 10, if k > 0 then k - 1 else 0);
    }
  }

  // ---------- Canonical texts ----------

  lemma LastDigitKept(e: Decimal)
    requires e.Canonical() && e.frac != ""
    ensures e.Units() % 10 != 0
  {
    var all := e.whole + e.frac;
    assert all[|all| - 1] == e.frac[|e.frac| - 1];
  }

  lemma DivisibleByTen(x: nat, fewer: nat, y: nat, more: nat)
    requires fewer < more && SameScaled(x, fewer, y, more)
    ensures y % 10 == 0
  {
    ShiftedTwice(x, more - fewer, fewer);
    ShiftedOrder(Shifted(x, more - fewer), y, fewer);
  }

  /** A canonical decimal carries no more fraction digits than an equal one. */
  lemma FewestFractionDigits(d: Decimal, e: Decimal)
    requires d.Valid() && e.Canonical() && SameScaled(d.Units(), |d.frac|, e.Units(), |e.frac|)
    ensures |d.frac| >= |e.frac|
  {
    if |d.frac| < |e.frac| {
      DivisibleByTen(d.Units(), |d.frac|, e.Units(), |e.frac|);
      LastDigitKept(e);
    }
  }

  lemma LongerIsLarger(d: Decimal, e: Decimal)
    requires d.Canonical() && e.Canonical() && |d.frac| == |e.frac|
    requires |d.whole| < |e.whole|
    ensures d.Units() < e.Units()
  {
    var all, all' := d.whole + d.frac, e.whole + e.frac;
    NatValBounds(all);
    NatValBounds(all');
    assert all'[0] == e.whole[0];
    ShiftedTwice(1, |all'| - 1 - |all|, |all|);
    ShiftedOrder(1, Shifted(1, |all'| - 1 - |all|), |all|);
    ShiftedOrder(1, 0, |all'| - 1 - |all|);
    ShiftedZero(|all'| - 1 - |all|);
  }

  /** A value has one canonical decimal, and hence one printed text. */
  lemma CanonicalUnique(d: Decimal, e: Decimal)
    requires d.Canonical() && e.Canonical() && SameScaled(d.Units(), |d.frac|, e.Units(), |e.frac|)
    ensures d == e
  {
    FewestFractionDigits(d, e);
    FewestFractionDigits(e, d);
    ShiftedOrder(d.Units(), e.Units(), |d.frac|);
    if |d.whole| < |e.whole| {
      LongerIsLarger(d, e);
    } else if |e.whole| < |d.whole| {
      LongerIsLarger(e, d);
    }
    NatValInjective(d.whole + d.frac, e.whole + e.frac);
    assert d.whole == (d.whole + d.frac)[..|d.whole|] && e.whole == (e.whole + e.frac)[..|e.whole|];
    assert d.frac == (d.whole + d.frac)[|d.whole|..] && e.frac == (e.whole + e.frac)[|e.whole|..];
  }

  lemma SameScaledTransitive(x: nat, i: nat, y: nat, j: nat, z: nat, k: nat)
    requires SameScaled(x, i, y, j) && SameScaled(y, j, z, k)
    ensures SameScaled(x, i, z, k)
  {
    ShiftedTwice(x, j, k);
    ShiftedTwice(x, k, j);
    ShiftedTwice(y, i, k);
    ShiftedTwice(y, k, i);
    ShiftedTwice(z, j, i);
    ShiftedTwice(z, i, j);
    ShiftedOrder(Shifted(x, k), Shifted(z, i), j);
  }

  /** Rates print as the same text exactly when they are equal. */
  lemma EqualRatesPrintAlike(d: Decimal, a: Decimal, m: nat, e: Decimal, b: Decimal, n: nat)
    requires a.Valid() && b.Valid() && IsRateOf(d, a, m) && IsRateOf(e, b, n)
    ensures d.Print() == e.Print() <==> SameScaled(a.Units(), |a.frac| + m, b.Units(), |b.frac| + n)
  {
    var x, f, y, g := a.Units(), |a.frac| + m, b.Units(), |b.frac| + n;
    if SameScaled(x, f, y, g) {
      SameScaledTransitive(d.Units(), |d.frac|, x, f, y, g);
      SameScaledTransitive(d.Units(), |d.frac|, y, g, e.Units(), |e.frac|);
      CanonicalUnique(d, e);
    }
    if d.Print() == e.Print() {
      PrintInjective(d, e);
      SameScaledTransitive(x, f, d.Units(), |d.frac|, y, g);
    }
  }

  lemma PrintInjective(d: Decimal, e: Decimal)
    requires d.Valid() && e.Valid() && d.Print() == e.Print()
    ensures d == e
  {
    PointPosition(d);
    PointPosition(e);
    var s := d.Print();
    if |d.whole| < |s| {
      assert s[|d.whole|] == '.';
    }
    if |e.whole| < |s| {
      assert s[|e.whole|] == '.';
    }
    assert d.whole == s[..|d.whole|] && e.whole == s[..|e.whole|];
    if d.frac != "" && e.frac != "" {
      assert d.frac == s[|d.whole| + 1..] && e.frac == s[|e.whole| + 1..];
    }
  }

  lemma PointPosition(d: Decimal)
    requires d.Valid()
    ensures forall i :: 0 <= i < |d.Print()| ==> (d.Print()[i] == '.' <==> i == |d.whole|)
  {
    forall i | 0 <= i < |d.Print()|
      ensures d.Print()[i] == '.' <==> i == |d.whole|
    {
      if i < |d.whole| {
        assert d.Print()[i] == d.whole[i];
      } else if i > |d.whole| {
        assert d.Print()[i] == d.frac[i - |d.whole| - 1];
      }
    }
  }

  // ---------- The rate as a quotient ----------

  function Pow10(k: nat): nat { if k == 0 then 1 else 10 * Pow10(k - 1) }

  lemma {:induction false} ShiftedIsProduct(x: nat, k: nat)
    ensures Shifted(x, k) == x * Pow10(k)
  {
    if k > 0 {
      ShiftedIsProduct(x, k - 1);
    }
  }

  /**
   The printed rate times the nominal is the quoted amount, exactly: with
   `u / 10^f` for the rate and `v / 10^g` for the amount, `u * n * 10^g == v * 10^f`.
   */
  lemma {:induction false} RateTimesNominalIsAmount(d: Decimal, amount: Decimal, n: nat)
    requires amount.Valid() && Exponent(n).Some? && IsRateOf(d, amount, Exponent(n).value)
    ensures d.Units() * n * Pow10(|amount.frac|) == amount.Units() * Pow10(|d.frac|)
  {
    ScaledProduct(d.Units(), |d.frac|, amount.Units(), |amount.frac|, Exponent(n).value, n);
  }

  lemma {:induction false} ScaledProduct(x: nat, f: nat, y: nat, g: nat, shift: nat, n: nat)
    requires SameScaled(x, f, y, g + shift) && Exponent(n) == Some(shift)
    ensures x * n * Pow10(g) == y * Pow10(f)
  {
    ExponentOfPower(n, shift);
    ShiftedIsProduct(1, shift);
    ShiftedIsProduct(x, shift);
    ShiftedTwice(x, shift, g);
    ShiftedIsProduct(Shifted(x, shift), g);
    ShiftedIsProduct(y, f);
  }

  // ---------- The conversion ----------

  lemma {:induction false} ScaledBack(x: nat, f: nat, k: nat, y: nat)
    requires y == Shifted(x, k) > 0
    ensures x > 0 && SameScaled(x, f, y, f + k)
  {
    ShiftedTwice(x, k, f);
    ShiftedZero(k);
  }

  /** Moving the point, and dropping trailing zeros of the fraction, divides exactly. */
  lemma {:induction false} PointMoved(amount: Decimal, shift: nat, whole: string, kept: string, zeros: nat)
    requires amount.Valid() && |kept| + zeros == |amount.frac| + shift <= MAX_SCALE
    requires AllDigits(whole) && AllDigits(kept) && AllDigits(whole + kept)
    requires Shifted(NatVal(whole + kept), zeros) == amount.Units() > 0
    requires whole == "0" || (whole != "" && whole[0] != '0')
    requires kept != "" ==> kept[|kept| - 1] != '0'
    ensures IsRateOf(Decimal(whole, kept), amount, shift)
  {
    ScaledBack(NatVal(whole + kept), |kept|, zeros, amount.Units());
  }

  lemma {:induction false} ZerosAppended(digits: string, zeros: string)
    requires AllDigits(digits) && forall i :: 0 <= i < |zeros| ==> zeros[i] == '0'
    ensures AllDigits(digits + zeros) && NatVal(digits + zeros) == Shifted(NatVal(digits), |zeros|)
  {
    NatValZeros(zeros);
    NatValConcat(digits, zeros);
  }

  /** Trimming zeros from the right of a text with a point stops at the point. */
  lemma {:induction false} TrimStopsAtPoint(whole: string, fraction: string, kept: string)
    requires kept == TrimRight(IsZero, fraction)
    ensures TrimRight(IsZero, whole + "." + fraction) == whole + "." + kept
  {
    TrimRightDropped(IsZero, fraction);
    var zeros := fraction[|kept|..];
    assert fraction == kept + zeros;
    assert whole + "." + fraction == (whole + "." + kept) + zeros;
    TrimRightPadded(IsZero, whole + "." + kept, zeros);
  }

  /** What is left after the zeros and then the bare point are trimmed is the printed decimal. */
  lemma {:induction false} TrimmedIsPrinted(whole: string, fraction: string, kept: string)
    requires whole != "" && AllDigits(whole) && AllDigits(fraction)
    requires kept == TrimRight(IsZero, fraction)
    ensures TrimRight(IsPoint, TrimRight(IsZero, whole + "." + fraction)) == Decimal(whole, kept).Print()
  {
    TrimStopsAtPoint(whole, fraction, kept);
    if kept == "" {
      assert whole + "." + kept == whole + ".";
      TrimRightPadded(IsPoint, whole, ".");
    } else {
      assert kept[|kept| - 1] == fraction[|kept| - 1];
      assert whole + "." + kept == (whole + "." + kept) + "";
      TrimRightPadded(IsPoint, whole + "." + kept, "");
    }
  }

  /** The padded digits, cut at the scale, are the rate. */
  lemma {:induction false} CutIsRate(amount: Decimal, shift: nat, whole: string, fraction: string, kept: string)
    requires amount.Valid() && |fraction| == |amount.frac| + shift <= MAX_SCALE
    requires AllDigits(whole + fraction) && NatVal(whole + fraction) == amount.Units() > 0
    requires whole != "" && (whole[0] != '0' || |whole| == 1) && kept == TrimRight(IsZero, fraction)
    ensures IsRateOf(Decimal(whole, kept), amount, shift)
  {
    TrimRightDropped(IsZero, fraction);
    var all, zeros := whole + fraction, fraction[|kept|..];
    assert forall i :: 0 <= i < |whole| ==> whole[i] == all[i];
    assert forall i :: 0 <= i < |kept| ==> kept[i] == all[|whole| + i];
    NatValConcat(whole, kept);
    ZerosAppended(whole + kept, zeros);
    assert all == whole + kept + zeros;
    PointMoved(amount, shift, whole, kept, |zeros|);
  }

  /** A rate decimal is printed as itself: the guards after printing never fire. */
  lemma PrintedIsPlain(d: Decimal)
    requires d.Canonical() && d.Units() > 0
    ensures d.Print() != "" && d.Print() != "0" && d.Print()[0] != '.'
  {
    if d.Print() == "0" {
      assert d.whole == "0" && d.whole + d.frac == "0";
      NatValZeros("0");
    }
  }

  /** How often the nominal can be divided by ten before it reaches one. */
  method DecimalShift(nominal: nat) returns (shift: Option<nat>)
    requires nominal >= 1
    ensures shift == Exponent(nominal)
  {
    var n, k := nominal, 0;
    while n > 1 && n % 10 == 0
      invariant n >= 1 && k >= 0
      invariant Exponent(nominal) == if Exponent(n).Some? then Some(Exponent(n).value + k) else None
    {
      n := n / 10;
      k := k + 1;
    }
    return if n == 1 then Some(k) else None;
  }

  /** Places the point `|amount.frac| + shift` digits from the right and prints what is left. */
  method PlacePoint(joined: string, ghost amount: Decimal, scale: nat, ghost shift: nat) returns (r: Rate)
    requires amount.Valid() && joined == amount.whole + amount.frac
    requires scale == |amount.frac| + shift <= MAX_SCALE
    ensures r == Err(ZeroRate) <==> amount.Units() == 0
    ensures r != Err(ZeroRate) ==> r.Ok? && exists d :: IsRateOf(d, amount, shift) && r.text == d.Print()
  {
    var all := TrimLeft(IsZero, joined);
    LeadingZerosDenoteNothing(joined);
    if all == "" {
      return Err(ZeroRate);
    }
    while |all| <= scale
      invariant AllDigits(all) && NatVal(all) == amount.Units() && all != ""
      invariant all[0] != '0' || |all| <= scale + 1
      decreases scale - |all|
    {
      PaddedWithZero(all);
      all := "0" + all;
    }
    var cut := |all| - scale;
    ghost var kept := TrimRight(IsZero, all[cut..]);
    assert all[..cut] + all[cut..] == all;
    CutIsRate(amount, shift, all[..cut], all[cut..], kept);
    ghost var d := Decimal(all[..cut], kept);
    PrintedIsPlain(d);
    if scale == 0 {
      assert all == d.Print();
      return Ok(TrimLeft(IsZero, all));
    }
    TrimmedIsPrinted(all[..cut], all[cut..], kept);
    var out := all[..cut] + "." + all[cut..];
    out := TrimRight(IsZero, out);
    out := TrimRight(IsPoint, out);
    if out != "" && out[0] == '.' {
      out := "0" + out;
    }
    if out == "" || out == "0" {
      return Err(ZeroRate);
    }
    return Ok(out);
  }

  /**
   The quote is refused exactly for the reasons listed, and otherwise the
   result is the canonical decimal of amount divided by nominal, exactly.
   */
  method ConvertQuote(value: string, nominal: string) returns (r: Rate)
    ensures r.Err? <==> Refusal(value, nominal).Some?
    ensures r.Err? ==> r.reason == Refusal(value, nominal).value
    ensures r.Ok? ==> IsUnitRate(value, nominal, r.text)
  {
    var parts := Split('.', ReplaceChar(',', '.', Trim(IsSpace, value)));
    if |parts| > 2 || parts[0] == "" {
      return Err(InvalidRate);
    }
    var digits := parts[0];
    var frac := "";
    if |parts| == 2 {
      frac := parts[1];
    }
    ghost var amount := Decimal(digits, frac);
    var joined := digits + frac;
    for i := 0 to |joined|
      invariant forall k :: 0 <= k < i ==> IsDigit(joined[k])
    {
      if joined[i] < '0' || joined[i] > '9' {
        assert !amount.Valid() by {
          assert joined[i] == if i < |digits| then digits[i] else frac[i - |digits|];
        }
        return Err(InvalidRate);
      }
    }
    assert Amount(value) == Some(amount) by {
      assert forall k :: 0 <= k < |digits| ==> digits[k] == joined[k];
      assert forall k :: 0 <= k < |frac| ==> frac[k] == joined[|digits| + k];
    }
    var n := ParseInt64(Trim(IsSpace, nominal));
    if n.None? || n.value < 1 {
      return Err(InvalidNominal);
    }
    assert Nominal(nominal) == n;
    var shift := DecimalShift(n.value);
    if shift.None? {
      return Err(NonDecimalNominal);
    }
    var scale := |frac| + shift.value;
    if scale > 9 {
      return Err(PrecisionExceeded);
    }
    r := PlacePoint(joined, amount, scale, shift.value);
  }
}
