/** Digit strings, the numbers they denote, and Go's base-ten integer parsing. */
module Digits {
  import opened Text

  const INT64_MAX := 0x7FFF_FFFF_FFFF_FFFF

  predicate IsDigit(c: char) { '0' <= c <= '9' }
  predicate AllDigits(s: string) { forall i :: 0 <= i < |s| ==> IsDigit(s[i]) }
  predicate IsZero(c: char) { c == '0' }

  function NatVal(s: string): nat
    requires AllDigits(s)
  {
    if s == "" then 0 else 10 * NatVal(s[..|s| - 1]) + (s[|s| - 1] as int - '0' as int)
  }

  function Unsigned(s: string): string {
    if s != "" && (s[0] == '-' || s[0] == '+') then s[1..] else s
  }

  /** `strconv.ParseInt(s, 10, 64)`; `None` stands for its error. */
  function ParseInt64(s: string): Option<int> {
    var digits := Unsigned(s);
    if digits == "" || !AllDigits(digits) then None
    else
      var n: int := if s[0] == '-' then -(NatVal(digits) as int) else NatVal(digits);
      if -INT64_MAX - 1 <= n <= INT64_MAX then Some(n) else None
  }

  // ---------- Arithmetic on digit strings ----------

  /** `x` followed by `k` zeros. */
  function Shifted(x: nat, k: nat): nat {
    if k == 0 then x else 10 * Shifted(x, k - 1)
  }

  lemma {:induction false} ShiftedTwice(x: nat, i: nat, j: nat)
    ensures Shifted(Shifted(x, i), j) == Shifted(x, i + j)
  {
    if j > 0 {
      ShiftedTwice(x, i, j - 1);
    }
  }

  lemma {:induction false} ShiftedOrder(x: nat, y: nat, k: nat)
    ensures x <= y <==> Shifted(x, k) <= Shifted(y, k)
    ensures x == y <==> Shifted(x, k) == Shifted(y, k)
  {
    if k > 0 {
      ShiftedOrder(x, y, k - 1);
    }
  }

  lemma {:induction false} NatValConcat(a: string, b: string)
    requires AllDigits(a) && AllDigits(b)
    ensures AllDigits(a + b) && NatVal(a + b) == Shifted(NatVal(a), |b|) + NatVal(b)
  {
    if b == "" {
      assert a + b == a;
    } else {
      var front := b[..|b| - 1];
      NatValConcat(a, front);
      assert (a + b)[..|a + b| - 1] == a + front && (a + b)[|a + b| - 1] == b[|b| - 1];
    }
  }

  lemma {:induction false} NatValBounds(s: string)
    requires AllDigits(s)
    ensures NatVal(s) < Shifted(1, |s|)
    ensures s != "" && s[0] != '0' ==> Shifted(1, |s| - 1) <= NatVal(s)
  {
    if s != "" {
      NatValBounds(s[..|s| - 1]);
    }
  }

  lemma {:induction false} NatValZeros(s: string)
    requires forall i :: 0 <= i < |s| ==> s[i] == '0'
    ensures AllDigits(s) && NatVal(s) == 0
  {
    if s != "" {
      NatValZeros(s[..|s| - 1]);
    }
  }

  lemma {:induction false} NatValInjective(a: string, b: string)
    requires AllDigits(a) && AllDigits(b) && |a| == |b| && NatVal(a) == NatVal(b)
    ensures a == b
  {
    if a != "" {
      NatValInjective(a[..|a| - 1], b[..|b| - 1]);
      assert a == a[..|a| - 1] + [a[|a| - 1]] && b == b[..|b| - 1] + [b[|b| - 1]];
    }
  }

  lemma {:induction false} PaddedWithZero(s: string)
    requires AllDigits(s)
    ensures AllDigits("0" + s) && NatVal("0" + s) == NatVal(s)
  {
    NatValConcat("0", s);
    assert NatVal("0") == 0;
    ShiftedZero(|s|);
  }

  lemma {:induction false} ShiftedZero(k: nat)
    ensures Shifted(0, k) == 0
  {
    if k > 0 {
      ShiftedZero(k - 1);
    }
  }

  lemma {:induction false} LeadingZerosDenoteNothing(s: string)
    requires AllDigits(s)
    ensures AllDigits(TrimLeft(IsZero, s)) && NatVal(TrimLeft(IsZero, s)) == NatVal(s)
    ensures TrimLeft(IsZero, s) == "" <==> NatVal(s) == 0
    ensures TrimLeft(IsZero, s) != "" ==> TrimLeft(IsZero, s)[0] != '0'
  {
    if s != "" && s[0] == '0' {
      LeadingZerosDenoteNothing(s[1..]);
      PaddedWithZero(s[1..]);
      assert s == "0" + s[1..];
    } else if s != "" {
      NatValBounds(s);
      ShiftedOrder(1, 0, |s| - 1);
      ShiftedZero(|s| - 1);
    }
  }
}
