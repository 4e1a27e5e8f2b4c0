/** The CPF and CNPJ validators: two weighted modulo-11 sums whose remainder 10 collapses to 0. */
module CheckDigits {
  import opened Sequences

  function DigitOf(c: char): nat
    requires IsDigit(c)
  {
    c as int - '0' as int
  }

  /** `replace(/\D/g, '')`, as digit values. */
  function Cleaned(s: string): (ds: seq<nat>)
    ensures forall i :: 0 <= i < |ds| ==> ds[i] <= 9
  {
    if s == "" then []
    else if IsDigit(s[|s| - 1]) then Cleaned(s[..|s| - 1]) + [DigitOf(s[|s| - 1])]
    else Cleaned(s[..|s| - 1])
  }

  predicate Digits(d: seq<nat>) {
    forall i :: 0 <= i < |d| ==> d[i] <= 9
  }

  /** The weighted sum of the first `n` digits. */
  function Sum(d: seq<nat>, w: seq<nat>, n: nat): nat
    requires n <= |d| && n <= |w|
  {
    if n == 0 then 0 else Sum(d, w, n - 1) + d[n - 1] * w[n - 1]
  }

  /** The digit both validators expect for a sum: minus the sum modulo 11, with 10 read as 0. */
  function Check(sum: nat): (c: nat)
    ensures c <= 9
  {
    var r := (11 - sum % 11) % 11;
    if r == 10 then 0 else r
  }

  predicate AllSame(d: seq<nat>) {
    forall i :: 0 <= i < |d| ==> d[i] == d[0]
  }

  /** The last two digits are the check digits of the `n` digits before them. */
  predicate SumsHold(d: seq<nat>, w1: seq<nat>, w2: seq<nat>, n: nat)
    requires |d| == n + 2 && |w1| == n && |w2| == n + 1
  {
    Check(Sum(d, w1, n)) == d[n] && Check(Sum(d, w2, n + 1)) == d[n + 1]
  }

  const CPF1: seq<nat> := [10, 9, 8, 7, 6, 5, 4, 3, 2]
  const CPF2: seq<nat> := [11, 10, 9, 8, 7, 6, 5, 4, 3, 2]
  const CNPJ1: seq<nat> := [5, 4, 3, 2, 9, 8, 7, 6, 5, 4, 3, 2]
  const CNPJ2: seq<nat> := [6, 5, 4, 3, 2, 9, 8, 7, 6, 5, 4, 3, 2]

  predicate CpfDigits(d: seq<nat>) {
    |d| == 11 && !AllSame(d) && SumsHold(d, CPF1, CPF2, 9)
  }

  predicate CnpjDigits(d: seq<nat>) {
    |d| == 14 && !AllSame(d) && SumsHold(d, CNPJ1, CNPJ2, 12)
  }

  predicate CpfAccepts(s: string) {
    CpfDigits(Cleaned(s))
  }

  predicate CnpjAccepts(s: string) {
    CnpjDigits(Cleaned(s))
  }

  // ---- the rules in full ----

  lemma SumNext(d: seq<nat>, w: seq<nat>, n: nat, weight: nat)
    requires n < |d| && n < |w| && w[n] == weight
    ensures Sum(d, w, n + 1) == Sum(d, w, n) + weight * d[n]
  {
  }

  lemma CpfSum1(d: seq<nat>)
    requires |d| == 11
    ensures Sum(d, CPF1, 9) == 10 * d[0] + 9 * d[1] + 8 * d[2] + 7 * d[3] + 6 * d[4] + 5 * d[5] + 4 * d[6] + 3 * d[7] + 2 * d[8]
  {
    SumNext(d, CPF1, 0, 10);
    SumNext(d, CPF1, 1, 9);
    SumNext(d, CPF1, 2, 8);
    SumNext(d, CPF1, 3, 7);
    SumNext(d, CPF1, 4, 6);
    SumNext(d, CPF1, 5, 5);
    SumNext(d, CPF1, 6, 4);
    SumNext(d, CPF1, 7, 3);
    SumNext(d, CPF1, 8, 2);
  }

  lemma CpfSum2(d: seq<nat>)
    requires |d| == 11
    ensures Sum(d, CPF2, 10) == 11 * d[0] + 10 * d[1] + 9 * d[2] + 8 * d[3] + 7 * d[4] + 6 * d[5] + 5 * d[6] + 4 * d[7] + 3 * d[8] + 2 * d[9]
  {
    SumNext(d, CPF2, 0, 11);
    SumNext(d, CPF2, 1, 10);
    SumNext(d, CPF2, 2, 9);
    SumNext(d, CPF2, 3, 8);
    SumNext(d, CPF2, 4, 7);
    SumNext(d, CPF2, 5, 6);
    SumNext(d, CPF2, 6, 5);
    SumNext(d, CPF2, 7, 4);
    SumNext(d, CPF2, 8, 3);
    SumNext(d, CPF2, 9, 2);
  }

  lemma CnpjSum1(d: seq<nat>)
    requires |d| == 14
    ensures Sum(d, CNPJ1, 12) == 5 * d[0] + 4 * d[1] + 3 * d[2] + 2 * d[3] + 9 * d[4] + 8 * d[5] + 7 * d[6] + 6 * d[7] + 5 * d[8] + 4 * d[9] + 3 * d[10] + 2 * d[11]
  {
    SumNext(d, CNPJ1, 0, 5);
    SumNext(d, CNPJ1, 1, 4);
    SumNext(d, CNPJ1, 2, 3);
    SumNext(d, CNPJ1, 3, 2);
    SumNext(d, CNPJ1, 4, 9);
    SumNext(d, CNPJ1, 5, 8);
    SumNext(d, CNPJ1, 6, 7);
    SumNext(d, CNPJ1, 7, 6);
    SumNext(d, CNPJ1, 8, 5);
    SumNext(d, CNPJ1, 9, 4);
    SumNext(d, CNPJ1, 10, 3);
    SumNext(d, CNPJ1, 11, 2);
  }

  lemma CnpjSum2(d: seq<nat>)
    requires |d| == 14
    ensures Sum(d, CNPJ2, 13) == 6 * d[0] + 5 * d[1] + 4 * d[2] + 3 * d[3] + 2 * d[4] + 9 * d[5] + 8 * d[6] + 7 * d[7] + 6 * d[8] + 5 * d[9] + 4 * d[10] + 3 * d[11] + 2 * d[12]
  {
    SumNext(d, CNPJ2, 0, 6);
    SumNext(d, CNPJ2, 1, 5);
    SumNext(d, CNPJ2, 2, 4);
    SumNext(d, CNPJ2, 3, 3);
    SumNext(d, CNPJ2, 4, 2);
    SumNext(d, CNPJ2, 5, 9);
    SumNext(d, CNPJ2, 6, 8);
    SumNext(d, CNPJ2, 7, 7);
    SumNext(d, CNPJ2, 8, 6);
    SumNext(d, CNPJ2, 9, 5);
    SumNext(d, CNPJ2, 10, 4);
    SumNext(d, CNPJ2, 11, 3);
    SumNext(d, CNPJ2, 12, 2);
  }

  lemma AllSameIff(d: seq<nat>)
    requires d != []
    ensures AllSame(d) <==> !exists i :: 0 <= i < |d| && d[i] != d[0]
  {
  }

  lemma CheckIs(sum: nat)
    ensures Check(sum) == sum * 10 % 11 % 10
    ensures Check(sum) == if sum % 11 < 2 then 0 else 11 - sum % 11
  {
    TenTimesIsMinus(sum);
  }

  lemma CpfRuleInSums(d: seq<nat>)
    ensures CpfDigits(d) <==>
            && |d| == 11
            && (exists i :: 0 <= i < |d| && d[i] != d[0])
            && d[9] == Sum(d, CPF1, 9) * 10 % 11 % 10
            && d[10] == Sum(d, CPF2, 10) * 10 % 11 % 10
  {
    if |d| == 11 {
      AllSameIff(d);
      CheckIs(Sum(d, CPF1, 9));
      CheckIs(Sum(d, CPF2, 10));
    }
  }

  /** What makes eleven digits a CPF: two of them differ, and the last two follow from the others. */
  lemma CpfRule(d: seq<nat>)
    ensures CpfDigits(d) <==>
            && |d| == 11
            && (exists i :: 0 <= i < |d| && d[i] != d[0])
            && d[9] == (10 * d[0] + 9 * d[1] + 8 * d[2] + 7 * d[3] + 6 * d[4] + 5 * d[5] + 4 * d[6] + 3 * d[7] + 2 * d[8]) * 10 % 11 % 10
            && d[10] == (11 * d[0] + 10 * d[1] + 9 * d[2] + 8 * d[3] + 7 * d[4] + 6 * d[5] + 5 * d[6] + 4 * d[7] + 3 * d[8] + 2 * d[9]) * 10 % 11 % 10
  {
    CpfRuleInSums(d);
    if |d| == 11 {
      CpfSum1(d);
      CpfSum2(d);
    }
  }

  lemma CnpjRuleInSums(d: seq<nat>)
    ensures CnpjDigits(d) <==>
            && |d| == 14
            && (exists i :: 0 <= i < |d| && d[i] != d[0])
            && d[12] == Sum(d, CNPJ1, 12) * 10 % 11 % 10
            && d[13] == Sum(d, CNPJ2, 13) * 10 % 11 % 10
  {
    if |d| == 14 {
      AllSameIff(d);
      CheckIs(Sum(d, CNPJ1, 12));
      CheckIs(Sum(d, CNPJ2, 13));
    }
  }

  /** What makes fourteen digits a CNPJ: two of them differ, and the last two follow from the others. */
  lemma CnpjRule(d: seq<nat>)
    ensures CnpjDigits(d) <==>
            && |d| == 14
            && (exists i :: 0 <= i < |d| && d[i] != d[0])
            && d[12] == (5 * d[0] + 4 * d[1] + 3 * d[2] + 2 * d[3] + 9 * d[4] + 8 * d[5] + 7 * d[6] + 6 * d[7] + 5 * d[8] + 4 * d[9] + 3 * d[10] + 2 * d[11]) * 10 % 11 % 10
            && d[13] == (6 * d[0] + 5 * d[1] + 4 * d[2] + 3 * d[3] + 2 * d[4] + 9 * d[5] + 8 * d[6] + 7 * d[7] + 6 * d[8] + 5 * d[9] + 4 * d[10] + 3 * d[11] + 2 * d[12]) * 10 % 11 % 10
  {
    CnpjRuleInSums(d);
    if |d| == 14 {
      CnpjSum1(d);
      CnpjSum2(d);
    }
  }

  /** A text whose digits are all the same is refused by both. */
  lemma RepeatedDigitsAreRefused(s: string, x: nat)
    requires forall i :: 0 <= i < |Cleaned(s)| ==> Cleaned(s)[i] == x
    ensures !CpfAccepts(s) && !CnpjAccepts(s)
  {
    CpfRule(Cleaned(s));
    CnpjRule(Cleaned(s));
  }

  // ---- the validators ----

  method ValidateCpf(cpf: string) returns (ok: bool)
    ensures var d := Cleaned(cpf);
            ok <==>
            && |d| == 11
            && (exists i :: 0 <= i < |d| && d[i] != d[0])
            && d[9] == Sum(d, CPF1, 9) * 10 % 11 % 10
            && d[10] == Sum(d, CPF2, 10) * 10 % 11 % 10
    ensures ok == CpfAccepts(cpf)
  {
    CpfRuleInSums(Cleaned(cpf));
    var cleaned := Cleaned(cpf);
    if |cleaned| != 11 {
      return false;
    }
    if AllSame(cleaned) {
      return false;
    }
    var sum := 0;
    for i := 0 to 9
      invariant sum == Sum(cleaned, CPF1, i)
    {
      sum := sum + cleaned[i] * (10 - i);
    }
    var remainder := (sum * 10) % 11;
    if remainder == 10 {
      remainder := 0;
    }
    TenTimesIsMinus(Sum(cleaned, CPF1, 9));
    if remainder != cleaned[9] {
      return false;
    }
    sum := 0;
    for i := 0 to 10
      invariant sum == Sum(cleaned, CPF2, i)
    {
      sum := sum + cleaned[i] * (11 - i);
    }
    remainder := (sum * 10) % 11;
    if remainder == 10 {
      remainder := 0;
    }
    TenTimesIsMinus(Sum(cleaned, CPF2, 10));
    if remainder != cleaned[10] {
      return false;
    }
    return true;
  }

  lemma TenTimesIsMinus(sum: nat)
    ensures (sum * 10) % 11 == (11 - sum % 11) % 11
  {
    assert sum * 10 == 11 * (sum - sum / 11 - 1) + (11 - sum % 11);
  }

  lemma RemainderIsCheck(sum: nat)
    ensures (if sum % 11 < 2 then 0 else 11 - sum % 11) == Check(sum)
  {
  }

  method ValidateCnpj(cnpj: string) returns (ok: bool)
    ensures var d := Cleaned(cnpj);
            ok <==>
            && |d| == 14
            && (exists i :: 0 <= i < |d| && d[i] != d[0])
            && d[12] == Sum(d, CNPJ1, 12) * 10 % 11 % 10
            && d[13] == Sum(d, CNPJ2, 13) * 10 % 11 % 10
    ensures ok == CnpjAccepts(cnpj)
  {
    CnpjRuleInSums(Cleaned(cnpj));
    var cleaned := Cleaned(cnpj);
    if |cleaned| != 14 {
      return false;
    }
    if AllSame(cleaned) {
      return false;
    }
    var weights1 := CNPJ1;
    var sum := 0;
    for i := 0 to 12
      invariant sum == Sum(cleaned, CNPJ1, i)
    {
      sum := sum + cleaned[i] * weights1[i];
    }
    var remainder := sum % 11;
    var digit1 := if remainder < 2 then 0 else 11 - remainder;
    RemainderIsCheck(Sum(cleaned, CNPJ1, 12));
    if digit1 != cleaned[12] {
      return false;
    }
    var weights2 := CNPJ2;
    sum := 0;
    for i := 0 to 13
      invariant sum == Sum(cleaned, CNPJ2, i)
    {
      sum := sum + cleaned[i] * weights2[i];
    }
    remainder := sum % 11;
    var digit2 := if remainder < 2 then 0 else 11 - remainder;
    RemainderIsCheck(Sum(cleaned, CNPJ2, 13));
    if digit2 != cleaned[13] {
      return false;
    }
    return true;
  }

  // ---- formatting ----

  lemma {:induction false} CleanedConcat(a: string, b: string)
    ensures Cleaned(a + b) == Cleaned(a) + Cleaned(b)
  {
    if b == "" {
      assert a + b == a;
    } else {
      assert (a + b)[..|a + b| - 1] == a + b[..|b| - 1];
      CleanedConcat(a, b[..|b| - 1]);
    }
  }

  /** Of any one character: a decimal digit is read with its value, anything else is dropped. */
  lemma CleanedCharacter(a: string, c: char, b: string)
    ensures Cleaned(a + [c] + b) == Cleaned(a) + (if '0' <= c <= '9' then [c as nat - '0' as nat] else []) + Cleaned(b)
  {
    CleanedConcat(a + [c], b);
    CleanedConcat(a, [c]);
    assert [c][..0] == "";
  }

  /** A non-digit anywhere never changes either verdict. */
  lemma PunctuationIsIgnored(a: string, c: char, b: string)
    requires !IsDigit(c)
    ensures CpfAccepts(a + [c] + b) == CpfAccepts(a + b) && CnpjAccepts(a + [c] + b) == CnpjAccepts(a + b)
  {
    CleanedConcat(a + [c], b);
    CleanedConcat(a, [c]);
    CleanedConcat(a, b);
    assert Cleaned([c]) == [] by {
      assert [c][..0] == "";
    }
  }

  // ---- check digits of a base ----

  lemma {:induction false} SumOfPrefix(d: seq<nat>, e: seq<nat>, w: seq<nat>, n: nat)
    requires n <= |d| && n <= |e| && n <= |w| && d[..n] == e[..n]
    ensures Sum(d, w, n) == Sum(e, w, n)
  {
    if n > 0 {
      assert d[..n - 1] == d[..n][..n - 1] && e[..n - 1] == e[..n][..n - 1];
      assert d[..n][n - 1] == e[..n][n - 1];
      SumOfPrefix(d, e, w, n - 1);
    }
  }

  /** Each base has exactly one pair of check digits satisfying both sums. */
  lemma OnePairOfCheckDigits(base: seq<nat>, w1: seq<nat>, w2: seq<nat>) returns (x: nat, y: nat)
    requires |w1| == |base| && |w2| == |base| + 1
    ensures x <= 9 && y <= 9
    ensures forall a: nat, b: nat :: SumsHold(base + [a, b], w1, w2, |base|) <==> a == x && b == y
  {
    var n := |base|;
    x := Check(Sum(base, w1, n));
    y := Check(Sum(base + [x], w2, n + 1));
    forall a: nat, b: nat ensures SumsHold(base + [a, b], w1, w2, n) <==> a == x && b == y {
      var d := base + [a, b];
      assert d[..n] == base[..n];
      SumOfPrefix(d, base, w1, n);
      assert d[..n + 1] == (base + [a])[..n + 1];
      SumOfPrefix(d, base + [a], w2, n + 1);
    }
  }

  // ---- single-digit errors ----

  ghost predicate DifferAt(d: seq<nat>, e: seq<nat>, p: nat) {
    |d| == |e| && p < |d| && d[p] != e[p] && forall i :: 0 <= i < |d| && i != p ==> d[i] == e[i]
  }

  /** The change of the digit at `p`. */
  function Delta(d: seq<nat>, e: seq<nat>, p: nat): int
    requires p < |d| && p < |e|
  {
    var before: int, after: int := d[p], e[p];
    after - before
  }

  lemma {:induction false} SumDifference(d: seq<nat>, e: seq<nat>, w: seq<nat>, n: nat, p: nat)
    requires DifferAt(d, e, p) && n <= |d| && n <= |w|
    ensures var before: int, after: int := Sum(d, w, n), Sum(e, w, n);
            after - before == if p < n then Delta(d, e, p) * w[p] else 0
  {
    if n > 0 {
      SumDifference(d, e, w, n - 1, p);
      assert p == n - 1 ==> Delta(d, e, p) * w[p] + d[p] * w[p] == e[p] * w[p];
    }
  }

  /** The residues modulo 11 that a change of the sum can have without changing the expected digit. */
  predicate Unnoticed(change: int) {
    change % 11 == 0 || change % 11 == 1 || change % 11 == 10
  }

  lemma SameCheck(a: int, b: int)
    requires a >= 0 && b >= 0 && Check(a) == Check(b)
    ensures Unnoticed(b - a)
  {
    assert a == 11 * (a / 11) + a % 11 && b == 11 * (b / 11) + b % 11;
    assert b - a == 11 * (b / 11 - a / 11) + (b % 11 - a % 11);
  }

  /** What an accepted change of one digit must satisfy: it sits before the check digits and both sums overlook it. */
  lemma BothSumsOverlook(d: seq<nat>, e: seq<nat>, w1: seq<nat>, w2: seq<nat>, n: nat, p: nat)
    requires |d| == |e| == n + 2 && |w1| == n && |w2| == n + 1
    requires SumsHold(d, w1, w2, n) && SumsHold(e, w1, w2, n) && DifferAt(d, e, p)
    ensures p < n && Unnoticed(Delta(d, e, p) * w1[p]) && Unnoticed(Delta(d, e, p) * w2[p])
  {
    SumDifference(d, e, w1, n, p);
    SumDifference(d, e, w2, n + 1, p);
    assert p != n + 1;
    assert p != n;
    SameCheck(Sum(d, w1, n), Sum(e, w1, n));
    SameCheck(Sum(d, w2, n + 1), Sum(e, w2, n + 1));
  }

  /** Both validators pair each weight with its successor, except 9 with 2. */
  lemma SuccessorWeights(a: nat, delta: int)
    requires 2 <= a <= 10 && -9 <= delta <= 9 && delta != 0
    requires Unnoticed(delta * a) && Unnoticed(delta * (a + 1))
    ensures (a == 10 && (delta == 1 || delta == -1)) || (a == 5 && (delta == 2 || delta == -2 || delta == 9 || delta == -9))
  {
    if a == 2 {
    } else if a == 3 {
    } else if a == 4 {
    } else if a == 5 {
    } else if a == 6 {
    } else if a == 7 {
    } else if a == 8 {
    } else if a == 9 {
    } else {
    }
  }

  lemma NineAndTwo(delta: int)
    requires -9 <= delta <= 9 && delta != 0 && Unnoticed(delta * 9) && Unnoticed(delta * 2)
    ensures delta == 5 || delta == -5 || delta == 6 || delta == -6
  {
  }

  /** The single-digit changes of a CPF that can go unnoticed: position and difference. */
  predicate CpfBlindSpot(p: nat, delta: int) {
    (p == 0 && (delta == 1 || delta == -1)) ||
    (p == 5 && (delta == 2 || delta == -2 || delta == 9 || delta == -9))
  }

  predicate CnpjBlindSpot(p: nat, delta: int) {
    ((p == 0 || p == 8) && (delta == 2 || delta == -2 || delta == 9 || delta == -9)) ||
    (p == 4 && (delta == 5 || delta == -5 || delta == 6 || delta == -6))
  }

  /** Two accepted CPFs that differ in one digit differ by ±1 at position 0, or by ±2 or ±9 at position 5. */
  lemma CpfMissesOnly(s: string, t: string, p: nat)
    requires CpfAccepts(s) && CpfAccepts(t) && DifferAt(Cleaned(s), Cleaned(t), p)
    ensures CpfBlindSpot(p, Delta(Cleaned(s), Cleaned(t), p))
  {
    BothSumsOverlook(Cleaned(s), Cleaned(t), CPF1, CPF2, 9, p);
    assert CPF1[p] == 10 - p && CPF2[p] == 11 - p;
    SuccessorWeights(10 - p, Delta(Cleaned(s), Cleaned(t), p));
  }

  /** Two accepted CNPJs that differ in one digit differ by ±2 or ±9 at position 0 or 8, or by ±5 or ±6 at position 4. */
  lemma CnpjMissesOnly(s: string, t: string, p: nat)
    requires CnpjAccepts(s) && CnpjAccepts(t) && DifferAt(Cleaned(s), Cleaned(t), p)
    ensures CnpjBlindSpot(p, Delta(Cleaned(s), Cleaned(t), p))
  {
    BothSumsOverlook(Cleaned(s), Cleaned(t), CNPJ1, CNPJ2, 12, p);
    if p == 4 {
      assert CNPJ1[p] == 9 && CNPJ2[p] == 2;
      NineAndTwo(Delta(Cleaned(s), Cleaned(t), p));
    } else {
      CnpjWeights(p);
      SuccessorWeights(CNPJ1[p], Delta(Cleaned(s), Cleaned(t), p));
    }
  }

  lemma CnpjWeights(p: nat)
    requires p < 12 && p != 4
    ensures 2 <= CNPJ1[p] <= 8 && CNPJ2[p] == CNPJ1[p] + 1 && (CNPJ1[p] == 5 <==> p == 0 || p == 8)
  {
  }

  // ---- every blind spot is real ----

  function Rendered(d: seq<nat>): (s: string)
    requires Digits(d)
    ensures Cleaned(s) == d
  {
    if d == [] then ""
    else
      var s := Rendered(d[..|d| - 1]) + [('0' as int + d[|d| - 1]) as char];
      assert s[..|s| - 1] == Rendered(d[..|d| - 1]);
      s
  }

  /** A pair of accepted numbers that differ as asked, one of them being the other with its digit at `p` moved by `delta`. */
  lemma CpfBlindSpotsAreReal(p: nat, delta: int) returns (s: string, t: string)
    requires CpfBlindSpot(p, delta)
    ensures CpfAccepts(s) && CpfAccepts(t) && DifferAt(Cleaned(s), Cleaned(t), p) && Delta(Cleaned(s), Cleaned(t), p) == delta
  {
    var d, e := CpfWitness(p, if delta < 0 then -delta else delta);
    if delta > 0 {
      s, t := Rendered(d), Rendered(e);
    } else {
      s, t := Rendered(e), Rendered(d);
    }
  }

  /** The sum of a number whose only nonzero digits are at `i` and `k`. */
  lemma {:induction false} SparseSum(d: seq<nat>, w: seq<nat>, n: nat, i: nat, k: nat)
    requires n <= |d| && n <= |w| && i < k && forall j :: 0 <= j < |d| && j != i && j != k ==> d[j] == 0
    ensures Sum(d, w, n) == (if i < n then d[i] * w[i] else 0) + (if k < n then d[k] * w[k] else 0)
  {
    if n > 0 {
      SparseSum(d, w, n - 1, i, k);
    }
  }

  /** The sum of two weighted digits leaves the check digit 0, with or without `delta` more at `p`. */
  predicate Overlooks(w: seq<nat>, i: nat, x: nat, k: nat, y: nat, p: nat, delta: nat)
    requires i < |w| && k < |w| && p < |w|
  {
    Check(x * w[i] + y * w[k]) == 0 && Check(x * w[i] + y * w[k] + delta * w[p]) == 0
  }

  /**
    A number that is zero but for `x` at `i` and `y` at `k`, and the same with `delta` more at `p`;
    both pass, with both check digits 0, when both sums overlook the change.
  */
  lemma SparsePair(w1: seq<nat>, w2: seq<nat>, n: nat, i: nat, x: nat, k: nat, y: nat, p: nat, delta: nat)
    returns (d: seq<nat>, e: seq<nat>)
    requires |w1| == n && |w2| == n + 1 && i < k < n && p < n && 0 < x <= 9 && y <= 9 && delta > 0
    requires delta + (if p == i then x else if p == k then y else 0) <= 9
    requires Overlooks(w1, i, x, k, y, p, delta) && Overlooks(w2, i, x, k, y, p, delta)
    ensures |d| == |e| == n + 2 && Digits(d) && Digits(e) && SumsHold(d, w1, w2, n) && SumsHold(e, w1, w2, n)
    ensures DifferAt(d, e, p) && Delta(d, e, p) == delta && !AllSame(d) && !AllSame(e)
  {
    d := seq(n + 2, j => if j == i then x else if j == k then y else 0);
    e := d[p := d[p] + delta];
    assert d[i] != d[n + 1] && e[i] != e[n + 1];
    SparseSum(d, w1, n, i, k);
    SparseSum(d, w2, n + 1, i, k);
    SumDifference(d, e, w1, n, p);
    SumDifference(d, e, w2, n + 1, p);
  }

  lemma CpfPair1() returns (d: seq<nat>, e: seq<nat>)
    ensures Digits(d) && Digits(e) && CpfDigits(d) && CpfDigits(e) && DifferAt(d, e, 0) && Delta(d, e, 0) == 1
  {
    d, e := SparsePair(CPF1, CPF2, 9, 0, 6, 2, 5, 0, 1);
  }

  lemma CpfPair2() returns (d: seq<nat>, e: seq<nat>)
    ensures Digits(d) && Digits(e) && CpfDigits(d) && CpfDigits(e) && DifferAt(d, e, 5) && Delta(d, e, 5) == 2
  {
    d, e := SparsePair(CPF1, CPF2, 9, 1, 9, 2, 1, 5, 2);
  }

  lemma CpfPair3() returns (d: seq<nat>, e: seq<nat>)
    ensures Digits(d) && Digits(e) && CpfDigits(d) && CpfDigits(e) && DifferAt(d, e, 5) && Delta(d, e, 5) == 9
  {
    d, e := SparsePair(CPF1, CPF2, 9, 0, 7, 2, 5, 5, 9);
  }

  lemma CpfWitness(p: nat, size: int) returns (d: seq<nat>, e: seq<nat>)
    requires size > 0 && CpfBlindSpot(p, size)
    ensures Digits(d) && Digits(e) && CpfDigits(d) && CpfDigits(e) && DifferAt(d, e, p) && Delta(d, e, p) == size
  {
    if p == 0 {
      d, e := CpfPair1();
    } else if size == 2 {
      d, e := CpfPair2();
    } else {
      d, e := CpfPair3();
    }
  }

  lemma CnpjBlindSpotsAreReal(p: nat, delta: int) returns (s: string, t: string)
    requires CnpjBlindSpot(p, delta)
    ensures CnpjAccepts(s) && CnpjAccepts(t) && DifferAt(Cleaned(s), Cleaned(t), p) && Delta(Cleaned(s), Cleaned(t), p) == delta
  {
    var d, e := CnpjWitness(p, if delta < 0 then -delta else delta);
    if delta > 0 {
      s, t := Rendered(d), Rendered(e);
    } else {
      s, t := Rendered(e), Rendered(d);
    }
  }

  lemma CnpjPair1() returns (d: seq<nat>, e: seq<nat>)
    ensures Digits(d) && Digits(e) && CnpjDigits(d) && CnpjDigits(e) && DifferAt(d, e, 0) && Delta(d, e, 0) == 2
  {
    d, e := SparsePair(CNPJ1, CNPJ2, 12, 0, 5, 1, 5, 0, 2);
  }

  lemma CnpjPair2() returns (d: seq<nat>, e: seq<nat>)
    ensures Digits(d) && Digits(e) && CnpjDigits(d) && CnpjDigits(e) && DifferAt(d, e, 0) && Delta(d, e, 0) == 9
  {
    d, e := SparsePair(CNPJ1, CNPJ2, 12, 1, 8, 2, 4, 0, 9);
  }

  lemma CnpjPair3() returns (d: seq<nat>, e: seq<nat>)
    ensures Digits(d) && Digits(e) && CnpjDigits(d) && CnpjDigits(e) && DifferAt(d, e, 8) && Delta(d, e, 8) == 2
  {
    d, e := SparsePair(CNPJ1, CNPJ2, 12, 0, 5, 1, 5, 8, 2);
  }

  lemma CnpjPair4() returns (d: seq<nat>, e: seq<nat>)
    ensures Digits(d) && Digits(e) && CnpjDigits(d) && CnpjDigits(e) && DifferAt(d, e, 8) && Delta(d, e, 8) == 9
  {
    d, e := SparsePair(CNPJ1, CNPJ2, 12, 0, 7, 1, 5, 8, 9);
  }

  lemma CnpjPair5() returns (d: seq<nat>, e: seq<nat>)
    ensures Digits(d) && Digits(e) && CnpjDigits(d) && CnpjDigits(e) && DifferAt(d, e, 4) && Delta(d, e, 4) == 5
  {
    d, e := SparsePair(CNPJ1, CNPJ2, 12, 0, 7, 1, 5, 4, 5);
  }

  lemma CnpjPair6() returns (d: seq<nat>, e: seq<nat>)
    ensures Digits(d) && Digits(e) && CnpjDigits(d) && CnpjDigits(e) && DifferAt(d, e, 4) && Delta(d, e, 4) == 6
  {
    d, e := SparsePair(CNPJ1, CNPJ2, 12, 0, 5, 1, 5, 4, 6);
  }

  lemma CnpjWitness(p: nat, size: int) returns (d: seq<nat>, e: seq<nat>)
    requires size > 0 && CnpjBlindSpot(p, size)
    ensures Digits(d) && Digits(e) && CnpjDigits(d) && CnpjDigits(e) && DifferAt(d, e, p) && Delta(d, e, p) == size
  {
    if p == 0 && size == 2 {
      d, e := CnpjPair1();
    } else if p == 0 {
      d, e := CnpjPair2();
    } else if p == 8 && size == 2 {
      d, e := CnpjPair3();
    } else if p == 8 {
      d, e := CnpjPair4();
    } else if size == 5 {
      d, e := CnpjPair5();
    } else {
      d, e := CnpjPair6();
    }
  }
}
