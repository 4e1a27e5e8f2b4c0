/** Which exchanges of two neighbouring digits the CPF and CNPJ validators let pass. */
module CheckDigitSwaps {
  import opened CheckDigits

  /** `e` is `d` with its unequal digits at `p` and `p + 1` exchanged. */
  ghost predicate SwappedAt(d: seq<nat>, e: seq<nat>, p: nat) {
    p + 1 < |d| && d[p] != d[p + 1] && e == d[p := d[p + 1]][p + 1 := d[p]]
  }

  lemma SwapBack(d: seq<nat>, e: seq<nat>, p: nat)
    requires SwappedAt(d, e, p)
    ensures SwappedAt(e, d, p) && Delta(e, d, p) == -Delta(d, e, p) && !AllSame(d) && !AllSame(e)
    ensures Digits(d) ==> Digits(e)
  {
    assert d[p] != d[0] || d[p + 1] != d[0];
    assert e[p] != e[0] || e[p + 1] != e[0];
  }

  /** An exchange changes a sum by the difference of the digits times the step between their weights. */
  lemma SwapDifference(d: seq<nat>, e: seq<nat>, w: seq<nat>, n: nat, p: nat)
    requires SwappedAt(d, e, p) && n <= |d| && n <= |w|
    ensures var before: int, after: int := Sum(d, w, n), Sum(e, w, n);
            after - before == (if p < n then Delta(d, e, p) * w[p] else 0) - (if p + 1 < n then Delta(d, e, p) * w[p + 1] else 0)
  {
    var f := d[p := d[p + 1]];
    SumDifference(d, f, w, n, p);
    SumDifference(f, e, w, n, p + 1);
    assert Delta(d, f, p) == Delta(d, e, p) && Delta(f, e, p + 1) == -Delta(d, e, p);
    if p + 1 < n {
      NegatedProduct(Delta(d, e, p), w[p + 1]);
    }
  }

  lemma NegatedProduct(a: int, b: int)
    ensures -a * b == -(a * b)
  {
  }

  // ---- when a change of a sum goes unnoticed ----

  /** A sum whose remainder is the value read as 0 twice: a step up from 0 or down from 1 keeps the check digit. */
  predicate Absorbs(sum: nat, delta: int) {
    (delta == 1 && sum % 11 == 0) || (delta == -1 && sum % 11 == 1)
  }

  lemma SmallChange(before: nat, after: nat, delta: int)
    requires after == before + delta && delta != 0 && -9 <= delta <= 9
    ensures Check(before) == Check(after) <==> Absorbs(before, delta)
  {
  }

  lemma SevenfoldChange(before: nat, after: nat, delta: int)
    requires after == before - 7 * delta && (delta == 1 || delta == -1)
    ensures Check(before) != Check(after)
  {
  }

  // ---- where both digits lie before the check digits ----

  lemma SplitProduct(delta: int, a: int, b: int, step: int)
    requires a == b + step
    ensures delta * a - delta * b == delta * step
  {
  }

  /** Under weights that step down by one, an exchange is noticed unless the sum absorbs the difference. */
  lemma UnitStep(d: seq<nat>, e: seq<nat>, w: seq<nat>, n: nat, p: nat)
    requires p + 1 < n <= |d| && n <= |w| && w[p] == w[p + 1] + 1
    requires Digits(d) && SwappedAt(d, e, p)
    ensures Check(Sum(d, w, n)) == Check(Sum(e, w, n)) <==> Absorbs(Sum(d, w, n), Delta(d, e, p))
  {
    SwapDifference(d, e, w, n, p);
    SplitProduct(Delta(d, e, p), w[p], w[p + 1], 1);
    SmallChange(Sum(d, w, n), Sum(e, w, n), Delta(d, e, p));
  }

  /** Where the weight goes from 2 up to 9, an exchange of digits that differ by one is always noticed. */
  lemma StepUp(d: seq<nat>, e: seq<nat>, w: seq<nat>, n: nat, p: nat)
    requires p + 1 < n <= |d| && n <= |w| && w[p] == 2 && w[p + 1] == 9
    requires SwappedAt(d, e, p) && (Delta(d, e, p) == 1 || Delta(d, e, p) == -1)
    ensures Check(Sum(d, w, n)) != Check(Sum(e, w, n))
  {
    SwapDifference(d, e, w, n, p);
    SevenfoldChange(Sum(d, w, n), Sum(e, w, n), Delta(d, e, p));
  }

  /** With both weights stepping down by one, the digits must differ by one and both sums must absorb it. */
  lemma UnitSteps(d: seq<nat>, e: seq<nat>, w1: seq<nat>, w2: seq<nat>, n: nat, p: nat)
    requires |d| == n + 2 && |w1| == n && |w2| == n + 1 && p + 1 < n
    requires w1[p] == w1[p + 1] + 1 && w2[p] == w2[p + 1] + 1
    requires Digits(d) && SumsHold(d, w1, w2, n) && SwappedAt(d, e, p)
    ensures SumsHold(e, w1, w2, n) <==> Absorbs(Sum(d, w1, n), Delta(d, e, p)) && Absorbs(Sum(d, w2, n + 1), Delta(d, e, p))
  {
    UnitStep(d, e, w1, n, p);
    UnitStep(d, e, w2, n + 1, p);
  }

  /** Where one weight goes from 2 up to 9 while the other steps down by one, no exchange passes. */
  lemma StepUpAndDown(d: seq<nat>, e: seq<nat>, w1: seq<nat>, w2: seq<nat>, n: nat, p: nat)
    requires |d| == n + 2 && |w1| == n && |w2| == n + 1 && p + 1 < n
    requires (w1[p] == 2 && w1[p + 1] == 9 && w2[p] == w2[p + 1] + 1) || (w1[p] == w1[p + 1] + 1 && w2[p] == 2 && w2[p + 1] == 9)
    requires Digits(d) && SumsHold(d, w1, w2, n) && SwappedAt(d, e, p)
    ensures !SumsHold(e, w1, w2, n)
  {
    if w2[p] == w2[p + 1] + 1 {
      UnitStep(d, e, w2, n + 1, p);
      if Delta(d, e, p) == 1 || Delta(d, e, p) == -1 {
        StepUp(d, e, w1, n, p);
      }
    } else {
      UnitStep(d, e, w1, n, p);
      if Delta(d, e, p) == 1 || Delta(d, e, p) == -1 {
        StepUp(d, e, w2, n + 1, p);
      }
    }
  }

  // ---- where a check digit takes part ----

  /** Twice the difference of the two digits turns one expected digit into the other only between 0 and 1. */
  lemma DoubledChange(before: nat, after: nat, x: nat, y: nat)
    requires after == before + 2 * (y - x) && (y == x + 1 || x == y + 1) && Check(before) == y
    ensures Check(after) == x <==> (x == 0 && y == 1) || (x == 1 && y == 0 && before % 11 == 1)
  {
  }

  lemma BorderDifference(d: seq<nat>, e: seq<nat>, w1: seq<nat>, w2: seq<nat>, n: nat)
    requires n > 0 && |d| == n + 2 && |w1| == n && |w2| == n + 1
    requires w1[n - 1] == 2 && w2[n - 1] == 3 && w2[n] == 2 && SwappedAt(d, e, n - 1)
    ensures Sum(e, w1, n) == Sum(d, w1, n) + 2 * Delta(d, e, n - 1)
    ensures Sum(e, w2, n + 1) == Sum(d, w2, n + 1) + Delta(d, e, n - 1)
  {
    SwapDifference(d, e, w1, n, n - 1);
    SwapDifference(d, e, w2, n + 1, n - 1);
  }

  /** The last digit before the check digits against the first of them, under weights ending in 2 and in 3, 2. */
  lemma AcrossTheBorder(d: seq<nat>, e: seq<nat>, w1: seq<nat>, w2: seq<nat>, n: nat)
    requires n > 0 && |d| == n + 2 && |w1| == n && |w2| == n + 1
    requires w1[n - 1] == 2 && w2[n - 1] == 3 && w2[n] == 2
    requires Digits(d) && SumsHold(d, w1, w2, n) && SwappedAt(d, e, n - 1)
    ensures SumsHold(e, w1, w2, n) <==>
            Absorbs(Sum(d, w2, n + 1), Delta(d, e, n - 1)) &&
            ((d[n - 1] == 0 && d[n] == 1) || (d[n - 1] == 1 && d[n] == 0 && Sum(d, w1, n) % 11 == 1))
  {
    var delta := Delta(d, e, n - 1);
    BorderDifference(d, e, w1, w2, n);
    SmallChange(Sum(d, w2, n + 1), Sum(e, w2, n + 1), delta);
    if delta == 1 || delta == -1 {
      DoubledChange(Sum(d, w1, n), Sum(e, w1, n), d[n - 1], d[n]);
    }
  }

  /** The two check digits cannot be exchanged: the digits before them determine both. */
  lemma CheckDigitsStayInOrder(d: seq<nat>, e: seq<nat>, w1: seq<nat>, w2: seq<nat>, n: nat)
    requires |d| == n + 2 && |w1| == n && |w2| == n + 1
    requires SumsHold(d, w1, w2, n) && SwappedAt(d, e, n)
    ensures !SumsHold(e, w1, w2, n)
  {
    assert d[..n] == e[..n];
    SumOfPrefix(d, e, w1, n);
  }

  // ---- the two validators ----

  /** The exchanges an accepted CPF survives. */
  ghost predicate CpfSurvives(d: seq<nat>, e: seq<nat>, p: nat)
    requires |d| == |e| == 11 && p < 10
  {
    p <= 8 &&
    Absorbs(Sum(d, CPF2, 10), Delta(d, e, p)) &&
    if p < 8 then Absorbs(Sum(d, CPF1, 9), Delta(d, e, p))
    else (d[8] == 0 && d[9] == 1) || (d[8] == 1 && d[9] == 0 && Sum(d, CPF1, 9) % 11 == 1)
  }

  /** The exchanges an accepted CNPJ survives: as for a CPF, but for the pairs at which a weight goes from 2 to 9. */
  ghost predicate CnpjSurvives(d: seq<nat>, e: seq<nat>, p: nat)
    requires |d| == |e| == 14 && p < 13
  {
    p <= 11 && p != 3 && p != 4 &&
    Absorbs(Sum(d, CNPJ2, 13), Delta(d, e, p)) &&
    if p < 11 then Absorbs(Sum(d, CNPJ1, 12), Delta(d, e, p))
    else (d[11] == 0 && d[12] == 1) || (d[11] == 1 && d[12] == 0 && Sum(d, CNPJ1, 12) % 11 == 1)
  }

  /** After exchanging two neighbouring unequal digits of an accepted CPF the result is accepted exactly when it is such an exchange. */
  lemma CpfSwapPassesIff(s: string, t: string, p: nat)
    requires CpfAccepts(s) && SwappedAt(Cleaned(s), Cleaned(t), p)
    ensures CpfAccepts(t) <==> CpfSurvives(Cleaned(s), Cleaned(t), p)
  {
    var d, e := Cleaned(s), Cleaned(t);
    SwapBack(d, e, p);
    if p < 8 {
      assert CPF1[p] == 10 - p && CPF1[p + 1] == 9 - p && CPF2[p] == 11 - p && CPF2[p + 1] == 10 - p;
      UnitSteps(d, e, CPF1, CPF2, 9, p);
    } else if p == 8 {
      AcrossTheBorder(d, e, CPF1, CPF2, 9);
    } else {
      CheckDigitsStayInOrder(d, e, CPF1, CPF2, 9);
    }
  }

  /** The same of an accepted CNPJ. */
  lemma CnpjSwapPassesIff(s: string, t: string, p: nat)
    requires CnpjAccepts(s) && SwappedAt(Cleaned(s), Cleaned(t), p)
    ensures CnpjAccepts(t) <==> CnpjSurvives(Cleaned(s), Cleaned(t), p)
  {
    var d, e := Cleaned(s), Cleaned(t);
    SwapBack(d, e, p);
    if p == 3 || p == 4 {
      StepUpAndDown(d, e, CNPJ1, CNPJ2, 12, p);
    } else if p < 11 {
      CnpjSteps(p);
      UnitSteps(d, e, CNPJ1, CNPJ2, 12, p);
    } else if p == 11 {
      AcrossTheBorder(d, e, CNPJ1, CNPJ2, 12);
    } else {
      CheckDigitsStayInOrder(d, e, CNPJ1, CNPJ2, 12);
    }
  }

  lemma CnpjSteps(p: nat)
    requires p < 11 && p != 3 && p != 4
    ensures CNPJ1[p] == CNPJ1[p + 1] + 1 && CNPJ2[p] == CNPJ2[p + 1] + 1
  {
  }

  /** The exchanges of neighbouring digits of a CPF that can go unnoticed: position and difference. */
  predicate CpfSwapBlindSpot(p: nat, delta: int) {
    p <= 8 && (delta == 1 || delta == -1)
  }

  predicate CnpjSwapBlindSpot(p: nat, delta: int) {
    p <= 11 && p != 3 && p != 4 && (delta == 1 || delta == -1)
  }

  /** Two accepted CPFs that are one exchange apart exchange digits that differ by one, and at the border these are 0 and 1. */
  lemma CpfSwapsMissedOnly(s: string, t: string, p: nat)
    requires CpfAccepts(s) && CpfAccepts(t) && SwappedAt(Cleaned(s), Cleaned(t), p)
    ensures CpfSwapBlindSpot(p, Delta(Cleaned(s), Cleaned(t), p))
    ensures p == 8 ==> Cleaned(s)[8] + Cleaned(s)[9] == 1
  {
    CpfSwapPassesIff(s, t, p);
  }

  lemma CnpjSwapsMissedOnly(s: string, t: string, p: nat)
    requires CnpjAccepts(s) && CnpjAccepts(t) && SwappedAt(Cleaned(s), Cleaned(t), p)
    ensures CnpjSwapBlindSpot(p, Delta(Cleaned(s), Cleaned(t), p))
    ensures p == 11 ==> Cleaned(s)[11] + Cleaned(s)[12] == 1
  {
    CnpjSwapPassesIff(s, t, p);
  }

  // ---- every such exchange occurs ----

  /** The sum of a number that is zero but at three positions. */
  lemma {:induction false} SumOfThree(d: seq<nat>, w: seq<nat>, n: nat, i: nat, j: nat, k: nat)
    requires n <= |d| && n <= |w| && i < j < k && forall m :: 0 <= m < |d| && m != i && m != j && m != k ==> d[m] == 0
    ensures Sum(d, w, n) ==
            (if i < n then d[i] * w[i] else 0) + (if j < n then d[j] * w[j] else 0) + (if k < n then d[k] * w[k] else 0)
  {
    if n > 0 {
      SumOfThree(d, w, n - 1, i, j, k);
    }
  }

  /** The exchange at `p` moves the digits by one and both sums absorb it. */
  predicate Movable(d: seq<nat>, w1: seq<nat>, w2: seq<nat>, n: nat, p: nat)
    requires |d| == n + 2 && |w1| == n && |w2| == n + 1 && p + 1 < n
  {
    var delta := d[p + 1] as int - d[p] as int;
    Digits(d) && SumsHold(d, w1, w2, n) && Absorbs(Sum(d, w1, n), delta) && Absorbs(Sum(d, w2, n + 1), delta)
  }

  function Residue(w: seq<nat>, i: nat, x: nat, j: nat, y: nat, k: nat, z: nat): nat
    requires i < |w| && j < |w| && k < |w|
  {
    (x * w[i] + y * w[j] + z * w[k]) % 11
  }

  /** A number that is zero but for three positions before the check digits, both its sums being 0 or both 1 modulo 11. */
  lemma ThreeDigits(w1: seq<nat>, w2: seq<nat>, n: nat, i: nat, x: nat, j: nat, y: nat, k: nat, z: nat, r: nat) returns (d: seq<nat>)
    requires |w1| == n && |w2| == n + 1 && i < j < k < n && x <= 9 && y <= 9 && z <= 9
    requires Residue(w1, i, x, j, y, k, z) == Residue(w2, i, x, j, y, k, z) == r <= 1
    ensures |d| == n + 2 && Digits(d) && d[i] == x && d[j] == y && d[k] == z && SumsHold(d, w1, w2, n)
    ensures forall m :: 0 <= m < n + 2 && m != i && m != j && m != k ==> d[m] == 0
    ensures Sum(d, w1, n) % 11 == Sum(d, w2, n + 1) % 11 == r
  {
    d := seq(n + 2, m => if m == i then x else if m == j then y else if m == k then z else 0);
    SumOfThree(d, w1, n, i, j, k);
    SumOfThree(d, w2, n + 1, i, j, k);
  }

  /** A 1 followed by zeros, balanced by digits at `i` and `j` so that both sums are 1 modulo 11. */
  lemma FallingOne(w1: seq<nat>, w2: seq<nat>, n: nat, i: nat, x: nat, j: nat, y: nat, p: nat) returns (d: seq<nat>)
    requires |w1| == n && |w2| == n + 1 && i < j < p && p + 1 < n && x <= 9 && y <= 9
    requires Residue(w1, i, x, j, y, p, 1) == Residue(w2, i, x, j, y, p, 1) == 1
    ensures |d| == n + 2 && Movable(d, w1, w2, n, p)
  {
    d := ThreeDigits(w1, w2, n, i, x, j, y, p, 1, 1);
  }

  /** Three leading digits whose sums are 0 modulo 11, rising by one at `p`. */
  lemma RisingLead(w1: seq<nat>, w2: seq<nat>, n: nat, x: nat, y: nat, z: nat, p: nat) returns (d: seq<nat>)
    requires |w1| == n && |w2| == n + 1 && 3 < n && x <= 9 && y <= 9 && z <= 9
    requires (p == 0 && y == x + 1) || (p == 1 && z == y + 1)
    requires Residue(w1, 0, x, 1, y, 2, z) == Residue(w2, 0, x, 1, y, 2, z) == 0
    ensures |d| == n + 2 && Movable(d, w1, w2, n, p)
  {
    d := ThreeDigits(w1, w2, n, 0, x, 1, y, 2, z, 0);
  }

  lemma CpfMovable(p: nat) returns (d: seq<nat>)
    requires p < 8
    ensures |d| == 11 && Movable(d, CPF1, CPF2, 9, p)
  {
    if p == 0 {
      d := RisingLead(CPF1, CPF2, 9, 7, 8, 7, p);
    } else if p == 1 {
      d := RisingLead(CPF1, CPF2, 9, 4, 3, 4, p);
    } else {
      assert CPF1[p] == 10 - p && CPF2[p] == 11 - p;
      d := FallingOne(CPF1, CPF2, 9, 0, p, 1, 10 - p, p);
    }
  }

  lemma CnpjMovable(p: nat) returns (d: seq<nat>)
    requires CnpjSwapBlindSpot(p, 1) && p < 11
    ensures |d| == 14 && Movable(d, CNPJ1, CNPJ2, 12, p)
  {
    if p == 0 {
      d := RisingLead(CNPJ1, CNPJ2, 12, 7, 8, 7, p);
    } else if p == 1 {
      d := RisingLead(CNPJ1, CNPJ2, 12, 4, 3, 4, p);
    } else if p == 2 {
      d := FallingOne(CNPJ1, CNPJ2, 12, 0, 2, 1, 8, p);
    } else if p == 5 {
      d := FallingOne(CNPJ1, CNPJ2, 12, 0, 8, 1, 2, p);
    } else if p == 6 {
      d := FallingOne(CNPJ1, CNPJ2, 12, 0, 9, 1, 1, p);
    } else if p == 7 {
      d := FallingOne(CNPJ1, CNPJ2, 12, 0, 0, 4, 8, p);
    } else if p == 8 {
      d := FallingOne(CNPJ1, CNPJ2, 12, 0, 5, 2, 5, p);
    } else if p == 9 {
      d := FallingOne(CNPJ1, CNPJ2, 12, 0, 1, 1, 9, p);
    } else {
      d := FallingOne(CNPJ1, CNPJ2, 12, 0, 2, 1, 8, p);
    }
  }

  /** Two leading digits and a first check digit of 1 after a 0. */
  lemma OneAcrossTheBorder(w1: seq<nat>, w2: seq<nat>, n: nat, x: nat, y: nat) returns (d: seq<nat>)
    requires |w1| == n && |w2| == n + 1 && 2 < n && x <= 9 && y <= 9
    requires (x * w1[0] + y * w1[1]) % 11 == 10 && Residue(w2, 0, x, 1, y, n, 1) == 0
    ensures |d| == n + 2 && Digits(d) && SumsHold(d, w1, w2, n) && d[n - 1] == 0 && d[n] == 1 && Sum(d, w2, n + 1) % 11 == 0
  {
    d := seq(n + 2, m => if m == 0 then x else if m == 1 then y else if m == n then 1 else 0);
    SumOfThree(d, w1, n, 0, 1, n);
    SumOfThree(d, w2, n + 1, 0, 1, n);
  }

  /** For each position an accepted CPF that survives the exchange there. */
  lemma CpfExample(p: nat) returns (d: seq<nat>)
    requires p <= 8
    ensures Digits(d) && CpfDigits(d) && d[p] != d[p + 1] && CpfSurvives(d, d[p := d[p + 1]][p + 1 := d[p]], p)
  {
    if p < 8 {
      d := CpfMovable(p);
    } else {
      d := OneAcrossTheBorder(CPF1, CPF2, 9, 8, 2);
    }
    SwapBack(d, d[p := d[p + 1]][p + 1 := d[p]], p);
  }

  lemma CnpjExample(p: nat) returns (d: seq<nat>)
    requires CnpjSwapBlindSpot(p, 1)
    ensures Digits(d) && CnpjDigits(d) && d[p] != d[p + 1] && CnpjSurvives(d, d[p := d[p + 1]][p + 1 := d[p]], p)
  {
    if p < 11 {
      d := CnpjMovable(p);
    } else {
      d := OneAcrossTheBorder(CNPJ1, CNPJ2, 12, 3, 7);
    }
    SwapBack(d, d[p := d[p + 1]][p + 1 := d[p]], p);
  }

  /** At each position and in either direction two accepted CPFs are one exchange apart. */
  lemma CpfSwapsAreReal(p: nat, delta: int) returns (s: string, t: string)
    requires CpfSwapBlindSpot(p, delta)
    ensures CpfAccepts(s) && CpfAccepts(t) && SwappedAt(Cleaned(s), Cleaned(t), p) && Delta(Cleaned(s), Cleaned(t), p) == delta
  {
    var d := CpfExample(p);
    var e := d[p := d[p + 1]][p + 1 := d[p]];
    SwapBack(d, e, p);
    s, t := Rendered(d), Rendered(e);
    CpfSwapPassesIff(s, t, p);
    if Delta(d, e, p) != delta {
      s, t := t, s;
    }
  }

  lemma CnpjSwapsAreReal(p: nat, delta: int) returns (s: string, t: string)
    requires CnpjSwapBlindSpot(p, delta)
    ensures CnpjAccepts(s) && CnpjAccepts(t) && SwappedAt(Cleaned(s), Cleaned(t), p) && Delta(Cleaned(s), Cleaned(t), p) == delta
  {
    var d := CnpjExample(p);
    var e := d[p := d[p + 1]][p + 1 := d[p]];
    SwapBack(d, e, p);
    s, t := Rendered(d), Rendered(e);
    CnpjSwapPassesIff(s, t, p);
    if Delta(d, e, p) != delta {
      s, t := t, s;
    }
  }
}
