// The algebraic normal form behind the bitsliced S-box: an in-place butterfly turns the truth
// table of a Boolean function of n variables into the coefficients of its polynomial over
// GF(2), and XORing the monomials with coefficient 1 gives the function back.
module Anf {

  // ---------- masks and their bits ----------

  function Pow2(n: nat): (p: nat)
    ensures p > 0
  {
    if n == 0 then 1 else 2 * Pow2(n - 1)
  }

  // (x >> b) & 1
  predicate Bit(x: nat, b: nat) {
    if b == 0 then x % 2 == 1 else Bit(x / 2, b - 1)
  }

  ghost predicate Subset(x: nat, m: nat) {
    forall j: nat :: Bit(x, j) ==> Bit(m, j)
  }

  // mask ^ (1 << k), where bit k of the mask is set.
  lemma {:induction false} ClearBit(m: nat, k: nat)
    requires Bit(m, k)
    ensures m >= Pow2(k)
    ensures forall j: nat :: Bit(m - Pow2(k), j) == (j != k && Bit(m, j))
  {
    if k == 0 {
      forall j: nat
        ensures Bit(m - 1, j) == (j != 0 && Bit(m, j))
      {
        if j > 0 {
          assert (m - 1) / 2 == m / 2;
        }
      }
    } else {
      ClearBit(m / 2, k - 1);
      forall j: nat
        ensures Bit(m - Pow2(k), j) == (j != k && Bit(m, j))
      {
        assert (m - Pow2(k)) / 2 == m / 2 - Pow2(k - 1) && (m - Pow2(k)) % 2 == m % 2;
        if j > 0 {
          assert Bit(m / 2 - Pow2(k - 1), j - 1) == (j - 1 != k - 1 && Bit(m / 2, j - 1));
        }
      }
    }
  }

  lemma {:induction false} SameBits(x: nat, y: nat)
    requires forall j: nat :: Bit(x, j) == Bit(y, j)
    ensures x == y
  {
    assert Bit(x, 0) == Bit(y, 0);
    if x + y > 0 {
      forall j: nat
        ensures Bit(x / 2, j) == Bit(y / 2, j)
      {
        assert Bit(x, j + 1) == Bit(y, j + 1);
      }
      SameBits(x / 2, y / 2);
    }
  }

  lemma {:induction false} HighBits(x: nat, n: nat, j: nat)
    requires x < Pow2(n) && n <= j
    ensures !Bit(x, j)
  {
    if j > 0 {
      HighBits(x / 2, if n == 0 then 0 else n - 1, j - 1);
    }
  }

  // ---------- the butterfly ----------

  // The table after the butterfly has gone over bits 0 .. k-1.
  predicate Butterfly(f: nat -> bool, k: nat, m: nat) {
    if k == 0 then f(m)
    else if !Bit(m, k - 1) then Butterfly(f, k - 1, m)
    else ClearBit(m, k - 1); Butterfly(f, k - 1, m) != Butterfly(f, k - 1, m - Pow2(k - 1))
  }

  predicate Odd(n: nat) {
    n % 2 == 1
  }

  // The points at which m's value has been collected from after k bits: the subsets of m that
  // agree with m on bit k and above.
  ghost predicate Collected(x: nat, m: nat, k: nat) {
    Subset(x, m) && forall j: nat :: k <= j && Bit(m, j) ==> Bit(x, j)
  }

  ghost function CollectedSet(f: nat -> bool, n: nat, k: nat, m: nat): set<nat> {
    set x: nat | 0 <= x < Pow2(n) && Collected(x, m, k) && f(x)
  }

  lemma CollectedStep(x: nat, m: nat, k: nat)
    requires Bit(m, k)
    ensures m >= Pow2(k)
    ensures Bit(x, k) ==> (Collected(x, m, k + 1) <==> Collected(x, m, k)) && !Collected(x, m - Pow2(k), k)
    ensures !Bit(x, k) ==> (Collected(x, m, k + 1) <==> Collected(x, m - Pow2(k), k)) && !Collected(x, m, k)
  {
    ClearBit(m, k);
    if Bit(x, k) {
      assert !Bit(m - Pow2(k), k);
    }
  }

  lemma CollectedNone(f: nat -> bool, n: nat, m: nat)
    requires m < Pow2(n)
    ensures CollectedSet(f, n, 0, m) == if f(m) then {m} else {}
  {
    forall x: nat
      ensures Collected(x, m, 0) <==> x == m
    {
      if Collected(x, m, 0) {
        SameBits(x, m);
      }
    }
  }

  lemma CollectedHalves(f: nat -> bool, n: nat, k: nat, m: nat)
    requires Bit(m, k)
    ensures m >= Pow2(k)
    ensures CollectedSet(f, n, k + 1, m) == CollectedSet(f, n, k, m) + CollectedSet(f, n, k, m - Pow2(k))
    ensures CollectedSet(f, n, k, m) !! CollectedSet(f, n, k, m - Pow2(k))
  {
    ClearBit(m, k);
    forall x: nat
      ensures Collected(x, m, k + 1) <==> Collected(x, m, k) || Collected(x, m - Pow2(k), k)
      ensures !(Collected(x, m, k) && Collected(x, m - Pow2(k), k))
    {
      CollectedStep(x, m, k);
    }
  }

  lemma CollectedSame(f: nat -> bool, n: nat, k: nat, m: nat)
    requires !Bit(m, k)
    ensures CollectedSet(f, n, k + 1, m) == CollectedSet(f, n, k, m)
  {
    forall x: nat
      ensures Collected(x, m, k + 1) <==> Collected(x, m, k)
    {
    }
  }

  lemma OddUnion(a: set<nat>, b: set<nat>)
    requires a !! b
    ensures Odd(|a + b|) <==> Odd(|a|) != Odd(|b|)
  {
    assert |a + b| == |a| + |b|;
  }

  lemma CollectedParity(f: nat -> bool, n: nat, k: nat, m: nat)
    ensures Bit(m, k) ==> m >= Pow2(k)
    ensures Odd(|CollectedSet(f, n, k + 1, m)|)
            <==> if Bit(m, k) then Odd(|CollectedSet(f, n, k, m)|) != Odd(|CollectedSet(f, n, k, m - Pow2(k))|)
                 else Odd(|CollectedSet(f, n, k, m)|)
  {
    if Bit(m, k) {
      CollectedHalves(f, n, k, m);
      OddUnion(CollectedSet(f, n, k, m), CollectedSet(f, n, k, m - Pow2(k)));
    } else {
      CollectedSame(f, n, k, m);
    }
  }

  lemma {:induction false} ButterflyCollects(f: nat -> bool, n: nat, k: nat, m: nat)
    requires m < Pow2(n)
    ensures Butterfly(f, k, m) <==> Odd(|CollectedSet(f, n, k, m)|)
  {
    if k == 0 {
      CollectedNone(f, n, m);
    } else {
      ButterflyCollects(f, n, k - 1, m);
      CollectedParity(f, n, k - 1, m);
      if Bit(m, k - 1) {
        ButterflyCollects(f, n, k - 1, m - Pow2(k - 1));
      }
    }
  }

  ghost function TrueSubsets(f: nat -> bool, n: nat, m: nat): set<nat> {
    set x: nat | 0 <= x < Pow2(n) && Subset(x, m) && f(x)
  }

  // Each coefficient is the XOR of the function over the subsets of its mask.
  lemma CoefficientIsSubsetXor(f: nat -> bool, n: nat, m: nat)
    requires m < Pow2(n)
    ensures Butterfly(f, n, m) <==> Odd(|TrueSubsets(f, n, m)|)
  {
    ButterflyCollects(f, n, n, m);
    forall j: nat | n <= j
      ensures !Bit(m, j)
    {
      HighBits(m, n, j);
    }
    assert CollectedSet(f, n, n, m) == TrueSubsets(f, n, m);
  }

  // ---------- the butterfly undoes itself ----------

  // One layer, on its own.
  function Layer(f: nat -> bool, j: nat): nat -> bool {
    (m: nat) => if Bit(m, j) then ClearBit(m, j); f(m) != f(m - Pow2(j)) else f(m)
  }

  lemma {:induction false} LayersCommute(f: nat -> bool, k: nat, j: nat, m: nat)
    requires k <= j
    ensures Bit(m, j) ==> m >= Pow2(j)
    ensures Bit(m, j) ==> (Butterfly(Layer(f, j), k, m) <==> Butterfly(f, k, m) != Butterfly(f, k, m - Pow2(j)))
    ensures !Bit(m, j) ==> (Butterfly(Layer(f, j), k, m) <==> Butterfly(f, k, m))
  {
    if Bit(m, j) {
      ClearBit(m, j);
    }
    if k > 0 {
      LayersCommute(f, k - 1, j, m);
      if Bit(m, k - 1) {
        ClearBit(m, k - 1);
        LayersCommute(f, k - 1, j, m - Pow2(k - 1));
      }
    }
  }

  lemma {:induction false} ButterflyDependsOnValues(f: nat -> bool, g: nat -> bool, k: nat, m: nat)
    requires forall x: nat :: f(x) == g(x)
    ensures Butterfly(f, k, m) == Butterfly(g, k, m)
  {
    if k > 0 {
      ButterflyDependsOnValues(f, g, k - 1, m);
      if Bit(m, k - 1) {
        ClearBit(m, k - 1);
        ButterflyDependsOnValues(f, g, k - 1, m - Pow2(k - 1));
      }
    }
  }

  function After(f: nat -> bool, k: nat): nat -> bool {
    (m: nat) => Butterfly(f, k, m)
  }

  lemma {:induction false} ButterflyIsInvolution(f: nat -> bool, k: nat, m: nat)
    ensures Butterfly(After(f, k), k, m) <==> f(m)
  {
    if k > 0 {
      var j, g := k - 1, After(f, k - 1);
      ButterflyDependsOnValues(After(f, k), Layer(g, j), j, m);
      LayersCommute(g, j, j, m);
      ButterflyIsInvolution(f, j, m);
      if Bit(m, j) {
        ClearBit(m, j);
        var low := m - Pow2(j);
        ButterflyDependsOnValues(After(f, k), Layer(g, j), j, low);
        LayersCommute(g, j, j, low);
        ButterflyIsInvolution(f, j, low);
      }
    }
  }

  // Main result: the XOR at x of the monomials whose coefficient is 1 is f(x). The monomial of
  // a mask is 1 at x exactly when the mask is a subset of x.
  lemma PolynomialIsFunction(f: nat -> bool, n: nat, x: nat)
    requires x < Pow2(n)
    ensures Odd(|TrueSubsets(After(f, n), n, x)|) <==> f(x)
  {
    CoefficientIsSubsetXor(After(f, n), n, x);
    ButterflyIsInvolution(f, n, x);
  }

  // ---------- the loops ----------

  ghost predicate Ascending(s: seq<nat>) {
    forall i, j :: 0 <= i < j < |s| ==> s[i] < s[j]
  }

  // The loops of `init_sbox_terms` for one output bit: fill the table, run the butterfly in
  // place, and list the masks left with coefficient 1.
  method AnfTerms(f: nat -> bool, n: nat) returns (masks: seq<nat>)
    ensures Ascending(masks)
    ensures forall m: nat :: m in masks <==> m < Pow2(n) && Butterfly(f, n, m)
  {
    var size := Pow2(n);
    var coeff := new bool[size](x requires 0 <= x => f(x));
    for bit := 0 to n
      invariant forall m :: 0 <= m < size ==> coeff[m] == Butterfly(f, bit, m)
    {
      for mask := 0 to size
        invariant forall m :: 0 <= m < mask ==> coeff[m] == Butterfly(f, bit + 1, m)
        invariant forall m :: mask <= m < size ==> coeff[m] == Butterfly(f, bit, m)
      {
        if Bit(mask, bit) {
          ClearBit(mask, bit);
          coeff[mask] := coeff[mask] != coeff[mask - Pow2(bit)];
        }
      }
    }
    masks := [];
    for mask := 0 to size
      invariant Ascending(masks) && (masks != [] ==> masks[|masks| - 1] < mask)
      invariant forall m: nat :: m in masks <==> m < mask && Butterfly(f, n, m)
    {
      if coeff[mask] {
        masks := masks + [mask];
      }
    }
  }
}
