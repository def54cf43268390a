// The bitsliced engine of Experiment3/report/code/sm4_multibuffer_bitslice.c. A plane holds one
// bit of every lane; 32 planes hold one word of every lane. Every operation on planes is proved
// to be the scalar operation in each lane, for any number of lanes and any S-box.
module Bitslice {
  import opened Anf
  import opened Words
  import opened Sm4Cipher

  type Plane = seq<bool>

  // ---------- plane operations (bs_*_word) ----------

  function Fill(lanes: nat, b: bool): (p: Plane)
    ensures |p| == lanes && forall l {:trigger p[l]} :: 0 <= l < lanes ==> p[l] == b
  {
    seq(lanes, l => b)
  }

  function And(a: Plane, b: Plane): (p: Plane)
    requires |a| == |b|
    ensures |p| == |a| && forall l {:trigger p[l]} :: 0 <= l < |a| ==> p[l] == (a[l] && b[l])
  {
    seq(|a|, l requires 0 <= l < |a| => a[l] && b[l])
  }

  function LaneMask(lanes: nat, lane: nat): (p: Plane)
    ensures |p| == lanes && forall l {:trigger p[l]} :: 0 <= l < lanes ==> p[l] == (l == lane)
  {
    seq(lanes, l => l == lane)
  }

  // ---------- words in planes (bs32) ----------

  ghost predicate IsPlanes(x: seq<Plane>, n: nat, lanes: nat) {
    |x| == n && forall i :: 0 <= i < n ==> |x[i]| == lanes
  }

  // The bits that lane l holds.
  function Lane(x: seq<Plane>, lanes: nat, l: nat): (w: seq<bool>)
    requires IsPlanes(x, |x|, lanes) && l < lanes
    ensures |w| == |x| && forall i {:trigger w[i]} :: 0 <= i < |x| ==> w[i] == x[i][l]
  {
    seq(|x|, i requires 0 <= i < |x| => x[i][l])
  }

  function PlanesXor(a: seq<Plane>, b: seq<Plane>, lanes: nat): (r: seq<Plane>)
    requires IsPlanes(a, 32, lanes) && IsPlanes(b, 32, lanes)
    ensures IsPlanes(r, 32, lanes)
    ensures forall l: nat :: l < lanes ==> Lane(r, lanes, l) == XorBits(Lane(a, lanes, l), Lane(b, lanes, l))
  {
    seq(32, i requires 0 <= i < 32 => XorBits(a[i], b[i]))
  }

  function PlanesXorConst(a: seq<Plane>, c: Word, lanes: nat): (r: seq<Plane>)
    requires IsPlanes(a, 32, lanes)
    ensures IsPlanes(r, 32, lanes)
    ensures forall l: nat :: l < lanes ==> Lane(r, lanes, l) == XorBits(Lane(a, lanes, l), c)
  {
    seq(32, i requires 0 <= i < 32 => if c[i] then XorBits(a[i], Fill(lanes, true)) else a[i])
  }

  // out.bit[(i + n) & 31] = a.bit[i]
  function PlanesRol(a: seq<Plane>, n: nat, lanes: nat): (r: seq<Plane>)
    requires IsPlanes(a, 32, lanes) && 0 < n < 32
    ensures IsPlanes(r, 32, lanes)
    ensures forall i :: 0 <= i < 32 ==> r[(i + n) % 32] == a[i]
    ensures forall l: nat :: l < lanes ==> Lane(r, lanes, l) == Rotl(Lane(a, lanes, l), n)
  {
    seq(32, i requires 0 <= i < 32 => a[if n <= i then i - n else i + 32 - n])
  }

  // ---------- the S-box on planes ----------

  // Bit `out` of the S-box as a function of the integers 0 .. 255.
  function OutputBit(S: Sbox, out: nat): nat -> bool
    requires out < 8
  {
    (x: nat) => S(ToByte(x))[out]
  }

  lemma HasBit(m: nat)
    requires m > 0
    ensures exists b: nat :: b <= m && Bit(m, b)
  {
    if m % 2 == 1 {
      assert Bit(m, 0);
    } else {
      HasBit(m / 2);
      var b: nat :| b <= m / 2 && Bit(m / 2, b);
      assert Bit(m, b + 1);
    }
  }

  // `bs_low_bit_index` of mask & -mask: the lowest bit set.
  method LowBitIndex(mask: nat) returns (index: nat)
    requires mask > 0
    ensures Bit(mask, index) && forall j: nat :: j < index ==> !Bit(mask, j)
  {
    HasBit(mask);
    ghost var b: nat :| Bit(mask, b);
    index := 0;
    while !Bit(mask, index)
      invariant index <= b && forall j: nat :: j < index ==> !Bit(mask, j)
      decreases b - index
    {
      index := index + 1;
    }
  }

  // The value of a monomial: every variable of the mask is 1.
  ghost predicate Monomial(mask: nat, bits: seq<bool>) {
    forall j: nat :: Bit(mask, j) ==> j < |bits| && bits[j]
  }

  lemma MonomialIsSubset(mask: nat, bits: seq<bool>)
    ensures Monomial(mask, bits) <==> Subset(mask, Pack(bits))
  {
    forall j: nat
      ensures Bit(Pack(bits), j) <==> j < |bits| && bits[j]
    {
      PackBit(bits, j);
    }
  }

  lemma MonomialStep(mask: nat, k: nat, bits: seq<bool>)
    requires Bit(mask, k)
    ensures mask >= Pow2(k)
    ensures Monomial(mask, bits) <==> Monomial(mask - Pow2(k), bits) && k < |bits| && bits[k]
  {
    ClearBit(mask, k);
  }

  lemma NoVariables(bits: seq<bool>)
    ensures Monomial(0, bits)
  {
    forall j: nat
      ensures !Bit(0, j)
    {
      HighBits(0, 0, j);
    }
  }

  // The table of monomials, built from the lowest bit of each mask.
  method Monomials(input: seq<Plane>, lanes: nat) returns (table: seq<Plane>)
    requires IsPlanes(input, |input|, lanes)
    ensures IsMonomialTable(table, input, lanes)
  {
    var n := |input|;
    var monomial := new Plane[Pow2(n)](_ => []);
    monomial[0] := Fill(lanes, true);
    forall l: nat | l < lanes
      ensures Monomial(0, Lane(input, lanes, l))
    {
      NoVariables(Lane(input, lanes, l));
    }
    for mask := 1 to Pow2(n)
      invariant forall m: nat :: m < mask ==> |monomial[m]| == lanes
      invariant forall m: nat, l: nat :: m < mask && l < lanes ==>
                  (monomial[m][l] <==> Monomial(m, Lane(input, lanes, l)))
    {
      var k := LowBitIndex(mask);
      ClearBit(mask, k);
      if k >= n {
        HighBits(mask, n, k);
        assert false;
      }
      monomial[mask] := And(monomial[mask - Pow2(k)], input[k]);
      forall l: nat | l < lanes
        ensures monomial[mask][l] <==> Monomial(mask, Lane(input, lanes, l))
      {
        MonomialStep(mask, k, Lane(input, lanes, l));
      }
    }
    table := monomial[..];
  }

  // Entry m of the table is, in every lane, the monomial of m.
  ghost predicate IsMonomialTable(table: seq<Plane>, input: seq<Plane>, lanes: nat)
    requires IsPlanes(input, |input|, lanes)
  {
    && IsPlanes(table, Pow2(|input|), lanes)
    && forall m: nat, l: nat :: m < |table| && l < lanes ==> (table[m][l] <==> Monomial(m, Lane(input, lanes, l)))
  }

  ghost function Chosen(masks: seq<nat>, bits: seq<bool>): set<nat> {
    set m | m in masks && Monomial(m, bits)
  }

  lemma SnocMembers(masks: seq<nat>, i: nat)
    requires i < |masks| && Ascending(masks)
    ensures masks[i] !in masks[..i]
    ensures forall m :: m in masks[..i + 1] <==> m in masks[..i] || m == masks[i]
  {
    assert masks[..i + 1] == masks[..i] + [masks[i]];
  }

  lemma ChosenSnoc(masks: seq<nat>, i: nat, bits: seq<bool>)
    requires i < |masks| && Ascending(masks)
    ensures Odd(|Chosen(masks[..i + 1], bits)|) <==> (Odd(|Chosen(masks[..i], bits)|) != Monomial(masks[i], bits))
  {
    SnocMembers(masks, i);
    AddOne(Chosen(masks[..i], bits), masks[i], Monomial(masks[i], bits), Chosen(masks[..i + 1], bits));
  }

  lemma AddOne(before: set<nat>, m: nat, add: bool, after: set<nat>)
    requires m !in before && forall x :: x in after <==> x in before || (x == m && add)
    ensures Odd(|after|) <==> Odd(|before|) != add
  {
    if add {
      assert after == before + {m};
      OddUnion(before, {m});
    } else {
      assert after == before;
    }
  }

  // The XOR of the monomials of the listed masks.
  method XorMonomials(monomial: seq<Plane>, masks: seq<nat>, input: seq<Plane>, lanes: nat) returns (value: Plane)
    requires IsPlanes(input, |input|, lanes) && IsMonomialTable(monomial, input, lanes)
    requires Ascending(masks) && forall m :: m in masks ==> m < |monomial|
    ensures |value| == lanes
    ensures forall l: nat :: l < lanes ==> (value[l] <==> Odd(|Chosen(masks, Lane(input, lanes, l))|))
  {
    value := Fill(lanes, false);
    for i := 0 to |masks|
      invariant |value| == lanes
      invariant forall l: nat :: l < lanes ==> (value[l] <==> Odd(|Chosen(masks[..i], Lane(input, lanes, l))|))
    {
      forall l: nat | l < lanes
        ensures Odd(|Chosen(masks[..i + 1], Lane(input, lanes, l))|)
                <==> (Odd(|Chosen(masks[..i], Lane(input, lanes, l))|) != Monomial(masks[i], Lane(input, lanes, l)))
      {
        ChosenSnoc(masks, i, Lane(input, lanes, l));
      }
      assert masks[i] in masks;
      value := XorBits(value, monomial[masks[i]]);
    }
    assert masks[..|masks|] == masks;
  }

  // The terms of a Boolean function f of n variables.
  ghost predicate IsAnf(masks: seq<nat>, f: nat -> bool, n: nat) {
    Ascending(masks) && forall m: nat :: m in masks <==> m < Pow2(n) && Butterfly(f, n, m)
  }

  // Evaluating the terms on planes evaluates the function in every lane.
  lemma AnfInLane(masks: seq<nat>, f: nat -> bool, bits: seq<bool>)
    requires IsAnf(masks, f, |bits|)
    ensures Odd(|Chosen(masks, bits)|) <==> f(Pack(bits))
  {
    var n := |bits|;
    forall m: nat
      ensures Monomial(m, bits) <==> Subset(m, Pack(bits))
    {
      MonomialIsSubset(m, bits);
    }
    assert Chosen(masks, bits) == TrueSubsets(After(f, n), n, Pack(bits));
    PolynomialIsFunction(f, n, Pack(bits));
  }

  ghost predicate AreSboxTerms(S: Sbox, terms: seq<seq<nat>>) {
    |terms| == 8 && forall b :: 0 <= b < 8 ==> IsAnf(terms[b], OutputBit(S, b), 8)
  }

  // SBOX_TERMS and its ready flag
  class SboxTerms {
    var ready: bool
    var terms: seq<seq<nat>>

    ghost predicate Valid(S: Sbox)
      reads this
    {
      ready ==> AreSboxTerms(S, terms)
    }

    constructor ()
      ensures !ready
    {
      ready, terms := false, [];
    }

    // `init_sbox_terms`: the first call fills the lists, the others keep them.
    method Init(S: Sbox)
      requires Valid(S)
      modifies this
      ensures Valid(S) && ready && AreSboxTerms(S, terms)
      ensures old(ready) ==> terms == old(terms)
    {
      if ready {
        return;
      }
      terms := [];
      for out := 0 to 8
        invariant !ready && |terms| == out
        invariant forall b :: 0 <= b < out ==> IsAnf(terms[b], OutputBit(S, b), 8)
      {
        var masks := AnfTerms(OutputBit(S, out), 8);
        terms := terms + [masks];
      }
      ready := true;
    }
  }

  // The planes of one output bit, for one byte position.
  method SboxBit(S: Sbox, masks: seq<nat>, bit: nat, input: seq<Plane>, monomial: seq<Plane>, lanes: nat)
    returns (value: Plane)
    requires bit < 8 && IsAnf(masks, OutputBit(S, bit), 8)
    requires IsPlanes(input, 8, lanes) && IsMonomialTable(monomial, input, lanes)
    ensures |value| == lanes
    ensures forall l: nat :: l < lanes ==> value[l] == S(Lane(input, lanes, l))[bit]
  {
    value := XorMonomials(monomial, masks, input, lanes);
    forall l: nat | l < lanes
      ensures value[l] == S(Lane(input, lanes, l))[bit]
    {
      AnfInLane(masks, OutputBit(S, bit), Lane(input, lanes, l));
      ToBytePack(Lane(input, lanes, l));
    }
  }

  // One byte position of `sm4_sbox_bitsliced_word`.
  method SboxByte(S: Sbox, terms: seq<seq<nat>>, input: seq<Plane>, lanes: nat) returns (output: seq<Plane>)
    requires AreSboxTerms(S, terms) && IsPlanes(input, 8, lanes)
    ensures IsPlanes(output, 8, lanes)
    ensures forall l: nat :: l < lanes ==> Lane(output, lanes, l) == S(Lane(input, lanes, l))
  {
    var monomial := Monomials(input, lanes);
    output := [];
    for bit := 0 to 8
      invariant IsPlanes(output, bit, lanes)
      invariant forall b: nat, l: nat :: b < bit && l < lanes ==> output[b][l] == S(Lane(input, lanes, l))[b]
    {
      var value := SboxBit(S, terms[bit], bit, input, monomial, lanes);
      output := output + [value];
    }
  }

  // `sm4_sbox_bitsliced_word`
  method SboxPlanes(S: Sbox, terms: seq<seq<nat>>, input: seq<Plane>, lanes: nat) returns (output: seq<Plane>)
    requires AreSboxTerms(S, terms) && IsPlanes(input, 32, lanes)
    ensures IsPlanes(output, 32, lanes)
    ensures forall l: nat :: l < lanes ==> Lane(output, lanes, l) == SboxWord(S, Lane(input, lanes, l))
  {
    output := [];
    for k := 0 to 4
      invariant IsPlanes(output, 8 * k, lanes)
      invariant forall i: nat, l: nat :: i < 8 * k && l < lanes ==>
                  output[i][l] == S(ByteOf(Lane(input, lanes, l), i / 8))[i % 8]
    {
      var part := SboxByte(S, terms, input[8 * k..8 * k + 8], lanes);
      forall l: nat | l < lanes
        ensures Lane(input[8 * k..8 * k + 8], lanes, l) == ByteOf(Lane(input, lanes, l), k)
        ensures forall j :: 0 <= j < 8 ==> part[j][l] == S(ByteOf(Lane(input, lanes, l), k))[j]
      {
        assert Lane(part, lanes, l) == S(Lane(input[8 * k..8 * k + 8], lanes, l));
        assert forall j :: 0 <= j < 8 ==> part[j][l] == Lane(part, lanes, l)[j];
      }
      output := output + part;
    }
    forall l: nat | l < lanes
      ensures Lane(output, lanes, l) == SboxWord(S, Lane(input, lanes, l))
    {
      forall i | 0 <= i < 32
        ensures Lane(output, lanes, l)[i] == SboxWord(S, Lane(input, lanes, l))[i]
      {
        SboxWordBit(S, Lane(input, lanes, l), i);
      }
    }
  }

  // `sm4_T_bitsliced`
  method RoundPlanes(S: Sbox, terms: seq<seq<nat>>, input: seq<Plane>, lanes: nat) returns (output: seq<Plane>)
    requires AreSboxTerms(S, terms) && IsPlanes(input, 32, lanes)
    ensures IsPlanes(output, 32, lanes)
    ensures forall l: nat :: l < lanes ==> Lane(output, lanes, l) == RoundOf(S, Lane(input, lanes, l))
  {
    var s := SboxPlanes(S, terms, input, lanes);
    var r2, r10 := PlanesRol(s, 2, lanes), PlanesRol(s, 10, lanes);
    var r18, r24 := PlanesRol(s, 18, lanes), PlanesRol(s, 24, lanes);
    output := PlanesXor(PlanesXor(PlanesXor(PlanesXor(s, r2, lanes), r10, lanes), r18, lanes), r24, lanes);
  }

  // ---------- transposition ----------

  ghost predicate IsPlaneQuad(x: seq<seq<Plane>>, lanes: nat) {
    |x| == 4 && IsPlanes(x[0], 32, lanes) && IsPlanes(x[1], 32, lanes) && IsPlanes(x[2], 32, lanes)
    && IsPlanes(x[3], 32, lanes)
  }

  ghost predicate IsTransposed(x: seq<seq<Plane>>, words: seq<seq<Word>>) {
    && IsPlaneQuad(x, |words|)
    && (forall l :: 0 <= l < |words| ==> |words[l]| == 4)
    && forall l: nat :: l < |words| ==> LaneQuad(x, |words|, l) == QuadOf(words[l])
  }

  // Bit `bit` of word v of lane l comes before the point (lane, w, b) of the loop nest.
  predicate Seen(l: nat, v: nat, bit: nat, lane: nat, w: nat, b: nat) {
    l < lane || (l == lane && (v < w || (v == w && bit < b)))
  }

  ghost predicate HasSeen(planes: array2<Plane>, words: seq<seq<Word>>, lane: nat, w: nat, b: nat)
    requires forall l :: 0 <= l < |words| ==> |words[l]| == 4
    reads planes
  {
    && planes.Length0 == 4 && planes.Length1 == 32
    && (forall v, bit :: 0 <= v < 4 && 0 <= bit < 32 ==> |planes[v, bit]| == |words|)
    && forall v, bit, l: nat :: 0 <= v < 4 && 0 <= bit < 32 && l < |words| ==>
         planes[v, bit][l] == (Seen(l, v, bit, lane, w, b) && words[l][v][bit])
  }

  // The innermost statement of `orthogonalize_words`.
  method OrthogonalizeBit(planes: array2<Plane>, words: seq<seq<Word>>, lane: nat, w: nat, b: nat, mask: Plane)
    requires (forall l :: 0 <= l < |words| ==> |words[l]| == 4) && lane < |words| && w < 4 && b < 32
    requires mask == LaneMask(|words|, lane) && HasSeen(planes, words, lane, w, b)
    modifies planes
    ensures HasSeen(planes, words, lane, w, b + 1)
  {
    if words[lane][w][b] {
      planes[w, b] := XorBits(planes[w, b], mask);
    }
  }

  // The two loops over the words and bits of one lane.
  method OrthogonalizeLane(planes: array2<Plane>, words: seq<seq<Word>>, lane: nat)
    requires (forall l :: 0 <= l < |words| ==> |words[l]| == 4) && lane < |words| && HasSeen(planes, words, lane, 0, 0)
    modifies planes
    ensures HasSeen(planes, words, lane + 1, 0, 0)
  {
    var mask := LaneMask(|words|, lane);
    for w := 0 to 4
      invariant HasSeen(planes, words, lane, w, 0)
    {
      for b := 0 to 32
        invariant HasSeen(planes, words, lane, w, b)
      {
        OrthogonalizeBit(planes, words, lane, w, b, mask);
      }
    }
  }

  ghost predicate AllSeen(planes: array2<Plane>, words: seq<seq<Word>>)
    requires forall l :: 0 <= l < |words| ==> |words[l]| == 4
    reads planes
  {
    && planes.Length0 == 4 && planes.Length1 == 32
    && (forall v, bit :: 0 <= v < 4 && 0 <= bit < 32 ==> |planes[v, bit]| == |words|)
    && forall v, bit, l: nat :: 0 <= v < 4 && 0 <= bit < 32 && l < |words| ==> planes[v, bit][l] == words[l][v][bit]
  }

  method ReadPlanes(planes: array2<Plane>, words: seq<seq<Word>>, w: nat) returns (x: seq<Plane>)
    requires (forall l :: 0 <= l < |words| ==> |words[l]| == 4) && AllSeen(planes, words) && w < 4
    ensures IsPlanes(x, 32, |words|)
    ensures forall l: nat :: l < |words| ==> Lane(x, |words|, l) == words[l][w]
  {
    x := seq(32, bit requires 0 <= bit < 32 reads planes => planes[w, bit]);
    forall l: nat | l < |words|
      ensures Lane(x, |words|, l) == words[l][w]
    {
    }
  }

  // `orthogonalize_words`: each set bit of each lane flips the lane in its plane.
  method Orthogonalize(words: seq<seq<Word>>) returns (x: seq<seq<Plane>>)
    requires forall l :: 0 <= l < |words| ==> |words[l]| == 4
    ensures IsTransposed(x, words)
  {
    var lanes := |words|;
    var planes := new Plane[4, 32]((w, bit) => Fill(lanes, false));
    for lane := 0 to lanes
      invariant HasSeen(planes, words, lane, 0, 0)
    {
      OrthogonalizeLane(planes, words, lane);
    }
    assert AllSeen(planes, words);
    var x0 := ReadPlanes(planes, words, 0);
    var x1 := ReadPlanes(planes, words, 1);
    var x2 := ReadPlanes(planes, words, 2);
    var x3 := ReadPlanes(planes, words, 3);
    x := [x0, x1, x2, x3];
  }

  // `deorthogonalize_words`
  method Deorthogonalize(x: seq<seq<Plane>>, lanes: nat) returns (words: seq<seq<Word>>)
    requires IsPlaneQuad(x, lanes)
    ensures |words| == lanes && IsTransposed(x, words)
  {
    words := [];
    for lane := 0 to lanes
      invariant |words| == lane && forall l :: 0 <= l < lane ==> |words[l]| == 4
      invariant forall l: nat :: l < lane ==> QuadOf(words[l]) == LaneQuad(x, lanes, l)
    {
      var row: seq<Word> := [];
      for w := 0 to 4
        invariant |row| == w
        invariant forall v: nat :: v < w ==> IsPlanes(x[v], 32, lanes) && row[v] == Lane(x[v], lanes, lane)
      {
        assert IsPlanes(x[w], 32, lanes);
        var value: Word := Zeros(32);
        for bit := 0 to 32
          invariant forall i :: 0 <= i < 32 ==> value[i] == (i < bit && x[w][i][lane])
        {
          if x[w][bit][lane] {
            value := value[bit := true];
          }
        }
        assert value == Lane(x[w], lanes, lane);
        row := row + [value];
      }
      words := words + [row];
    }
  }

  // ---------- the rounds ----------

  function QuadOf(w: seq<Word>): Quad
    requires |w| == 4
  {
    Quad(w[0], w[1], w[2], w[3])
  }

  // The four words that lane l holds in the planes.
  ghost function LaneQuad(x: seq<seq<Plane>>, lanes: nat, l: nat): Quad
    requires IsPlaneQuad(x, lanes) && l < lanes
  {
    Quad(Lane(x[0], lanes, l), Lane(x[1], lanes, l), Lane(x[2], lanes, l), Lane(x[3], lanes, l))
  }

  // One turn of the round loop is one round of the shift register in every lane.
  method SlicedRound(S: Sbox, terms: seq<seq<nat>>, x: seq<seq<Plane>>, k: Word, lanes: nat)
    returns (y: seq<seq<Plane>>)
    requires AreSboxTerms(S, terms) && IsPlaneQuad(x, lanes)
    ensures IsPlaneQuad(y, lanes)
    ensures forall l: nat :: l < lanes ==> LaneQuad(y, lanes, l) == ShiftRound(RoundT(S), LaneQuad(x, lanes, l), k)
  {
    var t := PlanesXor(PlanesXor(x[1], x[2], lanes), x[3], lanes);
    t := PlanesXorConst(t, k, lanes);
    var r := RoundPlanes(S, terms, t, lanes);
    var next := PlanesXor(x[0], r, lanes);
    y := [x[1], x[2], x[3], next];
  }

  // The round loop and the final exchange of registers.
  method SlicedRounds(S: Sbox, terms: seq<seq<nat>>, x: seq<seq<Plane>>, rk: seq<Word>, lanes: nat)
    returns (y: seq<seq<Plane>>)
    requires AreSboxTerms(S, terms) && IsPlaneQuad(x, lanes)
    ensures IsPlaneQuad(y, lanes)
    ensures forall l: nat :: l < lanes ==> LaneQuad(y, lanes, l) == Flip(Rounds(RoundT(S), LaneQuad(x, lanes, l), rk))
  {
    y := x;
    for i := 0 to |rk|
      invariant IsPlaneQuad(y, lanes)
      invariant forall l: nat :: l < lanes ==>
                  LaneQuad(y, lanes, l) == Rounds(RoundT(S), LaneQuad(x, lanes, l), rk[..i])
    {
      forall l: nat | l < lanes
        ensures Rounds(RoundT(S), LaneQuad(x, lanes, l), rk[..i + 1])
                == ShiftRound(RoundT(S), Rounds(RoundT(S), LaneQuad(x, lanes, l), rk[..i]), rk[i])
      {
        RoundsSnoc(RoundT(S), LaneQuad(x, lanes, l), rk, i);
      }
      y := SlicedRound(S, terms, y, rk[i], lanes);
    }
    assert rk[..|rk|] == rk;
    y := [y[3], y[2], y[1], y[0]];
  }

  // `sm4_encrypt_bitslice_x32`. Main result: lane l of the output is the scalar encryption of
  // block l, for every number of lanes, every S-box and every list of round keys.
  method EncryptBitsliced(S: Sbox, terms: seq<seq<nat>>, input: seq<Block>, rk: seq<Word>) returns (output: seq<Block>)
    requires AreSboxTerms(S, terms)
    ensures |output| == |input|
    ensures forall l :: 0 <= l < |input| ==> output[l] == Encrypt(RoundT(S), rk)(input[l])
  {
    var lanes := |input|;
    var words := seq(lanes, l requires 0 <= l < lanes =>
      var q := LoadQuad(input[l]); [q.x0, q.x1, q.x2, q.x3]);
    var x := Orthogonalize(words);
    var y := SlicedRounds(S, terms, x, rk, lanes);
    var res := Deorthogonalize(y, lanes);
    output := seq(lanes, l requires 0 <= l < lanes => StoreQuad(QuadOf(res[l])));
    forall l: nat | l < lanes
      ensures output[l] == Encrypt(RoundT(S), rk)(input[l])
    {
      assert LaneQuad(x, lanes, l) == QuadOf(words[l]) == LoadQuad(input[l]);
      assert QuadOf(res[l]) == LaneQuad(y, lanes, l);
    }
  }
}
