/** The response-flag (TIF) comparator of utilities.go: which bits of an
    expected and an actual 32-bit flag mask differ, described through the
    flag registry (ssp.TIFDesc), in ascending bit order. */
module Tif {
  import opened Common

  /** The flag registry: a description per single-bit mask. A mask that is
      not a key reads as "", as a Go map lookup does. */
  type Registry = map<bv32, string>

  /** One reported difference: the registry's description of the bit, the
      bit's value in the actual mask and its value in the expected mask. */
  datatype Mismatch = Mismatch(desc: string, actual: bool, expected: bool)

  function Describe(reg: Registry, mask: bv32): string {
    if mask in reg then reg[mask] else ""
  }

  /** The registry describes nothing for the empty mask, so that bits which
      do not differ (whose `single` is 0) are never reported. */
  predicate NoZeroEntry(reg: Registry) {
    Describe(reg, 0) == ""
  }

  /** The single-bit mask of bit position k. */
  function Bit(k: nat): bv32
    requires k < 32
  {
    (1 as bv32) << k
  }

  /** `mask & diff` for the mask of bit position k: that bit of diff alone. */
  function Single(diff: bv32, k: nat): bv32
    requires k < 32
  {
    Bit(k) & diff
  }

  /** `x & m != 0` */
  predicate Overlaps(x: bv32, m: bv32) {
    x & m != 0
  }

  /** The mismatches the loop has appended after visiting bit positions
      0 .. n-1, exactly as the loop computes them: the lookup uses
      `mask & diff`, which is 0 where the masks agree. */
  function MismatchesBelow(reg: Registry, expected: bv32, actual: bv32, n: nat): seq<Mismatch>
    requires n <= 32
  {
    if n == 0 then []
    else
      var single := Single(expected ^ actual, n - 1);
      var desc := Describe(reg, single);
      MismatchesBelow(reg, expected, actual, n - 1)
        + (if desc != "" then [Mismatch(desc, Overlaps(actual, single), Overlaps(expected, single))] else [])
  }

  /** Turns an empty list into nil (None), as the Go function does. */
  function NilIfEmpty(ms: seq<Mismatch>): Option<seq<Mismatch>> {
    if ms == [] then None else Some(ms)
  }

  /** The whole comparison as a value: nil, or the non-empty list of mismatches. */
  function Compare(reg: Registry, expected: bv32, actual: bv32): Option<seq<Mismatch>> {
    NilIfEmpty(MismatchesBelow(reg, expected, actual, 32))
  }

  /** TIFCompare. The result is nil (None) exactly when nothing was appended. */
  method TIFCompare(reg: Registry, expected: bv32, actual: bv32) returns (errors: Option<seq<Mismatch>>)
    ensures errors == Compare(reg, expected, actual)
    ensures errors.Some? ==> 0 < |errors.value| <= 32
  {
    var diff := expected ^ actual;
    var acc: seq<Mismatch> := [];
    var i: nat := 0;
    while i < 32
      invariant i <= 32
      invariant acc == MismatchesBelow(reg, expected, actual, i)
      invariant |acc| <= i
    {
      var single := Single(diff, i);
      var desc := Describe(reg, single);
      if desc != "" {
        acc := acc + [Mismatch(desc, Overlaps(actual, single), Overlaps(expected, single))];
      }
      i := i + 1;
    }
    if |acc| == 0 {
      return None;
    }
    return Some(acc);
  }

  // ---------------------------------------------------------------------
  // A reference definition by bit positions, and the lemmas tying the loop's
  // list to it.

  /** Bit position k is set in x. */
  predicate BitSet(x: bv32, k: nat)
    requires k < 32
  {
    Overlaps(x, Bit(k))
  }

  /** Bit position k differs in diff and the registry describes that bit. */
  predicate Reported(reg: Registry, diff: bv32, k: nat)
    requires k < 32
  {
    BitSet(diff, k) && Describe(reg, Bit(k)) != ""
  }

  /** The positions below n at which the two masks differ and the registry
      describes the bit, in ascending order. */
  function DescribedDiffs(reg: Registry, diff: bv32, n: nat): (ks: seq<nat>)
    requires n <= 32
    ensures |ks| <= n
    ensures forall j :: 0 <= j < |ks| ==> ks[j] < n
    ensures forall j, l :: 0 <= j < l < |ks| ==> ks[j] < ks[l]
    ensures forall k :: 0 <= k < n ==> (k in ks <==> Reported(reg, diff, k))
  {
    if n == 0 then []
    else
      var k := n - 1;
      DescribedDiffs(reg, diff, k) + (if Reported(reg, diff, k) then [k] else [])
  }

  /** The mismatch reported for bit position k: its description and the bit
      in the actual and in the expected mask. */
  function MismatchAt(reg: Registry, expected: bv32, actual: bv32, k: nat): Mismatch
    requires k < 32
  {
    Mismatch(Describe(reg, Bit(k)), BitSet(actual, k), BitSet(expected, k))
  }

  function MismatchesAt(reg: Registry, expected: bv32, actual: bv32, ks: seq<nat>): (ms: seq<Mismatch>)
    requires forall j :: 0 <= j < |ks| ==> ks[j] < 32
    ensures |ms| == |ks|
    ensures forall j :: 0 <= j < |ks| ==> ms[j] == MismatchAt(reg, expected, actual, ks[j])
  {
    if ks == [] then []
    else MismatchesAt(reg, expected, actual, ks[..|ks| - 1]) + [MismatchAt(reg, expected, actual, ks[|ks| - 1])]
  }

  /** A mask with exactly one bit set. */
  predicate IsSingleBit(b: bv32) {
    b != 0 && b & (b - 1) == 0
  }

  lemma BitIsSingle(k: nat)
    requires k < 32
    ensures IsSingleBit(Bit(k))
  {
  }

  lemma BitInjective(k: nat, j: nat)
    requires k < 32 && j < 32 && k != j
    ensures Bit(k) != Bit(j)
  {
  }

  /** `b & d` for a single-bit b is b when d has that bit, and 0 otherwise. */
  lemma AndSingle(d: bv32, b: bv32)
    requires IsSingleBit(b)
    ensures b & d == if Overlaps(d, b) then b else 0
  {
  }

  /** The bit of the XOR is set exactly when the two bits differ. */
  lemma XorSingle(expected: bv32, actual: bv32, b: bv32)
    requires IsSingleBit(b)
    ensures Overlaps(expected ^ actual, b) == (Overlaps(actual, b) != Overlaps(expected, b))
  {
  }

  /** Two different single-bit masks have no bit in common. */
  lemma DistinctSingles(b: bv32, c: bv32)
    requires IsSingleBit(b) && IsSingleBit(c) && b != c
    ensures !Overlaps(b, c)
  {
  }

  /** One step of the loop in terms of positions: bit k adds the mismatch
      at k exactly when k is reported. */
  lemma MismatchesStep(reg: Registry, expected: bv32, actual: bv32, k: nat)
    requires NoZeroEntry(reg)
    requires k < 32
    ensures MismatchesBelow(reg, expected, actual, k + 1)
         == MismatchesBelow(reg, expected, actual, k)
            + (if Reported(reg, expected ^ actual, k) then [MismatchAt(reg, expected, actual, k)] else [])
  {
    BitIsSingle(k);
    AndSingle(expected ^ actual, Bit(k));
  }

  /** With no entry for mask 0, the loop reports exactly the differing,
      described bits, one mismatch per bit, in ascending bit order. */
  lemma {:induction false} MismatchesByPosition(reg: Registry, expected: bv32, actual: bv32, n: nat)
    requires NoZeroEntry(reg)
    requires n <= 32
    ensures MismatchesBelow(reg, expected, actual, n)
         == MismatchesAt(reg, expected, actual, DescribedDiffs(reg, expected ^ actual, n))
  {
    if n > 0 {
      var k := n - 1;
      var diff := expected ^ actual;
      MismatchesByPosition(reg, expected, actual, k);
      MismatchesStep(reg, expected, actual, k);
      var ks := DescribedDiffs(reg, diff, k);
      if Reported(reg, diff, k) {
        var ks' := ks + [k];
        assert DescribedDiffs(reg, diff, n) == ks';
        assert ks'[..|ks'| - 1] == ks;
      }
    }
  }

  /** Comparing a mask with itself reports nothing: the result is nil. */
  lemma SameMaskIsNil(reg: Registry, mask: bv32)
    requires NoZeroEntry(reg)
    ensures Compare(reg, mask, mask) == None
  {
    MismatchesByPosition(reg, mask, mask, 32);
    var ks := DescribedDiffs(reg, mask ^ mask, 32);
    if ks != [] {
      assert ks[0] in ks;
      BitIsSingle(ks[0]);
      XorSingle(mask, mask, Bit(ks[0]));
    }
  }

  /** Each reported mismatch carries two different booleans: the actual bit
      and the expected bit of one position where the masks differ. */
  lemma MismatchesDiffer(reg: Registry, expected: bv32, actual: bv32)
    requires NoZeroEntry(reg)
    ensures var ms := MismatchesBelow(reg, expected, actual, 32);
            forall j :: 0 <= j < |ms| ==> ms[j].actual != ms[j].expected
  {
    MismatchesByPosition(reg, expected, actual, 32);
    var ks := DescribedDiffs(reg, expected ^ actual, 32);
    forall j | 0 <= j < |ks|
      ensures MismatchAt(reg, expected, actual, ks[j]).actual != MismatchAt(reg, expected, actual, ks[j]).expected
    {
      assert ks[j] in ks;
      BitIsSingle(ks[j]);
      XorSingle(expected, actual, Bit(ks[j]));
    }
  }

  function Swapped(ms: seq<Mismatch>): (rs: seq<Mismatch>)
    ensures |rs| == |ms|
    ensures forall j :: 0 <= j < |ms| ==> rs[j] == Mismatch(ms[j].desc, ms[j].expected, ms[j].actual)
  {
    if ms == [] then [] else Swapped(ms[..|ms| - 1]) + [Mismatch(ms[|ms| - 1].desc, ms[|ms| - 1].expected, ms[|ms| - 1].actual)]
  }

  /** Swapping expected and actual yields the same descriptions in the same
      order with the two booleans swapped (XOR is commutative). This holds
      for the loop as written, whatever the registry holds for mask 0. */
  lemma {:induction false} SwapArguments(reg: Registry, expected: bv32, actual: bv32, n: nat)
    requires n <= 32
    ensures MismatchesBelow(reg, actual, expected, n) == Swapped(MismatchesBelow(reg, expected, actual, n))
  {
    if n > 0 {
      SwapArguments(reg, expected, actual, n - 1);
      assert actual ^ expected == expected ^ actual;
      var ms := MismatchesBelow(reg, expected, actual, n);
      var prev := MismatchesBelow(reg, expected, actual, n - 1);
      if |ms| != |prev| {
        assert ms[..|ms| - 1] == prev;
      } else {
        assert ms == prev;
      }
    }
  }

  lemma CompareSwap(reg: Registry, expected: bv32, actual: bv32)
    ensures Compare(reg, actual, expected).None? == Compare(reg, expected, actual).None?
    ensures Compare(reg, expected, actual).Some? ==>
              Compare(reg, actual, expected).value == Swapped(Compare(reg, expected, actual).value)
  {
    SwapArguments(reg, expected, actual, 32);
  }

  /** When diff is the mask of bit k alone, k is the only position it reports. */
  lemma OnlyReported(reg: Registry, diff: bv32, k: nat, j: nat)
    requires k < 32 && j < 32 && diff == Bit(k)
    requires Describe(reg, Bit(k)) != ""
    ensures Reported(reg, diff, j) <==> j == k
  {
    BitIsSingle(k);
    if j != k {
      BitIsSingle(j);
      BitInjective(k, j);
      DistinctSingles(Bit(k), Bit(j));
    }
  }

  /** When the masks differ in exactly one described bit, the result is that
      one mismatch; e.g. expected {IP matched, ID matched} against actual
      {IP matched} gives one mismatch for "ID matched", actual false, expected true. */
  lemma SingleBitDifference(reg: Registry, expected: bv32, actual: bv32, k: nat)
    requires NoZeroEntry(reg)
    requires k < 32 && expected ^ actual == Bit(k)
    requires Describe(reg, Bit(k)) != ""
    ensures Compare(reg, expected, actual) == Some([MismatchAt(reg, expected, actual, k)])
    ensures BitSet(actual, k) != BitSet(expected, k)
  {
    MismatchesByPosition(reg, expected, actual, 32);
    BitIsSingle(k);
    XorSingle(expected, actual, Bit(k));
    var ks := DescribedDiffs(reg, expected ^ actual, 32);
    OnlyReported(reg, expected ^ actual, k, k);
    assert k in ks;
    forall j | 0 <= j < |ks| ensures ks[j] == k {
      assert ks[j] in ks;
      OnlyReported(reg, expected ^ actual, k, ks[j]);
    }
    assert ks == [k] by {
      assert ks[0] == k;
    }
    var ms := MismatchesAt(reg, expected, actual, ks);
    assert ms == [MismatchAt(reg, expected, actual, k)] by {
      assert |ms| == 1 && ms[0] == MismatchAt(reg, expected, actual, k);
    }
  }
}
