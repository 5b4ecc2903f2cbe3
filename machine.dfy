/** Fixed-width integers of the C++ source and the modulus it reduces by. */
module Machine {

  /** C++ `int` (32-bit two's complement). */
  newtype int32 = x: int | -0x8000_0000 <= x < 0x8000_0000

  /** C++ `long long` (64-bit two's complement). */
  newtype int64 = x: int | -0x8000_0000_0000_0000 <= x < 0x8000_0000_0000_0000

  /** Largest `long long`. */
  const INT64_MAX: int64 := 0x7FFF_FFFF_FFFF_FFFF

  /** The global modulus; it is declared mutable in the source but never written. */
  const MOD: int64 := 1_000_000_007

  /** A sequence of `long long` values read as mathematical integers. */
  function Ints(s: seq<int64>): (r: seq<int>)
    ensures |r| == |s|
    ensures forall k :: 0 <= k < |s| ==> r[k] == s[k] as int
  {
    seq(|s|, k requires 0 <= k < |s| => s[k] as int)
  }

  /** Reducing after each addition gives the same residue as reducing once at the end. */
  lemma AddMod(x: int, y: int)
    ensures (x % MOD as int + y) % MOD as int == (x + y) % MOD as int
  {
  }
}
