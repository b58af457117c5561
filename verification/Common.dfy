/** Definitions shared by the other modules: optional values and fixed-width unsigned words. */
module Common {

  datatype Option<+T> = None | Some(value: T)

  /** No element occurs twice. */
  ghost predicate Distinct<T>(s: seq<T>)
  {
    forall i, j :: 0 <= i < j < |s| ==> s[i] != s[j]
  }

  /** The pieces in a row. */
  function Concat(parts: seq<string>): string
  {
    if parts == [] then "" else parts[0] + Concat(parts[1..])
  }

  const TWO32: nat := 0x1_0000_0000
  const TWO64: nat := 0x1_0000_0000_0000_0000

  type u32 = x: nat | x < TWO32
  type u64 = x: nat | x < TWO64

  /** Wrapping arithmetic, as C++ unsigned words have it. */
  function Inc32(a: u32): u32 { (a + 1) % TWO32 }

  function Add64(a: nat, b: nat): u64 { (a + b) % TWO64 }

  function Sub64(a: u64, b: u64): u64 { (a - b) % TWO64 }

  lemma WordRemainder(x: int, q: int, r: nat)
    requires x == q * TWO64 + r && r < TWO64
    ensures x % TWO64 == r
  {
  }

  /** Subtracting two wrapped counters gives the true difference whenever that fits in a word. */
  lemma WrappedDifference(now: nat, before: nat)
    requires 0 <= now - before < TWO64
    ensures Sub64(now % TWO64, before % TWO64) == now - before
  {
    WordRemainder(now % TWO64 - before % TWO64, before / TWO64 - now / TWO64, now - before);
  }

  lemma WrappedSum(a: nat, b: nat)
    ensures Add64(a % TWO64, b) == (a + b) % TWO64
  {
  }

  lemma NoWrap(a: nat, b: nat)
    requires a + b < TWO64
    ensures Add64(a, b) == a + b && a % TWO64 == a && b % TWO64 == b
  {
  }
}
