/** 64-bit words. */
module Words {
  const U64: nat := 0x1_0000_0000_0000_0000

  function Add(a: nat, b: nat): nat { (a + b) % U64 }

  function Sub(a: nat, b: nat): nat { (a - b) % U64 }

  lemma SubCases(a: nat, b: nat)
    requires a < U64 && b <= U64
    ensures Sub(a, b) == if a >= b then a - b else a - b + U64
  {
  }
}
