/** Vocabulary shared by every component: machine words, options and the order of ordered sets. */
module Prelude {
  const U64_LIMIT: int := 0x1_0000_0000_0000_0000
  const U32_LIMIT: int := 0x1_0000_0000

  type u64 = x: int | 0 <= x < U64_LIMIT
  type u32 = x: int | 0 <= x < U32_LIMIT
  type byte = x: int | 0 <= x < 256

  datatype Option<+T> = None | Some(value: T)

  /** `u64::saturating_add`. */
  function SaturatingAdd(a: u64, b: nat): (r: u64)
    ensures a + b < U64_LIMIT ==> r == a + b
  {
    if a + b < U64_LIMIT then a + b else U64_LIMIT - 1
  }

  /** `u64::checked_add`. */
  function CheckedAdd(a: u64, b: nat): (r: Option<u64>)
    ensures r.Some? <==> a + b < U64_LIMIT
  {
    if a + b < U64_LIMIT then Some(a + b) else None
  }

  // Little-endian values of two and four bytes.
  function Word16(b0: int, b1: int): int { b0 + 0x100 * b1 }
  function Word32(b0: int, b1: int, b2: int, b3: int): int { Word16(b0, b1) + 0x1_0000 * Word16(b2, b3) }

  predicate IsLeast(s: set<u64>, m: u64) {
    m in s && forall x :: x in s ==> m <= x
  }

  lemma LeastExists(s: set<u64>) returns (m: u64)
    requires s != {}
    ensures IsLeast(s, m)
    decreases s
  {
    m :| m in s;
    if s != {m} {
      var rest := LeastExists(s - {m});
      forall x | x in s ensures (if rest < m then rest else m) <= x {
        assert x == m || x in s - {m};
      }
      m := if rest < m then rest else m;
    }
  }

  /** The elements of a set in ascending order: how an ordered map or set is iterated. */
  function AscendingSeq(s: set<u64>): (r: seq<u64>)
    ensures forall x :: x in r <==> x in s
    ensures forall i, j :: 0 <= i < j < |r| ==> r[i] < r[j]
    decreases s
  {
    if s == {} then []
    else
      assert exists m :: IsLeast(s, m) by { var m := LeastExists(s); }
      var m :| IsLeast(s, m);
      var rest := AscendingSeq(s - {m});
      assert forall x :: x in rest ==> m < x;
      [m] + rest
  }
}
