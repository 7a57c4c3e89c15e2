/** Shared vocabulary of the simulator: node tiers, optional values, 32-bit
    sentinels and integer sums. */
module Types {

  /** The tier of a compute node; CLOUD is the root of the topology. */
  datatype NodeType = Cloud | Edge | Intermediary

  datatype Option<+T> = None | Some(value: T)

  /** Kotlin's `Int.MAX_VALUE` / `Integer.MAX_VALUE` and `Integer.MIN_VALUE`. */
  const IntMax: int := 0x7fff_ffff
  const IntMin: int := -0x8000_0000

  function Min(a: int, b: int): (m: int)
    ensures m <= a && m <= b && (m == a || m == b)
  {
    if a <= b then a else b
  }

  /** The sum of a sequence of integers, peeled from the back so that
      appending one element adds exactly that element. */
  function Sum(s: seq<int>): int
  {
    if s == [] then 0 else Sum(s[..|s| - 1]) + s[|s| - 1]
  }

  lemma {:induction false} SumConcat(a: seq<int>, b: seq<int>)
    ensures Sum(a + b) == Sum(a) + Sum(b)
  {
    if b == [] {
      assert a + b == a;
    } else {
      var b' := b[..|b| - 1];
      assert (a + b)[..|a + b| - 1] == a + b';
      assert (a + b)[|a + b| - 1] == b[|b| - 1];
      SumConcat(a, b');
    }
  }

  lemma SumCons(x: int, s: seq<int>)
    ensures Sum([x] + s) == x + Sum(s)
  {
    SumConcat([x], s);
    assert [x][..0] == [];
  }

  lemma {:induction false} SumNonNegative(s: seq<int>)
    requires forall i :: 0 <= i < |s| ==> s[i] >= 0
    ensures Sum(s) >= 0
  {
    if s != [] {
      SumNonNegative(s[..|s| - 1]);
    }
  }
}
