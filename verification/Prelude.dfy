/** Datatypes and byte-string helpers shared by all modules. */
module Prelude {

  datatype Option<+T> = None | Some(value: T)

  datatype Result<+T, +E> = Ok(value: T) | Err(error: E)

  const U64_LIMIT: nat := 0x1_0000_0000_0000_0000
  const U64_MAX: nat := U64_LIMIT - 1
  const U32_LIMIT: nat := 0x1_0000_0000

  type U64 = x: nat | x < U64_LIMIT
  type U32 = x: nat | x < U32_LIMIT
  type Byte = x: nat | x < 256
  type Bytes = seq<Byte>

  function Pow256(len: nat): nat {
    if len == 0 then 1 else 256 * Pow256(len - 1)
  }

  /** The low `len` bytes of `n`, least significant first. */
  function ToLe(n: nat, len: nat): (bytes: Bytes)
    ensures |bytes| == len
  {
    if len == 0 then [] else [n % 256] + ToLe(n / 256, len - 1)
  }

  function FromLe(bytes: Bytes): nat {
    if bytes == [] then 0 else bytes[0] + 256 * FromLe(bytes[1..])
  }

  lemma {:induction false} LeRoundTrip(n: nat, len: nat)
    requires n < Pow256(len)
    ensures FromLe(ToLe(n, len)) == n
  {
    if len == 0 {
    } else {
      LeRoundTrip(n / 256, len - 1);
      assert ToLe(n, len)[1..] == ToLe(n / 256, len - 1);
    }
  }

  /** The digit of weight 256^k. */
  function Digit(n: nat, k: nat): nat {
    if k == 0 then n % 256 else Digit(n / 256, k - 1)
  }

  lemma {:induction false} LeDigit(n: nat, len: nat, k: nat)
    requires k < len
    ensures ToLe(n, len)[k] == Digit(n, k)
  {
    if k == 0 {
    } else {
      LeDigit(n / 256, len - 1, k - 1);
    }
  }

  lemma {:induction false} FromLeBound(bytes: Bytes)
    ensures FromLe(bytes) < Pow256(|bytes|)
  {
    if bytes == [] {
    } else {
      FromLeBound(bytes[1..]);
    }
  }

  lemma PowersOf256()
    ensures Pow256(4) == U32_LIMIT && Pow256(8) == U64_LIMIT
  {
    assert Pow256(2) == 0x1_0000;
    assert Pow256(4) == 0x1_0000 * Pow256(2);
    assert Pow256(6) == 0x1_0000 * Pow256(4);
    assert Pow256(8) == 0x1_0000 * Pow256(6);
  }

  /** The largest element, or 0 for the empty set. */
  ghost function Highest(s: set<nat>): (h: nat)
    ensures forall n :: n in s ==> n <= h
    ensures if s == {} then h == 0 else h in s
  {
    if s == {} then 0 else
      var x :| x in s;
      var rest := Highest(s - {x});
      assert s == (s - {x}) + {x};
      if x > rest then x else
        assert s - {x} == {} ==> x == 0 && rest == 0;
        rest
  }

  lemma {:induction false} CardinalityMonotone<T>(a: set<T>, b: set<T>)
    requires a <= b
    ensures |a| <= |b|
  {
    if a == {} {
    } else {
      var x :| x in a;
      CardinalityMonotone(a - {x}, b - {x});
    }
  }
}
