/** Fixed-size numbers: eight bytes, least significant first. */
module Serialize {
  import opened Bytes

  /** The number whose base-256 digits are `bs`, least significant first. */
  function Number(bs: bytes): nat {
    if bs == [] then 0 else bs[0] + 256 * Number(bs[1..])
  }

  /** The `n` lowest base-256 digits of `v`. */
  function Digits(v: nat, n: nat): (bs: bytes)
    ensures |bs| == n
  {
    if n == 0 then [] else [v % 256] + Digits(v / 256, n - 1)
  }

  function Pow256(n: nat): nat {
    if n == 0 then 1 else 256 * Pow256(n - 1)
  }

  /** Writing then reading gives back the number, cut to `n` bytes. */
  lemma {:induction false} NumberOfDigits(v: nat, n: nat)
    requires v < Pow256(n)
    ensures Number(Digits(v, n)) == v
  {
    if n > 0 {
      NumberOfDigits(v / 256, n - 1);
      assert Digits(v, n)[1..] == Digits(v / 256, n - 1);
    }
  }

  /** Reading then writing gives back the bytes. */
  lemma {:induction false} DigitsOfNumber(bs: bytes)
    ensures Number(bs) < Pow256(|bs|)
    ensures Digits(Number(bs), |bs|) == bs
  {
    if bs != [] {
      DigitsOfNumber(bs[1..]);
      assert Number(bs) / 256 == Number(bs[1..]);
      assert bs == [bs[0]] + bs[1..];
    }
  }

  lemma EightBytes()
    ensures Pow256(8) == U64
  {
    assert Pow256(4) == 0x1_0000_0000;
  }

  lemma DigitsStep(str: bytes, v: nat, n: nat)
    requires n > 0
    ensures str + Digits(v, n) == str + [v % 256] + Digits(v / 256, n - 1)
  {
  }

  method WriteNumber(value: nat) returns (str: bytes)
    requires value < U64
    ensures str == Digits(value, 8)
    ensures Number(str) == value
  {
    str := [];
    var left: nat := value;
    var i := 0;
    while i < 8
      invariant 0 <= i <= 8
      invariant str + Digits(left, 8 - i) == Digits(value, 8)
    {
      DigitsStep(str, left, 8 - i);
      str := str + [left % 256];
      left := left / 256;
      i := i + 1;
    }
    assert str == str + Digits(left, 0);
    EightBytes();
    NumberOfDigits(value, 8);
  }

  method ReadFixed(input: bytes) returns (r: Result<nat>)
    ensures r == if |input| > 8 then Failure(InputTooLarge) else Success(Number(input))
  {
    if |input| > 8 {
      return Failure(InputTooLarge);
    }
    var result: nat := 0;
    var i := |input|;
    EightBytes();
    while i > 0
      invariant 0 <= i <= |input|
      invariant result == Number(input[i..]) < Pow256(|input| - i) <= U64
    {
      i := i - 1;
      assert input[i..][1..] == input[i + 1..];
      DigitsOfNumber(input[i..]);
      PowMonotone(|input| - i, 8);
      result := (result * 256 + input[i]) % U64;
    }
    assert input[0..] == input;
    return Success(result);
  }

  lemma {:induction false} PowMonotone(n: nat, m: nat)
    requires n <= m
    ensures Pow256(n) <= Pow256(m)
    decreases m
  {
    if n < m { PowMonotone(n, m - 1); }
  }
}
