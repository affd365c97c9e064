/** The variable-length integer: unsigned LEB128 (section 7.6 of DWARF Version 5)
    with a 64-bit bound and a cached number. */
module VarInt {
  import opened Bytes

  // ----- what the bytes mean -------------------------------------------------

  /** The sum of the 7-bit groups, least significant group first. */
  function Value(bs: bytes): nat {
    if bs == [] then 0 else bs[0] % 128 + 128 * Value(bs[1..])
  }

  /** One complete number: every byte but the last has its continuation bit set. */
  predicate Terminated(bs: bytes) {
    && |bs| > 0
    && bs[|bs| - 1] < 128
    && forall i :: 0 <= i < |bs| - 1 ==> bs[i] >= 128
  }

  /** No shorter encoding: the most significant group is not zero. */
  predicate Shortest(bs: bytes) {
    Terminated(bs) && (|bs| == 1 || bs[|bs| - 1] != 0)
  }

  /** The size test of `reset_number_view`. */
  predicate Fits(bs: bytes) {
    |bs| <= 9 || (|bs| == 10 && bs[9] == 1)
  }

  /** The shortest encoding of a number. */
  function Encode(v: nat): (bs: bytes)
    ensures |bs| > 0
  {
    if v < 128 then [v] else [v % 128 + 128] + Encode(v / 128)
  }

  /** The first complete number of an input, and what follows it. */
  function Scan(input: bytes): (r: Option<(bytes, bytes)>)
    ensures r.Some? ==> |r.value.0| > 0 && |r.value.0| + |r.value.1| == |input|
  {
    if input == [] then None
    else if input[0] < 128 then Some((input[..1], input[1..]))
    else
      match Scan(input[1..])
      case None => None
      case Some((head, rest)) => Some(([input[0]] + head, rest))
  }

  /** `parse` followed by `to_number`, as every payload parser uses them. */
  function ReadNumber(input: bytes): (r: Result<(nat, bytes)>)
    ensures r.Success? ==> r.value.0 < U64 && |r.value.1| < |input|
  {
    match Scan(input)
    case None => Failure(BadRequest)
    case Some((head, rest)) =>
      if Fits(head) then FitsBound(head); Success((Value(head), rest)) else Failure(NumberTooBig)
  }

  // ----- facts about the encoding --------------------------------------------

  lemma {:induction false} EncodeCorrect(v: nat)
    ensures Shortest(Encode(v)) && Value(Encode(v)) == v
  {
    var bs := Encode(v);
    if v >= 128 {
      EncodeCorrect(v / 128);
      assert bs[1..] == Encode(v / 128);
    } else {
      assert bs[1..] == [];
    }
  }

  /** `x` moved up by `n` 7-bit groups. */
  function Shift(x: nat, n: nat): nat {
    if n == 0 then x else 128 * Shift(x, n - 1)
  }

  lemma {:induction false} ShiftMonotone(x: nat, y: nat, n: nat)
    requires x <= y
    ensures Shift(x, n) <= Shift(y, n)
  {
    if n > 0 { ShiftMonotone(x, y, n - 1); }
  }

  lemma {:induction false} ShiftLonger(n: nat, m: nat)
    requires n <= m
    ensures Shift(1, n) <= Shift(1, m)
    decreases m
  {
    if n < m { ShiftLonger(n, m - 1); }
  }

  /** The last group alone fixes a number's magnitude. */
  lemma {:induction false} ValueBounds(bs: bytes)
    requires |bs| > 0
    ensures Shift(bs[|bs| - 1] % 128, |bs| - 1) <= Value(bs) < Shift(bs[|bs| - 1] % 128 + 1, |bs| - 1)
  {
    if |bs| > 1 { ValueBounds(bs[1..]); } else { assert bs[1..] == []; }
  }

  lemma SmallShifts()
    ensures Shift(1, 9) == 0x8000_0000_0000_0000
    ensures Shift(2, 9) == U64
    ensures Shift(1, 8) == 0x100_0000_0000_0000
  {
    assert Shift(1, 4) == 0x1000_0000;
    assert Shift(1, 8) == 0x100_0000_0000_0000;
    assert Shift(2, 4) == 0x2000_0000;
    assert Shift(2, 8) == 0x200_0000_0000_0000;
  }

  /** A number the size test lets through is below 2^64. */
  lemma FitsBound(bs: bytes)
    requires Fits(bs)
    ensures Value(bs) < U64
  {
    if |bs| > 0 {
      ValueBounds(bs);
      var n := |bs| - 1;
      SmallShifts();
      if |bs| <= 9 {
        ShiftMonotone(bs[n] % 128 + 1, 128, n);
        assert Shift(128, n) == Shift(1, n + 1) by { ShiftOne(n); }
        ShiftLonger(n + 1, 9);
      }
    }
  }

  lemma {:induction false} ShiftOne(n: nat)
    ensures Shift(128, n) == Shift(1, n + 1)
  {
    if n > 0 { ShiftOne(n - 1); }
  }

  /** On shortest encodings the size test is exactly the 64-bit bound. */
  lemma FitsIffBelow64Bits(bs: bytes)
    requires Shortest(bs)
    ensures Fits(bs) <==> Value(bs) < U64
  {
    if Fits(bs) {
      FitsBound(bs);
    } else {
      ValueBounds(bs);
      SmallShifts();
      var n := |bs| - 1;
      if |bs| == 10 {
        ShiftMonotone(2, bs[9], 9);
      } else {
        ShiftMonotone(1, bs[n], n);
        ShiftLonger(10, n);
        assert Shift(1, 10) == 128 * Shift(1, 9);
      }
    }
  }

  /** On any encoding, padded or not: accepted exactly when the value is below 2^64 and
      the bytes are at most nine or the shortest. */
  lemma FitsIff(bs: bytes)
    requires Terminated(bs)
    ensures Fits(bs) <==> Value(bs) < U64 && (|bs| <= 9 || Shortest(bs))
  {
    if Fits(bs) { FitsBound(bs); }
    if Shortest(bs) { FitsIffBelow64Bits(bs); }
  }

  /** So padding is refused from ten bytes on, though they spell zero. */
  lemma PaddedZeroIsRefused()
    ensures var bs := seq(9, _ => 128 as byte) + [0];
      Terminated(bs) && Value(bs) == 0 && !Fits(bs)
  {
    var bs: bytes := seq(9, _ => 128 as byte) + [0];
    Padding(9);
    assert !Fits(bs);
  }

  lemma {:induction false} Padding(n: nat)
    ensures var bs := seq(n, _ => 128 as byte) + [0];
      Terminated(bs) && Value(bs) == 0
  {
    var bs: bytes := seq(n, _ => 128 as byte) + [0];
    if n > 0 {
      assert bs[1..] == seq(n - 1, _ => 128 as byte) + [0];
      Padding(n - 1);
    }
  }

  /** Every encoding of a number is at least as long as `Encode`, which is the
      only one without a superfluous group. */
  lemma {:induction false} EncodeIsShortest(bs: bytes)
    requires Terminated(bs)
    ensures |Encode(Value(bs))| <= |bs|
    ensures Shortest(bs) <==> bs == Encode(Value(bs))
    ensures !Shortest(bs) ==> |Encode(Value(bs))| < |bs|
  {
    if |bs| == 1 {
      assert bs[1..] == [];
      assert bs == [bs[0]];
    } else {
      var tail := bs[1..];
      assert bs == [bs[0]] + tail;
      EncodeIsShortest(tail);
      EncodeCons(bs[0], Value(tail));
      if Value(tail) == 0 {
        assert Encode(0) == [0];
      }
    }
  }

  lemma EncodeCons(b: byte, n: nat)
    requires b >= 128
    ensures n > 0 ==> Encode(b % 128 + 128 * n) == [b] + Encode(n)
    ensures n == 0 ==> Encode(b % 128 + 128 * n) == [b - 128]
  {
  }

  lemma {:induction false} ScanTerminated(bs: bytes, rest: bytes)
    requires Terminated(bs)
    ensures Scan(bs + rest) == Some((bs, rest))
  {
    assert (bs + rest)[1..] == bs[1..] + rest;
    if |bs| == 1 {
      assert (bs + rest)[..1] == bs;
      assert bs[1..] + rest == rest;
    } else {
      ScanTerminated(bs[1..], rest);
      assert bs == [bs[0]] + bs[1..];
    }
  }

  /** Without a final byte there is nothing to find. */
  lemma {:induction false} ScanUnterminated(input: bytes)
    requires forall i :: 0 <= i < |input| ==> input[i] >= 128
    ensures Scan(input).None?
  {
    if input != [] { ScanUnterminated(input[1..]); }
  }

  /** What is found is a complete number, and the input is cut right after it. */
  lemma {:induction false} ScanSplits(input: bytes)
    requires Scan(input).Some?
    ensures Scan(input).value.0 + Scan(input).value.1 == input && Terminated(Scan(input).value.0)
  {
    if input[0] >= 128 { ScanSplits(input[1..]); }
  }

  /** What `reset` writes, `parse` and `to_number` read back, whatever follows. */
  lemma ReadEncoded(v: nat, rest: bytes)
    requires v < U64
    ensures ReadNumber(Encode(v) + rest) == Success((v, rest))
  {
    EncodeCorrect(v);
    ScanTerminated(Encode(v), rest);
    FitsIffBelow64Bits(Encode(v));
  }

  lemma {:induction false} EncodeLength(v: nat, n: nat)
    requires n > 0
    ensures |Encode(v)| <= n <==> v < Shift(1, n)
  {
    if v >= 128 && n > 1 {
      EncodeLength(v / 128, n - 1);
      assert Shift(1, n) == 128 * Shift(1, n - 1);
    } else {
      ShiftLonger(1, n);
      assert Shift(1, 1) == 128;
    }
  }

  lemma EncodeStep(str: bytes, v: nat)
    ensures v < 128 ==> str + Encode(v) == str + [v]
    ensures v >= 128 ==> str + Encode(v) == str + [v % 128 + 128] + Encode(v / 128)
  {
  }

  // ----- the class -----------------------------------------------------------

  class VarInt {
    var values: bytes
    var number: nat
    var dirty: bool

    /** The cached number, when it claims to be current, is the bytes' number. */
    ghost predicate Valid()
      reads this
    {
      !dirty ==> number == Value(values) && number < U64
    }

    constructor ()
      ensures Valid() && values == []
    {
      values := [];
      number := 0;
      dirty := true;
    }

    constructor FromNumber(value: nat)
      requires value < U64
      ensures Valid() && values == Encode(value) && !dirty
    {
      values := [];
      number := 0;
      dirty := true;
      new;
      Reset(value);
    }

    method Reset(value: nat)
      requires value < U64
      modifies this
      ensures Valid() && !dirty
      ensures values == Encode(value) && number == value
    {
      EncodeCorrect(value);
      values := [];
      dirty := false;
      number := value;
      if value == 0 {
        values := values + [0];
      }
      var left: nat := value;
      assert values + Encode(left) == Encode(value) || left == 0;
      while left != 0
        invariant number == value && !dirty
        invariant if left == 0 then values == Encode(value) else values + Encode(left) == Encode(value)
      {
        EncodeStep(values, left);
        var group: byte := left % 128;
        group := group + (if left - group == 0 then 0 else 128);
        values := values + [group];
        left := left / 128;
      }
    }

    /** Takes the first complete number; on failure nothing changes. */
    method Parse(input: bytes) returns (ok: bool, output: bytes)
      requires Valid()
      modifies this
      ensures Valid()
      ensures ok == Scan(input).Some?
      ensures ok ==> values == Scan(input).value.0 && output == Scan(input).value.1 && dirty
      ensures !ok ==> output == input && unchanged(this)
    {
      var result: bytes := [];
      var i := 0;
      while i < |input|
        invariant 0 <= i <= |input|
        invariant result == input[..i]
        invariant forall j :: 0 <= j < i ==> input[j] >= 128
        invariant unchanged(this)
      {
        result := result + [input[i]];
        if input[i] / 128 == 0 {
          dirty := true;
          values := result;
          output := input[i + 1..];
          assert input == result + output;
          ScanTerminated(result, output);
          return true, output;
        }
        i := i + 1;
      }
      ScanUnterminated(input);
      return false, input;
    }

    method ToNumber() returns (r: Result<nat>)
      requires Valid()
      modifies this
      ensures Valid() && values == old(values)
      ensures dirty == (old(dirty) && r.Failure?)
      ensures r == if !old(dirty) || Fits(values) then Success(Value(values)) else Failure(NumberTooBig)
      ensures r.Success? ==> number == r.value < U64
    {
      if dirty {
        if |values| > 9 && (|values| != 10 || values[|values| - 1] != 1) {
          return Failure(NumberTooBig);
        }
        FitsBound(values);
        var result := 0;
        var i := |values|;
        while i > 0
          invariant 0 <= i <= |values|
          invariant result == Value(values[i..]) <= Value(values)
          invariant values == old(values) && dirty == old(dirty)
        {
          i := i - 1;
          assert values[i..][1..] == values[i + 1..];
          SuffixBelow(values, i);
          result := (result * 128 + values[i] % 128) % U64;
        }
        assert values[0..] == values;
        number := result;
        dirty := false;
      }
      return Success(number);
    }
  }

  lemma {:induction false} SuffixBelow(bs: bytes, i: nat)
    requires i <= |bs|
    ensures Value(bs[i..]) <= Value(bs)
    decreases i
  {
    if i == 0 {
      assert bs[0..] == bs;
    } else {
      SuffixBelow(bs, i - 1);
      assert bs[i - 1..][1..] == bs[i..];
    }
  }
}
