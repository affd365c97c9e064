/** Bytes, the 64-bit bound of `std::size_t`, and the failure-compatible results
    used where the library throws. */
module Bytes {
  type byte = x: int | 0 <= x < 256
  type bytes = seq<byte>

  /** 2^64: one more than the largest `std::size_t`. */
  const U64: nat := 0x1_0000_0000_0000_0000

  datatype Option<+T> = None | Some(value: T)

  /** What the library throws, by message. */
  datatype Error =
    | MissingMagic | MessageTooLong | BadRequest | NotImplemented | UnknownCommand
    | WrongHashSize | UnknownHash | NumberTooBig | InputTooLarge | OutOfRange
    | NoMoreSlots | UnknownMessage | UnknownTransfer
    | Endless // not thrown: the id scan never comes back
    | Crash   // not thrown: division by zero or a null packet
    | SizeInvalid | HashMismatch
    | HostError // of the file system, or of opening a file
    | DifferentKey | AlreadyConnected | NoProtocol

  datatype Result<+T> = Success(value: T) | Failure(error: Error) {
    predicate IsFailure() { Failure? }

    function PropagateFailure<U>(): Result<U>
      requires Failure?
    {
      Failure(error)
    }

    function Extract(): T
      requires Success?
    {
      value
    }
  }

  /** The bytes of all chunks, one after the other. */
  function Concat(chunks: seq<bytes>): bytes {
    if chunks == [] then [] else Concat(chunks[..|chunks| - 1]) + chunks[|chunks| - 1]
  }

  lemma {:induction false} ConcatAppend(a: seq<bytes>, b: seq<bytes>)
    ensures Concat(a + b) == Concat(a) + Concat(b)
  {
    if b == [] {
      assert a + b == a;
    } else {
      var m := |b| - 1;
      assert (a + b)[..|a + b| - 1] == a + b[..m];
      ConcatAppend(a, b[..m]);
    }
  }
}
