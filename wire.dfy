/**
 * Machine values shared by the whole model: fixed-width unsigned integers,
 * the little-endian byte order the library reads attribute payloads in
 * (the `native` byte order, fixed here to little-endian), the two's
 * complement view of a 64-bit word as a Go `int`, and the error and
 * result types every decoder and request returns.
 */
module Wire {

  type byte = x: int | 0 <= x < 0x100
  type u16 = x: int | 0 <= x < 0x1_0000
  type u32 = x: int | 0 <= x < 0x1_0000_0000
  type u64 = x: int | 0 <= x < 0x1_0000_0000_0000_0000
  /** A Go `int` on a 64-bit platform. */
  type i64 = x: int | -0x8000_0000_0000_0000 <= x < 0x8000_0000_0000_0000

  datatype Option<+T> = None | Some(value: T)

  /**
   * Why a call did not produce a value.  `OutOfRange` and `NoProgress`
   * stand for run-time faults of the Go code (a slice or index out of
   * range panics; an attribute of length 0 keeps the decoding loop on the
   * same attribute forever); the others are errors the Go code returns.
   */
  datatype Error =
    | ShortHeader                 // nl.DecodeAttrHdr: fewer than 4 bytes left
    | OutOfRange                  // a slice or index outside the buffer
    | NoProgress                  // an attribute of length 0
    | InvalidOid                  // an empty object id
    | NotFound                    // no response message for a Get
    | NoUsageReport               // no response message for RemoveURR
    | InvalidVersion              // not exactly one response for GetVersion
    | Transport(code: int)        // an error of the netlink connection, passed through
    | ReportDecoding(code: int)   // an error of the multi-report decoder, passed through

  datatype Result<+T> = Ok(value: T) | Err(error: Error) {
    predicate IsFailure() { Err? }
    function PropagateFailure<U>(): Result<U>
      requires Err?
    {
      Err(error)
    }
    function Extract(): T
      requires Ok?
    {
      value
    }
  }

  /** The unsigned 16-bit value of the first two bytes, low byte first. */
  function Le16(b: seq<byte>): u16
    requires |b| >= 2
  {
    b[0] as int + 0x100 * b[1] as int
  }

  function Le32(b: seq<byte>): u32
    requires |b| >= 4
  {
    b[0] as int + 0x100 * b[1] as int + 0x1_0000 * b[2] as int + 0x100_0000 * b[3] as int
  }

  function Le64(b: seq<byte>): u64
    requires |b| >= 8
  {
    Le32(b) as int + 0x1_0000_0000 * Le32(b[4..]) as int
  }

  /** The low byte first encoding of a 16-bit value. */
  function Put16(v: u16): (r: seq<byte>)
    ensures |r| == 2
  {
    [v % 0x100, v / 0x100]
  }

  function Put32(v: u32): (r: seq<byte>)
    ensures |r| == 4
  {
    [v % 0x100, v / 0x100 % 0x100, v / 0x1_0000 % 0x100, v / 0x100_0000]
  }

  function Put64(v: u64): (r: seq<byte>)
    ensures |r| == 8
  {
    Put32(v % 0x1_0000_0000) + Put32(v / 0x1_0000_0000)
  }

  lemma Le16Put16(v: u16, rest: seq<byte>)
    ensures Le16(Put16(v) + rest) == v
  {
  }

  lemma Le32Put32(v: u32, rest: seq<byte>)
    ensures Le32(Put32(v) + rest) == v
  {
    var q1, q2, q3 := v / 0x100, v / 0x1_0000, v / 0x100_0000;
    assert v == v % 0x100 + 0x100 * q1;
    assert q1 == q1 % 0x100 + 0x100 * (q1 / 0x100);
    assert q1 / 0x100 == q2;
    assert q2 == q2 % 0x100 + 0x100 * (q2 / 0x100);
    assert q2 / 0x100 == q3;
    assert q1 % 0x100 == v / 0x100 % 0x100;
    assert q2 % 0x100 == v / 0x1_0000 % 0x100;
  }

  lemma Le64Put64(v: u64, rest: seq<byte>)
    ensures Le64(Put64(v) + rest) == v
  {
    var lo, hi := v % 0x1_0000_0000, v / 0x1_0000_0000;
    var b := Put64(v) + rest;
    assert b[..4] == Put32(lo);
    Le32Put32(lo, b[4..]);
    assert b[4..] == Put32(hi) + rest;
    Le32Put32(hi, rest);
    assert Le32(b) == Le32(b[..4] + b[4..]);
  }

  /** Go's `int(x)` for a `uint64` x: the same 64 bits read as two's complement. */
  function ToInt(x: u64): (r: i64)
    ensures r % 0x1_0000_0000_0000_0000 == x
  {
    if x < 0x8000_0000_0000_0000 then x else x - 0x1_0000_0000_0000_0000
  }

  /** Go's `uint64(x)` for an `int` x: the word whose `int` is x again. */
  function ToU64(x: i64): (r: u64)
    ensures ToInt(r) == x
  {
    x % 0x1_0000_0000_0000_0000
  }

  /** Converting a `uint64` to `int` and back is the identity. */
  lemma ToU64ToInt(x: u64)
    ensures ToU64(ToInt(x)) == x
  {
  }

  /** Cutting the `int` of a `uint64` to 32 bits gives the low 32 bits of the `uint64`. */
  lemma ToIntLow32(x: u64)
    ensures ToInt(x) % 0x1_0000_0000 == x % 0x1_0000_0000
  {
    if x >= 0x8000_0000_0000_0000 {
      assert ToInt(x) == x - 0x1_0000_0000 * 0x1_0000_0000;
    }
  }

  /** Go's conversions `uint8(x)`, `uint16(x)`, `uint32(x)` of an integer keep its low bits. */
  function AsU8(x: int): byte { x % 0x100 }
  function AsU16(x: int): u16 { x % 0x1_0000 }
  function AsU32(x: int): u32 { x % 0x1_0000_0000 }
}
