/** Fixed-width integer ranges of the C# source, byte payloads and the
    segment record that travels inside one voice command. */
module Types {

  /** C# `byte`. */
  type UInt8 = x: int | 0 <= x < 0x100

  /** C# `uint`. */
  type UInt32 = x: int | 0 <= x < 0x1_0000_0000

  /** C# `int`. */
  type Int32 = x: int | -0x8000_0000 <= x < 0x8000_0000

  /** C# `long`. */
  type Int64 = x: int | -0x8000_0000_0000_0000 <= x < 0x8000_0000_0000_0000

  /** A payload or a slice of one: an opaque sequence of bytes. */
  type Bytes = seq<bv8>

  /** `uint.MaxValue`. */
  const UIntMax: int := 0xFFFF_FFFF

  /** The unchecked C# conversion `(byte)n`: keeps the low eight bits. */
  function ToByte(n: int): (b: UInt8)
    ensures 0 <= n < 0x100 ==> b == n
    ensures (b - n) % 0x100 == 0
  {
    n % 0x100
  }

  /** Unchecked C# `int` arithmetic: the mathematical value reduced into the
      32-bit two's complement range. */
  function Wrap32(n: int): (r: Int32)
    ensures -0x8000_0000 <= n < 0x8000_0000 ==> r == n
    ensures (r - n) % 0x1_0000_0000 == 0
  {
    (n + 0x8000_0000) % 0x1_0000_0000 - 0x8000_0000
  }

  datatype Option<T> = None | Some(value: T)

  /** The exceptions the modelled code can raise. */
  datatype Error =
    | ArgumentOutOfRange   // `new DateTime(ticks)` or a `List<T>` index out of range
    | IndexOutOfRange      // an array index past the end
    | NullReference        // a member read through a `null` reference

  /** Either a normal return or the exception thrown instead. */
  datatype Result<T> = Success(value: T) | Failure(error: Error)

  /** The arguments of one `ReceiveReliableDissonanceData` /
      `ReceiveUnreliableDissonanceData` command: one fragment of a transfer. */
  datatype Segment = Segment(
    data: Bytes,
    dataId: UInt32,
    index: UInt8,
    total: UInt8,
    senderId: UInt32,
    sendTime: Int64)

  /** The concatenation of chunks in order. */
  function Flatten(chunks: seq<Bytes>): (r: Bytes)
    ensures |chunks| == 0 ==> r == []
  {
    if |chunks| == 0 then [] else Flatten(chunks[..|chunks| - 1]) + chunks[|chunks| - 1]
  }

  lemma {:induction false} FlattenAppend(chunks: seq<Bytes>, more: seq<Bytes>)
    ensures Flatten(chunks + more) == Flatten(chunks) + Flatten(more)
    decreases |more|
  {
    if |more| == 0 {
      assert chunks + more == chunks;
    } else {
      var last := more[|more| - 1];
      var init := more[..|more| - 1];
      var all := chunks + more;
      assert all[..|all| - 1] == chunks + init && all[|all| - 1] == last;
      assert Flatten(all) == Flatten(chunks + init) + last;
      FlattenAppend(chunks, init);
      assert Flatten(more) == Flatten(init) + last;
    }
  }

  lemma FlattenSingleton(chunk: Bytes)
    ensures Flatten([chunk]) == chunk
  {
    assert [chunk][..0] == [];
  }
}
