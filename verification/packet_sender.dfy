/** The send side of a voice stream (`FragmentedPacketSender`): one payload
    becomes a run of commands of at most `S` bytes each, where `S` stands for
    the SDK's `BYTES_LIST_MAX_LENGTH`, and the transfer id advances. */
module PacketSender {
  import opened Types

  /** `SendOrderedCommand` (reliable, ordered) or `SendCommand` (best effort). */
  datatype Channel = Ordered | Unordered

  /** The receiving command named by `methodName`. */
  datatype Handler = ReliableHandler | UnreliableHandler

  /** One dispatched command: the channel it goes out on, the handler it
      invokes on the authority, and its arguments. */
  datatype Command = Command(channel: Channel, handler: Handler, segment: Segment)

  /** `_dataId`: the id the next transfer will carry. */
  datatype SenderState = SenderState(dataId: UInt32)

  /** `new FragmentedPacketSender<T>()`. */
  const Initial: SenderState := SenderState(0)

  /** Integer ceiling of `n / s`: the number of segments for `n` bytes. */
  function CeilDiv(n: nat, s: nat): (r: nat)
    requires s > 0
    ensures (r - 1) * s < n <= r * s || (n == 0 && r == 0)
  {
    (n + s - 1) / s
  }

  /** `(_dataId + 1) % uint.MaxValue`: the `+ 1` is unchecked `uint`
      arithmetic, then the remainder by `uint.MaxValue` is taken. */
  function NextDataId(id: UInt32): (r: UInt32)
    ensures r < UIntMax
    ensures id < UIntMax - 1 ==> r == id + 1
    ensures id == UIntMax - 1 ==> r == 0
    ensures id == UIntMax ==> r == 0
  {
    ((id + 1) % 0x1_0000_0000) % UIntMax
  }

  /** The reference split: consecutive slices of `S` bytes, the last one
      shorter when `|data|` is not a multiple of `S`. */
  function Slices(data: Bytes, S: nat): (r: seq<Bytes>)
    requires S > 0
    decreases |data|
  {
    if |data| == 0 then []
    else if |data| <= S then [data]
    else [data[..S]] + Slices(data[S..], S)
  }

  /** There are `ceil(|data| / S)` slices: none for an empty payload. */
  lemma {:induction false} SlicesCount(data: Bytes, S: nat)
    requires S > 0
    ensures |Slices(data, S)| == CeilDiv(|data|, S)
    decreases |data|
  {
    if |data| > S {
      SlicesCount(data[S..], S);
      DivAddDivisor(|data| - S + S - 1, S);
    } else if |data| > 0 {
      DivOne(|data| + S - 1, S);
    }
  }

  lemma DivAddDivisor(x: nat, s: nat)
    requires s > 0
    ensures (x + s) / s == x / s + 1
  {
    var q, r := x / s, x % s;
    var q2, r2 := (x + s) / s, (x + s) % s;
    var d := q2 - q - 1;
    assert d * s == r - r2 by {
      assert q2 * s + r2 == q * s + r + s;
    }
  }

  lemma DivOne(y: nat, s: nat)
    requires 0 < s <= y < 2 * s
    ensures y / s == 1
  {
    DivAddDivisor(y - s, s);
    assert (y - s) / s == 0;
  }

  /** The slices concatenate back to the payload. */
  lemma {:induction false} SlicesConcat(data: Bytes, S: nat)
    requires S > 0
    ensures Flatten(Slices(data, S)) == data
    decreases |data|
  {
    if |data| == 0 {
    } else if |data| <= S {
      FlattenSingleton(data);
    } else {
      var rest := Slices(data[S..], S);
      assert Slices(data, S) == [data[..S]] + rest;
      assert Flatten(rest) == data[S..] by { SlicesConcat(data[S..], S); }
      assert Flatten([data[..S]]) == data[..S] by { FlattenSingleton(data[..S]); }
      FlattenAppend([data[..S]], rest);
      assert data[..S] + data[S..] == data;
    }
  }

  /** Every slice holds between 1 and `S` bytes, and every slice but the last
      holds exactly `S`. */
  lemma {:induction false} SlicesSizes(data: Bytes, S: nat)
    requires S > 0
    ensures forall k :: 0 <= k < |Slices(data, S)| ==> 1 <= |Slices(data, S)[k]| <= S
    ensures forall k :: 0 <= k < |Slices(data, S)| - 1 ==> |Slices(data, S)[k]| == S
    decreases |data|
  {
    if |data| > S {
      SlicesSizes(data[S..], S);
      var rest := Slices(data[S..], S);
      assert Slices(data, S) == [data[..S]] + rest;
    }
  }

  /** One turn of the cursor loop takes the next reference slice. */
  lemma SliceStep(data: Bytes, S: nat, cursor: nat, nextPos: nat)
    requires S > 0
    requires cursor < |data|
    requires nextPos == if cursor + S > |data| then |data| else cursor + S
    ensures Slices(data[cursor..], S) == [data[cursor..nextPos]] + Slices(data[nextPos..], S)
  {
    var rest := data[cursor..];
    if |rest| > S {
      assert rest[..S] == data[cursor..nextPos];
      assert rest[S..] == data[nextPos..];
    } else {
      assert rest == data[cursor..nextPos];
      assert data[nextPos..] == [];
    }
  }

  /** One turn of the cursor loop emits the next reference command. */
  lemma EmitStep(st: SenderState, S: nat, handler: Handler, data: Bytes, reliable: bool,
                 senderId: UInt32, sendTime: Int64, cursor: nat, nextPos: nat, index: nat)
    requires S > 0
    requires cursor < |data|
    requires nextPos == if cursor + S > |data| then |data| else cursor + S
    requires index <= |Slices(data, S)|
    requires Slices(data[cursor..], S) == Slices(data, S)[index..]
    ensures index < |Slices(data, S)|
    ensures Slices(data[nextPos..], S) == Slices(data, S)[index + 1..]
    ensures var reference := Emit(st, S, handler, data, reliable, senderId, sendTime).0;
      var channel := if reliable then Ordered else Unordered;
      && index < |reference|
      && reference[..index + 1] == reference[..index] + [Command(channel, handler,
           Segment(data[cursor..nextPos], st.dataId, ToByte(index), ToByte(CeilDiv(|data|, S)), senderId, sendTime))]
  {
    var slices := Slices(data, S);
    var slice := data[cursor..nextPos];
    // the remaining slices start with the slice under the cursor
    assert index < |slices| && slices[index] == slice && slices[index + 1..] == Slices(data[nextPos..], S) by {
      SliceStep(data, S, cursor, nextPos);
      assert slices[index..] == [slice] + Slices(data[nextPos..], S);
      assert slices[index..][1..] == slices[index + 1..];
    }
    // the reference command at that position carries it
    var channel := if reliable then Ordered else Unordered;
    var cmd := Command(channel, handler, Segment(slice, st.dataId, ToByte(index), ToByte(CeilDiv(|data|, S)), senderId, sendTime));
    var reference := Emit(st, S, handler, data, reliable, senderId, sendTime).0;
    assert index < |reference| && reference[index] == cmd by {
      SlicesCount(data, S);
      assert Segments(data, S, st.dataId, senderId, sendTime)[index].data == slice;
    }
    assert reference[..index + 1] == reference[..index] + [cmd];
  }

  /** The segments one call emits, in emission order. */
  function Segments(data: Bytes, S: nat, dataId: UInt32, senderId: UInt32, sendTime: Int64): (r: seq<Segment>)
    requires S > 0
    ensures |r| == |Slices(data, S)|
  {
    var slices := Slices(data, S);
    seq(|slices|, k requires 0 <= k < |slices| =>
      Segment(slices[k], dataId, ToByte(k), ToByte(|slices|), senderId, sendTime))
  }

  /** `SendDissonanceData` as a function: the commands dispatched, and the
      counter afterwards. */
  function Emit(st: SenderState, S: nat, handler: Handler, data: Bytes, reliable: bool,
                senderId: UInt32, sendTime: Int64): (seq<Command>, SenderState)
    requires S > 0
  {
    var segs := Segments(data, S, st.dataId, senderId, sendTime);
    var channel := if reliable then Ordered else Unordered;
    (seq(|segs|, k requires 0 <= k < |segs| => Command(channel, handler, segs[k])),
     SenderState(NextDataId(st.dataId)))
  }

  /** What one call dispatches: `ceil(|data| / S)` commands whose slices,
      in order, are the payload; all but the last full; all carrying the same
      id, total, sender and time; all on the channel `reliable` selects. */
  lemma EmitProperties(st: SenderState, S: nat, handler: Handler, data: Bytes, reliable: bool,
                       senderId: UInt32, sendTime: Int64)
    requires S > 0
    ensures var (cmds, st') := Emit(st, S, handler, data, reliable, senderId, sendTime);
      && |cmds| == CeilDiv(|data|, S)
      && Flatten(PayloadsOf(cmds)) == data
      && (forall k :: 0 <= k < |cmds| ==> 1 <= |cmds[k].segment.data| <= S)
      && (forall k :: 0 <= k < |cmds| - 1 ==> |cmds[k].segment.data| == S)
      && (forall k :: 0 <= k < |cmds| ==>
            && cmds[k].segment.dataId == st.dataId
            && cmds[k].segment.index == ToByte(k)
            && cmds[k].segment.total == ToByte(|cmds|)
            && cmds[k].segment.senderId == senderId
            && cmds[k].segment.sendTime == sendTime)
      && (forall k :: 0 <= k < |cmds| ==>
            cmds[k].channel == (if reliable then Ordered else Unordered) && cmds[k].handler == handler)
      && st'.dataId == NextDataId(st.dataId)
  {
    var cmds := Emit(st, S, handler, data, reliable, senderId, sendTime).0;
    SlicesCount(data, S);
    SlicesConcat(data, S);
    SlicesSizes(data, S);
    assert PayloadsOf(cmds) == Slices(data, S);
  }

  /** The segments of a run of commands. */
  function SegmentsOf(cmds: seq<Command>): (r: seq<Segment>)
    ensures |r| == |cmds|
    ensures forall k :: 0 <= k < |cmds| ==> r[k] == cmds[k].segment
  {
    seq(|cmds|, k requires 0 <= k < |cmds| => cmds[k].segment)
  }

  /** The byte slices carried by a run of commands, in emission order. */
  function PayloadsOf(cmds: seq<Command>): (r: seq<Bytes>)
    ensures |r| == |cmds|
    ensures forall k :: 0 <= k < |cmds| ==> r[k] == cmds[k].segment.data
  {
    seq(|cmds|, k requires 0 <= k < |cmds| => cmds[k].segment.data)
  }

  /** `SendDissonanceData(sync, methodName, data, reliable)`: the cursor loop
      of the source. `senderId` is the bridge's client id and `sendTime` the
      clock reading taken once before the loop. */
  method SendDissonanceData(st: SenderState, S: nat, handler: Handler, data: Bytes, reliable: bool,
                            senderId: UInt32, sendTime: Int64)
    returns (cmds: seq<Command>, st': SenderState)
    requires S > 0
    // as many commands as `S`-byte slices, and `total` is that count as a byte
    ensures |cmds| == CeilDiv(|data|, S)
    // the slices, read in emission order, are the payload
    ensures Flatten(PayloadsOf(cmds)) == data
    ensures forall k :: 0 <= k < |cmds| ==> 1 <= |cmds[k].segment.data| <= S
    ensures forall k :: 0 <= k < |cmds| - 1 ==> |cmds[k].segment.data| == S
    // one id, one total, one sender and one time per call; index k as a byte
    ensures forall k :: 0 <= k < |cmds| ==>
              && cmds[k].segment.dataId == st.dataId
              && cmds[k].segment.index == ToByte(k)
              && cmds[k].segment.total == ToByte(|cmds|)
              && cmds[k].segment.senderId == senderId
              && cmds[k].segment.sendTime == sendTime
    // all reliable commands are ordered, all unreliable ones are not
    ensures forall k :: 0 <= k < |cmds| ==>
              cmds[k].channel == (if reliable then Ordered else Unordered) && cmds[k].handler == handler
    // the counter advances once per call, even for an empty payload
    ensures st'.dataId == NextDataId(st.dataId)
    ensures (cmds, st') == Emit(st, S, handler, data, reliable, senderId, sendTime)
  {
    var cursor := 0;
    var index := 0;
    SlicesCount(data, S);
    var total := CeilDiv(|data|, S);
    var channel := if reliable then Ordered else Unordered;
    ghost var slices := Slices(data, S);
    ghost var reference := Emit(st, S, handler, data, reliable, senderId, sendTime).0;
    cmds := [];
    while cursor < |data|
      invariant 0 <= cursor <= |data|
      invariant 0 <= index <= |slices|
      invariant Slices(data[cursor..], S) == slices[index..]
      invariant cmds == reference[..index]
      decreases |data| - cursor
    {
      // `Mathf.Clamp(cursor + S, cursor, data.Count)`
      var nextPos := if cursor + S > |data| then |data| else cursor + S;
      var segment := Segment(data[cursor..nextPos], st.dataId, ToByte(index), ToByte(total), senderId, sendTime);
      EmitStep(st, S, handler, data, reliable, senderId, sendTime, cursor, nextPos, index);
      cmds := cmds + [Command(channel, handler, segment)];
      index := index + 1;
      cursor := nextPos;
    }
    assert data[cursor..] == [];
    st' := SenderState(NextDataId(st.dataId));
    assert cmds == reference;
    EmitProperties(st, S, handler, data, reliable, senderId, sendTime);
  }

  /** `_dataId` never reaches `uint.MaxValue`, and every call changes it. */
  lemma NextDataIdChanges(id: UInt32)
    ensures NextDataId(id) != id
  {
  }

  /** The id after `n` calls. */
  function IdAfter(id: UInt32, n: nat): UInt32
  {
    if n == 0 then id else NextDataId(IdAfter(id, n - 1))
  }

  /** Starting from a reachable id, `n` calls add `n` modulo `uint.MaxValue`. */
  lemma {:induction false} IdAfterIsModular(id: UInt32, n: nat)
    requires id < UIntMax
    ensures IdAfter(id, n) == (id + n) % UIntMax
  {
    if n > 0 {
      IdAfterIsModular(id, n - 1);
      ModSucc(id + n - 1);
    }
  }

  lemma ModSucc(a: nat)
    ensures (a + 1) % UIntMax == if a % UIntMax < UIntMax - 1 then a % UIntMax + 1 else 0
  {
    var q, r := a / UIntMax, a % UIntMax;
    assert a + 1 == q * UIntMax + (r + 1);
    if r == UIntMax - 1 {
      assert a + 1 == (q + 1) * UIntMax;
    }
  }

  /** Fewer than `uint.MaxValue` consecutive calls never reuse an id. */
  lemma IdsDistinct(id: UInt32, i: nat, j: nat)
    requires id < UIntMax
    requires i < j < UIntMax
    ensures IdAfter(id, i) != IdAfter(id, j)
  {
    IdAfterIsModular(id, i);
    IdAfterIsModular(id, j);
  }
}
