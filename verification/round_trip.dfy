/** What the receiving queue makes of the commands one sender dispatches:
    the round trip, the capacity limit of the byte-sized index and total, and
    the permanent loss after a desynchronisation. */
module RoundTrip {
  import opened Types
  import opened PacketQueue
  import opened PacketSender

  lemma CeilDivBounds(n: nat, S: nat)
    requires S > 0
    requires 1 <= n <= 0xFF * S
    ensures 1 <= CeilDiv(n, S) <= 0xFF
  {
  }

  lemma MulMonotone(a: int, b: int, S: nat)
    requires a <= b
    ensures a * S <= b * S
  {
    assert b * S - a * S == (b - a) * S;
  }

  lemma CeilDivExact(n: nat, S: nat, m: nat)
    requires S > 0 && m > 0
    requires (m - 1) * S < n <= m * S
    ensures CeilDiv(n, S) == m
  {
    var r := CeilDiv(n, S);
    if r < m {
      MulMonotone(r, m - 1, S);
    } else if r > m {
      MulMonotone(m, r - 1, S);
    }
  }

  /** The segments of one call, when there are between 1 and 255 of them,
      form one well-numbered transfer. */
  lemma SegmentsFormTransfer(data: Bytes, S: nat, dataId: UInt32, senderId: UInt32, sendTime: Int64)
    requires S > 0
    requires 1 <= |data| <= 0xFF * S
    ensures IsTransfer(Segments(data, S, dataId, senderId, sendTime), dataId)
    ensures Flatten(Datas(Segments(data, S, dataId, senderId, sendTime))) == data
  {
    var segs := Segments(data, S, dataId, senderId, sendTime);
    SlicesCount(data, S);
    CeilDivBounds(|data|, S);
    SlicesConcat(data, S);
    assert Datas(segs) == Slices(data, S);
  }

  /** Round trip: the commands of one call, fed in order to an idle queue,
      enqueue exactly the original payload and leave the queue idle. */
  lemma SendThenReassemble(q: FragmentQueue, st: SenderState, S: nat, handler: Handler, data: Bytes,
                           reliable: bool, senderId: UInt32, sendTime: Int64)
    requires S > 0
    requires 1 <= |data| <= 0xFF * S
    requires q.assembly == Idle
    ensures Feed(q, SegmentsOf(Emit(st, S, handler, data, reliable, senderId, sendTime).0))
            == FragmentQueue(Idle, q.queued + [data])
  {
    var segs := Segments(data, S, st.dataId, senderId, sendTime);
    assert SegmentsOf(Emit(st, S, handler, data, reliable, senderId, sendTime).0) == segs;
    SegmentsFormTransfer(data, S, st.dataId, senderId, sendTime);
    TransferCompletes(q, segs, st.dataId);
  }

  /** An empty payload dispatches nothing, so the receiver's queue is
      untouched; the sender's counter still advances. */
  lemma EmptyPayloadSendsNothing(q: FragmentQueue, st: SenderState, S: nat, handler: Handler,
                                 reliable: bool, senderId: UInt32, sendTime: Int64)
    requires S > 0
    ensures Emit(st, S, handler, [], reliable, senderId, sendTime).0 == []
    ensures Feed(q, SegmentsOf(Emit(st, S, handler, [], reliable, senderId, sendTime).0)) == q
    ensures Emit(st, S, handler, [], reliable, senderId, sendTime).1 != st
  {
    NextDataIdChanges(st.dataId);
  }

  /** A stream in which every segment announces `total == 0` never completes
      anything: `_pendingData.Count` is at least 1 after an append. */
  lemma {:induction false} ZeroTotalNeverCompletes(q: FragmentQueue, segs: seq<Segment>)
    requires forall k :: 0 <= k < |segs| ==> segs[k].total == 0
    ensures Feed(q, segs).queued == q.queued
  {
    if |segs| > 0 {
      ZeroTotalNeverCompletes(q, segs[..|segs| - 1]);
    }
  }

  /** Capacity limit: a payload that needs exactly 256 slices is announced
      with `total == (byte)256 == 0` and is never delivered. */
  lemma TooManySlicesIsLost(q: FragmentQueue, st: SenderState, S: nat, handler: Handler, data: Bytes,
                            reliable: bool, senderId: UInt32, sendTime: Int64)
    requires S > 0
    requires 0xFF * S < |data| <= 0x100 * S
    ensures Feed(q, SegmentsOf(Emit(st, S, handler, data, reliable, senderId, sendTime).0)).queued == q.queued
  {
    var segs := SegmentsOf(Emit(st, S, handler, data, reliable, senderId, sendTime).0);
    SlicesCount(data, S);
    CeilDivExact(|data|, S, 0x100);
    ZeroTotalNeverCompletes(q, segs);
  }

  /** The `k`-th slice onwards are the slices of the payload from byte
      `k * S` on. */
  lemma {:induction false} SlicesFrom(data: Bytes, S: nat, k: nat)
    requires S > 0 && k * S < |data|
    ensures k <= |Slices(data, S)|
    ensures Slices(data, S)[k..] == Slices(data[k * S..], S)
    decreases k
  {
    if k > 0 {
      assert (k - 1) * S == k * S - S;
      assert |data| > S by { MulMonotone(1, k, S); }
      var rest := data[S..];
      assert Slices(data, S) == [data[..S]] + Slices(rest, S);
      SlicesFrom(rest, S, k - 1);
      assert rest[(k - 1) * S..] == data[k * S..];
    }
  }

  /** Past the capacity limit a payload is cut short: with 257 slices the
      announced total is `(byte)257 == 1`, so at an idle queue the first
      fragment alone completes and delivers the first `S` bytes as a whole
      payload, and the 257th fragment, numbered `(byte)256 == 0`, alone
      delivers the last bytes as another. */
  lemma TooManySlicesTruncates(q: FragmentQueue, st: SenderState, S: nat, handler: Handler, data: Bytes,
                               reliable: bool, senderId: UInt32, sendTime: Int64)
    requires S > 0 && q.assembly == Idle
    requires 0x100 * S < |data| <= 0x101 * S
    ensures var cmds := Emit(st, S, handler, data, reliable, senderId, sendTime).0;
      && |cmds| == 0x101
      && cmds[0].segment.total == 1 && cmds[0x100].segment.index == 0
      && AddSegment(q, cmds[0].segment) == FragmentQueue(Idle, q.queued + [data[..S]])
      && AddSegment(q, cmds[0x100].segment) == FragmentQueue(Idle, q.queued + [data[0x100 * S..]])
  {
    var cmds := Emit(st, S, handler, data, reliable, senderId, sendTime).0;
    var slices := Slices(data, S);
    SlicesCount(data, S);
    CeilDivExact(|data|, S, 0x101);
    assert |data| > S by { MulMonotone(1, 0x100, S); }
    assert cmds[0].segment.data == slices[0] == data[..S];
    assert cmds[0x100].segment.data == slices[0x100] == data[0x100 * S..] by {
      SlicesFrom(data, S, 0x100);
      assert |data[0x100 * S..]| <= S;
    }
    FlattenSingleton(data[..S]);
    FlattenSingleton(data[0x100 * S..]);
  }

  /** The segments of successive calls from one sender, the `j`-th call
      carrying payload `payloads[j]` and the id reached after `j` calls. */
  function Transfers(c: UInt32, S: nat, payloads: seq<Bytes>, senderId: UInt32, sendTime: Int64): (r: seq<seq<Segment>>)
    requires S > 0
    ensures |r| == |payloads|
  {
    seq(|payloads|, j requires 0 <= j < |payloads| => Segments(payloads[j], S, IdAfter(c, j), senderId, sendTime))
  }

  /** The behaviour after a desynchronisation: once a queue holds
      `Accumulating(x, [])`, a sender whose ids advance by one per call gets
      none of its following payloads through, however many, as long as the
      first of those calls does not use `x`. Each later call changes the id,
      and the queue only compares an index-0 fragment with the id just
      before it. */
  lemma SenderStuckAfterDesync(q: FragmentQueue, x: UInt32, c: UInt32, S: nat, payloads: seq<Bytes>,
                               senderId: UInt32, sendTime: Int64)
    requires S > 0
    requires q.assembly == Accumulating(x, [])
    requires c != x
    requires forall j :: 0 <= j < |payloads| ==> 1 <= |payloads[j]| <= 0xFF * S
    ensures Feed(q, Concat(Transfers(c, S, payloads, senderId, sendTime))).queued == q.queued
    ensures Feed(q, Concat(Transfers(c, S, payloads, senderId, sendTime))).assembly.Accumulating?
  {
    var transfers := Transfers(c, S, payloads, senderId, sendTime);
    var ids := IdsFrom(c, |payloads|);
    TransfersAreTransfers(c, S, payloads, senderId, sendTime);
    StuckForever(q, x, transfers, ids);
  }

  /** The ids of `n` successive calls from `c`: each differs from the one
      before it. */
  function IdsFrom(c: UInt32, n: nat): (ids: seq<UInt32>)
    ensures |ids| == n
    ensures forall j :: 0 <= j < n ==> ids[j] == IdAfter(c, j)
    ensures forall j :: 0 < j < n ==> ids[j] != ids[j - 1]
  {
    seq(n, j requires 0 <= j < n => NextIdsDiffer(c, j); IdAfter(c, j))
  }

  lemma NextIdsDiffer(c: UInt32, j: nat)
    ensures j > 0 ==> IdAfter(c, j) != IdAfter(c, j - 1)
  {
    if j > 0 {
      NextDataIdChanges(IdAfter(c, j - 1));
    }
  }

  /** Each call's segments form one well-numbered transfer with its id. */
  lemma TransfersAreTransfers(c: UInt32, S: nat, payloads: seq<Bytes>, senderId: UInt32, sendTime: Int64)
    requires S > 0
    requires forall j :: 0 <= j < |payloads| ==> 1 <= |payloads[j]| <= 0xFF * S
    ensures forall j :: 0 <= j < |payloads| ==>
              IsTransfer(Transfers(c, S, payloads, senderId, sendTime)[j], IdsFrom(c, |payloads|)[j])
  {
    forall j | 0 <= j < |payloads|
      ensures IsTransfer(Transfers(c, S, payloads, senderId, sendTime)[j], IdsFrom(c, |payloads|)[j])
    {
      SegmentsFormTransfer(payloads[j], S, IdAfter(c, j), senderId, sendTime);
    }
  }

  /** The usual desynchronisation: a fragment of the transfer with id `x` is
      lost, the queue resets on `x`, and the sender carries on from
      `NextDataId(x)`. None of its later payloads ever gets through. */
  lemma SenderStuckOnLostId(q: FragmentQueue, x: UInt32, S: nat, payloads: seq<Bytes>,
                            senderId: UInt32, sendTime: Int64)
    requires S > 0
    requires q.assembly == Accumulating(x, [])
    requires forall j :: 0 <= j < |payloads| ==> 1 <= |payloads[j]| <= 0xFF * S
    ensures Feed(q, Concat(Transfers(NextDataId(x), S, payloads, senderId, sendTime))).queued == q.queued
  {
    NextDataIdChanges(x);
    SenderStuckAfterDesync(q, x, NextDataId(x), S, payloads, senderId, sendTime);
  }

  /** Ten bytes in slices of four: three segments of 4, 4 and 2 bytes, all
      announcing three in total. All three in order give the payload back;
      the first two alone enqueue nothing. */
  lemma TenBytesInFours(st: SenderState, handler: Handler, reliable: bool, senderId: UInt32, sendTime: Int64)
    ensures var data: Bytes := [0, 1, 2, 3, 4, 5, 6, 7, 8, 9];
      var segs := SegmentsOf(Emit(st, 4, handler, data, reliable, senderId, sendTime).0);
      && |segs| == 3
      && segs[0].data == [0, 1, 2, 3] && segs[1].data == [4, 5, 6, 7] && segs[2].data == [8, 9]
      && (forall k :: 0 <= k < 3 ==> segs[k].index == k && segs[k].total == 3)
      && Feed(Fresh, segs) == FragmentQueue(Idle, [data])
      && Feed(Fresh, segs[..2]).queued == []
  {
    var data: Bytes := [0, 1, 2, 3, 4, 5, 6, 7, 8, 9];
    var segs := SegmentsOf(Emit(st, 4, handler, data, reliable, senderId, sendTime).0);
    assert Slices(data, 4) == [data[..4]] + Slices(data[4..], 4);
    assert Slices(data[4..], 4) == [data[4..][..4]] + Slices(data[4..][4..], 4);
    assert Slices(data[4..][4..], 4) == [data[8..]];
    assert data[4..][..4] == [4, 5, 6, 7] && data[8..] == [8, 9];
    SendThenReassemble(Fresh, st, 4, handler, data, reliable, senderId, sendTime);
    SegmentsFormTransfer(data, 4, st.dataId, senderId, sendTime);
    PrefixAccumulates(Fresh, segs, st.dataId, 2);
  }

  /** A transfer abandoned after three of its fragments: the first fragment
      of the next transfer does not start a new accumulation but is dropped
      with the held chunks, so the next transfer's second fragment is out of
      position and is dropped too. */
  lemma NextTransferAfterAbandoned(a: Bytes, b: Bytes, c: Bytes, t: UInt32, d0: Segment, d1: Segment)
    requires d0.dataId != t && d0.index == 0 && d0.total == 4
    requires d1.dataId == d0.dataId && d1.index == 1 && d1.total == 4
    ensures var q := FragmentQueue(Accumulating(t, [a, b, c]), []);
      && AddSegment(q, d0) == FragmentQueue(Accumulating(d0.dataId, []), [])
      && AddSegment(AddSegment(q, d0), d1) == FragmentQueue(Accumulating(d0.dataId, []), [])
  {
  }
}
