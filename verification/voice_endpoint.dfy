/** The voice bridge's receive and send handlers. `CoherenceCommsNetwork`
    (server side) and `CoherenceSyncVoice` (client side) hold the same state
    and run the same handler code: one packet sender whose id counter serves
    both the reliable and the unreliable path, and a map from sender id to
    that sender's fragment queue, created on demand. */
module VoiceEndpoint {
  import opened Types
  import opened PacketQueue
  import opened PacketSender
  import RoundTrip

  /** `TimeSpan.TicksPerSecond`: one tick is 100 ns. */
  const TicksPerSecond: int := 10_000_000

  /** `staleAudioTimeSeconds` / `_staleAudioTimeSeconds` defaults to 3. */
  const DefaultStaleTicks: int := 3 * TicksPerSecond

  /** `DateTime.MaxValue.Ticks`; `new DateTime(t)` throws for `t` outside
      `[0, MaxDateTimeTicks]`. */
  const MaxDateTimeTicks: int := 3_155_378_975_999_999_999

  /** A reading of `DateTime.UtcNow.Ticks`. */
  type Ticks = t: int | 0 <= t <= MaxDateTimeTicks

  /** One endpoint's state: the packet sender, the per-sender queues
      (`_receivedData`) and the staleness threshold in ticks. */
  datatype Endpoint = Endpoint(sender: SenderState, received: map<UInt32, FragmentQueue>, staleTicks: int)

  /** A freshly created component. */
  function NewEndpoint(): (ep: Endpoint)
    ensures ep.received == map[] && ep.sender.dataId == 0
    ensures ep.staleTicks == 30_000_000
  {
    Endpoint(Initial, map[], DefaultStaleTicks)
  }

  /** The lookup-or-create followed by `AddData` that both receive handlers
      share: the first segment from an unseen sender creates a fresh idle
      queue, later segments reuse it, and no other sender's queue changes. */
  function Route(received: map<UInt32, FragmentQueue>, s: Segment): (r: map<UInt32, FragmentQueue>)
    ensures r.Keys == received.Keys + {s.senderId}
    ensures forall id :: id in received && id != s.senderId ==> r[id] == received[id]
    ensures s.senderId !in received ==> r[s.senderId] == AddSegment(Fresh, s)
    ensures s.senderId in received ==> r[s.senderId] == AddSegment(received[s.senderId], s)
  {
    var q := if s.senderId in received then received[s.senderId] else Fresh;
    received[s.senderId := AddSegment(q, s)]
  }

  /** `ReceiveReliableDissonanceData`: no age check. */
  function ReceiveReliable(ep: Endpoint, s: Segment): (r: Endpoint)
    ensures r.sender == ep.sender && r.staleTicks == ep.staleTicks
    ensures r.received.Keys == ep.received.Keys + {s.senderId}
    ensures forall id :: id in ep.received && id != s.senderId ==> r.received[id] == ep.received[id]
    ensures r.received[s.senderId] == AddSegment(if s.senderId in ep.received then ep.received[s.senderId] else Fresh, s)
  {
    ep.(received := Route(ep.received, s))
  }

  /** The age test: a segment is stale when strictly more than `staleTicks`
      have passed since it was sent. */
  predicate IsStale(now: Ticks, sendTime: Int64, staleTicks: int)
  {
    now - sendTime > staleTicks
  }

  /** `ReceiveUnreliableDissonanceData`: `new DateTime(sendTime)` throws for a
      send time outside the `DateTime` range; a stale segment is dropped and
      changes nothing; any other segment goes exactly where a reliable one
      would. */
  function ReceiveUnreliable(ep: Endpoint, s: Segment, now: Ticks): (r: Result<Endpoint>)
    ensures r.Failure? <==> !(0 <= s.sendTime <= MaxDateTimeTicks)
    ensures r.Success? && IsStale(now, s.sendTime, ep.staleTicks) ==> r.value == ep
    ensures r.Success? && !IsStale(now, s.sendTime, ep.staleTicks) ==> r.value == ReceiveReliable(ep, s)
  {
    if !(0 <= s.sendTime <= MaxDateTimeTicks) then Failure(ArgumentOutOfRange)
    else if IsStale(now, s.sendTime, ep.staleTicks) then Success(ep)
    else Success(ReceiveReliable(ep, s))
  }

  /** A reliable segment's send time plays no part in where it goes. */
  lemma ReliableIgnoresSendTime(ep: Endpoint, s: Segment, t: Int64)
    ensures ReceiveReliable(ep, s) == ReceiveReliable(ep, s.(sendTime := t))
  {
  }

  /** The staleness boundary: a segment exactly `staleTicks` old, or one sent
      "in the future", is admitted; one tick older is dropped. */
  lemma StalenessBoundary(ep: Endpoint, s: Segment, now: Ticks)
    requires 0 <= s.sendTime <= MaxDateTimeTicks
    ensures now - s.sendTime == ep.staleTicks ==> ReceiveUnreliable(ep, s, now) == Success(ReceiveReliable(ep, s))
    ensures now - s.sendTime < 0 && ep.staleTicks >= 0 ==>
              ReceiveUnreliable(ep, s, now) == Success(ReceiveReliable(ep, s))
    ensures now - s.sendTime == ep.staleTicks + 1 ==> ReceiveUnreliable(ep, s, now) == Success(ep)
  {
  }

  /** `SendReliableServerDissonanceData` / `SendReliableClientDissonanceData`:
      every segment goes out ordered, addressed to the reliable handler. */
  function SendReliable(ep: Endpoint, S: nat, data: Bytes, selfId: UInt32, now: Ticks): (r: (seq<Command>, Endpoint))
    requires S > 0
    ensures |r.0| == CeilDiv(|data|, S) && Flatten(PayloadsOf(r.0)) == data
    ensures forall k :: 0 <= k < |r.0| ==> r.0[k].channel == Ordered && r.0[k].handler == ReliableHandler
    ensures forall k :: 0 <= k < |r.0| ==>
              && r.0[k].segment.dataId == ep.sender.dataId
              && r.0[k].segment.index == ToByte(k)
              && r.0[k].segment.total == ToByte(|r.0|)
              && r.0[k].segment.senderId == selfId
              && r.0[k].segment.sendTime == now
    ensures r.1 == ep.(sender := SenderState(NextDataId(ep.sender.dataId)))
  {
    EmitProperties(ep.sender, S, ReliableHandler, data, true, selfId, now);
    var (cmds, st') := Emit(ep.sender, S, ReliableHandler, data, true, selfId, now);
    (cmds, ep.(sender := st'))
  }

  /** `SendUnreliableServerDissonanceData` / `SendUnreliableClientDissonanceData`:
      every segment goes out unordered, addressed to the unreliable handler. */
  function SendUnreliable(ep: Endpoint, S: nat, data: Bytes, selfId: UInt32, now: Ticks): (r: (seq<Command>, Endpoint))
    requires S > 0
    ensures |r.0| == CeilDiv(|data|, S) && Flatten(PayloadsOf(r.0)) == data
    ensures forall k :: 0 <= k < |r.0| ==> r.0[k].channel == Unordered && r.0[k].handler == UnreliableHandler
    ensures forall k :: 0 <= k < |r.0| ==>
              && r.0[k].segment.dataId == ep.sender.dataId
              && r.0[k].segment.index == ToByte(k)
              && r.0[k].segment.total == ToByte(|r.0|)
              && r.0[k].segment.senderId == selfId
              && r.0[k].segment.sendTime == now
    ensures r.1 == ep.(sender := SenderState(NextDataId(ep.sender.dataId)))
  {
    EmitProperties(ep.sender, S, UnreliableHandler, data, false, selfId, now);
    var (cmds, st') := Emit(ep.sender, S, UnreliableHandler, data, false, selfId, now);
    (cmds, ep.(sender := st'))
  }

  /** Both send paths draw from the one counter: whichever path sends second
      uses the id after the one the first used. */
  lemma SharedCounter(ep: Endpoint, S: nat, a: Bytes, b: Bytes, selfId: UInt32, now: Ticks, reliableFirst: bool)
    requires S > 0
    requires |b| > 0
    ensures var ep1 := if reliableFirst then SendReliable(ep, S, a, selfId, now).1
                       else SendUnreliable(ep, S, a, selfId, now).1;
            var second := if reliableFirst then SendUnreliable(ep1, S, b, selfId, now).0
                          else SendReliable(ep1, S, b, selfId, now).0;
            |second| > 0 && second[0].segment.dataId == NextDataId(ep.sender.dataId)
  {
    var ep1 := ep.(sender := SenderState(NextDataId(ep.sender.dataId)));
    EmitProperties(ep1.sender, S, ReliableHandler, b, true, selfId, now);
    EmitProperties(ep1.sender, S, UnreliableHandler, b, false, selfId, now);
  }

  /** The SDK invoking the addressed handler on the receiving endpoint. An
      exception thrown by a handler is raised before it changes any state, so
      the endpoint is then left as it was. */
  function Deliver(ep: Endpoint, cmd: Command, now: Ticks): (r: Endpoint)
    ensures r.sender == ep.sender && r.staleTicks == ep.staleTicks
  {
    match cmd.handler
    case ReliableHandler => ReceiveReliable(ep, cmd.segment)
    case UnreliableHandler =>
      match ReceiveUnreliable(ep, cmd.segment, now)
      case Success(ep') => ep'
      case Failure(_) => ep
  }

  /** Every command of a run, delivered in order at time `now`. */
  function DeliverAll(ep: Endpoint, cmds: seq<Command>, now: Ticks): Endpoint
  {
    if |cmds| == 0 then ep else Deliver(DeliverAll(ep, cmds[..|cmds| - 1], now), cmds[|cmds| - 1], now)
  }

  /** Every command of a run, the `k`-th delivered at its own arrival time
      `arrival[k]`. */
  function DeliverEach(ep: Endpoint, cmds: seq<Command>, arrival: seq<Ticks>): (r: Endpoint)
    requires |arrival| == |cmds|
    ensures r.sender == ep.sender && r.staleTicks == ep.staleTicks
  {
    if |cmds| == 0 then ep
    else Deliver(DeliverEach(ep, cmds[..|cmds| - 1], arrival[..|cmds| - 1]), cmds[|cmds| - 1], arrival[|cmds| - 1])
  }

  /** Arrival times do not matter as long as every unreliable command is
      admitted at its own: delivering each command when it arrives is the
      same as delivering them all at one instant `t` at which they are all
      admitted too. */
  lemma {:induction false} DeliverEachAgrees(ep: Endpoint, cmds: seq<Command>, arrival: seq<Ticks>, t: Ticks)
    requires |arrival| == |cmds|
    requires forall k :: 0 <= k < |cmds| && cmds[k].handler == UnreliableHandler ==>
               && 0 <= cmds[k].segment.sendTime <= MaxDateTimeTicks
               && !IsStale(arrival[k], cmds[k].segment.sendTime, ep.staleTicks)
               && !IsStale(t, cmds[k].segment.sendTime, ep.staleTicks)
    ensures DeliverEach(ep, cmds, arrival) == DeliverAll(ep, cmds, t)
  {
    if |cmds| > 0 {
      var n := |cmds| - 1;
      DeliverEachAgrees(ep, cmds[..n], arrival[..n], t);
      var mid := DeliverAll(ep, cmds[..n], t);
      assert mid.staleTicks == ep.staleTicks by {
        DeliverAllKeepsThreshold(ep, cmds[..n], t);
      }
      assert Deliver(mid, cmds[n], arrival[n]) == Deliver(mid, cmds[n], t);
    }
  }

  lemma {:induction false} DeliverAllKeepsThreshold(ep: Endpoint, cmds: seq<Command>, t: Ticks)
    ensures DeliverAll(ep, cmds, t).staleTicks == ep.staleTicks
  {
    if |cmds| > 0 {
      DeliverAllKeepsThreshold(ep, cmds[..|cmds| - 1], t);
    }
  }

  /** One admitted command from a sender whose queue exists acts on that
      queue as `AddData` does, and on nothing else. */
  lemma DeliverStep(ep: Endpoint, cmd: Command, now: Ticks, sid: UInt32)
    requires cmd.segment.senderId == sid && sid in ep.received
    requires cmd.handler == UnreliableHandler ==>
               0 <= cmd.segment.sendTime <= MaxDateTimeTicks
               && !IsStale(now, cmd.segment.sendTime, ep.staleTicks)
    ensures Deliver(ep, cmd, now) == ep.(received := ep.received[sid := AddSegment(ep.received[sid], cmd.segment)])
  {
  }

  /** A run of commands from one sender that are all admitted acts on that
      sender's queue as `Feed` does, and on nothing else. */
  lemma {:induction false} DeliverAllFeeds(ep: Endpoint, cmds: seq<Command>, now: Ticks, sid: UInt32)
    requires forall k :: 0 <= k < |cmds| ==> cmds[k].segment.senderId == sid
    requires forall k :: 0 <= k < |cmds| && cmds[k].handler == UnreliableHandler ==>
               0 <= cmds[k].segment.sendTime <= MaxDateTimeTicks
               && !IsStale(now, cmds[k].segment.sendTime, ep.staleTicks)
    requires sid in ep.received
    ensures DeliverAll(ep, cmds, now) == ep.(received := ep.received[sid := Feed(ep.received[sid], SegmentsOf(cmds))])
  {
    if |cmds| == 0 {
      assert ep.received[sid := ep.received[sid]] == ep.received;
    } else {
      var init := cmds[..|cmds| - 1];
      var last := cmds[|cmds| - 1];
      DeliverAllFeeds(ep, init, now, sid);
      var before := Feed(ep.received[sid], SegmentsOf(init));
      var mid := ep.(received := ep.received[sid := before]);
      DeliverStep(mid, last, now, sid);
      SegmentsOfSnoc(cmds);
      FeedSnoc(ep.received[sid], SegmentsOf(init), last.segment);
      MapUpdateTwice(ep.received, sid, before, AddSegment(before, last.segment));
    }
  }

  lemma SegmentsOfSnoc(cmds: seq<Command>)
    requires |cmds| > 0
    ensures SegmentsOf(cmds) == SegmentsOf(cmds[..|cmds| - 1]) + [cmds[|cmds| - 1].segment]
  {
  }

  lemma MapUpdateTwice<K, V>(m: map<K, V>, k: K, v: V, w: V)
    ensures m[k := v][k := w] == m[k := w]
  {
  }

  /** End to end: a payload of 1 to 255 slices sent by one endpoint, reliably
      or unreliably, and delivered in order to another endpoint at a time
      `later` within the receiver's threshold of the send, lands as one
      payload at the back of the receiver's queue for the sender when that
      queue was absent or idle; every other sender's queue is untouched. */
  lemma EndToEnd(src: Endpoint, dst: Endpoint, S: nat, data: Bytes, selfId: UInt32, now: Ticks, later: Ticks, reliable: bool)
    requires S > 0
    requires 1 <= |data| <= 0xFF * S
    requires selfId !in dst.received || dst.received[selfId].assembly == Idle
    requires now <= later <= now + dst.staleTicks
    ensures var cmds := if reliable then SendReliable(src, S, data, selfId, now).0
                        else SendUnreliable(src, S, data, selfId, now).0;
            var dst' := DeliverAll(dst, cmds, later);
            && selfId in dst'.received
            && dst'.received[selfId].assembly == Idle
            && dst'.received[selfId].queued ==
                 (if selfId in dst.received then dst.received[selfId].queued else []) + [data]
            && forall id :: id in dst.received && id != selfId ==> id in dst'.received && dst'.received[id] == dst.received[id]
  {
    var handler := if reliable then ReliableHandler else UnreliableHandler;
    var cmds := Emit(src.sender, S, handler, data, reliable, selfId, now).0;
    assert cmds == (if reliable then SendReliable(src, S, data, selfId, now).0
                    else SendUnreliable(src, S, data, selfId, now).0);
    var q := if selfId in dst.received then dst.received[selfId] else Fresh;
    var start := dst.(received := dst.received[selfId := q]);
    var done := FragmentQueue(Idle, q.queued + [data]);
    assert DeliverAll(dst, cmds, later) == dst.(received := dst.received[selfId := done]) by {
      EmitAdmitted(src.sender, S, handler, data, reliable, selfId, now, later, dst.staleTicks);
      DeliverAllFromAbsent(dst, cmds, later, selfId);
      RoundTrip.SendThenReassemble(q, src.sender, S, handler, data, reliable, selfId, now);
      DeliverAllFeeds(start, cmds, later, selfId);
      MapUpdateTwice(dst.received, selfId, q, done);
    }
  }

  /** End to end with one arrival time per fragment: each fragment of the
      payload may arrive at its own time from the send up to the receiver's
      threshold after it, and the payload still lands as one payload at the
      back of the receiver's queue for the sender when that queue was absent
      or idle; every other sender's queue is untouched. */
  lemma EndToEndEach(src: Endpoint, dst: Endpoint, S: nat, data: Bytes, selfId: UInt32, now: Ticks,
                     arrival: seq<Ticks>, reliable: bool)
    requires S > 0
    requires 1 <= |data| <= 0xFF * S
    requires selfId !in dst.received || dst.received[selfId].assembly == Idle
    requires |arrival| == CeilDiv(|data|, S)
    requires forall k :: 0 <= k < |arrival| ==> now <= arrival[k] <= now + dst.staleTicks
    ensures var cmds := if reliable then SendReliable(src, S, data, selfId, now).0
                        else SendUnreliable(src, S, data, selfId, now).0;
            var dst' := DeliverEach(dst, cmds, arrival);
            && selfId in dst'.received
            && dst'.received[selfId].assembly == Idle
            && dst'.received[selfId].queued ==
                 (if selfId in dst.received then dst.received[selfId].queued else []) + [data]
            && forall id :: id in dst.received && id != selfId ==> id in dst'.received && dst'.received[id] == dst.received[id]
  {
    var cmds := if reliable then SendReliable(src, S, data, selfId, now).0
                else SendUnreliable(src, S, data, selfId, now).0;
    assert 0 < |arrival| && now <= arrival[0] <= now + dst.staleTicks;
    assert DeliverEach(dst, cmds, arrival) == DeliverAll(dst, cmds, now) by {
      DeliverEachAgrees(dst, cmds, arrival, now);
    }
    EndToEnd(src, dst, S, data, selfId, now, now, reliable);
  }

  /** The commands of one call all come from `selfId` through one handler,
      and none of them is refused when it arrives at any time `later` from
      the send up to `staleTicks` after it. */
  lemma EmitAdmitted(st: SenderState, S: nat, handler: Handler, data: Bytes, reliable: bool,
                     selfId: UInt32, now: Ticks, later: Ticks, staleTicks: int)
    requires S > 0 && 1 <= |data|
    requires now <= later <= now + staleTicks
    ensures var cmds := Emit(st, S, handler, data, reliable, selfId, now).0;
      && |cmds| > 0
      && (forall k :: 0 <= k < |cmds| ==> cmds[k].segment.senderId == selfId)
      && (forall k :: 0 <= k < |cmds| ==> cmds[k].handler == cmds[0].handler)
      && (forall k :: 0 <= k < |cmds| && cmds[k].handler == UnreliableHandler ==>
            0 <= cmds[k].segment.sendTime <= MaxDateTimeTicks
            && !IsStale(later, cmds[k].segment.sendTime, staleTicks))
  {
    EmitProperties(st, S, handler, data, reliable, selfId, now);
    SlicesCount(data, S);
  }

  /** Delivering to an endpoint with no queue for the sender is the same as
      delivering to one with a fresh queue for it, once a segment arrives. */
  lemma DeliverAllFromAbsent(ep: Endpoint, cmds: seq<Command>, now: Ticks, sid: UInt32)
    requires |cmds| > 0
    requires forall k :: 0 <= k < |cmds| ==> cmds[k].segment.senderId == sid
    requires forall k :: 0 <= k < |cmds| ==> cmds[k].handler == cmds[0].handler
    requires forall k :: 0 <= k < |cmds| && cmds[k].handler == UnreliableHandler ==>
               0 <= cmds[k].segment.sendTime <= MaxDateTimeTicks
               && !IsStale(now, cmds[k].segment.sendTime, ep.staleTicks)
    ensures var q := if sid in ep.received then ep.received[sid] else Fresh;
            DeliverAll(ep, cmds, now) == DeliverAll(ep.(received := ep.received[sid := q]), cmds, now)
  {
    var q := if sid in ep.received then ep.received[sid] else Fresh;
    var start := ep.(received := ep.received[sid := q]);
    if sid !in ep.received {
      DeliverFirstFromAbsent(ep, cmds, now, sid);
    } else {
      assert start == ep;
    }
  }

  lemma {:induction false} DeliverFirstFromAbsent(ep: Endpoint, cmds: seq<Command>, now: Ticks, sid: UInt32)
    requires |cmds| > 0
    requires sid !in ep.received
    requires forall k :: 0 <= k < |cmds| ==> cmds[k].segment.senderId == sid
    requires forall k :: 0 <= k < |cmds| && cmds[k].handler == UnreliableHandler ==>
               0 <= cmds[k].segment.sendTime <= MaxDateTimeTicks
               && !IsStale(now, cmds[k].segment.sendTime, ep.staleTicks)
    ensures DeliverAll(ep, cmds, now) == DeliverAll(ep.(received := ep.received[sid := Fresh]), cmds, now)
  {
    var start := ep.(received := ep.received[sid := Fresh]);
    if |cmds| == 1 {
      assert cmds[..0] == [];
      assert Route(start.received, cmds[0].segment) == Route(ep.received, cmds[0].segment);
    } else {
      DeliverFirstFromAbsent(ep, cmds[..|cmds| - 1], now, sid);
    }
  }

  /** Tags each payload with the sender it came from. */
  function Tag(id: UInt32, payloads: seq<Bytes>): (r: seq<(UInt32, Bytes)>)
    ensures |r| == |payloads|
    ensures forall k :: 0 <= k < |r| ==> r[k] == (id, payloads[k])
  {
    seq(|payloads|, k requires 0 <= k < |payloads| => (id, payloads[k]))
  }

  /** The reference drain: the queues of the senders in `order`, each emptied
      oldest first, one after another. */
  function DrainOrder(received: map<UInt32, FragmentQueue>, order: seq<UInt32>): (r: seq<(UInt32, Bytes)>)
    requires forall i :: 0 <= i < |order| ==> order[i] in received
    ensures forall k :: 0 <= k < |r| ==> r[k].0 in order
  {
    if |order| == 0 then []
    else DrainOrder(received, order[..|order| - 1]) + Tag(order[|order| - 1], received[order[|order| - 1]].queued)
  }

  /** The payloads of `delivered` that came from `id`, in order. */
  function PayloadsFrom(delivered: seq<(UInt32, Bytes)>, id: UInt32): seq<Bytes>
  {
    if |delivered| == 0 then []
    else PayloadsFrom(delivered[..|delivered| - 1], id)
         + (if delivered[|delivered| - 1].0 == id then [delivered[|delivered| - 1].1] else [])
  }

  lemma {:induction false} PayloadsFromAppend(a: seq<(UInt32, Bytes)>, b: seq<(UInt32, Bytes)>, id: UInt32)
    ensures PayloadsFrom(a + b, id) == PayloadsFrom(a, id) + PayloadsFrom(b, id)
    decreases |b|
  {
    if |b| == 0 {
      assert a + b == a;
    } else {
      assert (a + b)[..|a + b| - 1] == a + b[..|b| - 1];
      PayloadsFromAppend(a, b[..|b| - 1], id);
    }
  }

  lemma {:induction false} PayloadsFromTag(sender: UInt32, payloads: seq<Bytes>, id: UInt32)
    ensures PayloadsFrom(Tag(sender, payloads), id) == if sender == id then payloads else []
    decreases |payloads|
  {
    if |payloads| > 0 {
      var init := payloads[..|payloads| - 1];
      assert Tag(sender, payloads)[..|payloads| - 1] == Tag(sender, init);
      PayloadsFromTag(sender, init, id);
      if sender == id {
        assert init + [payloads[|payloads| - 1]] == payloads;
      }
    }
  }

  /** `order` is the dictionary's enumeration of `received`'s keys: each key
      exactly once. */
  predicate EnumeratesKeys(order: seq<UInt32>, received: map<UInt32, FragmentQueue>)
  {
    && (forall i :: 0 <= i < |order| ==> order[i] in received)
    && (forall id :: id in received ==> id in order)
    && (forall i, j :: 0 <= i < j < |order| ==> order[i] != order[j])
  }

  /** Per-sender FIFO: the drain hands over each sender's completed payloads
      exactly once and oldest first, and nothing from a sender not drained. */
  lemma {:induction false} DrainIsPerSenderFifo(received: map<UInt32, FragmentQueue>, order: seq<UInt32>, id: UInt32)
    requires forall i :: 0 <= i < |order| ==> order[i] in received
    requires forall i, j :: 0 <= i < j < |order| ==> order[i] != order[j]
    ensures PayloadsFrom(DrainOrder(received, order), id) == if id in order then received[id].queued else []
  {
    if |order| > 0 {
      var init := order[..|order| - 1];
      var last := order[|order| - 1];
      assert forall i :: 0 <= i < |init| ==> init[i] == order[i];
      assert order == init + [last];
      // `last` is not enumerated before
      assert last !in init by {
        forall i | 0 <= i < |init| ensures init[i] != last {
          assert init[i] == order[i] && last == order[|order| - 1];
        }
      }
      DrainIsPerSenderFifo(received, init, id);
      var front := DrainOrder(received, init);
      var tagged := Tag(last, received[last].queued);
      assert DrainOrder(received, order) == front + tagged;
      PayloadsFromAppend(front, tagged, id);
      PayloadsFromTag(last, received[last].queued, id);
    }
  }

  /** Over a full enumeration of the keys, every sender receives exactly its
      own queue. */
  lemma DrainHandsOverAll(received: map<UInt32, FragmentQueue>, order: seq<UInt32>)
    requires EnumeratesKeys(order, received)
    ensures forall id :: id in received ==> PayloadsFrom(DrainOrder(received, order), id) == received[id].queued
  {
    forall id | id in received
      ensures PayloadsFrom(DrainOrder(received, order), id) == received[id].queued
    {
      DrainIsPerSenderFifo(received, order, id);
    }
  }

  /** The queues after a drain: every completed payload removed, every
      assembly kept. */
  function Drained(received: map<UInt32, FragmentQueue>): (r: map<UInt32, FragmentQueue>)
    ensures r.Keys == received.Keys
    ensures forall id :: id in r ==> r[id].queued == [] && r[id].assembly == received[id].assembly
  {
    map id | id in received :: received[id].(queued := [])
  }

  lemma DrainedByOrder(before: map<UInt32, FragmentQueue>, after: map<UInt32, FragmentQueue>, order: seq<UInt32>)
    requires EnumeratesKeys(order, before)
    requires after.Keys == before.Keys
    requires forall j :: 0 <= j < |order| ==> after[order[j]] == before[order[j]].(queued := [])
    ensures after == Drained(before)
  {
    forall id | id in before
      ensures after[id] == Drained(before)[id]
    {
      var j :| 0 <= j < |order| && order[j] == id;
    }
  }

  /** Empties one queue by `TryGetData` until it returns false, passing each
      payload on tagged with `id`. */
  method DrainQueue(id: UInt32, q0: FragmentQueue) returns (out: seq<(UInt32, Bytes)>, q: FragmentQueue)
    ensures out == Tag(id, q0.queued)
    ensures q == q0.(queued := [])
  {
    out := [];
    q := q0;
    while true
      invariant q.assembly == q0.assembly
      invariant |out| <= |q0.queued|
      invariant q.queued == q0.queued[|out|..]
      invariant out == Tag(id, q0.queued[..|out|])
      decreases |q.queued|
    {
      var (got, rest) := TryGetData(q);
      if got.None? {
        break;
      }
      TagStep(id, q0.queued, |out|);
      out := out + [(id, got.value)];
      q := rest;
    }
    assert q0.queued[..|out|] == q0.queued;
    assert q == q0.(queued := []);
  }

  /** One turn of the queue drain: the next payload is tagged and removed. */
  lemma TagStep(id: UInt32, xs: seq<Bytes>, n: nat)
    requires n < |xs|
    ensures Tag(id, xs[..n + 1]) == Tag(id, xs[..n]) + [(id, xs[n])]
    ensures xs[n..][1..] == xs[n + 1..] && xs[n..][0] == xs[n]
  {
  }

  /** The loop state of a drain after `i` turns: the first `i` senders of
      `order` drained, the rest untouched, no key added or removed. */
  ghost predicate DrainedUpTo(before: map<UInt32, FragmentQueue>, after: map<UInt32, FragmentQueue>,
                              order: seq<UInt32>, i: nat)
    requires i <= |order|
    requires forall j :: 0 <= j < |order| ==> order[j] in before
  {
    && after.Keys == before.Keys
    && (forall j :: 0 <= j < i ==> after[order[j]] == before[order[j]].(queued := []))
    && (forall j :: i <= j < |order| ==> after[order[j]] == before[order[j]])
  }

  /** One turn of the drain loop: the next sender's payloads follow the ones
      already handed over, and its queue is emptied. */
  lemma DrainStep(before: map<UInt32, FragmentQueue>, after: map<UInt32, FragmentQueue>,
                  order: seq<UInt32>, i: nat)
    requires EnumeratesKeys(order, before)
    requires i < |order|
    requires DrainedUpTo(before, after, order, i)
    ensures after[order[i]] == before[order[i]]
    ensures DrainOrder(before, order[..i + 1]) == DrainOrder(before, order[..i]) + Tag(order[i], before[order[i]].queued)
    ensures DrainedUpTo(before, after[order[i] := after[order[i]].(queued := [])], order, i + 1)
  {
    assert order[..i + 1][..i] == order[..i];
  }

  lemma UntagAppend(a: seq<(UInt32, Bytes)>, b: seq<(UInt32, Bytes)>)
    ensures Untag(a + b) == Untag(a) + Untag(b)
  {
  }

  /** `TryGetServerData`: every queue, in the dictionary's order, drained to
      empty; the callback receives each payload with its sender id. */
  method TryGetServerData(ep: Endpoint, order: seq<UInt32>) returns (delivered: seq<(UInt32, Bytes)>, ep': Endpoint)
    requires EnumeratesKeys(order, ep.received)
    ensures delivered == DrainOrder(ep.received, order)
    ensures forall id :: id in ep.received ==> PayloadsFrom(delivered, id) == ep.received[id].queued
    ensures forall k :: 0 <= k < |delivered| ==> delivered[k].0 in ep.received
    ensures ep' == ep.(received := Drained(ep.received))
  {
    delivered := [];
    var received := ep.received;
    var i := 0;
    while i < |order|
      invariant 0 <= i <= |order|
      invariant delivered == DrainOrder(ep.received, order[..i])
      invariant DrainedUpTo(ep.received, received, order, i)
      decreases |order| - i
    {
      var id := order[i];
      DrainStep(ep.received, received, order, i);
      var out, q := DrainQueue(id, received[id]);
      delivered := delivered + out;
      received := received[id := q];
      i := i + 1;
    }
    assert order[..i] == order;
    DrainedByOrder(ep.received, received, order);
    ep' := ep.(received := received);
    DrainHandsOverAll(ep.received, order);
  }

  /** The payloads alone, in order. */
  function Untag(delivered: seq<(UInt32, Bytes)>): (r: seq<Bytes>)
    ensures |r| == |delivered|
    ensures forall k :: 0 <= k < |r| ==> r[k] == delivered[k].1
  {
    seq(|delivered|, k requires 0 <= k < |delivered| => delivered[k].1)
  }

  /** `TryGetClientData`: the same drain, but the callback receives only the
      payload, and what it returns is discarded. */
  method TryGetClientData(ep: Endpoint, order: seq<UInt32>) returns (payloads: seq<Bytes>, ep': Endpoint)
    requires EnumeratesKeys(order, ep.received)
    ensures payloads == Untag(DrainOrder(ep.received, order))
    ensures ep' == ep.(received := Drained(ep.received))
  {
    payloads := [];
    var received := ep.received;
    var i := 0;
    while i < |order|
      invariant 0 <= i <= |order|
      invariant payloads == Untag(DrainOrder(ep.received, order[..i]))
      invariant DrainedUpTo(ep.received, received, order, i)
      decreases |order| - i
    {
      var id := order[i];
      DrainStep(ep.received, received, order, i);
      var out, q := DrainQueue(id, received[id]);
      UntagAppend(DrainOrder(ep.received, order[..i]), out);
      payloads := payloads + Untag(out);
      received := received[id := q];
      i := i + 1;
    }
    assert order[..i] == order;
    DrainedByOrder(ep.received, received, order);
    ep' := ep.(received := received);
  }
}
