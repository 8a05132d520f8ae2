/** The receive side of one sender's voice stream (`FragmentedPacketQueue`):
    a state machine that accumulates the fragments of the current transfer
    and a FIFO of completed payloads. */
module PacketQueue {
  import opened Types

  /** `_pendingData == null` is `Idle`; otherwise the queue holds the id it
      expects (`_currentDataId`) and the fragments accepted so far. `Idle` and
      `Accumulating(id, [])` behave differently: only `Idle` adopts the id of
      the next fragment it sees. */
  datatype Assembly = Idle | Accumulating(id: UInt32, chunks: seq<Bytes>)

  /** One sender's reassembly state and its queue of completed payloads,
      oldest first. */
  datatype FragmentQueue = FragmentQueue(assembly: Assembly, queued: seq<Bytes>)

  /** `new FragmentedPacketQueue()`. */
  const Fresh: FragmentQueue := FragmentQueue(Idle, [])

  /** `AddData(dataID, data, index, total)`. */
  function AddData(q: FragmentQueue, dataId: UInt32, data: Bytes, index: UInt8, total: UInt8): (r: FragmentQueue)
    // never removes or reorders completed payloads, and adds at most one
    ensures q.queued <= r.queued && |r.queued| <= |q.queued| + 1
    // a payload is enqueued exactly when the fragment completes its transfer,
    // and then the queue is idle again
    ensures |r.queued| == |q.queued| + 1 <==> r.assembly == Idle
    // a fragment whose id differs from the id held is dropped with the chunks
    ensures q.assembly.Accumulating? && q.assembly.id != dataId ==>
              r == FragmentQueue(Accumulating(dataId, []), q.queued)
    // a fragment out of position is dropped with the chunks, the id is kept
    ensures (q.assembly.Idle? && index != 0)
              || (q.assembly.Accumulating? && q.assembly.id == dataId && index != |q.assembly.chunks|) ==>
              r == FragmentQueue(Accumulating(dataId, []), q.queued)
    // a fragment in position is held until `total` of them are held
    ensures var held := if q.assembly.Idle? then [] else q.assembly.chunks;
            (q.assembly.Idle? || q.assembly.id == dataId) && index == |held| ==>
              if |held| + 1 == total
              then r == FragmentQueue(Idle, q.queued + [Flatten(held + [data])])
              else r == FragmentQueue(Accumulating(dataId, held + [data]), q.queued)
  {
    var (currentId, pending) :=
      match q.assembly
      case Idle => (dataId, [])
      case Accumulating(id, chunks) => (id, chunks);
    if currentId != dataId then
      FragmentQueue(Accumulating(dataId, []), q.queued)
    else if index != |pending| then
      FragmentQueue(Accumulating(dataId, []), q.queued)
    else if |pending| + 1 == total then
      FragmentQueue(Idle, q.queued + [Flatten(pending + [data])])
    else
      FragmentQueue(Accumulating(dataId, pending + [data]), q.queued)
  }

  /** `AddData` applied to the fields of a received segment. */
  function AddSegment(q: FragmentQueue, s: Segment): FragmentQueue
  {
    AddData(q, s.dataId, s.data, s.index, s.total)
  }

  /** `TryGetData`: `None` (returns false) exactly when nothing is queued;
      otherwise the oldest payload, removed from the queue. */
  function TryGetData(q: FragmentQueue): (r: (Option<Bytes>, FragmentQueue))
    ensures r.0.None? <==> |q.queued| == 0
    ensures r.0.Some? ==> r.0.value == q.queued[0] && r.1.queued == q.queued[1..]
    ensures r.0.None? ==> r.1 == q
    ensures r.1.assembly == q.assembly
    ensures |q.queued| > 0 ==> [r.0.value] + r.1.queued == q.queued
  {
    if |q.queued| == 0 then (None, q)
    else (Some(q.queued[0]), q.(queued := q.queued[1..]))
  }

  /** The queue after each segment of `segs` is added in order. */
  function Feed(q: FragmentQueue, segs: seq<Segment>): FragmentQueue
  {
    if |segs| == 0 then q else AddSegment(Feed(q, segs[..|segs| - 1]), segs[|segs| - 1])
  }

  lemma FeedSnoc(q: FragmentQueue, segs: seq<Segment>, s: Segment)
    ensures Feed(q, segs + [s]) == AddSegment(Feed(q, segs), s)
  {
    assert (segs + [s])[..|segs + [s]| - 1] == segs;
  }

  lemma {:induction false} FeedAppend(q: FragmentQueue, a: seq<Segment>, b: seq<Segment>)
    ensures Feed(q, a + b) == Feed(Feed(q, a), b)
    decreases |b|
  {
    if |b| == 0 {
      assert a + b == a;
    } else {
      var init := b[..|b| - 1];
      assert a + b == (a + init) + [b[|b| - 1]];
      assert b == init + [b[|b| - 1]];
      FeedSnoc(q, a + init, b[|b| - 1]);
      FeedAppend(q, a, init);
      FeedSnoc(Feed(q, a), init, b[|b| - 1]);
    }
  }

  /** Feeding never removes or reorders completed payloads. */
  lemma {:induction false} FeedKeepsQueued(q: FragmentQueue, segs: seq<Segment>)
    ensures q.queued <= Feed(q, segs).queued
  {
    if |segs| > 0 {
      FeedKeepsQueued(q, segs[..|segs| - 1]);
    }
  }

  /** The payloads of a sequence of segments, in order. */
  function Datas(segs: seq<Segment>): (r: seq<Bytes>)
    ensures |r| == |segs|
    ensures forall k :: 0 <= k < |segs| ==> r[k] == segs[k].data
  {
    seq(|segs|, k requires 0 <= k < |segs| => segs[k].data)
  }

  /** `segs` is one whole transfer as the sender emits it: `n` fragments, all
      with the same id, fragment `k` carrying index `k` and every fragment
      carrying `total == n`. */
  predicate IsTransfer(segs: seq<Segment>, id: UInt32)
  {
    && 1 <= |segs| <= 0xFF
    && forall k :: 0 <= k < |segs| ==>
         segs[k].dataId == id && segs[k].index == k && segs[k].total == |segs|
  }

  /** A fragment in position that does not complete its transfer is held. */
  lemma AppendStep(q: FragmentQueue, id: UInt32, chunks: seq<Bytes>, s: Segment)
    requires q.assembly == Accumulating(id, chunks) || (q.assembly == Idle && chunks == [])
    requires s.dataId == id && s.index == |chunks| && |chunks| + 1 != s.total
    ensures AddSegment(q, s) == FragmentQueue(Accumulating(id, chunks + [s.data]), q.queued)
  {
  }

  /** The fragment that completes its transfer enqueues the concatenation. */
  lemma CompleteStep(q: FragmentQueue, id: UInt32, chunks: seq<Bytes>, s: Segment)
    requires q.assembly == Accumulating(id, chunks) || (q.assembly == Idle && chunks == [])
    requires s.dataId == id && s.index == |chunks| && |chunks| + 1 == s.total
    ensures AddSegment(q, s) == FragmentQueue(Idle, q.queued + [Flatten(chunks + [s.data])])
  {
  }

  lemma FeedPrefixSnoc(q: FragmentQueue, segs: seq<Segment>, m: nat)
    requires 0 < m <= |segs|
    ensures Feed(q, segs[..m]) == AddSegment(Feed(q, segs[..m - 1]), segs[m - 1])
  {
    assert segs[..m][..m - 1] == segs[..m - 1];
  }

  lemma DatasPrefixSnoc(segs: seq<Segment>, m: nat)
    requires 0 < m <= |segs|
    ensures Datas(segs[..m]) == Datas(segs[..m - 1]) + [segs[m - 1].data]
  {
  }

  /** A strict prefix of a transfer, fed to an idle queue, enqueues nothing and
      holds exactly the fragments seen, in arrival order. */
  lemma {:induction false} PrefixAccumulates(q: FragmentQueue, segs: seq<Segment>, id: UInt32, m: nat)
    requires q.assembly == Idle
    requires IsTransfer(segs, id)
    requires m < |segs|
    ensures Feed(q, segs[..m]) == if m == 0 then q else FragmentQueue(Accumulating(id, Datas(segs[..m])), q.queued)
  {
    if m > 0 {
      PrefixAccumulates(q, segs, id, m - 1);
      FeedPrefixSnoc(q, segs, m);
      DatasPrefixSnoc(segs, m);
      AppendStep(Feed(q, segs[..m - 1]), id, Datas(segs[..m - 1]), segs[m - 1]);
    }
  }

  /** A whole transfer fed in order to an idle queue enqueues exactly one
      payload, the in-order concatenation of its fragments, and leaves the
      queue idle. */
  lemma TransferCompletes(q: FragmentQueue, segs: seq<Segment>, id: UInt32)
    requires q.assembly == Idle
    requires IsTransfer(segs, id)
    ensures Feed(q, segs) == FragmentQueue(Idle, q.queued + [Flatten(Datas(segs))])
  {
    var n := |segs|;
    var held := Datas(segs[..n - 1]);
    var last := segs[n - 1];
    var before := Feed(q, segs[..n - 1]);
    assert before.assembly == Accumulating(id, held) || (before.assembly == Idle && held == []) by {
      PrefixAccumulates(q, segs, id, n - 1);
    }
    assert before.queued == q.queued by {
      PrefixAccumulates(q, segs, id, n - 1);
    }
    assert Feed(q, segs) == AddSegment(before, last) by {
      FeedPrefixSnoc(q, segs, n);
      assert segs[..n] == segs;
    }
    assert held + [last.data] == Datas(segs) by {
      DatasPrefixSnoc(segs, n);
      assert segs[..n] == segs;
    }
    CompleteStep(before, id, held, last);
  }

  /** In the reset state `Accumulating(x, [])` a fragment is taken in (held,
      or enqueued when it is a whole transfer by itself) exactly when it
      carries id `x` and index 0; any other fragment enqueues nothing and
      leaves the queue in a reset state on the fragment's id. */
  lemma ResetAcceptsOnlyFirstOfSameId(q: FragmentQueue, x: UInt32, s: Segment)
    requires q.assembly == Accumulating(x, [])
    ensures (AddSegment(q, s).assembly != Accumulating(s.dataId, [])) <==> (s.dataId == x && s.index == 0)
    ensures !(s.dataId == x && s.index == 0) ==> AddSegment(q, s) == FragmentQueue(Accumulating(s.dataId, []), q.queued)
    ensures s.dataId == x && s.index == 0 && s.total != 1 ==>
              AddSegment(q, s) == FragmentQueue(Accumulating(x, [s.data]), q.queued)
  {
  }

  /** The id a queue compares the `k`-th fragment of `segs` with, once it has
      been reset to `x`. */
  function PrecedingId(x: UInt32, segs: seq<Segment>, k: nat): UInt32
    requires k < |segs|
  {
    if k == 0 then x else segs[k - 1].dataId
  }

  /** After a desynchronisation the queue is stuck in `Accumulating(x, [])`.
      Any stream in which no fragment with index 0 repeats the id of the
      fragment before it (the first one compared with `x`) keeps it stuck: it
      never enqueues anything, and each fragment only records its own id. */
  lemma {:induction false} ResetStaysStuck(q: FragmentQueue, x: UInt32, segs: seq<Segment>)
    requires q.assembly == Accumulating(x, [])
    requires forall k :: 0 <= k < |segs| && segs[k].index == 0 ==> segs[k].dataId != PrecedingId(x, segs, k)
    ensures Feed(q, segs).queued == q.queued
    ensures Feed(q, segs).assembly == Accumulating(if |segs| == 0 then x else segs[|segs| - 1].dataId, [])
  {
    if |segs| > 0 {
      var init := segs[..|segs| - 1];
      forall k | 0 <= k < |init| && init[k].index == 0
        ensures init[k].dataId != PrecedingId(x, init, k)
      {
        assert init[k] == segs[k];
        assert PrecedingId(x, init, k) == PrecedingId(x, segs, k);
      }
      ResetStaysStuck(q, x, init);
    }
  }

  /** A whole transfer whose id differs from the id a reset queue is stuck on
      is lost entirely: its first fragment only moves the stuck id, the
      others are out of position. */
  lemma TransferLostWhenStuck(q: FragmentQueue, y: UInt32, t: seq<Segment>, id: UInt32)
    requires q.assembly == Accumulating(y, [])
    requires IsTransfer(t, id)
    requires id != y
    ensures Feed(q, t) == FragmentQueue(Accumulating(id, []), q.queued)
  {
    forall k | 0 <= k < |t| && t[k].index == 0
      ensures t[k].dataId != PrecedingId(y, t, k)
    {
      assert k == 0;
    }
    ResetStaysStuck(q, y, t);
  }

  /** The concatenation of the first `n` segment streams. */
  function ConcatPrefix(transfers: seq<seq<Segment>>, n: nat): seq<Segment>
    requires n <= |transfers|
  {
    if n == 0 then [] else ConcatPrefix(transfers, n - 1) + transfers[n - 1]
  }

  /** The concatenation of a sequence of segment streams. */
  function Concat(transfers: seq<seq<Segment>>): seq<Segment>
  {
    ConcatPrefix(transfers, |transfers|)
  }

  /** The sender's transfers, one after another, each with its own id: after a
      reset none of the first `n` gets through, as long as each id differs
      from the one just before it (the first from the id the queue is stuck
      on). The queue ends stuck on the id of the last of them. */
  lemma {:induction false} StuckOverPrefix(q: FragmentQueue, x: UInt32, transfers: seq<seq<Segment>>, ids: seq<UInt32>, n: nat)
    requires q.assembly == Accumulating(x, [])
    requires |ids| == |transfers| && n <= |transfers|
    requires forall j :: 0 <= j < |transfers| ==> IsTransfer(transfers[j], ids[j])
    requires |ids| > 0 ==> ids[0] != x
    requires forall j :: 0 < j < |ids| ==> ids[j] != ids[j - 1]
    ensures Feed(q, ConcatPrefix(transfers, n)) == FragmentQueue(Accumulating(if n == 0 then x else ids[n - 1], []), q.queued)
  {
    if n > 0 {
      StuckOverPrefix(q, x, transfers, ids, n - 1);
      FeedAppend(q, ConcatPrefix(transfers, n - 1), transfers[n - 1]);
      var mid := Feed(q, ConcatPrefix(transfers, n - 1));
      TransferLostWhenStuck(mid, if n == 1 then x else ids[n - 2], transfers[n - 1], ids[n - 1]);
    }
  }

  /** After a reset, a sender's whole transfers, each with an id different
      from the one before it, are all lost, however many there are. */
  lemma StuckForever(q: FragmentQueue, x: UInt32, transfers: seq<seq<Segment>>, ids: seq<UInt32>)
    requires q.assembly == Accumulating(x, [])
    requires |ids| == |transfers|
    requires forall j :: 0 <= j < |transfers| ==> IsTransfer(transfers[j], ids[j])
    requires |ids| > 0 ==> ids[0] != x
    requires forall j :: 0 < j < |ids| ==> ids[j] != ids[j - 1]
    ensures Feed(q, Concat(transfers)).queued == q.queued
    ensures Feed(q, Concat(transfers)).assembly.Accumulating?
    ensures Feed(q, Concat(transfers)).assembly.chunks == []
  {
    StuckOverPrefix(q, x, transfers, ids, |transfers|);
  }

  /** The chunks held by `a` are the last fragments of `segs`, with the id
      held and indices `0..k-1`, in arrival order. */
  ghost predicate HeldAreLast(a: Assembly, segs: seq<Segment>)
  {
    a.Accumulating? ==>
      && |a.chunks| <= |segs|
      && forall j :: 0 <= j < |a.chunks| ==>
           segs[|segs| - |a.chunks| + j].data == a.chunks[j]
           && segs[|segs| - |a.chunks| + j].dataId == a.id
           && segs[|segs| - |a.chunks| + j].index == j
  }

  lemma HeldAreLastStep(q: FragmentQueue, segs: seq<Segment>, s: Segment)
    requires HeldAreLast(q.assembly, segs)
    ensures HeldAreLast(AddSegment(q, s).assembly, segs + [s])
  {
    var a := AddSegment(q, s).assembly;
    var all := segs + [s];
    var held := if q.assembly.Idle? then [] else q.assembly.chunks;
    if (q.assembly.Idle? || q.assembly.id == s.dataId) && s.index == |held| && |held| + 1 != s.total {
      // the fragment is held behind the chunks already held
      assert a == Accumulating(s.dataId, held + [s.data]);
      assert |held| <= |segs|;
      assert all[|all| - 1] == s;
      forall j | 0 <= j < |a.chunks|
        ensures all[|all| - |a.chunks| + j].data == a.chunks[j]
        ensures all[|all| - |a.chunks| + j].dataId == a.id
        ensures all[|all| - |a.chunks| + j].index == j
      {
        if j < |held| {
          assert all[|all| - |a.chunks| + j] == segs[|segs| - |held| + j];
          assert q.assembly.Accumulating? && q.assembly.id == s.dataId;
        } else {
          assert j == |held| && all[|all| - |a.chunks| + j] == s;
        }
      }
    } else {
      // the transfer completes, or the fragment is dropped with the chunks
      assert a.Idle? || a.chunks == [];
    }
  }

  /** Invariant of any stream fed to a fresh queue: the chunks held are exactly
      the last `k` fragments received, with the id held and indices `0..k-1`,
      in arrival order. */
  lemma {:induction false} HeldChunksAreLastFragments(segs: seq<Segment>)
    ensures HeldAreLast(Feed(Fresh, segs).assembly, segs)
  {
    if |segs| > 0 {
      var init := segs[..|segs| - 1];
      var last := segs[|segs| - 1];
      assert init + [last] == segs;
      assert Feed(Fresh, segs) == AddSegment(Feed(Fresh, init), last);
      HeldChunksAreLastFragments(init);
      HeldAreLastStep(Feed(Fresh, init), init, last);
    }
  }
}
