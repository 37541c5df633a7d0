/**
 The audio pump over the packet queue: it takes records off without having peeked at
 them where it sheds, and where the sink refuses what was to be moved.
 */
module PumpQueue {
  import opened Xfer
  import opened Pump
  import opened SoundIoBuf

  lemma BytesOrder(q: PacketSeq, m: nat, n: nat)
    requires q.Sound()
    ensures q.Bytes(m) <= q.Bytes(n) <==> m <= n
  {
    q.OnePacket();
    if m <= n {
      q.Fewer(m, n);
    } else {
      q.Fewer(n + 1, m);
      assert q.Bytes(n + 1) == q.Bytes(n) + q.bpr;
    }
  }

  /**
   Shedding leaves a queue unusable exactly if nothing is transferred, the maximum is 0, and so everything in it,
   whole packets, is shed.  With a maximum above 0 it never does.
   */
  lemma ShedStale(q: PacketSeq, clocked: bool, queued: nat, max: nat, n: nat)
    requires q.Sound() && q.Bytes(queued) <= |q.Contents()|
    ensures var drop := InExcess(clocked, queued, max, n);
      drop > 0 && q.EmptiesFull(drop) <==> clocked && queued > 0 && n == 0 == max && q.EmptiesFull(queued)
  {
    hide PacketSeq.Sound, PacketSeq.Contents, PacketSeq.Bytes;
    var drop := InExcess(clocked, queued, max, n);
    BytesOrder(q, queued, drop);
  }

  /**
   A transfer that the sink refuses leaves it so exactly if the sink refuses all that is still to be moved, and
   that is all there is, in several packets of which the last is full.
   */
  lemma SkipStale(q: PacketSeq, left: nat, xfer: nat)
    requires q.Sound() && q.Bytes(xfer) <= |q.Contents()|
    ensures q.EmptiesFull(Min(left, xfer)) <==> xfer <= left && q.EmptiesFull(xfer)
  {
    hide PacketSeq.Sound, PacketSeq.Contents, PacketSeq.Bytes;
    BytesOrder(q, xfer, Min(left, xfer));
  }
}
