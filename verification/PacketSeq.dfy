/**
 * The fragment buffer queue of include/libhfp/soundio-buf.h: a chain of fixed
 * size packets with a read offset into the first packet, a write offset into
 * the last one, and a small pool of spare packets.  The chain is shown to
 * behave as one flat sequence of bytes.
 */
module SoundIoBuf {
  import opened Multiples

  newtype byte = x: int | 0 <= x < 256

  // ---------------------------------------------------------------------
  // The flat view of a chain of blocks
  // ---------------------------------------------------------------------

  /** Every block is `size` long and the two offsets stay inside the chain. */
  ghost predicate Fits(blocks: seq<seq<byte>>, start: nat, end: nat, size: nat) {
    && start <= size
    && end <= size
    && (forall i :: 0 <= i < |blocks| ==> |blocks[i]| == size)
    && (|blocks| == 1 ==> start <= end)
  }

  /** What the chain holds: everything from `start` in the first block up to `end` in the last. */
  ghost function Window(blocks: seq<seq<byte>>, start: nat, end: nat, size: nat): seq<byte>
    requires Fits(blocks, start, end, size)
  {
    if |blocks| == 0 then []
    else if |blocks| == 1 then blocks[0][start..end]
    else blocks[0][start..] + Window(blocks[1..], 0, end, size)
  }

  lemma {:induction false} WindowLength(blocks: seq<seq<byte>>, start: nat, end: nat, size: nat)
    requires Fits(blocks, start, end, size)
    ensures |Window(blocks, start, end, size)|
         == if |blocks| == 0 then 0
            else if |blocks| == 1 then end - start
            else (|blocks| - 2) * size + end + (size - start)
  {
    if |blocks| > 2 {
      WindowLength(blocks[1..], 0, end, size);
      assert (|blocks| - 2) * size == (|blocks| - 3) * size + size;
    }
  }

  /** Moving the read offset forward inside the first block drops that many bytes. */
  lemma WindowSkip(blocks: seq<seq<byte>>, start: nat, end: nat, size: nat, k: nat)
    requires Fits(blocks, start, end, size)
    requires |blocks| > 0
    requires start + k <= if |blocks| == 1 then end else size
    ensures k <= |Window(blocks, start, end, size)|
    ensures Window(blocks, start + k, end, size) == Window(blocks, start, end, size)[k..]
  {
    if |blocks| > 1 {
      assert blocks[0][start..] == blocks[0][start..start + k] + blocks[0][start + k..];
    }
  }

  /** Moving the write offset forward inside the last block appends the bytes it passes. */
  lemma {:induction false} WindowGrow(blocks: seq<seq<byte>>, start: nat, end: nat, size: nat, k: nat)
    requires Fits(blocks, start, end, size)
    requires |blocks| > 0
    requires end + k <= size
    ensures Fits(blocks, start, end + k, size)
    ensures Window(blocks, start, end + k, size)
         == Window(blocks, start, end, size) + blocks[|blocks| - 1][end..end + k]
  {
    if |blocks| > 1 {
      WindowGrow(blocks[1..], 0, end, size, k);
      assert blocks[1..][|blocks| - 2] == blocks[|blocks| - 1];
    }
  }

  /** A fresh block behind a full one holds nothing yet. */
  lemma {:induction false} WindowExtend(blocks: seq<seq<byte>>, start: nat, size: nat, more: seq<byte>)
    requires Fits(blocks, start, size, size)
    requires |blocks| > 0
    requires |more| == size
    ensures Window(blocks + [more], start, 0, size) == Window(blocks, start, size, size)
  {
    var longer := blocks + [more];
    if |blocks| == 1 {
      assert longer[1..] == [more];
    } else {
      WindowExtend(blocks[1..], 0, size, more);
      assert longer[1..] == blocks[1..] + [more];
    }
  }

  /** Bytes at or behind the write offset are not part of what the chain holds. */
  lemma {:induction false} WindowTouch(blocks: seq<seq<byte>>, start: nat, end: nat, size: nat, last: seq<byte>)
    requires Fits(blocks, start, end, size)
    requires |blocks| > 0
    requires |last| == size && last[..end] == blocks[|blocks| - 1][..end]
    ensures Window(blocks[|blocks| - 1 := last], start, end, size) == Window(blocks, start, end, size)
  {
    var touched := blocks[|blocks| - 1 := last];
    if |blocks| == 1 {
      assert last[start..end] == last[..end][start..];
      assert blocks[0][start..end] == blocks[0][..end][start..];
    } else {
      WindowTouch(blocks[1..], 0, end, size, last);
      assert touched[1..] == blocks[1..][|blocks| - 2 := last];
    }
  }

  /** A window that reaches past the first block is longer than what is left of that block. */
  lemma WindowReaches(blocks: seq<seq<byte>>, start: nat, end: nat, size: nat)
    requires Fits(blocks, start, end, size)
    requires |blocks| > 1
    ensures |Window(blocks, start, end, size)| >= size - start + end
  {
    if |blocks| > 2 {
      WindowReaches(blocks[1..], 0, end, size);
    }
  }

  // ---------------------------------------------------------------------
  // Packets and links
  // ---------------------------------------------------------------------

  class SoundIoPacket {
    var next: SoundIoPacket?
    const data: array<byte>

    constructor (packetbytes: nat)
      ensures next == null && fresh(data) && data.Length == packetbytes
    {
      next := null;
      data := new byte[packetbytes](_ => 0);
    }
  }

  /** Following the links from `first` meets exactly the packets of `ps`, none twice, and then `end`. */
  ghost predicate Linked(first: SoundIoPacket?, ps: seq<SoundIoPacket>, end: SoundIoPacket?)
    reads ps
  {
    if ps == [] then first == end
    else first == ps[0] && ps[0] !in ps[1..] && Linked(ps[0].next, ps[1..], end)
  }

  /** A list is a list up to its last packet followed by that packet. */
  lemma {:induction false} LinkedSplit(first: SoundIoPacket?, front: seq<SoundIoPacket>,
                                       last: SoundIoPacket, end: SoundIoPacket?)
    ensures Linked(first, front + [last], end)
       <==> Linked(first, front, last) && last !in front && last.next == end
    decreases |front|
  {
    var ps := front + [last];
    if front == [] {
      assert ps[1..] == [];
    } else {
      assert ps[1..] == front[1..] + [last];
      LinkedSplit(front[0].next, front[1..], last, end);
      assert last in front <==> last == front[0] || last in front[1..];
    }
  }

  lemma {:induction false} LinkedDistinct(first: SoundIoPacket?, ps: seq<SoundIoPacket>, end: SoundIoPacket?)
    requires Linked(first, ps, end)
    ensures forall i, j :: 0 <= i < j < |ps| ==> ps[i] != ps[j]
    decreases |ps|
  {
    if ps != [] {
      LinkedDistinct(ps[0].next, ps[1..], end);
      forall i, j | 0 <= i < j < |ps|
        ensures ps[i] != ps[j]
      {
        assert ps[j] == ps[1..][j - 1];
        if i > 0 {
          assert ps[i] == ps[1..][i - 1];
        }
      }
    }
  }

  ghost function Members(chain: seq<SoundIoPacket>, pool: seq<SoundIoPacket>): set<SoundIoPacket> {
    (set p <- chain) + (set p <- pool)
  }

  ghost predicate Apart(chain: seq<SoundIoPacket>, pool: seq<SoundIoPacket>) {
    forall p <- chain :: p !in pool
  }

  lemma MembersSnoc(chain: seq<SoundIoPacket>, pool: seq<SoundIoPacket>, p: SoundIoPacket)
    ensures Members(chain + [p], pool) == Members(chain, pool) + {p}
    ensures Apart(chain, pool) && p !in pool ==> Apart(chain + [p], pool)
  {
  }

  /** The packets all have the current size and no two share their storage. */
  ghost predicate Stored(ps: set<SoundIoPacket>, size: nat) {
    && (forall p <- ps :: p.data.Length == size)
    && (forall p <- ps, q <- ps :: p != q ==> p.data != q.data)
  }

  ghost function Blocks(chain: seq<SoundIoPacket>): (blocks: seq<seq<byte>>)
    reads set p <- chain :: p.data
    ensures |blocks| == |chain|
    ensures forall i :: 0 <= i < |chain| ==> blocks[i] == chain[i].data[..]
  {
    if chain == [] then [] else [chain[0].data[..]] + Blocks(chain[1..])
  }

  ghost predicate Records(bytes: int, bpr: int) {
    bpr > 0 && bytes % bpr == 0
  }

  // ---------------------------------------------------------------------
  // The queue
  // ---------------------------------------------------------------------

  const C_FREE_BUFFER_RETAIN := 10

  class PacketSeq {
    var bpr: nat
    var packetsize: nat
    var free: SoundIoPacket?
    var nfree: nat
    var head: SoundIoPacket?
    var tail: SoundIoPacket?
    var npackets: nat
    var headStart: nat
    var tailEnd: nat
    ghost var chain: seq<SoundIoPacket>
    ghost var pool: seq<SoundIoPacket>

    ghost predicate Offsets()
      reads this
    {
      && Records(packetsize, bpr) && Records(headStart, bpr) && Records(tailEnd, bpr)
      && tailEnd <= packetsize
      && (chain == [] ==> headStart == 0)
      && (chain != [] ==> headStart < packetsize)
      && (|chain| == 1 ==> headStart <= tailEnd)
    }

    ghost predicate Counts()
      reads this
    {
      && tail == (if chain == [] then null else chain[|chain| - 1])
      && npackets == |chain|
      && nfree == |pool| <= C_FREE_BUFFER_RETAIN + 1
      && (pool != [] ==> packetsize > 0)
    }

    ghost predicate Lists()
      reads this, chain, pool
    {
      && Linked(head, chain, null)
      && Linked(free, pool, null)
      && Apart(chain, pool)
      && Stored(Members(chain, pool), packetsize)
    }

    /** Everything but the one clause that emptying the queue can break. */
    ghost predicate Sound()
      reads this, chain, pool
    {
      Offsets() && Counts() && Lists()
    }

    /** The state GetUnfilled insists on: an empty queue has no write offset. */
    ghost predicate Valid()
      reads this, chain, pool
    {
      Sound() && (tail == null ==> tailEnd == 0)
    }

    ghost function Contents(): (bytes: seq<byte>)
      requires Sound()
      reads this, chain, pool, set p <- chain :: p.data
    {
      Window(Blocks(chain), headStart, tailEnd, packetsize)
    }

    constructor (packetsize: nat := 0, bpr: nat := 2)
      requires bpr > 0 && packetsize % bpr == 0
      ensures Valid() && Contents() == []
      ensures this.packetsize == packetsize && this.bpr == bpr
      ensures Members(chain, pool) == {}
    {
      this.bpr, this.packetsize := bpr, packetsize;
      free, nfree, head, tail, npackets, headStart, tailEnd := null, 0, null, null, 0, 0, 0;
      chain, pool := [], [];
    }

    /** So many records in bytes. */
    function Bytes(nsamples: nat): nat
      reads this`bpr
    {
      nsamples * bpr
    }

    /** So many bytes in records, truncated as in the source. */
    function Samples(bytes: nat): nat
      requires bpr > 0
      reads this`bpr
    {
      bytes / bpr
    }

    // ---- the buffer pool --------------------------------------------------

    method GetBuffer() returns (resp: SoundIoPacket)
      requires Lists() && Counts() && packetsize > 0
      modifies this, free
      ensures unchanged(this`bpr, this`packetsize, this`head, this`tail, this`npackets)
      ensures unchanged(this`headStart, this`tailEnd, this`chain)
      ensures Lists() && Counts()
      ensures resp.next == null && resp.data.Length == packetsize && resp !in chain && resp !in pool
      ensures old(pool) == [] ==> fresh(resp) && fresh(resp.data) && pool == []
      ensures old(pool) != [] ==> resp in old(Members(chain, pool))
      ensures Members(chain, pool) + {resp} == old(Members(chain, pool)) + {resp}
      ensures old(pool) != [] ==> resp == old(pool)[0] && pool == old(pool)[1..]
      ensures Stored(Members(chain, pool) + {resp}, packetsize)
    {
      if free != null {
        assert Members(chain, pool[1..]) + {free} == Members(chain, pool);
        resp := free;
        free := resp.next;
        nfree := nfree - 1;
        resp.next := null;
        pool := pool[1..];
      } else {
        resp := new SoundIoPacket(packetsize);
      }
    }

    method PutBuffer(bufp: SoundIoPacket)
      requires Lists() && Counts() && packetsize > 0
      requires bufp !in chain && bufp !in pool
      requires Stored(Members(chain, pool) + {bufp}, packetsize)
      modifies this, bufp
      ensures unchanged(this`bpr, this`packetsize, this`head, this`tail, this`npackets)
      ensures unchanged(this`headStart, this`tailEnd, this`chain)
      ensures Lists() && Counts()
      ensures pool == if old(nfree) > C_FREE_BUFFER_RETAIN then old(pool) else [bufp] + old(pool)
      ensures Members(chain, pool) <= old(Members(chain, pool)) + {bufp}
    {
      if nfree > C_FREE_BUFFER_RETAIN {
        return;
      }
      bufp.next := free;
      free := bufp;
      nfree := nfree + 1;
      assert Members(chain, [bufp] + pool) == Members(chain, pool) + {bufp};
      pool := [bufp] + pool;
    }

    // ---- levels -----------------------------------------------------------

    /** The source tells one packet from several by comparing head and tail. */
    lemma OnePacket()
      requires Sound()
      ensures (head == null <==> chain == []) && (tail == null <==> chain == [])
      ensures head != null ==> (head == tail <==> |chain| == 1)
      ensures chain != [] ==> head == chain[0] && tail == chain[|chain| - 1] && tail !in pool
      ensures bpr > 0 && Records(0, bpr)
      ensures chain == [] ==> Contents() == [] && Bytes(0) == 0
      ensures Fits(Blocks(chain), headStart, tailEnd, packetsize)
      ensures tail != null ==> tail.data.Length == packetsize
    {
      if |chain| > 1 {
        assert chain[|chain| - 1] == chain[1..][|chain| - 2];
      }
    }

    lemma Ends()
      requires Sound()
      ensures tail != null ==> tail in Members(chain, pool)
      ensures free != null ==> free in Members(chain, pool)
      ensures forall p <- chain :: p in Members(chain, pool)
      ensures tailEnd <= packetsize
    {
    }

    /** What is in the queue is a whole number of records. */
    lemma ContentsLength()
      requires Sound()
      ensures |Contents()| == if chain == [] then 0
                              else if |chain| == 1 then tailEnd - headStart
                              else (npackets - 2) * packetsize + tailEnd + (packetsize - headStart)
      ensures Records(|Contents()|, bpr)
    {
      WindowLength(Blocks(chain), headStart, tailEnd, packetsize);
      SumMultiple(tailEnd, headStart, bpr);
      if |chain| > 1 {
        ScaleMultiple(npackets - 2, packetsize, bpr);
        SumMultiple((npackets - 2) * packetsize, tailEnd, bpr);
        SumMultiple(packetsize, headStart, bpr);
        SumMultiple((npackets - 2) * packetsize + tailEnd, packetsize - headStart, bpr);
      }
    }

    method TotalFill() returns (samples: nat)
      requires Sound() && packetsize > 0
      ensures Bytes(samples) == |Contents()|
    {
      hide Window, Fits, Linked, Stored, Blocks, Members, Apart;
      OnePacket();
      ContentsLength();
      if npackets == 0 {
        return 0;
      }
      if head == tail {
        return Samples(tailEnd - headStart);
      }
      return Samples((npackets - 2) * packetsize + tailEnd + (packetsize - headStart));
    }

    // ---- reading ----------------------------------------------------------

    /** Records are what the sizes say: `bpr` bytes each. */
    lemma BytesAre(nsamples: nat)
      requires bpr > 0
      ensures Bytes(nsamples) == nsamples * bpr && Samples(nsamples * bpr) == nsamples
    {
      Multiple(nsamples, bpr);
    }

    /** How many records lie between two offsets, and what capping that number means in bytes. */
    lemma Room(start: nat, end: nat, n: nat)
      requires Records(start, bpr) && Records(end, bpr) && start <= end
      ensures (Samples(end - start)) * bpr == end - start
      ensures n <= Samples(end - start) ==> Bytes(n) <= end - start
      ensures n == Samples(end - start) ==> Bytes(n) == end - start
      ensures start < end ==> Samples(end - start) > 0
    {
      SumMultiple(end, start, bpr);
      var q := Samples(end - start);
      if n <= q {
        assert (q - n) * bpr >= 0;
      }
    }

    /** Up to the end of the first packet's filled part, that packet holds the front of the queue. */
    lemma Front(nbytes: nat)
      requires Sound() && chain != []
      requires headStart + nbytes <= if |chain| == 1 then tailEnd else packetsize
      ensures nbytes <= |Contents()|
      ensures chain[0].data.Length == packetsize
      ensures chain[0].data[headStart..headStart + nbytes] == Contents()[..nbytes]
      ensures |chain| == 1 ==> |Contents()| == tailEnd - headStart
      ensures |chain| > 1 && tailEnd == packetsize ==> nbytes < |Contents()|
    {
      if |chain| > 1 {
        WindowReaches(Blocks(chain), headStart, tailEnd, packetsize);
        assert Contents()[..packetsize - headStart] == chain[0].data[headStart..];
      }
    }

    /** The bytes in the first packet. */
    ghost function Shown(): nat
      requires Sound()
      reads this, chain, pool
    {
      if chain == [] then 0 else if |chain| == 1 then tailEnd - headStart else packetsize - headStart
    }

    /**
     * Peek shows records from the front of the queue, at least one unless it is empty.  What it shows never
     * empties a queue whose last of several packets is full, the case that Dequeue gets wrong.
     */
    method Peek(nsamples: nat) returns (buf: array?<byte>, start: nat, n: nat)
      requires Sound()
      ensures chain == [] ==> n == 0
      ensures chain != [] ==> buf == chain[0].data && start == headStart
      ensures chain != [] ==>
        var avail := Samples((if |chain| == 1 then tailEnd else packetsize) - headStart);
        n == if nsamples == 0 || nsamples > avail then avail else nsamples
      ensures Bytes(n) <= |Contents()|
      ensures nsamples == 0 ==> Bytes(n) == Shown()
      ensures chain != [] ==> start + Bytes(n) <= buf.Length && buf[start..start + Bytes(n)] == Contents()[..Bytes(n)]
      ensures Contents() != [] ==> n > 0
      ensures !EmptiesFull(n)
    {
      hide Window, Fits, Linked, Stored, Records, Blocks, Members, Apart, Bytes, Samples;
      OnePacket();
      buf, start := null, 0;
      if head != null {
        var end := if head == tail then tailEnd else packetsize;
        var avail := Samples(end - headStart);
        buf, start := head.data, headStart;
        n := if nsamples == 0 || nsamples > avail then avail else nsamples;
        Room(headStart, end, n);
        Front(Bytes(n));
      } else {
        n := 0;
      }
    }

    ghost predicate EmptiesFull(nsamples: nat)
      requires Sound()
      reads this, chain, pool, set p <- chain :: p.data
    {
      |chain| > 1 && tailEnd == packetsize && Bytes(nsamples) == |Contents()|
    }

    // ---- writing ----------------------------------------------------------

    method GetUnfilled(nsamples: nat) returns (buf: array<byte>, start: nat, n: nat)
      requires Valid() && packetsize > 0
      modifies this, tail, free
      ensures Valid() && tail != null
      ensures unchanged(this`bpr, this`packetsize)
      ensures Contents() == old(Contents())
      ensures headStart == old(headStart)
      ensures old(tail != null && tailEnd < packetsize) ==> chain == old(chain) && tailEnd == old(tailEnd)
      ensures old(tail == null || tailEnd == packetsize) ==> chain == old(chain) + [tail] && tailEnd == 0
      ensures buf == tail.data && buf.Length == packetsize && start == tailEnd < packetsize
      ensures n > 0 && start + Bytes(n) <= packetsize
      ensures n == if nsamples == 0 || nsamples > Samples(packetsize - start) then Samples(packetsize - start) else nsamples
      ensures nsamples == 0 ==> start + Bytes(n) == packetsize
      ensures forall p <- Members(chain, pool) ::
        p in old(Members(chain, pool)) || (fresh(p) && fresh(p.data))
    {
      hide Window, Fits, Linked, Stored, Records, Blocks, Members, Apart, Bytes, Samples;
      OnePacket();
      if tail == null {
        var bufp := GetBuffer();
        AddFirst(bufp);
      } else if tailEnd == packetsize {
        var bufp := GetBuffer();
        AddTail(bufp);
      }
      OnePacket();
      var avail := Samples(packetsize - tailEnd);
      buf, start := tail.data, tailEnd;
      n := if nsamples == 0 || nsamples > avail then avail else nsamples;
      Room(tailEnd, packetsize, n);
    }

    method AddFirst(bufp: SoundIoPacket)
      requires Valid() && chain == [] && packetsize > 0
      requires bufp.next == null && bufp.data.Length == packetsize && bufp !in pool
      requires Stored(Members(chain, pool) + {bufp}, packetsize)
      modifies this
      ensures Valid() && tail == bufp && tailEnd == 0
      ensures chain == old(chain) + [bufp] && headStart == old(headStart)
      ensures Members(chain, pool) == old(Members(chain, pool)) + {bufp}
      ensures unchanged(this`bpr, this`packetsize)
      ensures Contents() == []
    {
      assert Members([bufp], pool) == Members(chain, pool) + {bufp};
      head, tail := bufp, bufp;
      npackets := npackets + 1;
      chain := [bufp];
    }

    method AddTail(bufp: SoundIoPacket)
      requires Sound() && chain != [] && tailEnd == packetsize
      requires bufp.next == null && bufp.data.Length == packetsize && bufp !in chain && bufp !in pool
      requires Stored(Members(chain, pool) + {bufp}, packetsize)
      modifies this, tail
      ensures Valid() && tail == bufp && tailEnd == 0
      ensures chain == old(chain) + [bufp] && headStart == old(headStart)
      ensures Members(chain, pool) == old(Members(chain, pool)) + {bufp}
      ensures unchanged(this`bpr, this`packetsize)
      ensures Contents() == old(Contents())
    {
      hide Window, Fits, Linked, Stored, Records, Blocks, Members, Apart;
      OnePacket();
      ghost var front, blocks := chain[..|chain| - 1], Blocks(chain);
      assert chain == front + [tail];
      LinkedSplit(head, front, tail, null);
      WindowExtend(blocks, headStart, packetsize, bufp.data[..]);
      MembersSnoc(chain, pool, bufp);
      assert allocated(front) && allocated(pool);
      tail.next := bufp;
      LinkedSplit(head, front, tail, bufp);
      LinkedSplit(head, chain, bufp, null);
      tail := bufp;
      tailEnd := 0;
      npackets := npackets + 1;
      chain := chain + [bufp];
      assert Blocks(chain) == blocks + [bufp.data[..]];
    }

    method PutUnfilled(nsamples: nat)
      requires Valid()
      requires Bytes(nsamples) + tailEnd <= packetsize
      requires tail == null ==> nsamples == 0
      modifies this`tailEnd
      ensures Valid() && tailEnd == old(tailEnd) + Bytes(nsamples)
      ensures tail != null ==>
        Contents() == old(Contents()) + tail.data[old(tailEnd)..old(tailEnd) + Bytes(nsamples)]
      ensures tail == null ==> Contents() == []
    {
      hide Window, Fits, Linked, Stored, Records, Blocks, Members, Apart;
      OnePacket();
      RecordBytes(nsamples);
      var nbytes := Bytes(nsamples);
      hide Bytes;
      if tail != null {
        Appended(nbytes);
      } else {
        assert nbytes == 0;
      }
      tailEnd := tailEnd + nbytes;
    }

    lemma Appended(nbytes: nat)
      requires Sound() && chain != [] && Records(nbytes, bpr) && tailEnd + nbytes <= packetsize
      ensures Records(tailEnd + nbytes, bpr)
      ensures Fits(Blocks(chain), headStart, tailEnd + nbytes, packetsize)
      ensures Window(Blocks(chain), headStart, tailEnd + nbytes, packetsize)
           == Contents() + tail.data[tailEnd..tailEnd + nbytes]
    {
      hide Window, Fits, Linked, Stored, Blocks, Members, Apart;
      OnePacket();
      SumMultiple(tailEnd, nbytes, bpr);
      WindowGrow(Blocks(chain), headStart, tailEnd, packetsize, nbytes);
    }

    /** A reader storing into the area it was handed leaves the contents alone until PutUnfilled. */
    method Store(bytes: seq<byte>)
      requires Valid() && tail != null
      requires tail.data.Length == packetsize && tailEnd + |bytes| <= packetsize
      modifies tail.data
      ensures Contents() == old(Contents())
      ensures tail.data[tailEnd..tailEnd + |bytes|] == bytes
    {
      hide Window, Fits, Linked, Stored, Records, Blocks, Members, Apart, Bytes, Samples;
      ghost var blocks, was := Blocks(chain), tail.data[..];
      OnePacket();
      OwnStorage(|chain| - 1);
      forall i | 0 <= i < |bytes| {
        tail.data[tailEnd + i] := bytes[i];
      }
      assert tail.data[..tailEnd] == was[..tailEnd];
      assert forall i :: 0 <= i < |chain| - 1 ==> chain[i].data[..] == blocks[i];
      assert Blocks(chain) == blocks[|chain| - 1 := tail.data[..]];
      WindowTouch(blocks, headStart, tailEnd, packetsize, tail.data[..]);
    }

    /** Bytes read into the last packet; the whole records among them join the queue. */
    method KeepRecords(bytes: seq<byte>, ghost n: nat)
      requires Valid() && tail != null && tail.data.Length == packetsize
      requires |bytes| <= Bytes(n) && tailEnd + Bytes(n) <= packetsize
      modifies this`tailEnd, tail.data
      ensures Valid()
      ensures Contents() == old(Contents()) + bytes[..Kept(|bytes|, bpr)]
    {
      hide Window, Fits, Linked, Stored, Records, Blocks, Members, Apart, Bytes, Samples, Kept, Sound, Contents;
      OnePacket();
      var got, k := |bytes|, Samples(|bytes|);
      WholePart(got, n);
      Store(bytes);
      ghost var all := tail.data[tailEnd..tailEnd + got];
      assert tail.data[tailEnd..tailEnd + Bytes(k)] == all[..Bytes(k)];
      PutUnfilled(k);
    }

    lemma OwnStorage(last: nat)
      requires Sound() && last == |chain| - 1
      ensures forall i :: 0 <= i < last ==> chain[i].data != chain[last].data
    {
      LinkedDistinct(head, chain, null);
    }

    // ---- removing ---------------------------------------------------------

    method DequeueFirst() returns (bufp: SoundIoPacket?)
      requires Lists() && Counts() && headStart == 0
      modifies this
      ensures unchanged(this`bpr, this`packetsize, this`free, this`nfree)
      ensures unchanged(this`headStart, this`tailEnd, this`pool)
      ensures Lists() && Counts()
      ensures bufp == old(head)
      ensures old(chain) == [] ==> chain == []
      ensures old(chain) != [] ==> bufp == old(chain)[0] && chain == old(chain)[1..]
      ensures bufp != null ==> bufp !in chain && bufp !in pool && Stored(Members(chain, pool) + {bufp}, packetsize)
      ensures bufp != null ==> Members(chain, pool) + {bufp} == old(Members(chain, pool))
    {
      bufp := head;
      if bufp != null {
        assert Members(chain[1..], pool) + {bufp} == Members(chain, pool);
        head := bufp.next;
        npackets := npackets - 1;
        if npackets == 0 {
          tail := null;
        }
        chain := chain[1..];
      }
    }

    /** Retiring a packet that is used from its first byte removes exactly that packet's bytes. */
    method RetireFirst()
      requires Sound() && headStart == 0 && chain != []
      requires |chain| == 1 ==> tailEnd == packetsize
      modifies this, chain[0]
      ensures Sound() && headStart == 0
      ensures unchanged(this`bpr, this`packetsize, this`tailEnd)
      ensures chain == old(chain)[1..]
      ensures packetsize <= |old(Contents())|
      ensures Contents() == old(Contents())[packetsize..]
      ensures Members(chain, pool) <= old(Members(chain, pool))
    {
      hide Window, Fits, Linked, Stored, Records, Blocks, Members, Apart, Bytes, Samples;
      OnePacket();
      Front(packetsize);
      FirstOut();
      var bufp := DequeueFirst();
      PutBuffer(bufp);
      OnePacket();
    }

    lemma FirstOut()
      requires Sound() && headStart == 0 && chain != []
      ensures Blocks(chain)[1..] == Blocks(chain[1..])
      ensures |chain| == 1 && tailEnd == packetsize ==> Contents()[packetsize..] == []
      ensures |chain| > 1 ==> Contents()[packetsize..] == Window(Blocks(chain[1..]), 0, tailEnd, packetsize)
    {
    }

    lemma Advanced(nbytes: nat)
      requires Sound() && chain != [] && Records(nbytes, bpr)
      requires headStart + nbytes <= if |chain| == 1 then tailEnd else packetsize
      ensures Records(headStart + nbytes, bpr)
      ensures Fits(Blocks(chain), headStart + nbytes, tailEnd, packetsize)
      ensures nbytes <= |Contents()|
      ensures Window(Blocks(chain), headStart + nbytes, tailEnd, packetsize) == Contents()[nbytes..]
    {
      SumMultiple(headStart, nbytes, bpr);
      WindowSkip(Blocks(chain), headStart, tailEnd, packetsize, nbytes);
    }

    /** Moving the read offset within the first packet; a packet used up to its end is retired. */
    method TakeFront(nbytes: nat)
      requires Sound() && chain != [] && Records(nbytes, bpr)
      requires if |chain| == 1 then headStart + nbytes <= tailEnd else headStart + nbytes < packetsize
      modifies this, chain[0]
      ensures Valid()
      ensures unchanged(this`bpr, this`packetsize)
      ensures nbytes <= |old(Contents())|
      ensures Contents() == old(Contents())[nbytes..]
      ensures Members(chain, pool) <= old(Members(chain, pool))
    {
      hide Window, Fits, Linked, Stored, Records, Blocks, Members, Apart, Bytes, Samples;
      OnePacket();
      Advanced(nbytes);
      Front(nbytes);
      headStart := headStart + nbytes;
      if head == tail && headStart == packetsize {
        assert headStart == tailEnd;
        headStart, tailEnd := 0, 0;
        var bufp := DequeueFirst();
        PutBuffer(bufp);
        OnePacket();
      }
    }

    /** Using up the rest of a partly read first packet. */
    method FinishFirst(count: nat) returns (nbytes: nat)
      requires Sound() && |chain| > 1 && Records(count, bpr)
      requires packetsize - headStart <= count <= |Contents()|
      modifies this, chain[0]
      ensures Sound() && headStart == 0 && Records(nbytes, bpr)
      ensures unchanged(this`bpr, this`packetsize, this`tailEnd)
      ensures chain == old(chain)[1..]
      ensures nbytes <= |Contents()|
      ensures Contents()[nbytes..] == old(Contents()[count..])
      ensures Members(chain, pool) <= old(Members(chain, pool))
    {
      hide Window, Fits, Linked, Stored, Records, Blocks, Members, Apart;
      OnePacket();
      Enter(count);
      nbytes := count - (packetsize - headStart);
      headStart := 0;
      ghost var whole := Contents();
      RetireFirst();
      assert whole[packetsize..][nbytes..] == whole[old(headStart)..][count..];
    }

    /** Retiring whole packets while the count still covers one. */
    method RetireWhole(count: nat) returns (nbytes: nat)
      requires Sound() && headStart == 0 && Records(count, bpr)
      requires packetsize > 0 && count <= |Contents()|
      requires chain == [] ==> tailEnd == packetsize
      modifies this, chain
      ensures Sound() && headStart == 0 && Records(nbytes, bpr)
      ensures unchanged(this`bpr, this`packetsize, this`tailEnd)
      ensures nbytes < packetsize && nbytes <= |Contents()|
      ensures Contents()[nbytes..] == old(Contents()[count..])
      ensures Members(chain, pool) <= old(Members(chain, pool))
      ensures forall p <- chain :: p in old(chain)
      ensures chain == [] ==> tailEnd == packetsize
    {
      hide Window, Fits, Linked, Stored, Records, Blocks, Members, Apart, Bytes, Samples;
      nbytes := count;
      while nbytes >= packetsize
        invariant Sound() && headStart == 0 && Records(nbytes, bpr)
        invariant unchanged(this`bpr, this`packetsize, this`tailEnd)
        invariant nbytes <= |Contents()|
        invariant Contents()[nbytes..] == old(Contents()[count..])
        invariant Members(chain, pool) <= old(Members(chain, pool))
        invariant forall p <- chain :: p in old(chain)
        invariant chain == [] ==> tailEnd == packetsize
      {
        OnePacket();
        ContentsLength();
        Less(nbytes);
        ghost var was := Contents();
        assert chain[0] in chain;
        RetireFirst();
        assert was[nbytes..] == was[packetsize..][nbytes - packetsize..];
        nbytes := nbytes - packetsize;
      }
      OnePacket();
    }

    lemma Less(nbytes: nat)
      requires Sound() && Records(nbytes, bpr) && nbytes >= packetsize
      ensures Records(nbytes - packetsize, bpr)
    {
      SumMultiple(nbytes, packetsize, bpr);
    }

    /**
     * Dequeue drops records from the front.  It leaves a state the queue can go on from exactly when it does
     * not empty a full last packet behind others: then the write offset stays at the end of a packet that is
     * no longer there.
     */
    method Dequeue(nsamples: nat)
      requires Valid() && Bytes(nsamples) <= |Contents()|
      modifies this, chain
      ensures Sound()
      ensures unchanged(this`bpr, this`packetsize)
      ensures Contents() == old(Contents())[Bytes(nsamples)..]
      ensures Valid() <==> !old(EmptiesFull(nsamples))
      ensures !Valid() ==> tail == null && tailEnd == packetsize
      ensures Members(chain, pool) <= old(Members(chain, pool))
    {
      hide Window, Fits, Linked, Stored, Records, Blocks, Members, Apart;
      OnePacket();
      RecordBytes(nsamples);
      var nbytes := Bytes(nsamples);
      hide Bytes;
      if head == null {
        return;
      }
      if head != tail {
        if headStart != 0 {
          if packetsize - headStart > nbytes {
            Front(nbytes);
            TakeFront(nbytes);
            return;
          }
          nbytes := FinishFirst(nbytes);
        }
        nbytes := RetireWhole(nbytes);
        FullTail();
        if nbytes == 0 {
          return;
        }
      }
      if head != null {
        Front(0);
        assert chain[0] in chain;
        TakeFront(nbytes);
      }
    }

    lemma FullTail()
      requires Sound() && headStart == 0
      ensures chain != [] && tailEnd == packetsize ==> |Contents()| >= packetsize
      ensures chain == [] ==> Contents() == []
      ensures |chain| == 1 ==> |Contents()| == tailEnd
      ensures (head == null <==> chain == []) && (tail == null <==> chain == [])
      ensures head != null ==> (head == tail <==> |chain| == 1)
    {
      OnePacket();
      if |chain| > 1 {
        WindowReaches(Blocks(chain), headStart, tailEnd, packetsize);
      }
    }

    lemma Fewer(m: nat, n: nat)
      requires m <= n
      ensures Bytes(m) <= Bytes(n)
    {
      assert (n - m) * bpr >= 0;
    }

    lemma FewerThan(m: nat, n: nat)
      requires m < n && bpr > 0
      ensures Bytes(m) < Bytes(n)
    {
      assert (n - m) * bpr > 0;
    }

    lemma NoBytes()
      ensures Bytes(0) == 0
    {
    }

    lemma RecordBytes(nsamples: nat)
      requires bpr > 0
      ensures Records(Bytes(nsamples), bpr)
    {
      Multiple(nsamples, bpr);
    }

    lemma WholePart(got: nat, n: nat)
      requires bpr > 0 && got <= Bytes(n)
      ensures Bytes(Samples(got)) == Kept(got, bpr) <= got
    {
    }

    lemma Enter(nbytes: nat)
      requires Sound() && |chain| > 1 && Records(nbytes, bpr)
      requires packetsize - headStart <= nbytes
      ensures Records(nbytes - (packetsize - headStart), bpr)
      ensures Fits(Blocks(chain), 0, tailEnd, packetsize)
      ensures var whole := Window(Blocks(chain), 0, tailEnd, packetsize);
        headStart <= |whole| && Contents() == whole[headStart..]
    {
      SumMultiple(packetsize, headStart, bpr);
      SumMultiple(nbytes, packetsize - headStart, bpr);
      WindowSkip(Blocks(chain), 0, tailEnd, packetsize, headStart);
    }

    // ---- starting over ----------------------------------------------------

    /** Lets go of the first packet. */
    method DropHead()
      requires head != null && npackets > 0
      requires Linked(head, chain, null) && Apart(chain, pool) && Stored(Members(chain, pool), packetsize)
      modifies this`head, this`chain, this`npackets
      ensures Linked(head, chain, null) && Apart(chain, pool) && Stored(Members(chain, pool), packetsize)
      ensures |chain| == |old(chain)| - 1 && npackets == old(npackets) - 1
    {
      assert Members(chain[1..], pool) <= Members(chain, pool);
      npackets := npackets - 1;
      head := head.next;
      chain := chain[1..];
    }

    /** Clear also repairs the state that Dequeue can leave behind. */
    method Clear()
      requires Sound()
      modifies this
      ensures Valid() && chain == [] && Contents() == []
      ensures unchanged(this`bpr, this`packetsize, this`pool)
    {
      hide Sound, Contents, Linked, Stored, Apart, Members, Records, Window, Fits, Blocks;
      Cleared();
      headStart, tailEnd := 0, 0;
      DropAll();
      assert npackets == 0;
      tail := null;
      Empty();
    }

    lemma Cleared()
      requires Sound()
      ensures Linked(head, chain, null) && Apart(chain, pool) && Stored(Members(chain, pool), packetsize)
      ensures npackets == |chain| && PoolOk() && Records(packetsize, bpr)
    {
    }

    ghost predicate PoolOk()
      reads this`free, this`pool, this`nfree, this`packetsize, pool
    {
      && Linked(free, pool, null)
      && nfree == |pool| <= C_FREE_BUFFER_RETAIN + 1
      && (pool != [] ==> packetsize > 0)
    }

    lemma Empty()
      requires PoolOk() && Records(packetsize, bpr) && Stored(Members(chain, pool), packetsize)
      requires chain == [] && head == null && tail == null && npackets == 0 && headStart == 0 == tailEnd
      ensures Valid() && Contents() == []
    {
    }

    method DropAll()
      requires Linked(head, chain, null) && Apart(chain, pool) && Stored(Members(chain, pool), packetsize)
      requires npackets == |chain|
      modifies this`head, this`chain, this`npackets
      ensures head == null && chain == [] && npackets == 0
      ensures Stored(Members(chain, pool), packetsize)
    {
      while head != null
        invariant Linked(head, chain, null) && Apart(chain, pool) && Stored(Members(chain, pool), packetsize)
        invariant npackets == |chain|
        decreases |chain|
      {
        DropHead();
      }
    }

    method CollectBuffers()
      requires Lists() && Counts()
      modifies this, pool
      ensures Lists() && Counts() && pool == []
      ensures unchanged(this`bpr, this`packetsize, this`head, this`tail, this`npackets)
      ensures unchanged(this`headStart, this`tailEnd, this`chain)
    {
      while free != null
        invariant Lists() && Counts()
        invariant unchanged(this`bpr, this`packetsize, this`head, this`tail, this`npackets)
        invariant unchanged(this`headStart, this`tailEnd, this`chain)
        invariant forall p <- pool :: p in old(pool)
        decreases |pool|
      {
        assert free in pool;
        var bufp := GetBuffer();
      }
    }

    method SetPacketSize(packetsize: nat, bps: nat)
      requires Sound() && bps > 0
      modifies this, pool
      ensures Valid() && chain == [] && pool == [] && Contents() == []
      ensures bpr == bps && this.packetsize == packetsize * bps
    {
      Clear();
      CollectBuffers();
      Multiple(packetsize, bps);
      this.packetsize := packetsize * bps;
      bpr := bps;
    }
  }

  // ---------------------------------------------------------------------
  // Streaming through a queue
  // ---------------------------------------------------------------------

  /** Draining two full packets in one call leaves the offset that the next GetUnfilled rejects. */
  method StaleTail() returns (q: PacketSeq)
    ensures fresh(q) && q.Sound() && !q.Valid()
    ensures q.tail == null && q.tailEnd == q.packetsize == 2
  {
    hide Window, Fits, Linked, Stored, Records, Blocks, Members, Apart;
    hide PacketSeq.Sound, PacketSeq.Contents;
    q := new PacketSeq(2, 2);
    q.OnePacket();
    q.Ends();
    var buf, start, n := q.GetUnfilled(0);
    q.PutUnfilled(1);
    q.Ends();
    buf, start, n := q.GetUnfilled(0);
    q.PutUnfilled(1);
    q.Ends();
    q.Dequeue(2);
  }

  /** The heap a queue owns: itself, its packets and their storage. */
  ghost function Repr(q: PacketSeq): set<object>
    reads q
  {
    {q} + Members(q.chain, q.pool) + set p <- Members(q.chain, q.pool) :: p.data
  }

  /** What is kept of a read: the whole records in it. */
  function Kept(got: nat, bpr: nat): (k: nat)
    requires bpr > 0
    ensures k <= got && (k == got <==> Records(got, bpr))
    ensures k % bpr == 0 && got - k < bpr
  {
    Whole(got, bpr);
    got - got % bpr
  }

  lemma Whole(n: nat, d: nat)
    requires d > 0
    ensures (n - n % d) % d == 0
  {
    assert n - n % d == (n / d) * d;
    Multiple(n / d, d);
  }

  function Sum(sizes: seq<nat>): nat {
    if sizes == [] then 0 else Sum(sizes[..|sizes| - 1]) + sizes[|sizes| - 1]
  }

  /** What is kept of a stream that arrives in reads of these sizes: the end of each that is no whole record is lost. */
  function Rounded(feed: seq<byte>, sizes: seq<nat>, bpr: nat): seq<byte>
    requires bpr > 0 && Sum(sizes) <= |feed|
  {
    if sizes == [] then []
    else
      var init, last := sizes[..|sizes| - 1], sizes[|sizes| - 1];
      Rounded(feed, init, bpr) + feed[Sum(init)..Sum(init) + Kept(last, bpr)]
  }

  lemma RoundedNone(feed: seq<byte>, bpr: nat)
    requires bpr > 0
    ensures Sum([]) == 0 && Rounded(feed, [], bpr) == []
  {
  }

  lemma RoundedNext(feed: seq<byte>, sizes: seq<nat>, got: nat, bpr: nat)
    requires bpr > 0 && Sum(sizes) + got <= |feed|
    ensures Sum(sizes + [got]) == Sum(sizes) + got
    ensures Rounded(feed, sizes + [got], bpr) == Rounded(feed, sizes, bpr) + feed[Sum(sizes)..][..Kept(got, bpr)]
  {
    hide Kept;
    assert (sizes + [got])[..|sizes|] == sizes;
  }

  /** Nothing is lost exactly if every read ends with a record; then what is kept is the stream as it came. */
  lemma {:induction false} RoundedWhole(feed: seq<byte>, sizes: seq<nat>, bpr: nat)
    requires bpr > 0 && Sum(sizes) <= |feed|
    ensures |Rounded(feed, sizes, bpr)| <= Sum(sizes)
    ensures (forall n <- sizes :: Records(n, bpr)) <==> |Rounded(feed, sizes, bpr)| == Sum(sizes)
    ensures (forall n <- sizes :: Records(n, bpr)) ==> Rounded(feed, sizes, bpr) == feed[..Sum(sizes)]
  {
    hide Records, Kept;
    if sizes != [] {
      var init, last := sizes[..|sizes| - 1], sizes[|sizes| - 1];
      RoundedWhole(feed, init, bpr);
      assert sizes == init + [last];
      assert feed[..Sum(init)] + feed[Sum(init)..Sum(init) + last] == feed[..Sum(sizes)];
    }
  }

  /**
   * One read into the room offered.  `offer` is what the read returns as far as there is room and input: so many
   * bytes, or 0 at the end of the connection, or a negative number if there is nothing now.  Records that are not
   * whole are not kept.
   */
  method ReadOnce(q: PacketSeq, feed: seq<byte>, offer: int) returns (got: nat, lost: bool)
    requires q.Valid() && q.packetsize > 0 && q.bpr > 0
    modifies Repr(q)
    ensures q.Valid() && q.packetsize == old(q.packetsize) && q.bpr == old(q.bpr)
    ensures got <= |feed| && (lost <==> offer == 0)
    ensures offer <= 0 ==> got == 0
    ensures offer > 0 && feed != [] ==>
      0 < got <= offer && (got == offer || got == |feed|
                           || got == q.packetsize - old(if q.tail == null || q.tailEnd == q.packetsize then 0 else q.tailEnd))
    ensures q.Contents() == old(q.Contents()) + feed[..Kept(got, q.bpr)]
    ensures forall o <- Repr(q) :: o in old(Repr(q)) || fresh(o)
  {
    hide Window, Fits, Linked, Stored, Records, Blocks, Members, Apart;
    hide PacketSeq.Sound, PacketSeq.Contents, PacketSeq.Bytes, PacketSeq.Samples, Kept;
    q.Ends();
    var buf, start, n := q.GetUnfilled(0);
    q.Ends();
    got, lost := 0, offer == 0;
    if offer <= 0 || feed == [] {
      return;
    }
    var room := q.packetsize - start;
    got := offer;
    if got > room {
      got := room;
    }
    if got > |feed| {
      got := |feed|;
    }
    q.KeepRecords(feed[..got], n);
    assert feed[..got][..Kept(got, q.bpr)] == feed[..Kept(got, q.bpr)];
  }

  /**
   * The input side of an audio session: read into unfilled packets until there is nothing now, or the connection is
   * lost.  `offers` says what one read after the other returns; it ends no sooner than that, or than the input.
   */
  method PushInput(q: PacketSeq, feed: seq<byte>, offers: nat -> int) returns (taken: nat, lost: bool, sizes: seq<nat>)
    requires q.Valid() && q.packetsize > 0 && q.bpr > 0
    modifies Repr(q)
    ensures q.Valid() && q.packetsize == old(q.packetsize) && q.bpr == old(q.bpr)
    ensures taken == Sum(sizes) <= |feed|
    ensures forall k :: 0 <= k < |sizes| ==> 0 < sizes[k] <= offers(k)
    ensures taken == |feed| || offers(|sizes|) <= 0
    ensures lost <==> offers(|sizes|) == 0
    ensures q.Contents() == old(q.Contents()) + Rounded(feed, sizes, q.bpr)
    ensures forall o <- Repr(q) :: o in old(Repr(q)) || fresh(o)
  {
    hide Repr, PacketSeq.Sound, PacketSeq.Contents, Kept, Rounded, Sum;
    hide Window, Fits, Linked, Stored, Records, Blocks, Members, Apart;
    taken, lost, sizes := 0, false, [];
    RoundedNone(feed, q.bpr);
    while true
      invariant q.Valid() && q.packetsize == old(q.packetsize) && q.bpr == old(q.bpr)
      invariant taken == Sum(sizes) <= |feed|
      invariant forall k :: 0 <= k < |sizes| ==> 0 < sizes[k] <= offers(k)
      invariant q.Contents() == old(q.Contents()) + Rounded(feed, sizes, q.bpr)
      invariant forall o <- Repr(q) :: o in old(Repr(q)) || fresh(o)
      decreases |feed| - taken
    {
      label Read:
      var got;
      got, lost := ReadOnce(q, feed[taken..], offers(|sizes|));
      assert forall o <- Repr(q) :: old(allocated(o)) ==> old@Read(allocated(o));
      if got == 0 {
        return;
      }
      RoundedNext(feed, sizes, got, q.bpr);
      sizes := sizes + [got];
      taken := taken + got;
    }
  }

  function WholePackets(n: nat, linkPacket: nat): (whole: nat)
    requires linkPacket > 0
    ensures whole <= n && whole % linkPacket == 0 && n - whole < linkPacket
  {
    Whole(n, linkPacket);
    n - n % linkPacket
  }

  /**
   * One send from the front of the queue: what is in the first packet, cut to whole link packets.  `accepts` is how
   * many records the link takes, of those offered.
   */
  method SendOnce(q: PacketSeq, linkPacket: nat, accepts: nat) returns (sent: seq<byte>, offered: nat)
    requires q.Valid() && linkPacket > 0 && q.bpr > 0
    modifies Repr(q)
    ensures q.Valid() && q.packetsize == old(q.packetsize) && q.bpr == old(q.bpr)
    ensures old(q.Contents()) == sent + q.Contents()
    ensures offered % linkPacket == 0 && q.Bytes(offered) <= old(q.Shown()) < q.Bytes(offered + linkPacket)
    ensures |sent| == q.Bytes(if accepts < offered then accepts else offered)
    ensures sent == [] <==> accepts == 0 || offered == 0
    ensures offered == 0 ==> q.Shown() == old(q.Shown())
    ensures Repr(q) <= old(Repr(q))
  {
    hide Window, Fits, Linked, Stored, Records, Blocks, Members, Apart;
    hide PacketSeq.Sound, PacketSeq.Contents, PacketSeq.Bytes, PacketSeq.Samples, PacketSeq.Shown, WholePackets;
    q.Ends();
    var buf, start, n := q.Peek(0);
    offered := WholePackets(n, linkPacket);
    q.Fewer(offered, n);
    q.FewerThan(n, offered + linkPacket);
    q.NoBytes();
    if offered == 0 {
      return [], 0;
    }
    var res := if accepts < offered then accepts else offered;
    q.Fewer(res, n);
    if res > 0 {
      q.FewerThan(0, res);
    }
    ghost var shown := buf[start..start + q.Bytes(n)];
    assert shown == q.Contents()[..q.Bytes(n)];
    sent := buf[start..start + q.Bytes(res)];
    assert sent == shown[..q.Bytes(res)];
    q.Dequeue(res);
  }

  /**
   * The output side: send from the front until the link takes nothing or no whole link packet is left in the first
   * packet.  No send ever leaves a stale write offset.
   */
  method PushOutput(q: PacketSeq, linkPacket: nat, accepts: nat -> nat) returns (sent: seq<byte>, sends: nat)
    requires q.Valid() && linkPacket > 0 && q.bpr > 0
    modifies Repr(q)
    ensures q.Valid() && q.packetsize == old(q.packetsize) && q.bpr == old(q.bpr)
    ensures old(q.Contents()) == sent + q.Contents()
    ensures forall k | 0 <= k < sends :: accepts(k) > 0
    ensures accepts(sends) == 0 || q.Shown() < q.Bytes(linkPacket)
  {
    hide Repr, PacketSeq.Sound, PacketSeq.Contents, PacketSeq.Shown, PacketSeq.Bytes;
    sent, sends := [], 0;
    while true
      invariant q.Valid() && q.packetsize == old(q.packetsize) && q.bpr == old(q.bpr)
      invariant old(q.Contents()) == sent + q.Contents()
      invariant Repr(q) <= old(Repr(q))
      invariant forall k | 0 <= k < sends :: accepts(k) > 0
      decreases |q.Contents()|
    {
      ghost var shown := q.Shown();
      var more, offered := SendOnce(q, linkPacket, accepts(sends));
      if more == [] {
        return;
      }
      sent := sent + more;
      sends := sends + 1;
    }
  }
}
