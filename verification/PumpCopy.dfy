/**
 Moving sample records between two sound endpoints that may give less room, or fewer
 records, than they are asked for.
 */
module PumpCopy {
  import opened Xfer

  /** One sample record: its bytes. */
  type Record = seq<bv8>

  /** An endpoint, known only by what the SoundIo interface promises. */
  class SoundIo {
    /** Records waiting on the input side, oldest first. */
    var inQ: seq<Record>
    /** Records handed to the output side. */
    var outQ: seq<Record>
    /** The output buffer last given out. */
    var obuf: array<Record>
    /** Never gives less than it is asked for. */
    const honours: bool
    /** Has given nothing when asked for input, or no room when asked for that. */
    var dry: bool
    var full: bool

    constructor (input: seq<Record>, honours: bool)
      ensures inQ == input && outQ == [] && this.honours == honours && fresh(obuf) && obuf.Length == 0
    {
      inQ, outQ, this.honours := input, [], honours;
      obuf := new Record[0];
      dry, full := false, false;
    }

    /** The oldest input records, at most `request` of them, possibly fewer. */
    method GetIBuf(request: nat) returns (buf: seq<Record>)
      modifies this`dry
      ensures dry <==> old(dry) || buf == []
      ensures |buf| <= request && |buf| <= |inQ| && buf == inQ[..|buf|]
      ensures honours ==> |buf| == Min(request, |inQ|)
    {
      var n: nat :| n <= request && n <= |inQ| && (honours ==> n == Min(request, |inQ|));
      buf := inQ[..n];
      dry := dry || buf == [];
    }

    method DequeueIBuf(n: nat)
      requires n <= |inQ|
      modifies this`inQ
      ensures inQ == old(inQ)[n..]
    {
      inQ := inQ[n..];
    }

    /** A fresh output buffer with room for at most `request` records, possibly fewer. */
    method GetOBuf(request: nat) returns (n: nat)
      modifies this`obuf, this`full
      ensures n <= request && fresh(obuf) && obuf.Length == n
      ensures full <==> old(full) || n == 0
      ensures honours ==> n == request
    {
      n :| n <= request && (honours ==> n == request);
      obuf := new Record[n](_ => []);
      full := full || n == 0;
    }

    method QueueOBuf(n: nat)
      requires n <= obuf.Length
      modifies this`outQ
      ensures outQ == old(outQ) + obuf[..n]
    {
      outQ := outQ + obuf[..n];
    }
  }

  ghost function Repeat(r: Record, n: nat): (s: seq<Record>)
    ensures |s| == n && forall i :: 0 <= i < n ==> s[i] == r
  {
    seq(n, _ => r)
  }

  /** What a source yields for `n` records when `c` of them can be had: then the last one again. */
  ghost function Padded(q: seq<Record>, silence: Record, c: nat, n: nat): (s: seq<Record>)
    requires c <= n && c <= |q|
    ensures |s| == n
  {
    q[..c] + Repeat(LastOf(q, silence, c), n - c)
  }

  ghost function LastOf(q: seq<Record>, silence: Record, c: nat): Record
    requires c <= |q|
  {
    if c == 0 then silence else q[c - 1]
  }

  /** The last record of an output, or the one before it. */
  ghost function Lately(done: seq<Record>, before: Record): Record {
    if done == [] then before else done[|done| - 1]
  }

  /** One side of a transfer in progress. */
  class WorkingState {
    const siop: SoundIo
    var inBuf: seq<Record>
    var inXfer: nat
    var inSilencePad: nat
    var inSilence: Record
    /** Room left in the output buffer, and records written to it but not yet queued. */
    var outSize: nat
    var outUsed: nat
    var outXfer: nat
    var outDrop: nat
    var outSilence: Record

    ghost predicate ValidIn()
      reads `inBuf, `inXfer, siop`inQ
    {
      && |inBuf| <= inXfer <= |siop.inQ|
      && inBuf == siop.inQ[..|inBuf|]
    }

    ghost predicate ValidOut()
      reads `outSize, `outUsed, `outXfer, siop`obuf
    {
      && outUsed <= siop.obuf.Length
      && (outSize == 0 ==> outUsed == 0)
      && (outSize > 0 ==> outUsed + outSize == siop.obuf.Length && outSize <= outXfer)
    }

    /** Everything accepted for output so far: queued, or written to the pending buffer. */
    ghost function Accepted(): seq<Record>
      requires ValidOut()
      reads `outSize, `outUsed, `outXfer, siop`outQ, siop`obuf, siop.obuf
    {
      siop.outQ + siop.obuf[..outUsed]
    }

    constructor (siop: SoundIo, inSilence: Record, outSilence: Record)
      ensures this.siop == siop && inBuf == [] && inXfer == inSilencePad == 0
      ensures outSize == outUsed == outXfer == outDrop == 0
      ensures this.inSilence == inSilence && this.outSilence == outSilence
    {
      this.siop, this.inSilence, this.outSilence := siop, inSilence, outSilence;
      inBuf, inXfer, inSilencePad := [], 0, 0;
      outSize, outUsed, outXfer, outDrop := 0, 0, 0, 0;
    }
  }

  /** Copies records into a buffer. */
  method CopyRecords(dest: array<Record>, off: nat, src: seq<Record>)
    requires off + |src| <= dest.Length
    modifies dest
    ensures dest[..] == old(dest[..off]) + src + old(dest[off + |src|..])
  {
    forall i | 0 <= i < |src| {
      dest[off + i] := src[i];
    }
  }

  /** `dest` with `done` written from `off` on, and the rest as it was. */
  ghost predicate Wrote(dest: seq<Record>, was: seq<Record>, off: nat, done: seq<Record>) {
    off + |done| <= |was| && dest == was[..off] + done + was[off + |done|..]
  }

  lemma WroteMore(was: seq<Record>, off: nat, done: seq<Record>, more: seq<Record>, mid: seq<Record>, dest: seq<Record>)
    requires Wrote(mid, was, off, done) && off + |done| + |more| <= |was|
    requires dest == mid[..off + |done|] + more + mid[off + |done| + |more|..]
    ensures Wrote(dest, was, off, done + more)
  {
    assert mid[..off + |done|] == was[..off] + done;
    assert mid[off + |done| + |more|..] == was[off + |done| + |more|..];
  }

  /** Takes `n` records from the front of the source buffer into `dest`. */
  method TakeIn(dest: array<Record>, at: nat, sw: WorkingState, n: nat)
    requires 0 < n <= |sw.inBuf| && at + n <= dest.Length && sw.ValidIn()
    modifies dest, sw`inBuf, sw`inXfer, sw`inSilence, sw.siop`inQ
    ensures sw.ValidIn() && sw.inBuf == old(sw.inBuf)[n..] && sw.inXfer == old(sw.inXfer) - n
    ensures n <= |old(sw.siop.inQ)| && sw.siop.inQ == old(sw.siop.inQ)[n..]
    ensures sw.inSilence == old(sw.siop.inQ)[n - 1]
    ensures dest[..] == old(dest[..at]) + old(sw.siop.inQ)[..n] + old(dest[at + n..])
  {
    CopyRecords(dest, at, sw.inBuf[..n]);
    sw.inSilence := sw.inBuf[n - 1];
    sw.inBuf := sw.inBuf[n..];
    sw.inXfer := sw.inXfer - n;
    sw.siop.DequeueIBuf(n);
  }

  /** `c` records have been taken from the queue `q` since `xfer` were to be taken. */
  ghost predicate Taken(sw: WorkingState, q: seq<Record>, xfer: nat, silence: Record, c: nat)
    reads sw`inBuf, sw`inXfer, sw`inSilence, sw.siop`inQ
  {
    && sw.ValidIn()
    && c <= |q| && c <= xfer
    && sw.inXfer == xfer - c
    && sw.siop.inQ == q[c..]
    && sw.inSilence == LastOf(q, silence, c)
  }

  /** One more piece: the next `n` records of the source buffer. */
  method TakeMore(dest: array<Record>, off: nat, sw: WorkingState, n: nat, c: nat,
                  ghost q: seq<Record>, ghost xfer: nat, ghost silence: Record, ghost was: seq<Record>)
    requires 0 < n <= |sw.inBuf| && off + c + n <= dest.Length == |was|
    requires Taken(sw, q, xfer, silence, c) && Wrote(dest[..], was, off, q[..c])
    modifies dest, sw`inBuf, sw`inXfer, sw`inSilence, sw.siop`inQ
    ensures sw.inBuf == old(sw.inBuf)[n..]
    ensures Taken(sw, q, xfer, silence, c + n) && Wrote(dest[..], was, off, q[..c + n])
  {
    ghost var mid := dest[..];
    assert q[..c] + q[c..][..n] == q[..c + n] && q[c..][n..] == q[c + n..];
    TakeIn(dest, off + c, sw, n);
    WroteMore(was, off, q[..c], q[c..][..n], mid, dest[..]);
  }

  lemma TakenLeft(sw: WorkingState, q: seq<Record>, xfer: nat, silence: Record, c: nat)
    requires Taken(sw, q, xfer, silence, c)
    ensures c <= |q| && c <= xfer && sw.inXfer == xfer - c <= |sw.siop.inQ| && sw.inSilence == LastOf(q, silence, c)
  {
  }

  /** A new source buffer; never more than is asked for, so a piece of it is never left over. */
  method AskMore(sw: WorkingState, request: nat, ghost q: seq<Record>, ghost xfer: nat, ghost silence: Record, ghost c: nat)
    requires Taken(sw, q, xfer, silence, c) && request <= sw.inXfer
    modifies sw`inBuf, sw.siop`dry
    ensures Taken(sw, q, xfer, silence, c) && |sw.inBuf| <= request
    ensures sw.siop.dry <==> old(sw.siop.dry) || sw.inBuf == []
    ensures sw.siop.honours ==> |sw.inBuf| == request
  {
    sw.inBuf := sw.siop.GetIBuf(request);
  }

  /** The rest of `dest` repeats the last record taken. */
  method FillRest(dest: array<Record>, off: nat, last: Record, ghost q: seq<Record>, ghost silence: Record,
                  c: nat, nsamps: nat, ghost was: seq<Record>)
    requires c <= |q| && c <= nsamps && off + nsamps <= dest.Length == |was|
    requires last == LastOf(q, silence, c) && Wrote(dest[..], was, off, q[..c])
    modifies dest
    ensures Wrote(dest[..], was, off, Padded(q, silence, c, nsamps))
  {
    ghost var mid := dest[..];
    PadWith(dest, off + c, last, nsamps - c);
    WroteMore(was, off, q[..c], Repeat(last, nsamps - c), mid, dest[..]);
  }

  /**
   Fills `nsamps` records of `dest` from a source; where the source falls short, its last
   record is repeated. Returns how many were padded.
   */
  method CopyIn(dest: array<Record>, off: nat, sw: WorkingState, nsamps: nat) returns (pad: nat)
    requires nsamps > 0 && off + nsamps <= dest.Length && sw.ValidIn()
    modifies dest, sw`inBuf, sw`inXfer, sw`inSilencePad, sw`inSilence, sw.siop`inQ, sw.siop`dry
    ensures pad <= nsamps
    ensures Taken(sw, old(sw.siop.inQ), old(sw.inXfer), old(sw.inSilence), nsamps - pad)
    ensures sw.inSilencePad == old(sw.inSilencePad) + pad
    ensures Wrote(dest[..], old(dest[..]), off,
                  Padded(old(sw.siop.inQ), old(sw.inSilence), nsamps - pad, nsamps))
    ensures sw.siop.honours ==> pad == nsamps - Min(nsamps, old(sw.inXfer))
    ensures pad > 0 ==> sw.inXfer == 0 || sw.siop.dry
    ensures old(sw.siop.dry) ==> sw.siop.dry
    ensures |old(sw.inBuf)| < nsamps ==> sw.inBuf == []
  {
    hide Padded, LastOf, Wrote, Taken;
    ghost var q, xfer, was, silence := sw.siop.inQ, sw.inXfer, dest[..], sw.inSilence;
    NoneTaken(sw, off, was);
    var c := 0;
    if sw.inBuf != [] {
      c := Min(nsamps, |sw.inBuf|);
      TakeMore(dest, off, sw, c, 0, q, xfer, silence, was);
    }
    c := TakeLoop(dest, off, sw, nsamps, c, q, xfer, silence, was);
    TakenLeft(sw, q, xfer, silence, c);
    FillRest(dest, off, sw.inSilence, q, silence, c, nsamps, was);
    pad := nsamps - c;
    sw.inSilencePad := sw.inSilencePad + pad;
  }

  lemma NoneTaken(sw: WorkingState, off: nat, was: seq<Record>)
    requires sw.ValidIn() && off <= |was|
    ensures Taken(sw, sw.siop.inQ, sw.inXfer, sw.inSilence, 0) && Wrote(was, was, off, sw.siop.inQ[..0])
  {
  }

  /** Asks for one source buffer after another until `nsamps` are taken or no more can be had. */
  method TakeLoop(dest: array<Record>, off: nat, sw: WorkingState, nsamps: nat, c0: nat,
                  ghost q: seq<Record>, ghost xfer: nat, ghost silence: Record, ghost was: seq<Record>)
    returns (c: nat)
    requires c0 <= nsamps && off + nsamps <= dest.Length == |was|
    requires Taken(sw, q, xfer, silence, c0) && c0 <= |q| && Wrote(dest[..], was, off, q[..c0])
    requires c0 < nsamps ==> sw.inBuf == []
    modifies dest, sw`inBuf, sw`inXfer, sw`inSilence, sw.siop`inQ, sw.siop`dry
    ensures c <= nsamps && Taken(sw, q, xfer, silence, c) && c <= |q| && Wrote(dest[..], was, off, q[..c])
    ensures sw.siop.honours ==> c == Max(c0, Min(nsamps, xfer))
    ensures c < nsamps ==> c == xfer || sw.siop.dry
    ensures old(sw.siop.dry) ==> sw.siop.dry
    ensures if c0 < nsamps then sw.inBuf == [] else sw.inBuf == old(sw.inBuf)
  {
    hide LastOf, Wrote, Taken;
    c := c0;
    TakenLeft(sw, q, xfer, silence, c);
    while c < nsamps
      invariant c0 <= c <= nsamps && c <= |q| && Taken(sw, q, xfer, silence, c)
      invariant c < nsamps ==> sw.inBuf == []
      invariant if c0 < nsamps then sw.inBuf == [] else sw.inBuf == old(sw.inBuf)
      invariant Wrote(dest[..], was, off, q[..c])
      invariant c <= xfer && (old(sw.siop.dry) ==> sw.siop.dry)
    {
      TakenLeft(sw, q, xfer, silence, c);
      if sw.inXfer == 0 {
        break;
      }
      AskMore(sw, Min(nsamps - c, sw.inXfer), q, xfer, silence, c);
      var rem := |sw.inBuf|;
      if rem == 0 {
        break;
      }
      TakeMore(dest, off, sw, rem, c, q, xfer, silence, was);
      c := c + rem;
      TakenLeft(sw, q, xfer, silence, c);
    }
  }

  /** Fills with copies of one record. */
  method PadWith(dest: array<Record>, off: nat, r: Record, n: nat)
    requires off + n <= dest.Length
    modifies dest
    ensures dest[..] == old(dest[..off]) + Repeat(r, n) + old(dest[off + n..])
  {
    var i := 0;
    while i < n
      invariant 0 <= i <= n
      invariant dest[..] == old(dest[..off]) + Repeat(r, i) + old(dest[off + i..])
    {
      dest[off + i] := r;
      i := i + 1;
    }
  }

  // ---- from one endpoint to the other --------------------------------------------------------

  /**
   `out` is the first `c` records of `q` in order, none skipped and none twice, except that
   anywhere the record before (at the start, `silence`) may have been repeated.
   */
  ghost predicate Yields(q: seq<Record>, silence: Record, out: seq<Record>, c: nat)
    decreases |out|
  {
    c <= |q| &&
    if out == [] then c == 0
    else
      var last, init := out[|out| - 1], out[..|out| - 1];
      (c > 0 && last == q[c - 1] && Yields(q, silence, init, c - 1))
      || (last == LastOf(q, silence, c) && Yields(q, silence, init, c))
  }

  lemma {:induction false} YieldsPadded(q: seq<Record>, silence: Record, c: nat, n: nat)
    requires c <= n && c <= |q|
    ensures Yields(q, silence, Padded(q, silence, c, n), c)
  {
    if n > 0 {
      var out := Padded(q, silence, c, n);
      if c == n {
        assert out[..n - 1] == Padded(q, silence, c - 1, n - 1);
        YieldsPadded(q, silence, c - 1, n - 1);
      } else {
        assert out[..n - 1] == Padded(q, silence, c, n - 1);
        YieldsPadded(q, silence, c, n - 1);
      }
    }
  }

  /**
   What that means record by record: each one put out is the one at some position of the source, or `silence` before
   the first; positions never go back, never skip one, and end at the last one taken.
   */
  lemma {:induction false} YieldsMeans(q: seq<Record>, silence: Record, out: seq<Record>, c: nat) returns (at: seq<nat>)
    requires Yields(q, silence, out, c)
    ensures |at| == |out| && c <= |q|
    ensures forall i :: 0 <= i < |out| ==> at[i] <= c && out[i] == if at[i] == 0 then silence else q[at[i] - 1]
    ensures forall i :: 0 < i < |out| ==> at[i] == at[i - 1] || at[i] == at[i - 1] + 1
    ensures if out == [] then c == 0 else at[0] <= 1 && at[|out| - 1] == c
    decreases |out|
  {
    if out == [] {
      at := [];
    } else {
      var last, init := out[|out| - 1], out[..|out| - 1];
      var before := if c > 0 && last == q[c - 1] && Yields(q, silence, init, c - 1) then c - 1 else c;
      at := YieldsMeans(q, silence, init, before);
      at := at + [c];
    }
  }

  /** Padding repeats the last record taken, or the one before the first. */
  lemma PaddedAt(q: seq<Record>, silence: Record, c: nat, n: nat, i: nat)
    requires c <= n && c <= |q| && i < n
    ensures Padded(q, silence, c, n)[i] == if i < c then q[i] else if c == 0 then silence else q[c - 1]
  {
  }

  lemma {:induction false} YieldsAppend(q: seq<Record>, silence: Record, out: seq<Record>, c: nat, more: seq<Record>, d: nat)
    requires Yields(q, silence, out, c)
    requires Yields(q[c..], LastOf(q, silence, c), more, d)
    ensures Yields(q, silence, out + more, c + d)
    decreases |more|
  {
    if more == [] {
      assert out + more == out;
    } else {
      var last, init := more[|more| - 1], more[..|more| - 1];
      var all := out + more;
      assert all[..|all| - 1] == out + init && all[|all| - 1] == last;
      if d > 0 && last == q[c..][d - 1] && Yields(q[c..], LastOf(q, silence, c), init, d - 1) {
        YieldsAppend(q, silence, out, c, init, d - 1);
      } else {
        YieldsAppend(q, silence, out, c, init, d);
      }
    }
  }

  /** The progress of one crossing: `done` has been accepted, `c` source records taken for it. */
  ghost predicate Crossed(dw: WorkingState, sw: WorkingState, room: nat, accepted: seq<Record>,
                          q: seq<Record>, xfer: nat, silence: Record, pads: nat, done: seq<Record>, c: nat)
    reads dw`outSize, dw`outUsed, dw`outXfer, dw.siop`outQ, dw.siop`obuf, dw.siop.obuf,
          sw`inBuf, sw`inXfer, sw`inSilence, sw`inSilencePad, sw.siop`inQ
  {
    && dw.ValidOut() && dw.Accepted() == accepted + done
    && dw.outXfer == room - |done|
    && Taken(sw, q, xfer, silence, c)
    && Yields(q, silence, done, c)
    && c <= |done| && sw.inSilencePad == pads + (|done| - c)
  }

  /** Moves `n` records into the pending output buffer, and queues it when it is full. */
  method PassOne(dw: WorkingState, sw: WorkingState, n: nat) returns (pad: nat)
    requires dw != sw && dw.siop != sw.siop
    requires dw.ValidOut() && sw.ValidIn() && 0 < n <= dw.outSize
    modifies dw`outSize, dw`outUsed, dw`outXfer, dw`outSilence, dw.siop`outQ, dw.siop.obuf
    modifies sw`inBuf, sw`inXfer, sw`inSilence, sw`inSilencePad, sw.siop`inQ, sw.siop`dry
    ensures dw.ValidOut() && dw.outXfer == old(dw.outXfer) - n && dw.outSize == old(dw.outSize) - n
    ensures pad <= n && Taken(sw, old(sw.siop.inQ), old(sw.inXfer), old(sw.inSilence), n - pad)
    ensures sw.inSilencePad == old(sw.inSilencePad) + pad
    ensures dw.Accepted() == old(dw.Accepted()) + Padded(old(sw.siop.inQ), old(sw.inSilence), n - pad, n)
    ensures dw.outSilence == Padded(old(sw.siop.inQ), old(sw.inSilence), n - pad, n)[n - 1]
    ensures sw.siop.honours ==> pad == n - Min(n, old(sw.inXfer))
    ensures pad > 0 ==> sw.inXfer == 0 || sw.siop.dry
    ensures old(sw.siop.dry) ==> sw.siop.dry
    ensures |old(sw.inBuf)| < n ==> sw.inBuf == []
  {
    var obuf := dw.siop.obuf;
    ghost var was, used := obuf[..], dw.outUsed;
    pad := CopyIn(obuf, dw.outUsed, sw, n);
    dw.outSilence := obuf[dw.outUsed + n - 1];
    dw.outSize := dw.outSize - n;
    dw.outUsed := dw.outUsed + n;
    dw.outXfer := dw.outXfer - n;
    ghost var piece := Padded(old(sw.siop.inQ), old(sw.inSilence), n - pad, n);
    assert obuf[..dw.outUsed] == was[..used] + piece;
    if dw.outSize == 0 {
      dw.siop.QueueOBuf(dw.outUsed);
      dw.outUsed := 0;
    }
  }

  /** PassOne as a step of a crossing. */
  method CrossOne(dw: WorkingState, sw: WorkingState, n: nat, ghost room: nat, ghost accepted: seq<Record>,
                  ghost q: seq<Record>, ghost xfer: nat, ghost silence: Record, ghost pads: nat,
                  ghost done: seq<Record>, ghost c: nat)
    returns (ghost done': seq<Record>, ghost c': nat)
    requires dw != sw && dw.siop != sw.siop && 0 < n <= dw.outSize
    requires Crossed(dw, sw, room, accepted, q, xfer, silence, pads, done, c)
    modifies dw`outSize, dw`outUsed, dw`outXfer, dw`outSilence, dw.siop`outQ, dw.siop.obuf
    modifies sw`inBuf, sw`inXfer, sw`inSilence, sw`inSilencePad, sw.siop`inQ, sw.siop`dry
    ensures Crossed(dw, sw, room, accepted, q, xfer, silence, pads, done', c')
    ensures |done'| == |done| + n && c <= c' && dw.outSize == old(dw.outSize) - n
    ensures dw.outSilence == done'[|done'| - 1]
    ensures sw.siop.honours ==> c' - c == Min(n, xfer - c)
    ensures c' - c < n ==> c' == xfer || sw.siop.dry
    ensures old(sw.siop.dry) ==> sw.siop.dry
    ensures |old(sw.inBuf)| < n ==> sw.inBuf == []
  {
    hide Padded, LastOf, Yields;
    var pad := PassOne(dw, sw, n);
    ghost var piece := Padded(q[c..], LastOf(q, silence, c), n - pad, n);
    done', c' := done + piece, c + (n - pad);
    YieldsPadded(q[c..], LastOf(q, silence, c), n - pad, n);
    YieldsAppend(q, silence, done, c, piece, n - pad);
    TakenChain(sw, q, xfer, silence, c, n - pad);
    assert accepted + done + piece == accepted + done';
  }

  lemma TakenChain(sw: WorkingState, q: seq<Record>, xfer: nat, silence: Record, c: nat, d: nat)
    requires c <= |q| && c <= xfer && Taken(sw, q[c..], xfer - c, LastOf(q, silence, c), d)
    ensures Taken(sw, q, xfer, silence, c + d)
  {
    assert q[c..][d..] == q[c + d..];
  }

  /** Removes records that have nowhere to go; what the source does not have counts as padding. */
  method SkipIn(sw: WorkingState, nsamps: nat)
    requires sw.ValidIn()
    modifies sw`inBuf, sw`inXfer, sw`inSilencePad, sw.siop`inQ
    ensures sw.ValidIn()
    ensures var d := Min(nsamps, old(sw.inXfer));
            && sw.inXfer == old(sw.inXfer) - d && sw.siop.inQ == old(sw.siop.inQ)[d..]
            && sw.inSilencePad == old(sw.inSilencePad) + (nsamps - d)
    ensures old(sw.inBuf) == [] || nsamps > 0 ==> sw.inBuf == []
  {
    var rem := nsamps;
    if rem > sw.inXfer {
      sw.inSilencePad := sw.inSilencePad + (rem - sw.inXfer);
      rem := sw.inXfer;
    }
    if rem > 0 {
      sw.inBuf := [];
      sw.siop.DequeueIBuf(rem);
      sw.inXfer := sw.inXfer - rem;
    }
  }

  /**
   Moves `nsamps` records from the source of `sw` to the sink of `dw`. Whatever the
   endpoints give, each of the `nsamps` is either taken from the source or counted as
   padding, and either accepted by the sink or counted as dropped. Returns the drop;
   `done` is what was accepted, and `c` how many source records went into it.
   */
  method CopyCross(dw: WorkingState, sw: WorkingState, nsamps: nat)
    returns (drop: nat, ghost done: seq<Record>, ghost c: nat)
    requires nsamps > 0 && dw != sw && dw.siop != sw.siop && dw.ValidOut() && sw.ValidIn()
    modifies dw`outSize, dw`outUsed, dw`outXfer, dw`outDrop, dw`outSilence, dw.siop`outQ, dw.siop`obuf, dw.siop`full, dw.siop.obuf
    modifies sw`inBuf, sw`inXfer, sw`inSilence, sw`inSilencePad, sw.siop`inQ, sw.siop`dry
    ensures dw.ValidOut() && sw.ValidIn() && drop <= nsamps && |done| == nsamps - drop
    ensures dw.outXfer == old(dw.outXfer) - |done| && dw.outDrop == old(dw.outDrop) + drop
    ensures dw.Accepted() == old(dw.Accepted()) + done
    ensures dw.outSilence == if done == [] then old(dw.outSilence) else done[|done| - 1]
    ensures c <= |done| && c <= old(sw.inXfer) && Yields(old(sw.siop.inQ), old(sw.inSilence), done, c)
    ensures InputTaken(sw, old(sw.siop.inQ), old(sw.inXfer), old(sw.inSilencePad), nsamps,
                       c + Min(drop, old(sw.inXfer) - c))
    ensures sw.siop.honours && dw.siop.honours ==>
              drop == nsamps - Min(nsamps, old(dw.outXfer)) && c == Min(|done|, old(sw.inXfer))
    ensures drop > 0 && |done| < old(dw.outXfer) ==> dw.siop.full
    ensures c < |done| && c < old(sw.inXfer) ==> sw.siop.dry
    ensures old(dw.outSize) == 0 ==> dw.outSize == 0
    ensures old(sw.inBuf) == [] ==> sw.inBuf == []
  {
    hide Crossed, Yields, Taken, InputTaken;
    ghost var accepted, room, q, xfer := dw.Accepted(), dw.outXfer, sw.siop.inQ, sw.inXfer;
    ghost var silence, pads := sw.inSilence, sw.inSilencePad;
    CrossStart(dw, sw);
    var left := nsamps;
    done, c := [], 0;
    if dw.outSize > 0 {
      var n := Min(left, dw.outSize);
      done, c := CrossOne(dw, sw, n, room, accepted, q, xfer, silence, pads, done, c);
      left := left - n;
    }
    CrossedRoom(dw, sw, room, accepted, q, xfer, silence, pads, done, c);
    done, c, left := CrossLoop(dw, sw, left, room, accepted, q, xfer, silence, pads, done, c);
    DropRest(dw, sw, left, room, accepted, q, xfer, silence, pads, done, c);
    drop := left;
  }

  lemma CrossStart(dw: WorkingState, sw: WorkingState)
    requires dw.ValidOut() && sw.ValidIn()
    ensures Crossed(dw, sw, dw.outXfer, dw.Accepted(), sw.siop.inQ, sw.inXfer, sw.inSilence, sw.inSilencePad, [], 0)
  {
  }

  /** What could not be placed is dropped, and as much of the source with it. */
  method DropRest(dw: WorkingState, sw: WorkingState, left: nat, ghost room: nat, ghost accepted: seq<Record>,
                  ghost q: seq<Record>, ghost xfer: nat, ghost silence: Record, ghost pads: nat,
                  ghost done: seq<Record>, ghost c: nat)
    requires dw != sw && dw.siop != sw.siop
    requires Crossed(dw, sw, room, accepted, q, xfer, silence, pads, done, c)
    modifies dw`outDrop, sw`inBuf, sw`inXfer, sw`inSilencePad, sw.siop`inQ
    ensures dw.ValidOut() && sw.ValidIn() && |done| <= room && c <= |done| && c <= xfer
    ensures dw.outXfer == room - |done| && dw.outDrop == old(dw.outDrop) + left
    ensures dw.Accepted() == accepted + done && Yields(q, silence, done, c)
    ensures InputTaken(sw, q, xfer, pads, |done| + left, c + Min(left, xfer - c))
    ensures old(sw.inBuf) == [] ==> sw.inBuf == []
  {
    assert q[c..][Min(left, xfer - c)..] == q[c + Min(left, xfer - c)..];
    dw.outDrop := dw.outDrop + left;
    SkipIn(sw, left);
  }

  /** Asks for one output buffer after another until `left` records are placed or there is no more room. */
  method CrossLoop(dw: WorkingState, sw: WorkingState, left0: nat, ghost room: nat, ghost accepted: seq<Record>,
                   ghost q: seq<Record>, ghost xfer: nat, ghost silence: Record, ghost pads: nat,
                   ghost done0: seq<Record>, ghost c0: nat)
    returns (ghost done: seq<Record>, ghost c: nat, left: nat)
    requires dw != sw && dw.siop != sw.siop && (left0 > 0 ==> dw.outSize == 0)
    requires Crossed(dw, sw, room, accepted, q, xfer, silence, pads, done0, c0)
    modifies dw`outSize, dw`outUsed, dw`outXfer, dw`outSilence, dw.siop`outQ, dw.siop`obuf, dw.siop`full, dw.siop.obuf
    modifies sw`inBuf, sw`inXfer, sw`inSilence, sw`inSilencePad, sw.siop`inQ, sw.siop`dry
    ensures Crossed(dw, sw, room, accepted, q, xfer, silence, pads, done, c)
    ensures left <= left0 && |done| == |done0| + (left0 - left)
    ensures sw.siop.honours && dw.siop.honours && |done0| <= room && c0 <= xfer ==>
              left0 - left == Min(left0, room - |done0|) && c - c0 == Min(left0 - left, xfer - c0)
    ensures left > 0 ==> |done| == room || dw.siop.full
    ensures c - c0 < left0 - left && c < xfer ==> sw.siop.dry
    ensures c0 <= c && (old(sw.siop.dry) ==> sw.siop.dry)
    ensures if left0 > 0 then dw.outSize == 0 else dw.outSize == old(dw.outSize)
    ensures old(sw.inBuf) == [] ==> sw.inBuf == []
    ensures dw.outSilence == if left < left0 then Lately(done, old(dw.outSilence)) else old(dw.outSilence)
    ensures left == left0 ==> done == done0
  {
    hide Crossed;
    done, c, left := done0, c0, left0;
    CrossedRoom(dw, sw, room, accepted, q, xfer, silence, pads, done, c);
    while left > 0
      invariant 0 <= left <= left0 && |done| == |done0| + (left0 - left)
      invariant Crossed(dw, sw, room, accepted, q, xfer, silence, pads, done, c)
      invariant if left0 > 0 then dw.outSize == 0 else dw.outSize == old(dw.outSize)
      invariant old(sw.inBuf) == [] ==> sw.inBuf == []
      invariant c0 <= c <= xfer && |done| <= room
      invariant (c - c0 < left0 - left && c < xfer ==> sw.siop.dry) && (old(sw.siop.dry) ==> sw.siop.dry)
      invariant sw.siop.honours ==> c - c0 == Min(left0 - left, xfer - c0)
      invariant dw.siop.obuf == old(dw.siop.obuf) || fresh(dw.siop.obuf)
      invariant left == left0 ==> done == done0 && dw.outSilence == old(dw.outSilence)
      invariant left < left0 ==> dw.outSilence == Lately(done, old(dw.outSilence))
    {
      CrossedRoom(dw, sw, room, accepted, q, xfer, silence, pads, done, c);
      if dw.outXfer == 0 {
        break;
      }
      AskRoom(dw, sw, Min(left, dw.outXfer), room, accepted, q, xfer, silence, pads, done, c);
      if dw.outSize == 0 {
        break;
      }
      var n := dw.outSize;
      done, c := CrossOne(dw, sw, n, room, accepted, q, xfer, silence, pads, done, c);
      left := left - n;
      CrossedRoom(dw, sw, room, accepted, q, xfer, silence, pads, done, c);
    }
  }

  lemma CrossedRoom(dw: WorkingState, sw: WorkingState, room: nat, accepted: seq<Record>,
                    q: seq<Record>, xfer: nat, silence: Record, pads: nat, done: seq<Record>, c: nat)
    requires Crossed(dw, sw, room, accepted, q, xfer, silence, pads, done, c)
    ensures dw.outXfer == room - |done| && c <= xfer && |done| <= room
  {
  }

  /** A new output buffer of at most `request` records. */
  method AskRoom(dw: WorkingState, sw: WorkingState, request: nat, ghost room: nat, ghost accepted: seq<Record>,
                 ghost q: seq<Record>, ghost xfer: nat, ghost silence: Record, ghost pads: nat,
                 ghost done: seq<Record>, ghost c: nat)
    requires dw.siop != sw.siop && dw != sw && dw.outSize == 0 && request <= dw.outXfer
    requires Crossed(dw, sw, room, accepted, q, xfer, silence, pads, done, c)
    modifies dw`outSize, dw.siop`obuf, dw.siop`full
    ensures dw.siop.full <==> old(dw.siop.full) || dw.outSize == 0
    ensures Crossed(dw, sw, room, accepted, q, xfer, silence, pads, done, c)
    ensures dw.outSize <= request && fresh(dw.siop.obuf)
    ensures dw.siop.honours ==> dw.outSize == request
  {
    dw.outSize := dw.siop.GetOBuf(request);
    assert dw.Accepted() == accepted + done;
  }

  /** Of `nsamps` records wanted, `c` came off the source queue and the others were padding. */
  ghost predicate InputTaken(sw: WorkingState, q: seq<Record>, xfer: nat, pads: nat, nsamps: nat, c: nat)
    reads sw`inXfer, sw`inSilencePad, sw.siop`inQ
  {
    && c <= nsamps && c <= xfer && c <= |q|
    && sw.inXfer == xfer - c && sw.siop.inQ == q[c..] && sw.inSilencePad == pads + (nsamps - c)
  }
}
