/** The encoder's output: an 8K byte buffer that spills into a linked list of reused
    buffers, drained from the front by the caller (`zip_put_byte` ... `zip_qoutbuf`). */
module OutputQueue {
  import opened Bits

  const OUTBUFSIZ: nat := 8192

  /** The concatenation of `chunks[k..]`. */
  function Flatten(chunks: seq<seq<int>>, k: nat): seq<int>
    decreases |chunks| - k
  {
    if k >= |chunks| then [] else chunks[k] + Flatten(chunks, k + 1)
  }

  lemma {:induction false} FlattenSnoc(chunks: seq<seq<int>>, k: nat, c: seq<int>)
    requires k <= |chunks|
    ensures Flatten(chunks + [c], k) == Flatten(chunks, k) + c
    decreases |chunks| - k
  {
    if k == |chunks| {
      assert Flatten(chunks + [c], k) == c + Flatten(chunks + [c], k + 1);
    } else {
      FlattenSnoc(chunks, k + 1, c);
    }
  }

  lemma {:induction false} FlattenUpdate(chunks: seq<seq<int>>, i: nat, k: nat, c: seq<int>)
    requires i < |chunks| && i < k
    ensures Flatten(chunks[i := c], k) == Flatten(chunks, k)
    decreases |chunks| - k
  {
    if k < |chunks| {
      FlattenUpdate(chunks, i, k + 1, c);
    }
  }

  /** Taking from the first chunk takes from the concatenation; an emptied chunk can go. */
  lemma FlattenTake(chunks: seq<seq<int>>, k: nat, i: nat)
    requires k < |chunks| && i <= |chunks[k]|
    ensures i <= |Flatten(chunks, k)|
    ensures Flatten(chunks, k)[..i] == chunks[k][..i]
    ensures Flatten(chunks[k := chunks[k][i..]], k) == Flatten(chunks, k)[i..]
    ensures i == |chunks[k]| ==> Flatten(chunks[k := []], k + 1) == Flatten(chunks, k)[i..]
  {
    FlattenUpdate(chunks, k, k + 1, chunks[k][i..]);
    var first, rest := chunks[k], Flatten(chunks, k + 1);
    assert (first + rest)[i..] == first[i..] + rest;
    if i == |chunks[k]| {
      assert first[i..] == [] && first[i..] + rest == rest;
    }
  }

  lemma TakeStep(s: seq<int>, a: nat, b: nat, i: nat)
    requires a <= b && b + i <= |s|
    ensures s[a..b + i] == s[a..b] + s[b..][..i]
    ensures s[b..][i..] == s[b + i..]
    ensures s[b..b + i] == s[b..][..i]
  {
  }

  lemma PendingStep(s: seq<int>, b: nat, o: seq<int>, from: nat, to: nat, i: nat)
    requires b <= |s| && from + i <= to <= |o| && s[b..] == [] + o[from..to]
    ensures b + i <= |s| && s[b..b + i] == o[from..from + i]
    ensures s[b + i..] == [] + o[from + i..to]
    ensures from + i == to ==> s[b + i..] == [] + o[0..0]
  {
    assert |s[b..]| == to - from;
    TakeStep(s, b, b, i);
    assert o[from..to][..i] == o[from..from + i] && o[from..to][i..] == o[from + i..to];
  }

  lemma SliceTake(s: seq<int>, off: nat, len: nat, i: nat)
    requires off + len <= |s| && i <= len
    ensures s[off..off + len][..i] == s[off..off + i] && s[off..off + len][i..] == s[off + i..off + len]
  {
  }

  lemma DropStep(x: seq<int>, y: seq<int>, i: nat)
    requires i <= |x|
    ensures (x + y)[..i] == x[..i] && (x + y)[i..] == x[i..] + y
  {
  }

  /** Writing `x` and then, right behind it, `y` is writing `x + y`. */
  lemma Splice(b0: seq<int>, b1: seq<int>, b2: seq<int>, off: nat, x: seq<int>, y: seq<int>)
    requires off + |x| + |y| <= |b0|
    requires b1 == b0[..off] + x + b0[off + |x|..]
    requires b2 == b1[..off + |x|] + y + b1[off + |x| + |y|..]
    ensures b2 == b0[..off] + (x + y) + b0[off + |x| + |y|..]
  {
    assert b1[..off + |x|] == b0[..off] + x;
    assert b1[off + |x| + |y|..] == b0[off + |x| + |y|..];
  }

  /** What two copies in a row have copied. */
  lemma CopiedTwice(b0: seq<int>, b1: seq<int>, b2: seq<int>, off: nat, put: seq<int>, t0: nat, t1: nat, t2: nat)
    requires t0 <= t1 <= t2 <= |put| && off + t2 - t0 <= |b0|
    requires b1 == b0[..off] + put[t0..t1] + b0[off + (t1 - t0)..]
    requires b2 == b1[..off + (t1 - t0)] + put[t1..t2] + b1[off + (t1 - t0) + (t2 - t1)..]
    ensures b2 == b0[..off] + put[t0..t2] + b0[off + (t2 - t0)..]
  {
    assert put[t0..t2] == put[t0..t1] + put[t1..t2];
    Splice(b0, b1, b2, off, put[t0..t1], put[t1..t2]);
  }

  /** Element by element copy between two arrays. */
  method CopyInto(src: array<int>, from: nat, dst: array<int>, to: nat, len: nat)
    requires src != dst && from + len <= src.Length && to + len <= dst.Length
    modifies dst
    ensures dst[..] == old(dst[..to]) + src[from..from + len] + old(dst[to + len..])
  {
    var j := 0;
    while j < len
      invariant j <= len
      invariant forall k :: to <= k < to + j ==> dst[k] == src[from + k - to]
      invariant forall k :: 0 <= k < to ==> dst[k] == old(dst[k])
      invariant forall k :: to + j <= k < dst.Length ==> dst[k] == old(dst[k])
    {
      dst[to + j] := src[from + j];
      j := j + 1;
    }
  }

  /** A buffer of the queue or of the free list. `place` tells where: the running number
      it entered the queue with, or -1 minus its height on the free list, so no buffer
      can be in two places. */
  class DeflateBuffer {
    var next: DeflateBuffer?
    var len: nat
    var off: nat
    var ptr: seq<int>
    ghost var place: int

    constructor ()
      ensures next == null && len == 0 && off == 0 && place == -1
    {
      next, len, off, ptr, place := null, 0, 0, [], -1;
    }

    /** Copies the first `n` elements of `src` into an empty buffer. */
    method Fill(src: array<int>, n: nat)
      requires n <= src.Length && off == 0
      modifies this`ptr, this`len
      ensures len == n && ptr == src[..n]
    {
      len := n;
      ptr := [];
      var i := 0;
      while i < len
        invariant i <= len == n && ptr == src[..i]
      {
        ptr := ptr + [src[i]];
        i := i + 1;
      }
    }

    /** Copies the next `n` elements out. */
    method Drain(dst: array<int>, to: nat, n: nat)
      requires n <= len && off + len <= |ptr| && to + n <= dst.Length
      modifies dst, this`off, this`len
      ensures dst[..] == old(dst[..to]) + ptr[old(off)..old(off) + n] + old(dst[to + n..])
      ensures len == old(len) - n && off == old(off) + n
    {
      var j := 0;
      while j < n
        invariant j <= n && off == old(off) && len == old(len)
        invariant forall k :: to <= k < to + j ==> dst[k] == ptr[off + k - to]
        invariant forall k :: 0 <= k < to ==> dst[k] == old(dst[k])
        invariant forall k :: to + j <= k < dst.Length ==> dst[k] == old(dst[k])
      {
        dst[to + j] := ptr[off + j];
        j := j + 1;
      }
      assert dst[to..to + n] == ptr[off..off + n];
      off := off + n;
      len := len - n;
    }
  }

  /** The linked list of filled buffers and the free list they come from and go to. */
  class BufferQueue {
    var qhead: DeflateBuffer?
    var qtail: DeflateBuffer?
    var freeQueue: DeflateBuffer?

    ghost var Repr: set<object>
    ghost var slots: seq<DeflateBuffer>              // the buffers in the order they were queued
    ghost var gone: nat                              // how many of them have left the queue
    ghost var chunks: seq<seq<int>>                  // what each still holds
    ghost var free: seq<DeflateBuffer>               // the free list, top last

    /** The list from `qhead` is `slots[gone..]`, ending at `qtail`. */
    ghost predicate LiveValid()
      reads this, Repr
    {
      && |chunks| == |slots| && gone <= |slots|
      && (forall k :: gone <= k < |slots| ==> slots[k] in Repr && slots[k].place == k)
      && (forall k {:trigger slots[k].next} :: gone <= k < |slots| - 1 ==> slots[k].next == slots[k + 1])
      && (if gone == |slots| then qhead == null
          else qhead == slots[gone] && qtail == slots[|slots| - 1] && qtail.next == null)
    }

    ghost predicate ChunksValid()
      reads this, Repr
    {
      && |chunks| == |slots|
      && (forall k :: gone <= k < |slots| ==>
            slots[k] in Repr && 0 < slots[k].len && slots[k].off + slots[k].len <= |slots[k].ptr|
            && chunks[k] == slots[k].ptr[slots[k].off..slots[k].off + slots[k].len])
    }

    /** All buffers but the front one agree with their chunks. */
    ghost predicate TailValid()
      reads this, Repr
    {
      && |chunks| == |slots|
      && (forall k :: gone < k < |slots| ==>
            slots[k] in Repr && 0 < slots[k].len && slots[k].off + slots[k].len <= |slots[k].ptr|
            && chunks[k] == slots[k].ptr[slots[k].off..slots[k].off + slots[k].len])
    }

    lemma FrontAndTail()
      requires LiveValid() && TailValid() && qhead != null
      requires 0 < qhead.len && qhead.off + qhead.len <= |qhead.ptr|
      requires chunks[gone] == qhead.ptr[qhead.off..qhead.off + qhead.len]
      ensures ChunksValid()
    {
    }

    twostate lemma TailBecomesChunks()
      requires old(TailValid()) && Repr == old(Repr)
      requires slots == old(slots) && gone == old(gone) + 1 && chunks == old(chunks)
      requires forall k :: gone <= k < |slots| ==>
        slots[k].len == old(slots[k].len) && slots[k].off == old(slots[k].off) && slots[k].ptr == old(slots[k].ptr)
      ensures ChunksValid()
    {
    }

    /** The list from `freeQueue` is `free`, last first. */
    ghost predicate FreeValid()
      reads this, Repr
    {
      && (forall k :: 0 <= k < |free| ==> free[k] in Repr && free[k].place == -1 - k)
      && (forall k {:trigger free[k].next} :: 1 <= k < |free| ==> free[k].next == free[k - 1])
      && (if |free| == 0 then freeQueue == null
          else freeQueue == free[|free| - 1] && free[0].next == null)
    }

    ghost predicate Valid()
      reads this, Repr
      ensures Valid() ==> this in Repr
    {
      this in Repr && LiveValid() && ChunksValid() && FreeValid()
    }

    /** The bytes queued, oldest first. */
    ghost function Contents(): seq<int>
      reads this
    {
      Flatten(chunks, gone)
    }

    constructor ()
      ensures Valid() && fresh(Repr)
      ensures Contents() == [] && qhead == null
    {
      qhead, qtail, freeQueue := null, null, null;
      slots, gone, chunks, free := [], 0, [], [];
      Repr := {this};
    }

    twostate lemma LiveFrame()
      requires old(LiveValid()) && old(Repr) <= Repr
      requires slots == old(slots) && gone == old(gone) && |chunks| == |old(chunks)|
      requires qhead == old(qhead) && qtail == old(qtail)
      requires forall k :: gone <= k < |slots| ==>
        slots[k].next == old(slots[k].next) && slots[k].place == old(slots[k].place)
      ensures LiveValid()
    {
    }

    twostate lemma ChunksFrame()
      requires old(ChunksValid()) && old(Repr) <= Repr
      requires slots == old(slots) && gone >= old(gone) && chunks == old(chunks)
      requires forall k :: gone <= k < |slots| ==>
        slots[k].len == old(slots[k].len) && slots[k].off == old(slots[k].off) && slots[k].ptr == old(slots[k].ptr)
      ensures ChunksValid()
    {
    }

    twostate lemma FreeFrame()
      requires old(FreeValid()) && old(Repr) <= Repr
      requires free == old(free) && freeQueue == old(freeQueue)
      requires forall k :: 0 <= k < |free| ==>
        free[k].next == old(free[k].next) && free[k].place == old(free[k].place)
      ensures FreeValid()
    {
    }

    /** `zip_reuse_queue`: a buffer that left the queue goes to the free list. */
    method ReuseQueue(p: DeflateBuffer)
      requires FreeValid() && p in Repr && 0 <= p.place
      modifies this`freeQueue, this`free, p`next, p`place
      ensures FreeValid() && free == old(free) + [p]
    {
      p.next := freeQueue;
      freeQueue := p;
      p.place := -1 - |free|;
      free := free + [p];
    }

    /** The free-list half of `zip_new_queue`. */
    method PopFree() returns (p: DeflateBuffer)
      requires FreeValid() && freeQueue != null
      modifies this`freeQueue, this`free
      ensures p == old(freeQueue) && p in Repr && p.place == -1 - |free|
      ensures FreeValid() && free == old(free)[..|old(free)| - 1]
    {
      p := freeQueue;
      freeQueue := freeQueue.next;
      free := free[..|free| - 1];
    }

    /** The allocating half of `zip_new_queue`. */
    method Allocate() returns (p: DeflateBuffer)
      requires Valid() && freeQueue == null
      modifies this`Repr
      ensures p in Repr && p.place < -|free| && fresh(p) && Repr == old(Repr) + {p}
      ensures Valid()
    {
      p := new DeflateBuffer();
      Repr := Repr + {p};
      FreeFrame();
      LiveFrame();
      ChunksFrame();
    }

    /** `zip_new_queue`: an empty buffer that is on neither list. */
    method NewQueue() returns (p: DeflateBuffer)
      requires Valid()
      modifies this`freeQueue, this`free, this`Repr, if freeQueue == null then {} else {freeQueue}
      ensures Valid() && fresh(Repr - old(Repr)) && old(Repr) <= Repr
      ensures p in Repr && p.place < -|free|
      ensures p.next == null && p.len == 0 && p.off == 0
      ensures chunks == old(chunks) && gone == old(gone)
    {
      hide LiveValid, ChunksValid, FreeValid;
      if freeQueue != null {
        p := PopFree();
        LiveFrame();
        ChunksFrame();
      } else {
        p := Allocate();
      }
      Reset(p);
    }

    method Reset(p: DeflateBuffer)
      requires Valid() && p in Repr && p.place < -|free|
      modifies p`next, p`len, p`off
      ensures Valid()
      ensures p.next == null && p.len == 0 && p.off == 0
    {
      p.next := null;
      p.len := 0;
      p.off := 0;
      FreeFrame();
      LiveFrame();
      ChunksFrame();
    }

    method FillBuffer(p: DeflateBuffer, src: array<int>, len: nat)
      requires Valid() && p in Repr && p.place < -|free| && p.off == 0 && len <= src.Length
      modifies p`ptr, p`len
      ensures Valid()
      ensures p.len == len && p.ptr == src[..len]
    {
      p.Fill(src, len);
      FreeFrame();
      LiveFrame();
      ChunksFrame();
    }

    /** The queue part of `zip_qoutbuf`: `len` bytes of `src` become a new last buffer. */
    method Append(src: array<int>, len: nat)
      requires Valid() && src !in Repr && 0 < len <= src.Length
      modifies Repr
      ensures Valid() && fresh(Repr - old(Repr)) && old(Repr) <= Repr
      ensures chunks == old(chunks) + [src[..len]] && gone == old(gone)
      ensures qhead != null
    {
      hide Valid;
      EndsInRepr();
      var q := NewQueue();
      FillBuffer(q, src, len);
      assert q.ptr[..q.len] == src[..len];
      EndsInRepr();
      LinkBuffer(q);
    }

    lemma EndsInRepr()
      requires Valid()
      ensures this in Repr && (qhead != null ==> qtail in Repr) && (freeQueue != null ==> freeQueue in Repr)
    {
    }

    method LinkBuffer(q: DeflateBuffer)
      requires Valid() && q in Repr && q.place < -|free|
      requires q.next == null && q.off == 0 && 0 < q.len <= |q.ptr|
      modifies this`qhead, this`qtail, this`slots, this`chunks, q`place, if qhead == null then {} else {qtail}
      ensures Valid()
      ensures chunks == old(chunks) + [old(q.ptr[..q.len])] && qhead != null
    {
      LinkLast(q);
      FreeFrame();
    }

    method LinkLast(q: DeflateBuffer)
      requires LiveValid() && ChunksValid() && q in Repr && q.place < 0
      requires q.next == null && q.off == 0 && 0 < q.len <= |q.ptr|
      modifies this`qhead, this`qtail, this`slots, this`chunks, q`place, if qhead == null then {} else {qtail}
      ensures LiveValid() && ChunksValid()
      ensures chunks == old(chunks) + [old(q.ptr[..q.len])] && qhead != null
    {
      hide ChunksValid;
      if qhead == null {
        qhead := q;
        qtail := q;
      } else {
        qtail.next := q;
        qtail := q;
      }
      q.place := |slots|;
      slots := slots + [q];
      chunks := chunks + [q.ptr[..q.len]];
      ChunksSnoc(q);
    }

    twostate lemma ChunksSnoc(q: DeflateBuffer)
      requires old(ChunksValid()) && Repr == old(Repr) && q in Repr && gone == old(gone) <= |old(slots)|
      requires q.off == 0 && 0 < q.len <= |q.ptr| && slots == old(slots) + [q]
      requires chunks == old(chunks) + [q.ptr[..q.len]]
      requires forall k :: gone <= k < |old(slots)| ==>
        old(slots)[k].len == old(slots[k].len) && old(slots)[k].off == old(slots[k].off)
        && old(slots)[k].ptr == old(slots[k].ptr)
      ensures ChunksValid()
    {
    }

    /** The queue part of `zip_qcopy`: moves up to `room` of the front buffer's bytes into
        `buff`, and the buffer to the free list once it is empty. */
    method TakeFront(buff: array<int>, at: nat, room: nat) returns (i: nat)
      requires Valid() && qhead != null && 0 < room && at + room <= buff.Length && buff !in Repr
      modifies Repr, buff
      ensures Valid() && Repr == old(Repr)
      ensures 0 < i <= room && i <= |old(Contents())|
      ensures buff[..] == old(buff[..at]) + old(Contents())[..i] + old(buff[at + i..])
      ensures Contents() == old(Contents())[i..]
      ensures |free| - gone == old(|free| - gone)
    {
      hide LiveValid, ChunksValid, FreeValid, TailValid;
      FrontIsFirst();
      i := room;
      if i > qhead.len {
        i := qhead.len;
      }
      FlattenTake(chunks, gone, i);
      DrainFront(buff, at, i);
      if qhead.len == 0 {
        DropFront();
      } else {
        FrontAndTail();
      }
    }

    method DrainFront(buff: array<int>, at: nat, i: nat)
      requires Valid() && qhead != null && 0 < i <= qhead.len && at + i <= buff.Length && buff !in Repr
      modifies this`chunks, qhead`off, qhead`len, buff
      ensures LiveValid() && FreeValid() && TailValid()
      ensures qhead.off + qhead.len <= |qhead.ptr|
      ensures chunks[gone] == qhead.ptr[qhead.off..qhead.off + qhead.len]
      ensures chunks == old(chunks)[gone := old(chunks)[gone][i..]]
      ensures buff[..] == old(buff[..at]) + old(chunks)[gone][..i] + old(buff[at + i..])
    {
      hide LiveValid, ChunksValid, FreeValid, TailValid;
      FrontIsFirst();
      ghost var first, ptr, off, len := chunks[gone], qhead.ptr, qhead.off, qhead.len;
      SliceTake(ptr, off, len, i);
      qhead.Drain(buff, at, i);
      chunks := chunks[gone := first[i..]];
      FreeFrame();
      LiveFrame();
      TailFrame();
    }

    lemma FrontIsFirst()
      requires LiveValid() && ChunksValid() && qhead != null
      ensures qhead in Repr && gone < |slots| == |chunks| && qhead.off + qhead.len <= |qhead.ptr|
      ensures chunks[gone] == qhead.ptr[qhead.off..qhead.off + qhead.len] && 0 < qhead.len
      ensures forall k :: gone < k < |slots| ==> slots[k] != qhead
    {
    }

    twostate lemma TailFrame()
      requires old(LiveValid() && ChunksValid()) && Repr == old(Repr)
      requires slots == old(slots) && gone == old(gone) < |slots| && |chunks| == old(|chunks|)
      requires chunks[gone + 1..] == old(chunks[gone + 1..])
      requires forall k :: gone < k < |slots| ==>
        slots[k].len == old(slots[k].len) && slots[k].off == old(slots[k].off) && slots[k].ptr == old(slots[k].ptr)
      ensures TailValid()
    {
      forall k | gone < k < |slots|
        ensures chunks[k] == slots[k].ptr[slots[k].off..slots[k].off + slots[k].len]
      {
        assert chunks[k] == chunks[gone + 1..][k - gone - 1];
      }
    }

    method DropFront()
      requires this in Repr && LiveValid() && FreeValid() && TailValid() && qhead != null
      modifies this`qhead, this`gone, this`freeQueue, this`free, qhead`next, qhead`place
      ensures Valid() && gone == old(gone) + 1 && free == old(free) + [old(qhead)]
    {
      hide ChunksValid, TailValid;
      var p := qhead;
      qhead := qhead.next;
      gone := gone + 1;
      label Moved:
      assert LiveValid();
      ReuseQueue(p);
      LiveFrame@Moved();
      TailBecomesChunks();
    }
  }

  /** The output buffer in front of the queue. `put` and `taken` record the whole run:
      every byte put so far, and how many of them the caller has received. */
  class Output {
    const outbuf: array<int>
    const queue: BufferQueue
    var outcnt: nat
    var outoff: nat

    ghost var put: seq<int>
    ghost var taken: nat

    ghost function Repr(): set<object>
      reads this, queue
    {
      {this, outbuf} + queue.Repr
    }

    ghost predicate Valid()
      reads this, outbuf, queue, queue.Repr
    {
      && queue.Valid() && outbuf !in queue.Repr && this !in queue.Repr
      && outbuf.Length == OUTBUFSIZ
      && outoff <= outcnt < OUTBUFSIZ
      && (outoff == 0 || outoff < outcnt)
      && taken <= |put| && Bytes(put)
      && put[taken..] == queue.Contents() + outbuf[outoff..outcnt]
    }

    constructor ()
      ensures Valid() && fresh(Repr())
      ensures put == [] && taken == 0 && outoff == 0
    {
      outbuf := new int[OUTBUFSIZ];
      queue := new BufferQueue();
      outcnt, outoff := 0, 0;
      put, taken := [], 0;
    }

    /** The start of a run: everything earlier has been received. */
    ghost method Restart()
      requires Valid() && taken == |put|
      modifies this`put, this`taken
      ensures Valid() && put == [] && taken == 0 && outoff == 0
    {
      assert |put[taken..]| == 0;
      put, taken := [], 0;
    }

    /** `zip_qoutbuf`: the output buffer moves to the end of the queue. */
    method QOutBuf()
      requires queue.Valid() && outbuf !in queue.Repr && this !in queue.Repr
      requires outbuf.Length == OUTBUFSIZ && outoff == 0 && outcnt <= OUTBUFSIZ
      requires taken <= |put| && Bytes(put) && put[taken..] == queue.Contents() + outbuf[..outcnt]
      modifies this`outcnt, this`outoff, queue.Repr
      ensures Valid() && fresh(queue.Repr - old(queue.Repr)) && old(queue.Repr) <= queue.Repr
      ensures outoff == 0 && outcnt == 0
    {
      if outcnt != 0 {
        FlattenSnoc(queue.chunks, queue.gone, outbuf[..outcnt]);
        queue.Append(outbuf, outcnt - outoff);
        outcnt := 0;
        outoff := 0;
      }
      assert outbuf[outoff..outcnt] == [];
    }

    /** `zip_put_byte` */
    method PutByte(c: int)
      requires Valid() && outoff == 0 && IsByte(c)
      modifies Repr()
      ensures Valid() && fresh(Repr() - old(Repr())) && old(Repr()) <= Repr()
      ensures put == old(put) + [c] && taken == old(taken) && outoff == 0
      ensures outcnt == if old(outcnt) + 1 == OUTBUFSIZ then 0 else old(outcnt) + 1
    {
      hide BufferQueue.Valid, BufferQueue.Contents;
      ghost var pending := put[taken..];
      outbuf[outoff + outcnt] := c;
      outcnt := outcnt + 1;
      put := put + [c];
      assert outbuf[..outcnt] == old(outbuf[..outcnt]) + [c];
      assert put[taken..] == pending + [c];
      if outoff + outcnt == OUTBUFSIZ {
        QOutBuf();
      }
    }

    /** `zip_put_short`: the low 16 bits of `w`, low byte first. */
    method PutShort(w: nat)
      requires Valid() && outoff == 0
      modifies Repr()
      ensures Valid() && fresh(Repr() - old(Repr())) && old(Repr()) <= Repr()
      ensures put == old(put) + [w % 0x10000 % 0x100, w % 0x10000 / 0x100]
      ensures taken == old(taken) && outoff == 0
      ensures outcnt == old(outcnt) + 2 - if old(outcnt) + 2 < OUTBUFSIZ then 0 else OUTBUFSIZ
    {
      hide BufferQueue.Valid, BufferQueue.Contents;
      var v := w % 0x10000;
      if outoff + outcnt < OUTBUFSIZ - 2 {
        ghost var pending := put[taken..];
        outbuf[outoff + outcnt] := v % 0x100;
        outcnt := outcnt + 1;
        outbuf[outoff + outcnt] := v / 0x100;
        outcnt := outcnt + 1;
        put := put + [v % 0x100, v / 0x100];
        assert outbuf[..outcnt] == old(outbuf[..outcnt]) + [v % 0x100, v / 0x100];
        assert put[taken..] == pending + [v % 0x100, v / 0x100];
      } else {
        PutByte(v % 0x100);
        PutByte(v / 0x100);
      }
    }

    /** A queued buffer is never empty. */
    lemma QueuedIsPending()
      requires Valid() && queue.qhead != null
      ensures taken < |put|
    {
      assert queue.chunks[queue.gone] != [];
      assert queue.Contents() == queue.chunks[queue.gone] + Flatten(queue.chunks, queue.gone + 1);
      assert |put[taken..]| > 0;
    }

    /** `zip_qcopy`: hands out the oldest pending bytes, as many as fit. */
    method QCopy(buff: array<int>, off: nat, size: nat) returns (n: nat)
      requires Valid() && off + size <= buff.Length && buff !in Repr()
      modifies Repr(), buff
      ensures Valid() && Repr() == old(Repr())
      ensures n == Min(size, |old(put)| - old(taken))
      ensures put == old(put) && taken == old(taken) + n
      ensures buff[..] == old(buff[..off]) + put[old(taken)..taken] + old(buff[off + n..])
      ensures n < size ==> outoff == 0 && taken == |put| && queue.qhead == null
      ensures |queue.free| - queue.gone == old(|queue.free| - queue.gone)
    {
      hide Output.Valid;
      PutBound();
      ghost var b0, t0 := buff[..], taken;
      n := CopyQueue(buff, off, size);
      PutBound();
      if n == size {
        return;
      }
      if outoff < outcnt {
        ghost var b1, before := buff[..], taken;
        ghost var m := n;
        n := TakeOutbuf(buff, off, size, n);
        PutBound();
        assert n == m + (taken - before) && m == before - t0;
        CopiedTwice(b0, b1, buff[..], off, put, t0, before, taken);
      } else {
        NothingPending();
      }
    }

    lemma PutBound()
      requires Valid()
      ensures taken <= |put|
    {
    }

    lemma NothingPending()
      requires Valid() && queue.qhead == null && outoff >= outcnt
      ensures outoff == 0 && taken == |put|
    {
      assert queue.Contents() == [];
      assert |put[taken..]| == 0;
    }

    /** The first loop of `zip_qcopy`. */
    method CopyQueue(buff: array<int>, off: nat, size: nat) returns (n: nat)
      requires Valid() && off + size <= buff.Length && buff !in Repr()
      modifies queue.Repr, buff, this`taken
      ensures Valid() && queue.Repr == old(queue.Repr)
      ensures n <= size && (n < size ==> queue.qhead == null)
      ensures taken == old(taken) + n && |queue.free| - queue.gone == old(|queue.free| - queue.gone)
      ensures buff[..] == old(buff[..off]) + put[old(taken)..taken] + old(buff[off + n..])
    {
      n := 0;
      ghost var b0, t0 := buff[..], taken;
      assert b0 == b0[..off] + put[t0..t0] + b0[off..];
      while queue.qhead != null && n < size
        invariant Valid() && queue.Repr == old(queue.Repr) && n <= size
        invariant taken == t0 + n && |queue.free| - queue.gone == old(|queue.free| - queue.gone)
        invariant buff[..] == b0[..off] + put[t0..taken] + b0[off + n..]
        decreases size - n
      {
        n := CopyFront(buff, off, size, n, b0, t0);
      }
    }

    method CopyFront(buff: array<int>, off: nat, size: nat, n: nat, ghost b0: seq<int>, ghost t0: nat)
      returns (n': nat)
      requires Valid() && off + size <= buff.Length == |b0| && buff !in Repr()
      requires queue.qhead != null && n < size && taken == t0 + n
      requires buff[..] == b0[..off] + put[t0..taken] + b0[off + n..]
      modifies queue.Repr, buff, this`taken
      ensures Valid() && queue.Repr == old(queue.Repr)
      ensures n < n' <= size && taken == t0 + n' && |queue.free| - queue.gone == old(|queue.free| - queue.gone)
      ensures buff[..] == b0[..off] + put[t0..taken] + b0[off + n'..]
    {
      hide BufferQueue.Valid, BufferQueue.Contents;
      ghost var p, b1, c, o := put[taken..], buff[..], queue.Contents(), outbuf[outoff..outcnt];
      var i := queue.TakeFront(buff, off + n, size - n);
      DropStep(c, o, i);
      TakeStep(put, t0, taken, i);
      Splice(b0, b1, buff[..], off, put[t0..taken], p[..i]);
      n' := n + i;
      taken := taken + i;
    }

    lemma NothingQueued()
      requires queue.Valid() && queue.qhead == null
      ensures queue.Contents() == []
    {
    }

    /** The last part of `zip_qcopy`, when the queue is empty. */
    method TakeOutbuf(buff: array<int>, off: nat, size: nat, n: nat) returns (n': nat)
      requires Valid() && off + size <= buff.Length && buff !in Repr()
      requires queue.qhead == null && n < size && outoff < outcnt
      modifies this`outoff, this`outcnt, this`taken, buff
      ensures Valid()
      ensures n' == n + Min(size - n, |put| - old(taken))
      ensures taken == old(taken) + n' - n
      ensures buff[..] == old(buff[..off + n]) + put[old(taken)..taken] + old(buff[off + n'..])
      ensures n' < size ==> outoff == 0 && taken == |put|
    {
      hide BufferQueue.Valid;
      NothingQueued();
      ghost var o := outbuf[..];
      var i := size - n;
      if i > outcnt - outoff {
        i := outcnt - outoff;
      }
      CopyInto(outbuf, outoff, buff, off + n, i);
      PendingStep(put, taken, o, outoff, outcnt, i);
      outoff := outoff + i;
      n' := n + i;
      taken := taken + i;
      if outcnt == outoff {
        outcnt := 0;
        outoff := 0;
      }
    }
  }
}
