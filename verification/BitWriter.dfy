/** Packing of variable-length values into bytes through a 16-bit buffer
    (`zip_send_bits`, `zip_bi_windup`). */
module BitWriter {
  import opened Bits
  import opened OutputQueue

  const BUF_SIZE: nat := 16

  /** The zero bits that fill up the last byte of a stream of `n` bits. */
  function Padding(n: nat): (r: seq<bool>)
    ensures |r| < 8 && (n + |r|) % 8 == 0
  {
    BitsOf(0, (8 - n % 8) % 8)
  }

  class BitSink {
    const out: Output
    var biBuf: nat
    var biValid: nat

    ghost var bits: seq<bool>    // every bit sent so far, padding included

    ghost function Repr(): set<object>
      reads this, out, out.queue
    {
      {this} + out.Repr()
    }

    ghost predicate Valid()
      reads this, out, out.outbuf, out.queue, out.queue.Repr
    {
      && this !in out.Repr() && out.Valid()
      && biValid <= BUF_SIZE && biBuf < Pow2(biValid)
      && bits == BytesToBits(out.put) + BitsOf(biBuf, biValid)
    }

    /** Nothing has been copied out of a partly full output buffer: writing may go on. */
    ghost predicate Ready()
      reads this, out, out.outbuf, out.queue, out.queue.Repr
    {
      Valid() && out.outoff == 0
    }

    /** What every write keeps: only new buffers join, and nothing is taken. */
    twostate predicate Written()
      reads this, out, out.outbuf, out.queue, out.queue.Repr
    {
      && Ready() && out.taken == old(out.taken) && old(out.put) <= out.put
      && old(Repr()) <= Repr() && fresh(Repr() - old(Repr()))
    }

    constructor ()
      ensures Valid() && fresh(Repr())
      ensures bits == [] && out.put == [] && out.taken == 0 && out.outoff == 0
    {
      out := new Output();
      biBuf, biValid, bits := 0, 0, [];
    }

    /** The start of a run (`zip_init_deflate`). */
    method Restart()
      requires Valid() && out.taken == |out.put|
      modifies this, out
      ensures Valid() && bits == [] && biValid == 0 && out.put == [] && out.taken == 0
      ensures Ready()
    {
      biBuf := 0;
      biValid := 0;
      out.Restart();
      bits := [];
    }

    /** `zip_put_short(zip_bi_buf)`, in terms of the bits put. */
    method PutWord(w: nat)
      requires out.Valid() && out.outoff == 0 && this !in out.Repr()
      modifies out.Repr()
      ensures out.Valid() && out.outoff == 0 && this !in out.Repr()
      ensures fresh(out.Repr() - old(out.Repr())) && old(out.Repr()) <= out.Repr()
      ensures out.taken == old(out.taken)
      ensures old(out.put) <= out.put
      ensures BytesToBits(out.put) == old(BytesToBits(out.put)) + BitsOf(w, 16)
    {
      WordBits(w, out.put);
      out.PutShort(w);
    }

    /** `zip_send_bits`: appends the `length` bits of `value`. */
    method SendBits(value: nat, length: nat)
      requires Ready()
      requires length <= 16 && value < Pow2(length)
      modifies Repr()
      ensures Written() && bits == old(bits) + BitsOf(value, length)
    {
      if biValid > BUF_SIZE - length {
        Spill(value, length);
      } else {
        SendFits(BytesToBits(out.put), biBuf, biValid, value, length);
        biBuf := BitOr(biBuf, Shl(value, biValid));
        biValid := biValid + length;
        bits := bits + BitsOf(value, length);
      }
    }

    /** The branch of `zip_send_bits` that fills the buffer and starts the next one. */
    method Spill(value: nat, length: nat)
      requires Ready()
      requires length <= 16 && value < Pow2(length) && biValid > BUF_SIZE - length
      modifies this, out.Repr()
      ensures Written() && bits == old(bits) + BitsOf(value, length)
    {
      hide Output.Valid, BitOr, BytesToBits, Shl, Shr, BitsOf, Pow2, Repr;
      PutBytes(out);
      SendSpills(BytesToBits(out.put), biBuf, biValid, value, length);
      var word, rest := BitOr(biBuf, Shl(value, biValid)), Shr(value, BUF_SIZE - biValid);
      PutWord(word);
      biBuf := rest;
      biValid := biValid + length - BUF_SIZE;
      bits := bits + BitsOf(value, length);
      Wrote();
    }

    twostate lemma Wrote()
      requires out.Valid() && out.outoff == 0 && this !in out.Repr()
      requires fresh(out.Repr() - old(out.Repr())) && old(out.Repr()) <= out.Repr()
      requires out.taken == old(out.taken) && old(out.put) <= out.put
      requires biValid <= BUF_SIZE && biBuf < Pow2(biValid) && bits == BytesToBits(out.put) + BitsOf(biBuf, biValid)
      ensures Written()
    {
      hide Output.Valid, BytesToBits, BitsOf, Pow2;
    }

    /** `zip_bi_windup`: pads with zero bits to the end of the byte. */
    method WindUp()
      requires Ready()
      modifies Repr()
      ensures Written() && biValid == 0
      ensures bits == old(bits) + Padding(|old(bits)|)
    {
      FlushBuffer();
      bits := bits + Padding(|bits|);
      biBuf := 0;
      biValid := 0;
      assert BytesToBits(out.put) + [] == BytesToBits(out.put);
    }

    /** `zip_put_short`, between bytes. */
    method PutShortAligned(w: nat)
      requires Ready() && biValid == 0
      modifies Repr()
      ensures Written() && biValid == 0
      ensures bits == old(bits) + BitsOf(w, 16)
    {
      hide Output.Valid, BytesToBits, BitsOf;
      BufferEmpty();
      PutWord(w);
      bits := bits + BitsOf(w, 16);
    }

    /** `zip_put_byte`, between bytes. */
    method PutByteAligned(c: int)
      requires Ready() && biValid == 0 && IsByte(c)
      modifies Repr()
      ensures Written() && biValid == 0
      ensures bits == old(bits) + BitsOf(c, 8)
    {
      hide Output.Valid, BytesToBits, BitsOf;
      PutBytes(out);
      ByteBits(c, out.put);
      out.PutByte(c);
      bits := bits + BitsOf(c, 8);
      BufferEmpty();
    }

    lemma BufferEmpty()
      ensures BitsOf(biBuf, 0) == []
    {
    }

    /** `zip_qcopy`, which leaves the bits alone. */
    method Take(buff: array<int>, off: nat, size: nat) returns (n: nat)
      requires Valid() && off + size <= buff.Length && buff !in Repr()
      modifies out.Repr(), buff
      ensures Valid() && Repr() == old(Repr()) && bits == old(bits) && biValid == old(biValid)
      ensures n == Min(size, |out.put| - old(out.taken))
      ensures out.put == old(out.put) && out.taken == old(out.taken) + n
      ensures buff[..] == old(buff[..off]) + out.put[old(out.taken)..out.taken] + old(buff[off + n..])
      ensures n < size ==> Ready() && out.taken == |out.put| && out.queue.qhead == null
    {
      n := out.QCopy(buff, off, size);
    }

    method FlushBuffer()
      requires Ready()
      modifies out.Repr()
      ensures out.Valid() && out.outoff == 0 && this !in out.Repr()
      ensures fresh(out.Repr() - old(out.Repr())) && old(out.Repr()) <= out.Repr()
      ensures out.taken == old(out.taken) && old(out.put) <= out.put
      ensures BytesToBits(out.put) == bits + Padding(|bits|)
    {
      ghost var was := BytesToBits(out.put);
      if biValid > 8 {
        PadTo(was, biBuf, biValid, 16);
        PutWord(biBuf);
      } else if biValid > 0 {
        PadTo(was, biBuf, biValid, 8);
        Pow2Mono(biValid, 8);
        Pow2Of8();
        PutLastByte();
      } else {
        PadTo(was, biBuf, biValid, 0);
        assert was + [] == was;
      }
    }

    method PutLastByte()
      requires out.Valid() && out.outoff == 0 && this !in out.Repr() && biBuf < 256
      modifies out.Repr()
      ensures out.Valid() && out.outoff == 0 && this !in out.Repr()
      ensures fresh(out.Repr() - old(out.Repr())) && old(out.Repr()) <= out.Repr()
      ensures out.taken == old(out.taken) && old(out.put) <= out.put
      ensures BytesToBits(out.put) == old(BytesToBits(out.put)) + BitsOf(biBuf, 8)
    {
      hide Output.Valid, BytesToBits, BitsOf;
      PutBytes(out);
      ByteBits(biBuf, out.put);
      out.PutByte(biBuf);
    }
  }

  lemma PutBytes(out: Output)
    requires out.Valid()
    ensures Bytes(out.put)
  {
  }

  lemma ByteBits(c: int, put: seq<int>)
    requires IsByte(c) && Bytes(put)
    ensures Bytes(put + [c]) && BytesToBits(put + [c]) == BytesToBits(put) + BitsOf(c, 8)
  {
    hide BytesToBits, BitsOf;
    BytesToBitsOne(c);
    BytesToBitsConcat(put, [c]);
  }

  lemma WordBits(w: nat, put: seq<int>)
    requires Bytes(put)
    ensures Bytes(put + [w % 0x10000 % 0x100, w % 0x10000 / 0x100])
    ensures BytesToBits(put + [w % 0x10000 % 0x100, w % 0x10000 / 0x100]) == BytesToBits(put) + BitsOf(w, 16)
  {
    var v := w % 0x10000;
    var lo, hi := v % 0x100, v / 0x100;
    assert v == lo + 256 * hi;
    BytesToBitsOne(lo);
    BytesToBitsOne(hi);
    assert [lo, hi] == [lo] + [hi];
    BytesToBitsConcat([lo], [hi]);
    BytesToBitsConcat(put, [lo, hi]);
    assert Pow2(8) == 256 && Pow2(16) == 65536;
    Shl8(hi);
    BitsOfSum(lo, 8, hi, 8);
    BitsOfPrefix(w, 16, 16);
  }

  lemma SendFits(was: seq<bool>, buf: nat, valid: nat, value: nat, length: nat)
    requires buf < Pow2(valid) && value < Pow2(length)
    ensures BitOr(buf, Shl(value, valid)) < Pow2(valid + length)
    ensures was + BitsOf(BitOr(buf, Shl(value, valid)), valid + length)
         == was + BitsOf(buf, valid) + BitsOf(value, length)
  {
    BitOrDisjoint(buf, valid, value);
    ShlFits(buf, valid, value, length);
    BitsOfSum(buf, valid, value, length);
    AppendAssoc(was, BitsOf(buf, valid), BitsOf(value, length));
  }

  /** What does not fit in the 16-bit buffer stays behind as the high bits of `value`. */
  lemma SendSpills(was: seq<bool>, buf: nat, valid: nat, value: nat, length: nat)
    requires valid <= 16 && length <= 16 && valid + length >= 16
    requires buf < Pow2(valid) && value < Pow2(length)
    ensures Shr(value, 16 - valid) < Pow2(valid + length - 16)
    ensures was + BitsOf(BitOr(buf, Shl(value, valid)), 16) + BitsOf(Shr(value, 16 - valid), valid + length - 16)
         == was + BitsOf(buf, valid) + BitsOf(value, length)
  {
    var all := BitOr(buf, Shl(value, valid));
    ShrFits(value, 16 - valid, valid + length - 16);
    ShrShl(buf, value, valid, 16 - valid);
    BitOrDisjoint(buf, valid, value);
    BitsOfSplit(all, 16, valid + length - 16);
    SendFits(was, buf, valid, value, length);
    AppendAssoc(was, BitsOf(all, 16), BitsOf(Shr(all, 16), valid + length - 16));
  }

  lemma AppendAssoc<T>(a: seq<T>, b: seq<T>, c: seq<T>)
    ensures a + (b + c) == a + b + c
  {
  }

  /** Writing the buffer with `m` bits writes its `n` bits and the padding. */
  lemma PadTo(was: seq<bool>, v: nat, n: nat, m: nat)
    requires |was| % 8 == 0 && m % 8 == 0 && m < n + 8 && n <= m && v < Pow2(n)
    ensures was + BitsOf(v, m) == was + BitsOf(v, n) + Padding(|was + BitsOf(v, n)|)
  {
    hide BitsOf, Pow2, Shl;
    ShlAdd(0, 0, n);
    BitsOfSum(v, n, 0, m - n);
    PadLength(|was|, n, m);
    assert was + (BitsOf(v, n) + BitsOf(0, m - n)) == was + BitsOf(v, n) + BitsOf(0, m - n);
  }

  lemma PadLength(w: nat, n: nat, m: nat)
    requires w % 8 == 0 && m % 8 == 0 && n <= m < n + 8
    ensures (8 - (w + n) % 8) % 8 == m - n
  {
    assert (w + n) % 8 == n % 8;
    assert n % 8 == (if m == n then 0 else 8 - (m - n));
  }

  lemma Pow2Of8()
    ensures Pow2(8) == 256
  {
  }

  lemma Shl8(v: nat)
    ensures Shl(v, 8) == 256 * v
  {
    assert Shl(v, 1) == 2 * v;
    assert Shl(v, 2) == 2 * Shl(v, 1);
    assert Shl(v, 3) == 2 * Shl(v, 2);
    assert Shl(v, 4) == 2 * Shl(v, 3);
    assert Shl(v, 5) == 2 * Shl(v, 4);
    assert Shl(v, 6) == 2 * Shl(v, 5);
    assert Shl(v, 7) == 2 * Shl(v, 6);
    assert Shl(v, 8) == 2 * Shl(v, 7);
  }
}
