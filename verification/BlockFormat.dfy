/** A stream of blocks as the decoder sees it (sections 3.2.3 and 3.2.4 of RFC 1951):
    what it has produced after the bits so far, and what one more block does. */
module BlockFormat {
  import opened Bits
  import opened Options
  import opened Rfc1951
  import opened BitWriter

  datatype Kind = Stored | Static | Dynamic

  function KindCode(k: Kind): nat
  {
    match k
    case Stored => 0
    case Static => 1
    case Dynamic => 2
  }

  function Flag(b: bool): nat { if b then 1 else 0 }

  /** The three bits in front of a block. */
  function BlockHeader(k: Kind, eof: bool): (r: seq<bool>)
    ensures |r| == 3
  {
    BitsOf(2 * KindCode(k) + Flag(eof), 3)
  }

  /** After the bits, whatever byte-aligned stream follows, the decoder has produced `out`;
      or it has rejected the stream. */
  ghost predicate Reads(bits: seq<bool>, out: Option<seq<int>>)
  {
    forall rest: seq<bool> {:trigger bits + rest} :: (|bits| + |rest|) % 8 == 0 ==>
      InflateBits(bits + rest, []) == if out.Some? then InflateBits(rest, out.value) else None
  }

  /** Followed by less than a byte of padding, the bits decode to `out`. */
  ghost predicate Final(bits: seq<bool>, out: Option<seq<int>>)
  {
    forall rest: seq<bool> {:trigger bits + rest} :: (|bits| + |rest|) % 8 == 0 && |rest| < 8 ==>
      InflateBits(bits + rest, []) == out
  }

  /** The decoder turns the body of a block, which starts after `n` bits of the stream,
      into the output `out1`; or rejects it. */
  ghost predicate BodyReads(k: Kind, n: nat, body: seq<bool>, out: seq<int>, out1: Option<seq<int>>)
  {
    forall rest: seq<bool> {:trigger body + rest} :: (n + |body| + |rest|) % 8 == 0 ==>
      ReadBlock(KindCode(k), body + rest, out) == if out1.Some? then Some((out1.value, rest)) else None
  }

  lemma ReadBlockHeader(k: Kind, eof: bool, s: seq<bool>, out: seq<int>)
    ensures InflateBits(BlockHeader(k, eof) + s, out)
         == (var r := ReadBlock(KindCode(k), s, out);
             if r.None? then None
             else if !eof then InflateBits(r.value.1, r.value.0)
             else if |r.value.1| < 8 then Some(r.value.0) else None)
  {
    hide ReadBlock;
    var v, e := KindCode(k), Flag(eof);
    assert Pow2(1) == 2 && Pow2(2) == 4;
    assert Shl(v, 1) == 2 * v;
    BitsOfSum(e, 1, v, 2);
    assert BlockHeader(k, eof) + s == BitsOf(e, 1) + (BitsOf(v, 2) + s);
    ReadBitsOf(e, 1, BitsOf(v, 2) + s);
    ReadBitsOf(v, 2, s);
  }

  /** One more block. */
  lemma NextBlock(bits: seq<bool>, out: Option<seq<int>>, k: Kind, eof: bool, body: seq<bool>, out1: Option<seq<int>>)
    requires Reads(bits, out)
    requires out.Some? ==> BodyReads(k, |bits| + 3, body, out.value, out1)
    requires out.None? ==> out1.None?
    ensures if eof then Final(bits + BlockHeader(k, eof) + body, out1)
            else Reads(bits + BlockHeader(k, eof) + body, out1)
  {
    hide InflateBits, ReadBlock;
    var all, h := bits + BlockHeader(k, eof) + body, BlockHeader(k, eof);
    forall rest: seq<bool> | (|all| + |rest|) % 8 == 0
      ensures all + rest == bits + (h + (body + rest))
      ensures out.None? ==> InflateBits(all + rest, []) == None
      ensures out.Some? && out1.None? ==> InflateBits(all + rest, []) == None
      ensures out.Some? && out1.Some? && !eof ==> InflateBits(all + rest, []) == InflateBits(rest, out1.value)
      ensures out.Some? && out1.Some? && eof && |rest| < 8 ==> InflateBits(all + rest, []) == out1
    {
      assert all + rest == bits + (h + (body + rest));
      if out.Some? {
        ReadBlockHeader(k, eof, body + rest, out.value);
      }
    }
  }

  // ---- stored blocks ----------------------------------------------------------------

  /** The body of a stored block that starts after `n` bits. */
  function StoredBody(n: nat, data: seq<int>): (r: seq<bool>)
    requires Bytes(data) && |data| < 0x10000
    ensures 8 * |data| + 32 <= |r| < 8 * |data| + 40
  {
    Padding(n) + BitsOf(|data|, 16) + BitsOf(0xffff - |data|, 16) + BytesToBits(data)
  }

  lemma {:induction false} BytesAreRead(data: seq<int>)
    requires Bytes(data)
    ensures BitsToBytes(BytesToBits(data)) == data
  {
    if data != [] {
      var first, rest := BitsOf(data[0], 8), BytesToBits(data[1..]);
      assert (first + rest)[..8] == first && (first + rest)[8..] == rest;
      assert Pow2(8) == 256;
      ValueOfBitsOf(data[0], 8);
      BytesAreRead(data[1..]);
    }
  }

  lemma PaddingSkipped(n: nat, s: seq<bool>)
    requires (n + |Padding(n)| + |s|) % 8 == 0
    ensures (Padding(n) + s)[|Padding(n) + s| % 8..] == s
  {
    var p := |Padding(n)|;
    assert (p + |s|) % 8 == p by { SameRemainder(n, p, |s|); }
  }

  lemma SameRemainder(n: nat, p: nat, m: nat)
    requires p < 8 && (n + p) % 8 == 0 && (n + p + m) % 8 == 0
    ensures (p + m) % 8 == p
  {
    assert m % 8 == 0;
  }

  lemma ReadStoredBody(n: nat, data: seq<int>, out: seq<int>, rest: seq<bool>)
    requires Bytes(data) && |data| < 0x10000 && (n + |StoredBody(n, data)| + |rest|) % 8 == 0
    ensures ReadStored(StoredBody(n, data) + rest, out) == Some((out + data, rest))
  {
    Pow2Of16();
    hide Padding, BitsOf, Pow2, BytesToBits, BitsToBytes, ReadBits;
    var b := BytesToBits(data);
    var len, nlen := BitsOf(|data|, 16), BitsOf(0xffff - |data|, 16);
    var s := len + (nlen + (b + rest));
    assert StoredBody(n, data) + rest == Padding(n) + s;
    PaddingSkipped(n, s);
    ReadBitsOf(|data|, 16, nlen + (b + rest));
    ReadBitsOf(0xffff - |data|, 16, b + rest);
    assert (b + rest)[..8 * |data|] == b && (b + rest)[8 * |data|..] == rest;
    BytesAreRead(data);
  }

  /** A stored block holds the data itself, whatever the alignment. */
  lemma StoredReads(n: nat, data: seq<int>, out: seq<int>)
    requires Bytes(data) && |data| < 0x10000
    ensures BodyReads(Stored, n, StoredBody(n, data), out, Some(out + data))
  {
    hide StoredBody, ReadStored;
    forall rest: seq<bool> | (n + |StoredBody(n, data)| + |rest|) % 8 == 0
      ensures ReadStored(StoredBody(n, data) + rest, out) == Some((out + data, rest))
    {
      ReadStoredBody(n, data, out, rest);
    }
  }

  lemma Pow2Of16()
    ensures Pow2(16) == 0x10000
  {
    ShlPow2(8, 8);
    Shl8(Pow2(8));
    Pow2Of8();
  }
}
