/** The driver: `zip_deflate_internal` and `deflate`, and the round trip through the
    decoder of RFC 1951. */
module Deflate {
  import opened Bits
  import opened Options
  import opened Rfc1951
  import opened BitWriter
  import opened Chains
  import opened Matcher
  import opened BlockWriter
  import opened BlockFormat
  import opened Lz77
  import opened SentBlocks
  import opened SmallBlocks
  import opened SteepText
  import opened TreeLimits
  import opened Deflater

  const DEFAULT_LEVEL: nat := 6
  const BUFFER_SIZE: nat := 1024

  /** The level that `zip_deflate_start` settles on. */
  function Effective(level: int): (r: nat)
    ensures level == 0 ==> r == 6
    ensures 1 <= level <= 9 ==> r == level
    ensures level < 0 ==> r == 1
    ensures level > 9 ==> r == 9
  {
    if level == 0 then DEFAULT_LEVEL else if level < 1 then 1 else if level > 9 then 9 else level
  }

  /** Between calls of `deflate`. */
  ghost predicate Resting(c: Compressor)
    reads c, c.block.Repr(), c.sink, c.sink.out, c.sink.out.outbuf, c.sink.out.queue, c.sink.out.queue.Repr
  {
    && c.Apart() && c.block.Valid() && c.block.tokens == [] && c.block.lastLit == 0
    && c.sink.Valid() && c.sink.out.taken == |c.sink.out.put|
    && c.win.window.Length == WINDOW_SIZE && c.win.prev.Length == WINDOW_SIZE && c.win.window != c.win.prev
  }

  /** During a call, between two calls of `zip_deflate_internal`. */
  ghost predicate Going(c: Compressor)
    reads c, c.win, c.win.window, c.win.prev, c.block.Repr(), c.sink, c.sink.out, c.sink.out.outbuf, c.sink.out.queue,
      c.sink.out.queue.Repr
  {
    && c.Apart() && c.sink.Valid() && c.win.base + c.win.strStart <= |c.win.data|
    && if c.complete then c.Ended() else c.Running() && c.win.data != []
  }

  ghost predicate Outside(buff: array<int>, c: Compressor)
    reads c, c.sink, c.sink.out, c.sink.out.queue
  {
    buff !in c.win.Repr() && buff !in c.block.Repr() && buff !in c.sink.Repr() && buff.Length == BUFFER_SIZE
  }

  /** The fast method sends the last byte a second time when `zip_match_available` is not 0;
      a stored block does not show it. */
  ghost predicate Doubled(c: Compressor, avail: bool)
    requires c.blocks != []
    reads c
  {
    c.level <= 3 && avail && !c.blocks[|c.blocks| - 1].kind.Stored?
  }

  /** What the complete run of a non-empty input stands for. */
  ghost predicate FinalIs(c: Compressor, avail: bool)
    reads c, c.win
  {
    c.win.data != [] && c.complete ==>
      && c.blocks != []
      && c.final == WithLast(c.win.Input(), Doubled(c, avail))
  }

  /** `zip_qcopy`, which leaves the compressor alone. */
  method Copy(c: Compressor, buff: array<int>, off: nat, size: nat) returns (n: nat)
    requires Going(c) && Outside(buff, c) && off + size <= BUFFER_SIZE
    modifies c.sink.out.Repr(), buff
    ensures Going(c) && Outside(buff, c) && c.sink.Repr() == old(c.sink.Repr())
    ensures n <= size && (n < size ==> c.sink.Ready() && c.sink.out.taken == |c.sink.out.put|)
    ensures n == 0 && size > 0 ==> old(c.sink.out.taken) == |c.sink.out.put|
    ensures c.sink.out.put == old(c.sink.out.put) && c.sink.out.taken == old(c.sink.out.taken) + n <= |c.sink.out.put|
    ensures buff[..]
         == old(buff[..off]) + c.sink.out.put[old(c.sink.out.taken)..c.sink.out.taken] + old(buff[off + n..])
    ensures n < size ==> c.sink.out.queue.qhead == null
  {
    hide Window.Valid, Block.Valid, BitSink.Valid, LowBytes, Reads, Covers, IsMatch, HashReady, InflateBits, Produced,
      Covered, Complete, SentOk;
    assert c.sink.out.Repr() <= c.sink.Repr();
    n := c.sink.Take(buff, off, size);
  }

  /** More of the input is compressed, between two copies. */
  method Resume(c: Compressor, ghost buff: array<int>, ghost avail: bool)
    requires Going(c) && !c.complete && c.sink.Ready() && c.sink.out.queue.qhead == null && Outside(buff, c)
    requires c.level <= 3 ==> c.matchAvailable == avail
    modifies c`matchLength, c`prevMatch, c`matchAvailable, c`blocks, c`complete, c`final, c.win, c.win.window,
      c.win.prev, c.block.Repr(), c.sink.Repr()
    ensures Going(c) && Outside(buff, c) && FinalIs(c, avail) && (c.level <= 3 ==> c.matchAvailable == avail)
    ensures c.win.data == old(c.win.data) && c.sink.Written() && c.sink.out.taken < |c.sink.out.put|
    ensures c.win.base + c.win.strStart > old(c.win.base + c.win.strStart)
  {
    hide BitSink.Valid, LowBytes, Compressor.Running, Compressor.Ended, WithLast;
    c.Compress();
  }

  /** `zip_deflate_internal` after the first time: up to 1024 more bytes of the output, and
      none only when there are none left. */
  method DeflateInternal(c: Compressor, buff: array<int>, ghost avail: bool) returns (n: nat)
    requires Going(c) && Outside(buff, c) && FinalIs(c, avail) && (c.level <= 3 ==> c.matchAvailable == avail)
    requires c.initFlag
    modifies c`matchLength, c`prevMatch, c`matchAvailable, c`blocks, c`complete, c`final, c.win, c.win.window,
      c.win.prev, c.block.Repr(), c.sink.Repr(), buff
    ensures Going(c) && Outside(buff, c) && FinalIs(c, avail) && (c.level <= 3 ==> c.matchAvailable == avail)
    ensures c.win.data == old(c.win.data) && n <= BUFFER_SIZE
    ensures old(c.sink.Repr()) <= c.sink.Repr() && fresh(c.sink.Repr() - old(c.sink.Repr()))
    ensures old(c.sink.out.put) <= c.sink.out.put && c.sink.out.taken == old(c.sink.out.taken) + n <= |c.sink.out.put|
    ensures buff[..n] == c.sink.out.put[old(c.sink.out.taken)..c.sink.out.taken]
    ensures n == 0 ==> c.complete && c.sink.out.taken == |c.sink.out.put|
    ensures c.win.base + c.win.strStart > old(c.win.base + c.win.strStart)
         || (c.win.base + c.win.strStart == old(c.win.base + c.win.strStart) && c.sink.out.put == old(c.sink.out.put))
  {
    hide Window.Valid, Block.Valid, BitSink.Valid, LowBytes, Compressor.Running, Compressor.Ended, WithLast;
    ghost var b0, put0, t0 := buff[..], c.sink.out.put, c.sink.out.taken;
    n := Copy(c, buff, 0, BUFFER_SIZE);
    ghost var b1, t1 := buff[..], c.sink.out.taken;
    CopiedOn(b0, b1, put0, put0, t0, t0, t1, 0, n);
    if n == BUFFER_SIZE || c.complete {
      return;
    }
    Resume(c, buff, avail);
    var m := Copy(c, buff, n, BUFFER_SIZE - n);
    CopiedOn(b1, buff[..], put0, c.sink.out.put, t0, t1, c.sink.out.taken, n, m);
    n := n + m;
  }

  lemma CopiedOn(b: seq<int>, now: seq<int>, put: seq<int>, more: seq<int>, t0: nat, t1: nat, t2: nat, n: nat, m: nat)
    requires n + m <= |b| && put <= more && t0 <= t1 <= |put| && t1 <= t2 <= |more| && n == t1 - t0 && m == t2 - t1
    requires b[..n] == put[t0..t1] && now == b[..n] + more[t1..t2] + b[n + m..]
    ensures |now| == |b| && now[..n + m] == more[t0..t2]
  {
    assert more[t0..t2] == put[t0..t1] + more[t1..t2];
  }

  /** The first call of `zip_deflate_internal` starts the run; on an empty input it is
      complete at once. */
  method FirstInternal(c: Compressor, buff: array<int>) returns (n: nat)
    requires c.Idle() && !c.initFlag && Outside(buff, c)
    modifies c, c.win, c.win.window, c.win.prev, c.block.Repr(), c.sink.Repr(), buff
    ensures Going(c) && Outside(buff, c) && c.win.data == old(c.win.data) && c.level == old(c.level) && c.initFlag
    ensures FinalIs(c, old(c.matchAvailable)) && (c.level <= 3 ==> c.matchAvailable == old(c.matchAvailable))
    ensures old(c.sink.Repr()) <= c.sink.Repr() && fresh(c.sink.Repr() - old(c.sink.Repr()))
    ensures n <= BUFFER_SIZE && c.sink.out.taken == n <= |c.sink.out.put| && buff[..n] == c.sink.out.put[..n]
    ensures n == 0 ==> c.complete && c.sink.out.taken == |c.sink.out.put|
  {
    hide Window.Valid, Block.Valid, BitSink.Valid, LowBytes, Reads, Covers, IsMatch, HashReady, InflateBits, Produced,
      Covered, Complete, SentOk, Compressor.Idle;
    ghost var avail := c.matchAvailable;
    c.InitDeflate();
    c.initFlag := true;
    if c.win.lookahead == 0 {
      c.complete := true;
      return 0;
    }
    n := DeflateInternal(c, buff, avail);
  }

  /** The loop of `deflate`: collects the output, 1024 bytes at a time, until there is none. */
  method Collect(c: Compressor, buff: array<int>, first: nat, ghost avail: bool) returns (result: seq<int>)
    requires Going(c) && Outside(buff, c) && FinalIs(c, avail) && (c.level <= 3 ==> c.matchAvailable == avail)
    requires c.initFlag
    requires first <= BUFFER_SIZE == buff.Length && c.sink.out.taken == first <= |c.sink.out.put|
    requires buff[..first] == c.sink.out.put[..first]
    requires first == 0 ==> c.complete && c.sink.out.taken == |c.sink.out.put|
    modifies c`matchLength, c`prevMatch, c`matchAvailable, c`blocks, c`complete, c`final, c.win, c.win.window,
      c.win.prev, c.block.Repr(), c.sink.Repr(), buff
    ensures Going(c) && c.complete && FinalIs(c, avail) && (c.level <= 3 ==> c.matchAvailable == avail)
    ensures c.win.data == old(c.win.data) && result == c.sink.out.put && c.sink.out.taken == |c.sink.out.put|
    ensures old(c.sink.Repr()) <= c.sink.Repr() && fresh(c.sink.Repr() - old(c.sink.Repr()))
  {
    hide Window.Valid, Block.Valid, BitSink.Valid, BitSink.Ready, BitSink.Repr, Going, FinalIs, Outside, LowBytes;
    var i := first;
    result := [];
    ghost var data, all := c.win.data, c.sink.Repr();
    while i > 0
      invariant Going(c) && Outside(buff, c) && buff.Length == BUFFER_SIZE && FinalIs(c, avail) && c.win.data == data
      invariant (c.level <= 3 ==> c.matchAvailable == avail) && c.initFlag
      invariant all <= c.sink.Repr() && fresh(c.sink.Repr() - all)
      invariant 0 <= i <= BUFFER_SIZE && c.sink.out.taken <= |c.sink.out.put|
      invariant result + buff[..i] == c.sink.out.put[..c.sink.out.taken]
      invariant i == 0 ==> c.complete && c.sink.out.taken == |c.sink.out.put|
      decreases |data| - (c.win.base + c.win.strStart), |c.sink.out.put| - c.sink.out.taken, i
    {
      result := result + buff[..i];
      ghost var put, taken, before := c.sink.out.put, c.sink.out.taken, c.sink.Repr();
      StillReading(c);
      label Step:
      i := DeflateInternal(c, buff, avail);
      StillReading(c);
      forall o | o in c.sink.Repr() && o !in before
        ensures fresh(o)
      {
        assert !old@Step(allocated(o));
      }
      TakenMore(put, c.sink.out.put, taken, c.sink.out.taken);
    }
    assert buff[..0] == [] && result + [] == result == c.sink.out.put;
  }

  lemma TakenMore(put: seq<int>, now: seq<int>, a: nat, b: nat)
    requires put <= now && a <= |put| && a <= b <= |now|
    ensures now[..b] == put[..a] + now[a..b]
  {
  }

  lemma StillReading(c: Compressor)
    requires Going(c)
    ensures c.win.base + c.win.strStart <= |c.win.data|
    ensures c !in c.win.Repr() && c !in c.block.Repr() && c !in c.sink.Repr()
  {
  }

  /** `zip_deflate_start`, and the input that `deflate` gives. */
  method Start(c: Compressor, str: seq<nat>, level: int)
    requires Resting(c)
    modifies c`level, c`initFlag, c.win`data, c.win`pos, c.win`eofile
    ensures c.Idle() && !c.initFlag && c.level == Effective(level) && c.win.data == str
  {
    hide Block.Valid, BitSink.Valid;
    c.win.data, c.win.pos, c.win.eofile := str, 0, false;
    c.level := Effective(level);
    c.initFlag := false;
  }

  lemma IsOutside(c: Compressor, buff: array<int>)
    requires buff !in c.win.Repr() && buff !in c.block.Repr() && buff !in c.sink.Repr() && buff.Length == BUFFER_SIZE
    ensures Outside(buff, c)
  {
  }

  /** After the last byte is collected. */
  lemma Over(c: Compressor, avail: bool)
    requires Going(c) && c.complete && FinalIs(c, avail) && (c.level <= 3 ==> c.matchAvailable == avail)
    requires c.sink.out.taken == |c.sink.out.put|
    requires c.win.window.Length == WINDOW_SIZE && c.win.prev.Length == WINDOW_SIZE && c.win.window != c.win.prev
    ensures Resting(c) && Bytes(c.sink.out.put)
    ensures c.win.data == [] ==> c.sink.out.put == []
    ensures c.win.data != [] ==>
      && c.blocks != [] && Inflate(c.sink.out.put) == Produced(c.blocks, c.final)
      && Complete(c.blocks, c.win.Input(), WithLast(c.win.Input(), c.level <= 3 && avail))
      && c.final == WithLast(c.win.Input(), Doubled(c, avail))
  {
    hide Block.Valid, BitSink.Valid, LowBytes, InflateBits, Produced, Complete, WithLast;
    AllTaken(c.sink);
  }

  /** `deflate`: for every non-empty input, level and earlier use of the compressor, the
      output decodes to the input exactly when no dynamic block was sent with a tree that
      overflowed and the last byte was not sent twice. No tree overflows for a tame input. On
      an empty input there is no output. */
  method Deflate(c: Compressor, str: seq<nat>, level: int) returns (result: seq<int>)
    requires Resting(c)
    modifies c, c.win, c.win.window, c.win.prev, c.block.Repr(), c.sink.Repr()
    ensures Resting(c) && fresh(c.sink.Repr() - old(c.sink.Repr())) && old(c.sink.Repr()) <= c.sink.Repr()
    ensures c.level == Effective(level) && c.win.data == str
    ensures c.level <= 3 ==> c.matchAvailable == old(c.matchAvailable)
    ensures str == [] ==> result == []
    ensures Bytes(result)
    ensures str != [] ==> c.complete && c.blocks != []
    ensures str != [] ==> Inflate(result) == Produced(c.blocks, c.final)
    ensures str != [] ==> c.final == WithLast(LowBytes(str), level != 0 && level <= 3 && old(c.matchAvailable)
                                                             && !c.blocks[|c.blocks| - 1].kind.Stored?)
    ensures str != [] ==>
      Complete(c.blocks, LowBytes(str), WithLast(LowBytes(str), level != 0 && level <= 3 && old(c.matchAvailable)))
    ensures str != [] ==>
      StandFor(c.blocks, WithLast(LowBytes(str), level != 0 && level <= 3 && old(c.matchAvailable)))
    ensures str != [] && Inflate(result) == Some(LowBytes(str)) ==>
      Intact(c.blocks)
      && (level == 0 || level > 3 || !old(c.matchAvailable) || c.blocks[|c.blocks| - 1].kind.Stored?)
    ensures str != [] && Intact(c.blocks)
            && (level == 0 || level > 3 || !old(c.matchAvailable) || c.blocks[|c.blocks| - 1].kind.Stored?) ==>
      Inflate(result) == Some(LowBytes(str))
    ensures str != [] && Tame(WithLast(LowBytes(str), level != 0 && level <= 3 && old(c.matchAvailable))) ==>
      Intact(c.blocks)
    ensures str != [] && Tame(LowBytes(str)) && (level == 0 || level > 3 || !old(c.matchAvailable)) ==>
      Inflate(result) == Some(LowBytes(str))
    ensures 0 < |str| <= 2 && level != 0 && level <= 3 && old(c.matchAvailable) ==>
      Inflate(result) == Some(WithLast(LowBytes(str), true))
  {
    hide Window.Valid, Block.Valid, BitSink.Valid, LowBytes, Inflate, Produced, Complete, Intact, WithLast, Going,
      FinalIs, Outside, Compressor.Idle, Tame, StandFor;
    ghost var avail := c.matchAvailable;
    Start(c, str, level);
    var buff := new int[BUFFER_SIZE];
    IsOutside(c, buff);
    var i := FirstInternal(c, buff);
    result := Collect(c, buff, i, avail);
    Over(c, avail);
    if str != [] {
      Outcome(c.blocks, c.final, LowBytes(str), c.level <= 3 && avail);
      CompleteTokens(c.blocks, LowBytes(str), WithLast(LowBytes(str), c.level <= 3 && avail));
    }
  }

  /** What the decoder makes of a run, from what is on record about it. */
  lemma Outcome(blocks: seq<Sent>, final: seq<int>, input: seq<int>, fast: bool)
    requires input != [] && Complete(blocks, input, WithLast(input, fast))
    requires final == WithLast(input, fast && !blocks[|blocks| - 1].kind.Stored?)
    ensures Produced(blocks, final) == Some(input) <==>
              Intact(blocks) && !(fast && !blocks[|blocks| - 1].kind.Stored?)
    ensures Tame(WithLast(input, fast)) ==> Intact(blocks)
    ensures Tame(input) && !fast ==> Produced(blocks, final) == Some(input)
    ensures |input| <= 2 && fast ==> Produced(blocks, final) == Some(WithLast(input, true))
  {
    hide SentOk, Covered, Intact, Alphabet, Repeats;
    if Tame(WithLast(input, fast)) {
      TameRun(blocks, input, WithLast(input, fast));
    }
    if |WithLast(input, fast)| <= 3 {
      ShortRunStatic(blocks, input, WithLast(input, fast));
    }
  }

  lemma AllTaken(sink: BitSink)
    requires sink.Valid() && sink.biValid == 0
    ensures Bytes(sink.out.put) && sink.bits == BytesToBits(sink.out.put)
    ensures sink.bits == [] ==> sink.out.put == []
  {
    assert BytesToBits(sink.out.put) + [] == BytesToBits(sink.out.put);
  }

  /** The first run of the program, at level 1, on the single byte 97. */
  method DoubledByte() returns (result: seq<int>)
    ensures Bytes(result) && Inflate(result) == Some([97, 97])
  {
    hide Window.Valid, Block.Valid, BitSink.Valid, Resting, Inflate, Complete, Intact, Produced, StandFor, Tame;
    var c := new Compressor();
    assert Resting(c) by {
      Fresh(c);
    }
    result := Deflate(c, [97], 1);
    assert LowBytes([97]) == [97];
    assert WithLast([97], true) == [97, 97];
  }

  /** A first run on the 511 bytes of `Text`, at any level that does not use the fast method:
      the decoder rejects the output. */
  method LostText(level: int) returns (result: seq<int>)
    requires level == 0 || level > 3
    ensures Bytes(result) && Inflate(result) == None
  {
    hide Window.Valid, Block.Valid, BitSink.Valid, Resting, Inflate, Complete, Intact, Text, StandFor, Tame;
    var c := new Compressor();
    assert Resting(c) by {
      Fresh(c);
    }
    result := Deflate(c, Text(), level);
    assert LowBytes(Text()) == Text();
    NeverIntact(c.blocks);
  }

  lemma Fresh(c: Compressor)
    requires c.Apart() && c.block.Valid() && c.block.tokens == [] && c.block.lastLit == 0
    requires c.sink.Valid() && c.sink.out.taken == |c.sink.out.put|
    requires c.win.window.Length == WINDOW_SIZE && c.win.prev.Length == WINDOW_SIZE && c.win.window != c.win.prev
    ensures Resting(c)
  {
  }
}
