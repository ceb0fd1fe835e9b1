/** The compressor (`zip_deflate_better`, `zip_deflate_fast`): from the input to tokens,
    and from tokens to blocks. */
module Deflater {
  import opened Bits
  import opened Options
  import opened Rfc1951
  import opened OutputQueue
  import opened BitWriter
  import opened Chains
  import opened Matcher
  import opened CodeTables
  import opened Tokens
  import opened BlockWriter
  import opened BlockFormat
  import opened BlockFlush
  import opened Lz77
  import opened SentBlocks

  method NewParts() returns (block: Block, win: Window, sink: BitSink)
    ensures fresh(win.Repr()) && fresh(block.Repr()) && fresh(sink.Repr())
    ensures win.Repr() !! block.Repr() && sink.Repr() !! win.Repr() && sink.Repr() !! block.Repr()
    ensures block.Valid() && block.tokens == [] && block.lastLit == 0
    ensures win.window.Length == WINDOW_SIZE && win.prev.Length == WINDOW_SIZE && win.window != win.prev
    ensures sink.Valid() && sink.out.taken == |sink.out.put| && sink.out.outoff == 0
  {
    hide Block.Valid, BitSink.Valid, Output.Valid;
    block := new Block();
    win := new Window();
    sink := new BitSink();
  }

  class Compressor {
    const win: Window
    const block: Block
    const sink: BitSink
    var level: nat
    var matchLength: nat
    var prevMatch: int
    var matchAvailable: bool    // zip_match_available != 0
    var complete: bool
    var initFlag: bool

    ghost var blocks: seq<Sent>    // the blocks of this run
    ghost var final: seq<int>      // what they stand for, once the run is complete

    /** The parts share nothing. */
    ghost predicate Apart()
      reads sink, sink.out, sink.out.queue
    {
      && win.Repr() !! block.Repr() && sink.Repr() !! win.Repr() && sink.Repr() !! block.Repr()
      && this !in win.Repr() && this !in block.Repr() && this !in sink.Repr()
    }

    /** What the decoder makes of the bits sent so far: the first `b` bytes of the input. */
    ghost predicate SentTo(input: seq<int>, b: int)
      reads this`blocks, block.Repr(), sink, sink.out, sink.out.outbuf, sink.out.queue, sink.out.queue.Repr
    {
      && block.Valid() && sink.Valid() && 0 <= b <= |input|
      && Reads(sink.bits, Produced(blocks, input[..b])) && Covered(blocks, input, b)
    }

    /** The input up to the current block is sent. */
    ghost predicate Sending()
      reads this`blocks, win, block.Repr(), sink, sink.out, sink.out.outbuf, sink.out.queue, sink.out.queue.Repr
    {
      Apart() && SentTo(win.Input(), win.base + win.blockStart)
    }

    /** The current block stands for the input up to `t`. */
    ghost predicate CoversTo(t: int)
      reads block, win
    {
      Covers(block.tokens, win.Input(), win.base + win.blockStart, t)
    }

    ghost predicate Room()
      reads block
    {
      block.lastLit < LIT_BUFSIZE - 1
    }

    /** The block has room for a token, or it must be flushed and is long enough for that. */
    ghost predicate Space(flush: bool)
      reads block
    {
      if flush then |block.tokens| >= LEAST_TOKENS else Room()
    }

    constructor ()
      ensures Apart() && block.Valid() && block.tokens == [] && block.lastLit == 0 && sink.Valid()
      ensures sink.out.taken == |sink.out.put|
      ensures win.window.Length == WINDOW_SIZE && win.prev.Length == WINDOW_SIZE && win.window != win.prev
      ensures sink.out.outoff == 0 && matchAvailable && !initFlag
      ensures fresh(win.Repr()) && fresh(block.Repr()) && fresh(sink.Repr())
    {
      hide Block.Valid, BitSink.Valid, Output.Valid;
      var b, w, s := NewParts();
      block, win, sink := b, w, s;
      level, matchLength, prevMatch, blocks, final := 6, 0, 0, [], [];
      matchAvailable := true;    // undefined, which is not 0
      complete, initFlag := false, false;
    }

    /** The token `t` was added to those before, and the block is to be sent exactly if it is due,
        as it stands for `inLength` bytes. */
    ghost predicate Tallied(before: seq<Token>, t: Token, inLength: int, flush: bool)
      reads this`level, block
    {
      && TablesFit(block.tables) && TokensOk(block.tokens) && block.tokens == before + [t]
      && (flush <==> Due(block.tables, block.tokens, level, inLength))
    }

    /** Since the blocks were `was` and the current one held the tokens `before`, the tokens
        `more` were added, and the block was sent exactly if that made it due. */
    ghost predicate Put(was: seq<Sent>, before: seq<Token>, more: seq<Token>, inLength: int)
      reads this`blocks, this`level, block
    {
      var ts := before + more;
      && TablesFit(block.tables) && TokensOk(ts)
      && SentIf(more != [] && Due(block.tables, ts, level, inLength), was, ts, blocks, block.tokens)
    }

    /** A literal: the byte at window index `at`. */
    method TallyLiteral(at: nat) returns (flush: bool)
      requires Apart() && win.Valid() && block.Valid() && Room() && CoversTo(win.base + at) && win.base + at < win.pos
      requires win.blockStart <= win.strStart
      modifies block.Repr()
      ensures Apart() && block.Valid() && CoversTo(win.base + at + 1)
      ensures Tallied(old(block.tokens), Literal(win.Input()[win.base + at]), win.strStart - win.blockStart, flush)
      ensures Space(flush)
    {
      hide Window.Valid, Covers, Profitable, LowBytes, Block.Valid, Covered, Complete, SentOk, Produced, Reads,
        StaticDistances;
      WindowByte(win, at);
      CoverLiteral(block.tokens, win.Input(), win.base + win.blockStart, win.base + at);
      flush := block.Tally(0, ToByte(win.At(at)), level, win.strStart - win.blockStart);
      TokensFit(block);
    }

    /** A match of `len` bytes for the string at `at`, with the one at `ms`. */
    method TallyMatch(ms: int, at: nat, len: nat) returns (flush: bool)
      requires Apart() && block.Valid() && Room() && CoversTo(win.base + at)
      requires IsMatch(win.Input(), win.base + ms, win.base + at, len) && win.blockStart <= win.strStart
      modifies block.Repr()
      ensures Apart() && block.Valid() && CoversTo(win.base + at + len)
      ensures Tallied(old(block.tokens), Match(len, at - ms), win.strStart - win.blockStart, flush)
      ensures Space(flush)
    {
      hide Covers, Profitable, SameRun, Block.Valid, LowBytes, Covered, Complete, SentOk, Produced, Reads,
        TokensOk, TablesFit, StaticDistances;
      CoverMatch(block.tokens, win.Input(), win.base + win.blockStart, win.base + at, win.base + ms, len);
      flush := block.Tally(at - ms, len - MIN_MATCH, level, win.strStart - win.blockStart);
      TokensFit(block);
    }

    /** `zip_flush_block` on the current block, which stands for `viaTokens` by its tokens and
        for `viaStored` if it is sent as it is. */
    method SendNext(eof: bool, ghost out: seq<int>, ghost viaTokens: seq<int>, ghost viaStored: seq<int>)
      requires Apart() && block.Valid() && sink.Ready() && Reads(sink.bits, Produced(blocks, out))
      requires win.window.Length == WINDOW_SIZE && BlockBytes(win.window[..], win.blockStart, win.strStart, viaStored)
      requires Expand(block.tokens, out) == Some(out + viaTokens)
      modifies this`blocks, block.Repr(), sink.Repr()
      ensures Apart() && block.Valid() && block.tokens == [] && block.lastLit == 0
      ensures sink.Written() && |sink.bits| > |old(sink.bits)|
      ensures NewBlock(old(blocks), blocks, old(block.tokens), win.strStart - win.blockStart)
      ensures var r := Produced(blocks, out + if blocks[|blocks| - 1].kind.Stored? then viaStored else viaTokens);
        if eof then InflateBits(sink.bits, []) == r && sink.biValid == 0 else Reads(sink.bits, r)
    {
      hide Block.Valid, BitSink.Valid, Reads, Expand, Produced, After, InflateBits, BlockBytes, SentOk, Covered,
        Complete, Covers, LowBytes;
      ProducedIs(blocks, out);
      ghost var s := FlushBlock(block, sink, eof, win.window, win.blockStart, win.strStart,
        Produced(blocks, out), out, viaTokens, viaStored);
      ProducedMore(blocks, out, s, viaTokens, viaStored);
      blocks := blocks + [s];
    }

    /** `zip_flush_block(0)`, with the new start of the block. */
    method Flush()
      requires Sending() && sink.Ready() && win.Valid() && win.blockStart <= win.strStart
      requires win.base + win.strStart <= win.pos
      requires CoversTo(win.base + win.strStart) && Space(true)
      modifies this`blocks, win`blockStart, block.Repr(), sink.Repr()
      ensures Sending() && sink.Written() && Room() && win.Valid() && win.blockStart == win.strStart
      ensures CoversTo(win.base + win.strStart)
      ensures SentIf(true, old(blocks), old(block.tokens), blocks, block.tokens)
    {
      hide Window.Valid, Block.Valid, BitSink.Valid, Reads, Expand, Produced, LowBytes, BlockBytes, Covered, SentOk,
        Complete;
      ghost var input, b, t := win.Input(), win.base + win.blockStart, win.base + win.strStart;
      ghost var was := blocks;
      BlockInWindow(win);
      assert input[..b] + input[b..t] == input[..t];
      SendNext(false, input[..b], input[b..t], input[b..t]);
      CoveredSnoc(was, blocks[|blocks| - 1], input, b, t);
      win.blockStart := win.strStart;
      CoverNothing(input, t);
    }

    /** The block is flushed when it is due, after the token `t`. */
    method FlushIf(flush: bool, ghost before: seq<Token>, ghost t: Token, ghost inLength: int)
      requires Tallied(before, t, inLength, flush)
      requires Sending() && sink.Ready() && win.Valid() && win.blockStart <= win.strStart
      requires win.base + win.strStart <= win.pos
      requires CoversTo(win.base + win.strStart) && Space(flush)
      modifies this`blocks, win`blockStart, block.Repr(), sink.Repr()
      ensures Sending() && sink.Written() && Room() && win.Valid() && win.blockStart <= win.strStart
      ensures CoversTo(win.base + win.strStart)
      ensures Put(old(blocks), before, [t], inLength)
      ensures win.blockStart == if flush then win.strStart else old(win.blockStart)
    {
      hide Window.Valid, Block.Valid, BitSink.Valid, Reads, Covers, LowBytes, Covered, Complete, SentOk, Produced, Due,
        TablesFit, TokensOk;
      if flush {
        Flush();
      }
    }

    // ---- lazy matching --------------------------------------------------------------

    /** The level is one there is, and the match finder is set to it. */
    ghost predicate Set()
      reads this`level, win`maxLazyMatch, win`goodMatch, win`maxChainLength
    {
      1 <= level <= 9 && win.Configured(level)
    }

    /** How many bytes before `strStart` no token stands for yet. */
    ghost function Pending(): int
      reads this`matchAvailable
    {
      if matchAvailable then 1 else 0
    }

    /** Between two steps of `zip_deflate_better`: all strings so far are in the chains. */
    ghost predicate Lazy()
      reads this`level, this`matchAvailable, this`matchLength, this`blocks, win, win.window, win.prev, block.Repr(),
        sink, sink.out, sink.out.outbuf, sink.out.queue, sink.out.queue.Repr
    {
      && win.Ready() && Sending() && Room() && Set() && win.SeenTo(win.base + win.strStart)
      && (matchAvailable ==> win.strStart > 0)
      && CoversTo(win.base + win.strStart - Pending())
      && (matchLength >= 2 || win.lookahead == 0)
      && (matchLength >= MIN_MATCH ==>
            matchAvailable && matchLength <= win.lookahead + 1 && matchLength <= MAX_MATCH
            && IsMatch(win.Input(), win.base + win.matchStart, win.base + win.strStart - 1, matchLength))
    }

    lemma LazyReads()
      requires Lazy()
      ensures win.base + win.strStart <= |win.data|
    {
      hide Window.Valid, Block.Valid, BitSink.Valid, HashReady, Reads, Covers, Covered, Produced;
    }

    /** After the search: the string at `strStart` is inserted, and both the match before it
        and the one for it are true matches. */
    ghost predicate Found()
      reads this`matchAvailable, this`matchLength, this`prevMatch, win, win.window, win.prev
    {
      && Inserted()
      && (matchAvailable ==> win.strStart > 0)
      && (win.prevLength >= MIN_MATCH ==>
            matchAvailable && win.prevLength <= win.lookahead + 1 && win.prevLength <= MAX_MATCH
            && IsMatch(win.Input(), win.base + prevMatch, win.base + win.strStart - 1, win.prevLength))
      && (matchLength >= MIN_MATCH && matchLength > win.prevLength ==>
            matchLength <= win.lookahead && matchLength <= MAX_MATCH
            && IsMatch(win.Input(), win.base + win.matchStart, win.base + win.strStart, matchLength))
      && (matchLength >= 2 || win.lookahead <= 1)
    }

    /** The string at `strStart` is inserted. */
    method Insert()
      requires Sending() && win.Ready() && win.lookahead > 0
      modifies win`insH, win`hashHead, win`next, win`seen, win.prev
      ensures Sending() && Inserted() && (win.hashHead == NIL || win.strStart - win.hashHead > MAX_DIST
        || Candidate(win.Input(), win.base, win.seen, win.strStart, win.hashHead))
      ensures win.LatestBefore() && win.seen == old(win.seen) + {win.base + win.strStart}
    {
      hide Window.Valid, HashReady, Candidate, LowBytes, Compressor.SentTo, Window.LatestBefore;
      win.InsertString();
    }

    ghost predicate Inserted()
      reads win, win.window, win.prev
    {
      && win.Valid() && win.base + win.strStart + win.lookahead == win.pos <= |win.data| && win.next == win.strStart + 1
      && HashReady(win.Input(), win.insH, win.base + win.strStart + 1)
      && (win.pos == |win.data| || win.lookahead >= MIN_LOOKAHEAD) && win.blockStart <= win.strStart
    }

    /** The string at `strStart` is inserted, and the match found before becomes the previous one. */
    method TurnOver()
      requires Lazy() && win.lookahead > 0
      modifies this`matchLength, this`prevMatch, win`insH, win`hashHead, win`next, win`seen, win`prevLength, win.prev
      ensures matchLength == MIN_MATCH - 1 && Found() && Sending() && Room()
      ensures CoversTo(win.base + win.strStart - Pending())
      ensures win.prevLength >= 2 && (win.hashHead == NIL || win.strStart - win.hashHead > MAX_DIST
        || Candidate(win.Input(), win.base, win.seen, win.strStart, win.hashHead))
      ensures win.LatestBefore() && win.seen == old(win.seen) + {win.base + win.strStart}
      ensures win.prevLength == old(matchLength) && prevMatch == win.matchStart
    {
      hide Window.Valid, HashReady, IsMatch, Candidate, Covers, LowBytes, Compressor.SentTo, Window.LatestBefore,
        Window.Configured, AllBelow;
      Insert();
      win.prevLength := matchLength;
      prevMatch := win.matchStart;
      matchLength := MIN_MATCH - 1;
    }

    ghost predicate NearestFound()
      reads this`matchLength, win
    {
      LongestNear(win.Input(), win.seen, win.base + win.Limit(), win.base + win.strStart, win.Tries(win.prevLength),
                  win.prevLength, matchLength, win.base + win.matchStart)
    }

    /** The first part of a step of `zip_deflate_better`. */
    method FindMatch()
      requires Lazy() && win.lookahead > 0
      modifies this`matchLength, this`prevMatch, win`insH, win`hashHead, win`next, win`seen, win`matchStart,
        win`prevLength, win.prev
      ensures Found() && Sending() && Room() && CoversTo(win.base + win.strStart - Pending())
      ensures win.prevLength == old(matchLength) && prevMatch == old(win.matchStart)
      ensures win.seen == old(win.seen) + {win.base + win.strStart} && win.SeenTo(win.base + win.strStart + 1)
      ensures if win.prevLength >= win.maxLazyMatch then matchLength == MIN_MATCH - 1 else NearestFound()
    {
      hide Window.Valid, Block.Valid, BitSink.Valid, HashReady, IsMatch, MatchFound, Candidate, Reads, Covers, Covered,
        Complete, SentOk, Produced, LowBytes, Window.LatestBefore, Longest, LongestNear, Window.Configured,
        Compressor.Found;
      TurnOver();
      SearchIfUseful();
    }

    /** There is a search unless nothing in reach has the key, or the match before is long
        enough. */
    method SearchIfUseful()
      requires Found() && matchLength == MIN_MATCH - 1 && win.prevLength >= 2 && win.LatestBefore()
      requires win.hashHead == NIL || win.strStart - win.hashHead > MAX_DIST
               || Candidate(win.Input(), win.base, win.seen, win.strStart, win.hashHead)
      modifies this`matchLength, win`matchStart
      ensures Found() && if win.prevLength >= win.maxLazyMatch then matchLength == MIN_MATCH - 1 else NearestFound()
    {
      hide Window.Valid, HashReady, IsMatch, MatchFound, Candidate, LowBytes, Window.LatestBefore, Longest, Nearest;
      if win.hashHead == NIL || win.strStart - win.hashHead > MAX_DIST {
        win.NothingInReach();
      }
      if win.hashHead != NIL && win.prevLength < win.maxLazyMatch && win.strStart - win.hashHead <= MAX_DIST {
        SearchLonger();
      }
    }

    /** The search itself, with the test for distant matches. */
    method SearchLonger()
      requires win.Valid() && win.next == win.strStart + 1 && win.base + win.strStart + win.lookahead == win.pos
      requires Candidate(win.Input(), win.base, win.seen, win.strStart, win.hashHead) && win.prevLength >= 2
      requires win.LatestBefore() && (win.pos == |win.data| || win.lookahead >= MIN_LOOKAHEAD)
      modifies this`matchLength, win`matchStart
      ensures win.Valid() && (matchLength >= 2 || win.lookahead <= 1)
      ensures NearestFound()
      ensures matchLength >= MIN_MATCH && matchLength > win.prevLength ==>
        matchLength <= win.lookahead && matchLength <= MAX_MATCH
        && IsMatch(win.Input(), win.base + win.matchStart, win.base + win.strStart, matchLength)
    {
      hide Window.Valid, IsMatch, Covered, Complete, SentOk, Produced, Reads, Covers, LowBytes, Window.LatestBefore,
        Longest, Nearest;
      Search();
      if matchLength == MIN_MATCH && win.strStart - win.matchStart > TOO_FAR {
        matchLength := matchLength - 1;
      }
    }

    /** `zip_longest_match`, and the clamp to what has been read. */
    method Search()
      requires win.Valid() && win.next == win.strStart + 1 && win.base + win.strStart + win.lookahead == win.pos
      requires Candidate(win.Input(), win.base, win.seen, win.strStart, win.hashHead) && win.prevLength >= 2
      requires win.LatestBefore() && (win.pos == |win.data| || win.lookahead >= MIN_LOOKAHEAD)
      modifies this`matchLength, win`matchStart
      ensures win.Valid() && (matchLength >= 2 || win.lookahead <= 1)
      ensures win.LongestFound(matchLength)
      ensures Closest(win.Input(), win.seen, win.base + win.strStart, win.prevLength, matchLength,
                      win.base + win.matchStart)
      ensures matchLength >= MIN_MATCH && matchLength > win.prevLength ==>
        matchLength <= win.lookahead && matchLength <= MAX_MATCH
        && IsMatch(win.Input(), win.base + win.matchStart, win.base + win.strStart, matchLength)
    {
      hide Window.Valid, Candidate, SameRun, Covered, Complete, SentOk, Produced, Reads, Covers, LowBytes,
        Window.LatestBefore, Window.LongestFound, Nearest;
      matchLength := win.LongestMatch(win.hashHead);
      if matchLength > win.lookahead {
        matchLength := win.lookahead;
        win.NothingLonger();
      }
    }

    /** The previous match becomes a token, and its strings are inserted. */
    method TakeMatch() returns (flush: bool, ghost t: Token)
      requires Found() && Sending() && Room() && CoversTo(win.base + win.strStart - Pending())
      requires win.prevLength >= MIN_MATCH && win.lookahead > 0
      modifies win`insH, win`hashHead, win`next, win`seen, win`strStart, win`lookahead, win`prevLength, win.prev,
        block.Repr()
      ensures win.Reading() && HashReady(win.Input(), win.insH, win.base + win.strStart)
      ensures Sending() && CoversTo(win.base + win.strStart) && Space(flush) && win.strStart > 0
      ensures win.strStart == old(win.strStart) + old(win.prevLength) - 1
      ensures win.strStart + win.lookahead == old(win.strStart + win.lookahead)
      ensures Added(old(win.seen), win.seen, win.base + old(win.strStart) + 1, win.base + win.strStart)
      ensures t.Match? && t.length == old(win.prevLength) && t.distance == old(win.strStart) - 1 - prevMatch
      ensures Tallied(old(block.tokens), t, old(win.strStart - win.blockStart), flush)
    {
      hide Window.Valid, Block.Valid, BitSink.Valid, HashReady, IsMatch, Reads, Covers, Covered, Produced, LowBytes,
        Added, Compressor.Tallied;
      MatchIsBack(win.Input(), win.base + prevMatch, win.base + win.strStart - 1, win.prevLength);
      t := Match(win.prevLength, win.strStart - 1 - prevMatch);
      flush := TallyMatch(prevMatch, win.strStart - 1, win.prevLength);
      win.SkipMatch();
    }

    /** The previous match is adopted. */
    method EmitMatch() returns (ghost t: Token)
      requires Found() && Sending() && sink.Ready() && Room() && CoversTo(win.base + win.strStart - Pending())
      requires win.prevLength >= MIN_MATCH && win.lookahead > 0
      modifies this`matchLength, this`matchAvailable, this`blocks, win`blockStart, block.Repr(), sink.Repr(),
        win`insH, win`hashHead, win`next, win`seen, win`strStart, win`lookahead, win`prevLength, win.prev
      ensures win.Reading() && HashReady(win.Input(), win.insH, win.base + win.strStart)
      ensures Sending() && sink.Written() && Room() && CoversTo(win.base + win.strStart)
      ensures !matchAvailable && matchLength == MIN_MATCH - 1 && win.strStart > 0
      ensures win.strStart == old(win.strStart) + old(win.prevLength) - 1
      ensures win.strStart + win.lookahead == old(win.strStart + win.lookahead)
      ensures Added(old(win.seen), win.seen, win.base + old(win.strStart) + 1, win.base + win.strStart)
      ensures t.Match? && t.length == old(win.prevLength) && t.distance == old(win.strStart) - 1 - prevMatch
      ensures Put(old(blocks), old(block.tokens), [t], old(win.strStart - win.blockStart))
    {
      hide Window.Valid, Block.Valid, BitSink.Valid, HashReady, Reads, Covers, Covered, Produced, LowBytes,
        Compressor.Found, Added, Compressor.Tallied, Compressor.Put, SentIf;
      var flush;
      flush, t := TakeMatch();
      matchAvailable := false;
      matchLength := MIN_MATCH - 1;
      FlushIf(flush, old(block.tokens), t, old(win.strStart - win.blockStart));
    }

    /** The byte before becomes a literal. */
    method TakeLiteral() returns (flush: bool, ghost t: Token)
      requires Found() && Sending() && Room() && CoversTo(win.base + win.strStart - Pending()) && matchAvailable
      modifies block.Repr()
      ensures Sending() && CoversTo(win.base + win.strStart) && Space(flush)
      ensures LiteralAt(t, win.Input(), win.base + win.strStart - 1)
      ensures Tallied(old(block.tokens), t, win.strStart - win.blockStart, flush)
    {
      hide Window.Valid, Block.Valid, BitSink.Valid, HashReady, IsMatch, Reads, Covers, Covered, Produced, LowBytes,
        Compressor.Tallied;
      WindowByte(win, win.strStart - 1);
      t := Literal(win.Input()[win.base + (win.strStart - 1)]);
      flush := TallyLiteral(win.strStart - 1);
    }

    /** The byte before is sent by itself: the match there, if any, is shorter than the one
        here. */
    method EmitLiteral() returns (ghost t: Token)
      requires Found() && Sending() && sink.Ready() && Room() && CoversTo(win.base + win.strStart - Pending())
      requires matchAvailable && win.lookahead > 0
      modifies this`blocks, win`blockStart, win`strStart, win`lookahead, block.Repr(), sink.Repr()
      ensures Sending() && sink.Written() && Room() && Advanced()
      ensures CoversTo(win.base + win.strStart - 1)
      ensures win.strStart == old(win.strStart) + 1 && win.lookahead == old(win.lookahead) - 1
      ensures LiteralAt(t, win.Input(), win.base + win.strStart - 2)
      ensures Put(old(blocks), old(block.tokens), [t], old(win.strStart - win.blockStart))
    {
      hide Window.Valid, Block.Valid, BitSink.Valid, HashReady, IsMatch, Reads, Covers, Covered, Produced, LowBytes,
        Compressor.Tallied, Compressor.Put, SentIf, LiteralAt;
      var flush;
      flush, t := TakeLiteral();
      FlushIf(flush, old(block.tokens), t, old(win.strStart - win.blockStart));
      Advance();
    }

    /** The next position, when the string here is inserted. */
    method Advance()
      requires Sending() && Inserted() && win.lookahead > 0
      modifies win`strStart, win`lookahead
      ensures Sending() && Advanced()
      ensures win.strStart == old(win.strStart) + 1 && win.lookahead == old(win.lookahead) - 1
    {
      hide Block.Valid, BitSink.Valid, HashReady, Reads, Covered, Produced, LowBytes;
      win.strStart := win.strStart + 1;
      win.lookahead := win.lookahead - 1;
    }

    /** One step further, with a match for the byte before, if any is adopted later. */
    ghost predicate Advanced()
      reads win, win.window, win.prev
    {
      && win.Reading() && HashReady(win.Input(), win.insH, win.base + win.strStart) && win.strStart > 0
      && (win.pos == |win.data| || win.lookahead + 1 >= MIN_LOOKAHEAD)
    }

    /** `Lazy`, before more input is read. */
    ghost predicate Decided()
      reads this`level, this`matchAvailable, this`matchLength, this`blocks, win, win.window, win.prev, block.Repr(),
        sink, sink.out, sink.out.outbuf, sink.out.queue, sink.out.queue.Repr
    {
      && Set() && win.SeenTo(win.base + win.strStart)
      && win.Reading() && HashReady(win.Input(), win.insH, win.base + win.strStart) && Sending() && Room()
      && win.strStart > 0 && CoversTo(win.base + win.strStart - Pending())
      && (matchLength >= 2 || (win.lookahead == 0 && win.pos == |win.data|))
      && (matchLength >= MIN_MATCH ==>
            matchAvailable && matchLength <= win.lookahead + 1 && matchLength <= MAX_MATCH
            && IsMatch(win.Input(), win.base + win.matchStart, win.base + win.strStart - 1, matchLength))
    }

    /** Between the search and the decision. */
    ghost predicate Looking()
      reads this`level, this`matchAvailable, this`matchLength, this`prevMatch, this`blocks, win, win.window, win.prev,
        block.Repr(), sink, sink.out, sink.out.outbuf, sink.out.queue, sink.out.queue.Repr
    {
      && Found() && Sending() && Room() && CoversTo(win.base + win.strStart - Pending())
      && win.lookahead > 0 && Set() && win.SeenTo(win.base + win.strStart + 1)
    }

    /** The decision between the match before, the byte before, and waiting. */
    method Decide() returns (ghost sent: seq<Token>)
      requires Looking() && sink.Ready()
      modifies this`matchLength, this`matchAvailable, this`blocks, win`blockStart, block.Repr(), sink.Repr(),
        win`insH, win`hashHead, win`next, win`seen, win`strStart, win`lookahead, win`prevLength, win.prev
      ensures Decided() && sink.Written()
      ensures Put(old(blocks), old(block.tokens), sent, old(win.strStart - win.blockStart))
      ensures if old(win.prevLength >= MIN_MATCH && matchLength <= win.prevLength)
        then MatchSent(sent, old(win.prevLength), old(win.strStart) - 1 - prevMatch)
             && win.strStart == old(win.strStart) + old(win.prevLength) - 1 && !matchAvailable && matchLength == 2
        else (if !old(matchAvailable) then sent == []
              else LiteralSent(sent, win.Input(), win.base + old(win.strStart) - 1))
             && win.strStart == old(win.strStart) + 1 && matchAvailable && matchLength == old(matchLength)
    {
      hide Window.Valid, Block.Valid, BitSink.Valid, HashReady, IsMatch, Reads, Covers, Covered, Complete, SentOk,
        Produced, LowBytes, Compressor.Put, SentIf, LiteralAt, Window.Configured, Added, AllBelow;
      if win.prevLength >= MIN_MATCH && matchLength <= win.prevLength {
        ghost var was, next := win.seen, win.base + win.strStart + 1;
        ghost var t := EmitMatch();
        AddedAll(was, win.seen, next, win.base + win.strStart);
        sent := [t];
      } else if matchAvailable {
        ghost var t := EmitLiteral();
        sent := [t];
      } else {
        Wait();
        sent := [];
      }
    }

    /** There is nothing to compare with yet. */
    method Wait()
      requires Found() && Sending() && sink.Ready() && Room() && CoversTo(win.base + win.strStart) && !matchAvailable
      requires win.lookahead > 0
      modifies this`matchAvailable, win`strStart, win`lookahead
      ensures Sending() && sink.Written() && Room() && Advanced() && CoversTo(win.base + win.strStart - 1)
      ensures Put(blocks, block.tokens, [], old(win.strStart - win.blockStart))
      ensures matchAvailable && win.strStart == old(win.strStart) + 1 && win.lookahead == old(win.lookahead) - 1
    {
      hide Window.Valid, Block.Valid, BitSink.Valid, HashReady, IsMatch, Reads, Covers, Covered, Produced, LowBytes,
        Compressor.Put;
      PutNothing();
      matchAvailable := true;
      Advance();
    }

    lemma PutNothing()
      requires block.Valid()
      ensures Put(blocks, block.tokens, [], win.strStart - win.blockStart)
    {
      hide TablesFit, TokensOk, Block.Valid;
      TokensFit(block);
      assert block.tokens + [] == block.tokens;
    }

    /** One step of `zip_deflate_better`: a search for the string at `strStart`, which finds
        `found` bytes at position `at`, and the decision what to send. */
    method LazyStep() returns (ghost found: nat, ghost at: int, ghost sent: seq<Token>)
      requires Lazy() && sink.Ready() && win.lookahead > 0
      modifies this`matchLength, this`prevMatch, this`matchAvailable, this`blocks, win, win.window, win.prev,
        block.Repr(), sink.Repr()
      ensures Lazy() && sink.Ready() && sink.out.taken == old(sink.out.taken) && old(sink.out.put) <= sink.out.put
      ensures old(sink.Repr()) <= sink.Repr() && fresh(sink.Repr() - old(sink.Repr())) && win.data == old(win.data)
      ensures old(win.base + win.strStart) < win.base + win.strStart <= |win.data|
      ensures if old(matchLength >= win.maxLazyMatch) then found == MIN_MATCH - 1
              else LongestNear(win.Input(), old(win.seen),
                               old(win.base + if win.strStart > MAX_DIST then win.strStart - MAX_DIST else 0),
                               old(win.base + win.strStart),
                               old(if matchLength >= win.goodMatch then win.maxChainLength / 4 else win.maxChainLength),
                               old(matchLength), found, at)
      ensures Put(old(blocks), old(block.tokens), sent, old(win.strStart - win.blockStart))
      ensures var p, len, m := old(win.base + win.strStart), old(matchLength), old(win.base + win.matchStart);
        if len >= MIN_MATCH && found <= len
        then MatchSent(sent, len, p - 1 - m) && win.base + win.strStart == p - 1 + len
             && !matchAvailable && matchLength == 2
        else (if old(matchAvailable) then LiteralSent(sent, win.Input(), p - 1) else sent == [])
             && win.base + win.strStart == p + 1 && matchAvailable && matchLength == found
             && win.base + win.matchStart == at
    {
      hide Window.Valid, Block.Valid, BitSink.Valid, HashReady, IsMatch, Reads, Covers, Covered, Complete, SentOk,
        Produced, LowBytes, Compressor.Put, LiteralSent, MatchSent, LongestNear, Window.Configured, AllBelow;
      found, at, sent := Choose();
      ReadMore();
    }

    /** What a step of `zip_deflate_better` does before more input is read. */
    method Choose() returns (ghost found: nat, ghost at: int, ghost sent: seq<Token>)
      requires Lazy() && sink.Ready() && win.lookahead > 0
      modifies this`matchLength, this`prevMatch, this`matchAvailable, this`blocks, win`blockStart, win`matchStart,
        block.Repr(), sink.Repr(), win`insH, win`hashHead, win`next, win`seen, win`strStart, win`lookahead,
        win`prevLength, win.prev
      ensures Decided() && sink.Written() && win.base + win.matchStart == at
      ensures if old(matchLength >= win.maxLazyMatch) then found == MIN_MATCH - 1
              else LongestNear(win.Input(), old(win.seen), win.base + old(win.Limit()), win.base + old(win.strStart),
                               win.Tries(old(matchLength)), old(matchLength), found, at)
      ensures Put(old(blocks), old(block.tokens), sent, old(win.strStart - win.blockStart))
      ensures var p, len, m := old(win.strStart), old(matchLength), old(win.matchStart);
        if len >= MIN_MATCH && found <= len
        then MatchSent(sent, len, p - 1 - m) && win.strStart == p - 1 + len && !matchAvailable && matchLength == 2
        else (if old(matchAvailable) then LiteralSent(sent, win.Input(), win.base + p - 1) else sent == [])
             && win.strStart == p + 1 && matchAvailable && matchLength == found
    {
      hide Window.Valid, Block.Valid, BitSink.Valid, HashReady, IsMatch, Reads, Covers, Covered, Complete, SentOk,
        Produced, LowBytes, Compressor.Put, LiteralSent, MatchSent, LongestNear, Compressor.Lazy, Compressor.Looking,
        Compressor.Decided, BitSink.Ready, Window.Limit, Window.Tries;
      found, at := LookAhead();
      sent := Decide();
    }

    /** The search, as seen from the chains before it. */
    method LookAhead() returns (ghost found: nat, ghost at: int)
      requires Lazy() && win.lookahead > 0
      modifies this`matchLength, this`prevMatch, win`insH, win`hashHead, win`next, win`seen, win`matchStart,
        win`prevLength, win.prev
      ensures Looking() && Apart() && win.prevLength == old(matchLength) && prevMatch == old(win.matchStart)
      ensures found == matchLength && at == win.base + win.matchStart
      ensures if win.prevLength >= win.maxLazyMatch then found == MIN_MATCH - 1
              else LongestNear(win.Input(), old(win.seen), win.base + win.Limit(), win.base + win.strStart,
                               win.Tries(win.prevLength), win.prevLength, found, at)
    {
      hide Window.Valid, Block.Valid, BitSink.Valid, HashReady, IsMatch, Reads, Covers, Covered, Complete, SentOk,
        Produced, LowBytes, LongestNear, Window.Configured, AllBelow, Compressor.Found, Compressor.SentTo;
      FindMatch();
      found, at := matchLength, win.base + win.matchStart;
      if win.prevLength < win.maxLazyMatch {
        NearBefore(win.Input(), old(win.seen), win.base + win.Limit(), win.base + win.strStart,
                   win.Tries(win.prevLength), win.prevLength, found, at);
      }
    }

    /** More input, if there is not enough to look ahead. */
    method ReadMore()
      requires Decided() && sink.Ready()
      modifies win, win.window, win.prev
      ensures Lazy() && sink.Ready() && win.data == old(win.data)
      ensures win.base + win.strStart == old(win.base + win.strStart)
      ensures win.base + win.matchStart == old(win.base + win.matchStart)
    {
      hide Window.Valid, HashReady, IsMatch, Covers, LowBytes, BitSink.Valid, Compressor.SentTo;
      win.Refill();
    }

    /** `zip_deflate_better` */
    method DeflateBetter()
      requires Lazy() && sink.Ready()
      modifies this`matchLength, this`prevMatch, this`matchAvailable, this`blocks, win, win.window, win.prev,
        block.Repr(), sink.Repr()
      ensures Lazy() && sink.Written() && win.data == old(win.data)
      ensures win.lookahead == 0 || sink.out.queue.qhead != null
      ensures old(win.lookahead != 0 && sink.out.queue.qhead == null) ==>
        win.base + win.strStart > old(win.base + win.strStart)
    {
      hide Compressor.Lazy, BitSink.Valid, BitSink.Ready, BitSink.Repr;
      LazyReads();
      ghost var begun := win.lookahead != 0 && sink.out.queue.qhead == null;
      ghost var at, data := win.base + win.strStart, win.data;
      ghost var all, taken, put := sink.Repr(), sink.out.taken, sink.out.put;
      while win.lookahead != 0 && sink.out.queue.qhead == null
        invariant Lazy() && sink.Ready() && win.data == data
        invariant all <= sink.Repr() && fresh(sink.Repr() - all) && sink.out.taken == taken && put <= sink.out.put
        invariant at <= win.base + win.strStart <= |data|
        invariant begun && win.base + win.strStart == at ==> win.lookahead != 0 && sink.out.queue.qhead == null
        decreases |data| - (win.base + win.strStart)
      {
        ghost var before := sink.Repr();
        label Step:
        ghost var found, at, sent := LazyStep();
        forall o | o in sink.Repr() && o !in before
          ensures fresh(o)
        {
          assert !old@Step(allocated(o));
        }
      }
    }

    // ---- matching without looking ahead ---------------------------------------------

    /** Between two steps of `zip_deflate_fast`. */
    ghost predicate Eager()
      reads this`level, this`matchLength, this`blocks, win, win.window, win.prev, block.Repr(), sink, sink.out,
        sink.out.outbuf, sink.out.queue, sink.out.queue.Repr
    {
      && win.Ready() && Sending() && Room() && Set() && CoversTo(win.base + win.strStart)
      && (win.strStart > 0 || win.base + win.strStart == 0)
      && matchLength < MIN_MATCH && win.prevLength == MIN_MATCH - 1
    }

    lemma EagerReads()
      requires Eager()
      ensures win.base + win.strStart <= |win.data|
    {
      hide Window.Valid, Block.Valid, BitSink.Valid, HashReady, Reads, Covers, Covered, Produced;
    }

    /** After a token of `zip_deflate_fast`, before the block is flushed. */
    ghost predicate Moved()
      reads this`matchLength, this`blocks, win, win.window, win.prev, block.Repr(), sink, sink.out, sink.out.outbuf,
        sink.out.queue, sink.out.queue.Repr
    {
      && win.Reading() && HashReady(win.Input(), win.insH, win.base + win.strStart) && Sending() && win.strStart > 0
      && CoversTo(win.base + win.strStart) && matchLength < MIN_MATCH && win.prevLength == MIN_MATCH - 1
    }

    /** The string at `strStart` is inserted, and a match for it, if any, is a true one. */
    ghost predicate Searched()
      reads this`matchLength, win, win.window, win.prev
    {
      && Inserted() && win.lookahead > 0
      && win.prevLength == MIN_MATCH - 1
      && (matchLength >= MIN_MATCH ==>
            matchLength <= win.lookahead && matchLength <= MAX_MATCH
            && IsMatch(win.Input(), win.base + win.matchStart, win.base + win.strStart, matchLength))
    }

    /** The match is sent; its strings are inserted unless it is long. */
    method SendMatch() returns (flush: bool, ghost t: Token)
      requires Searched() && Sending() && Room() && CoversTo(win.base + win.strStart) && matchLength >= MIN_MATCH
      modifies this`matchLength, win`insH, win`hashHead, win`next, win`seen, win`strStart, win`lookahead, win.prev,
        block.Repr()
      ensures Moved() && Space(flush) && win.strStart == old(win.strStart) + old(matchLength)
      ensures if old(matchLength) <= win.maxLazyMatch
              then Added(old(win.seen), win.seen, win.base + old(win.strStart) + 1, win.base + win.strStart)
              else win.seen == old(win.seen)
      ensures t.Match? && t.length == old(matchLength) && t.distance == old(win.strStart) - win.matchStart
      ensures Tallied(old(block.tokens), t, old(win.strStart - win.blockStart), flush)
    {
      hide Window.Valid, Block.Valid, BitSink.Valid, HashReady, Covers, LowBytes, IsMatch, Added, Compressor.Tallied,
        Reads, Covered, Produced, Compressor.Moved, Compressor.Searched, Compressor.SentTo;
      flush, t := TakeMatchHere();
      PassMatchHere();
    }

    method TakeMatchHere() returns (flush: bool, ghost t: Token)
      requires Searched() && Sending() && Room() && CoversTo(win.base + win.strStart) && matchLength >= MIN_MATCH
      modifies block.Repr()
      ensures Searched() && Sending() && CoversTo(win.base + win.strStart + matchLength) && Space(flush)
      ensures t.Match? && t.length == matchLength && t.distance == win.strStart - win.matchStart
      ensures Tallied(old(block.tokens), t, win.strStart - win.blockStart, flush)
    {
      hide Window.Valid, Block.Valid, BitSink.Valid, HashReady, Covers, LowBytes, IsMatch, Reads, Covered, Produced,
        Compressor.Tallied;
      MatchIsBack(win.Input(), win.base + win.matchStart, win.base + win.strStart, matchLength);
      t := Match(matchLength, win.strStart - win.matchStart);
      flush := TallyMatch(win.matchStart, win.strStart, matchLength);
    }

    method PassMatchHere()
      requires Searched() && Sending() && CoversTo(win.base + win.strStart + matchLength) && matchLength >= MIN_MATCH
      modifies this`matchLength, win`insH, win`hashHead, win`next, win`seen, win`strStart, win`lookahead, win.prev
      ensures Moved() && win.strStart == old(win.strStart) + old(matchLength)
      ensures if old(matchLength) <= win.maxLazyMatch
              then Added(old(win.seen), win.seen, win.base + old(win.strStart) + 1, win.base + win.strStart)
              else win.seen == old(win.seen)
    {
      hide Window.Valid, HashReady, Covers, LowBytes, IsMatch, Compressor.SentTo, Added;
      win.PassMatch(matchLength);
      matchLength := 0;
    }

    /** No match: a literal. */
    method SendLiteral() returns (flush: bool, ghost t: Token)
      requires Searched() && Sending() && Room() && CoversTo(win.base + win.strStart) && matchLength < MIN_MATCH
      modifies win`strStart, win`lookahead, block.Repr()
      ensures Moved() && Space(flush) && win.strStart == old(win.strStart) + 1
      ensures LiteralAt(t, win.Input(), win.base + old(win.strStart))
      ensures Tallied(old(block.tokens), t, old(win.strStart - win.blockStart), flush)
    {
      hide Window.Valid, Block.Valid, BitSink.Valid, HashReady, IsMatch, Reads, Covers, Covered, Complete, SentOk,
        Produced, LowBytes, Compressor.Tallied;
      WindowByte(win, win.strStart);
      t := Literal(win.Input()[win.base + win.strStart]);
      flush := TallyLiteral(win.strStart);
      win.lookahead := win.lookahead - 1;
      win.strStart := win.strStart + 1;
    }

    /** The first part of a step of `zip_deflate_fast`. */
    method FindNow()
      requires Eager() && win.lookahead > 0
      modifies this`matchLength, win`insH, win`hashHead, win`next, win`seen, win`matchStart, win.prev
      ensures Searched() && Sending() && Room() && CoversTo(win.base + win.strStart)
      ensures win.seen == old(win.seen) + {win.base + win.strStart} && win.LongestFound(matchLength)
      ensures Closest(win.Input(), win.seen, win.base + win.strStart, MIN_MATCH - 1, matchLength,
                      win.base + win.matchStart)
    {
      hide Window.Valid, Block.Valid, BitSink.Valid, HashReady, IsMatch, Candidate, Reads, Covers, Covered, Complete,
        SentOk, Produced, LowBytes, Window.LatestBefore, Window.LongestFound,
        Window.Configured, MatchFound, Closest;
      Insert();
      if win.hashHead != NIL && win.strStart - win.hashHead <= MAX_DIST {
        Search();
      } else {
        win.NothingInReach();
        win.LongestShort(matchLength);
        NoMatchIsClosest(win.Input(), win.seen, win.base + win.strStart, MIN_MATCH - 1, matchLength,
                         win.base + win.matchStart);
      }
    }

    /** The end of a step: the block, if it is full, and more input. */
    method EndStep(flush: bool, ghost before: seq<Token>, ghost t: Token, ghost inLength: int)
      requires Moved() && sink.Ready() && Space(flush) && Set() && Tallied(before, t, inLength, flush)
      modifies this`blocks, win, win.window, win.prev, block.Repr(), sink.Repr()
      ensures Eager() && sink.Written() && win.data == old(win.data)
      ensures old(win.base + win.strStart) == win.base + win.strStart <= |win.data|
      ensures Put(old(blocks), before, [t], inLength)
      ensures win.seen == old(win.seen) && win.maxLazyMatch == old(win.maxLazyMatch)
    {
      hide Window.Valid, Block.Valid, BitSink.Valid, HashReady, IsMatch, Reads, Covers, Covered, Complete, SentOk,
        Produced, LowBytes, Compressor.Tallied, Compressor.Put, Window.Configured;
      FlushIf(flush, before, t, inLength);
      ReadAhead();
    }

    method ReadAhead()
      requires Moved() && sink.Ready() && Room() && Set()
      modifies win, win.window, win.prev
      ensures Eager() && sink.Ready() && win.data == old(win.data)
      ensures old(win.base + win.strStart) == win.base + win.strStart <= |win.data|
      ensures win.seen == old(win.seen) && win.maxLazyMatch == old(win.maxLazyMatch)
    {
      hide Window.Valid, HashReady, IsMatch, Covers, LowBytes, BitSink.Valid, Compressor.SentTo, Window.Configured;
      win.Refill();
    }

    /** One step of `zip_deflate_fast`: a search, which finds `found` bytes at position `at`, and
        the token for them; what a long match repeats does not get into the chains. */
    method EagerStep() returns (ghost found: nat, ghost at: int, ghost t: Token)
      requires Eager() && sink.Ready() && win.lookahead > 0
      modifies this`matchLength, this`blocks, win, win.window, win.prev, block.Repr(), sink.Repr()
      ensures Eager() && sink.Ready() && sink.out.taken == old(sink.out.taken) && old(sink.out.put) <= sink.out.put
      ensures old(sink.Repr()) <= sink.Repr() && fresh(sink.Repr() - old(sink.Repr())) && win.data == old(win.data)
      ensures old(win.base + win.strStart) < win.base + win.strStart <= |win.data|
      ensures Longest(win.Input(), old(win.seen),
                      old(win.base + if win.strStart > MAX_DIST then win.strStart - MAX_DIST else 0),
                      old(win.base + win.strStart), old(win.maxChainLength), if found < 2 then 2 else found)
      ensures Closest(win.Input(), old(win.seen), old(win.base + win.strStart), MIN_MATCH - 1, found, at)
      ensures Put(old(blocks), old(block.tokens), [t], old(win.strStart - win.blockStart))
      ensures var p := old(win.base + win.strStart);
        if found >= MIN_MATCH
        then t.Match? && t.length == found && t.distance == p - at && win.base + win.strStart == p + found
        else LiteralAt(t, win.Input(), p) && win.base + win.strStart == p + 1
      ensures Added(old(win.seen), win.seen, old(win.base + win.strStart),
                    if found <= win.maxLazyMatch then win.base + win.strStart else old(win.base + win.strStart) + 1)
    {
      hide Window.Valid, Block.Valid, BitSink.Valid, HashReady, IsMatch, Candidate, Reads, Covers, Covered, Complete,
        SentOk, Produced, LowBytes, Compressor.Put, Compressor.Tallied, LiteralAt, Longest, Window.Configured,
        Compressor.SentTo, Added, Closest;
      ghost var before, inLength := block.tokens, win.strStart - win.blockStart;
      var flush;
      EveryString();
      flush, found, at, t := EagerToken();
      EndStep(flush, before, t, inLength);
    }

    /** Without a match before, a search goes through the whole chain. */
    lemma EveryString()
      requires Set()
      ensures win.Tries(MIN_MATCH - 1) == win.maxChainLength
    {
    }

    /** What a step of `zip_deflate_fast` does before the block is sent, if it is due. */
    method EagerToken() returns (flush: bool, ghost found: nat, ghost at: int, ghost t: Token)
      requires Eager() && win.lookahead > 0
      modifies this`matchLength, win`insH, win`hashHead, win`next, win`seen, win`matchStart, win`strStart,
        win`lookahead, win.prev, block.Repr()
      ensures Moved() && Space(flush) && Tallied(old(block.tokens), t, old(win.strStart - win.blockStart), flush)
      ensures Longest(win.Input(), old(win.seen), win.base + old(win.Limit()), win.base + old(win.strStart),
                      win.Tries(MIN_MATCH - 1), if found < 2 then 2 else found)
      ensures Closest(win.Input(), old(win.seen), win.base + old(win.strStart), MIN_MATCH - 1, found, at)
      ensures if found >= MIN_MATCH
        then t.Match? && t.length == found && t.distance == win.base + old(win.strStart) - at
             && win.strStart == old(win.strStart) + found
        else LiteralAt(t, win.Input(), win.base + old(win.strStart)) && win.strStart == old(win.strStart) + 1
      ensures Added(old(win.seen), win.seen, win.base + old(win.strStart),
                    win.base + if found <= win.maxLazyMatch then win.strStart else old(win.strStart) + 1)
    {
      hide Window.Valid, Block.Valid, BitSink.Valid, HashReady, IsMatch, Candidate, Reads, Covers, Covered, Complete,
        SentOk, Produced, LowBytes, Compressor.Put, Compressor.Tallied, LiteralAt, Longest, Window.Configured,
        Compressor.SentTo, Added, Compressor.Moved, Compressor.Searched, Closest;
      FindNow();
      ghost var p := win.base + win.strStart;
      found, at := matchLength, win.base + win.matchStart;
      LongestBefore(win.Input(), old(win.seen), win.base + win.Limit(), p, win.Tries(MIN_MATCH - 1),
                    if found < 2 then 2 else found);
      ClosestBefore(win.Input(), old(win.seen), p, MIN_MATCH - 1, found, at);
      flush, t := TakeNow();
      AddedFirst(old(win.seen), p, win.seen, if found <= win.maxLazyMatch then win.base + win.strStart else p + 1);
    }

    /** The token for what was found, and the strings that it stands for. */
    method TakeNow() returns (flush: bool, ghost t: Token)
      requires Searched() && Sending() && Room() && CoversTo(win.base + win.strStart) && Set()
      modifies this`matchLength, win`insH, win`hashHead, win`next, win`seen, win`strStart, win`lookahead, win.prev,
        block.Repr()
      ensures Moved() && Space(flush) && Tallied(old(block.tokens), t, old(win.strStart - win.blockStart), flush)
      ensures if old(matchLength) >= MIN_MATCH
        then t.Match? && t.length == old(matchLength) && t.distance == old(win.strStart) - win.matchStart
             && win.strStart == old(win.strStart) + old(matchLength)
        else LiteralAt(t, win.Input(), win.base + old(win.strStart)) && win.strStart == old(win.strStart) + 1
      ensures Added(old(win.seen), win.seen, win.base + old(win.strStart) + 1,
                    win.base + if old(matchLength) <= win.maxLazyMatch then win.strStart else old(win.strStart) + 1)
    {
      hide Window.Valid, Block.Valid, BitSink.Valid, HashReady, IsMatch, Candidate, Reads, Covers, Covered, Complete,
        SentOk, Produced, LowBytes, Compressor.Tallied, LiteralAt, Compressor.SentTo, Added, Compressor.Moved;
      AddedNone(win.seen, win.base + win.strStart + 1);
      if matchLength >= MIN_MATCH {
        flush, t := SendMatch();
      } else {
        flush, t := SendLiteral();
      }
    }

    /** `zip_deflate_fast` */
    method DeflateFast()
      requires Eager() && sink.Ready()
      modifies this`matchLength, this`blocks, win, win.window, win.prev, block.Repr(), sink.Repr()
      ensures Eager() && sink.Written() && win.data == old(win.data)
      ensures win.lookahead == 0 || sink.out.queue.qhead != null
      ensures old(win.lookahead != 0 && sink.out.queue.qhead == null) ==>
        win.base + win.strStart > old(win.base + win.strStart)
    {
      hide Compressor.Eager, BitSink.Valid, BitSink.Ready, BitSink.Repr;
      EagerReads();
      ghost var begun := win.lookahead != 0 && sink.out.queue.qhead == null;
      ghost var at, data := win.base + win.strStart, win.data;
      ghost var all, taken, put := sink.Repr(), sink.out.taken, sink.out.put;
      while win.lookahead != 0 && sink.out.queue.qhead == null
        invariant Eager() && sink.Ready() && win.data == data
        invariant all <= sink.Repr() && fresh(sink.Repr() - all) && sink.out.taken == taken && put <= sink.out.put
        invariant at <= win.base + win.strStart <= |data|
        invariant begun && win.base + win.strStart == at ==> win.lookahead != 0 && sink.out.queue.qhead == null
        decreases |data| - (win.base + win.strStart)
      {
        ghost var before := sink.Repr();
        label Step:
        ghost var found, at, t := EagerStep();
        forall o | o in sink.Repr() && o !in before
          ensures fresh(o)
        {
          assert !old@Step(allocated(o));
        }
      }
    }

    // ---- a whole run ----------------------------------------------------------------

    /** No run is under way: everything of the last one was handed out. */
    ghost predicate Idle()
      reads this`level, win, block.Repr(), sink, sink.out, sink.out.outbuf, sink.out.queue, sink.out.queue.Repr
    {
      && Apart() && block.Valid() && block.tokens == [] && block.lastLit == 0 && sink.Valid()
      && sink.out.taken == |sink.out.put|
      && win.window.Length == WINDOW_SIZE && win.prev.Length == WINDOW_SIZE && win.window != win.prev
      && win.pos == 0 && !win.eofile && 1 <= level <= 9
    }

    /** There is input left to compress. */
    ghost predicate Running()
      reads this`level, this`matchAvailable, this`matchLength, this`blocks, win, win.window, win.prev, block.Repr(),
        sink, sink.out, sink.out.outbuf, sink.out.queue, sink.out.queue.Repr
    {
      win.lookahead > 0 && 1 <= level <= 9 && if level <= 3 then Eager() else Lazy()
    }

    /** The last block is sent, and the last byte padded; or there was no input at all. */
    ghost predicate Ended()
      reads this`level, this`matchAvailable, this`blocks, this`final, win, block.Repr(), sink, sink.out,
        sink.out.outbuf, sink.out.queue, sink.out.queue.Repr
    {
      && Apart() && block.Valid() && block.tokens == [] && block.lastLit == 0 && sink.Valid() && sink.biValid == 0
      && (if win.data == [] then sink.bits == []
          else InflateBits(sink.bits, []) == Produced(blocks, final) && Complete(blocks, win.Input(), ViaTokens()))
    }

    method InitMatching()
      requires 1 <= level <= 9
      modifies this`matchLength, this`matchAvailable, win`prevLength
      ensures matchAvailable == (level <= 3 && old(matchAvailable))
      ensures if level <= 3 then matchLength == 0 && win.prevLength == MIN_MATCH - 1 else matchLength == MIN_MATCH - 1
    {
      if level <= 3 {
        win.prevLength := MIN_MATCH - 1;
        matchLength := 0;
      } else {
        matchLength := MIN_MATCH - 1;
        matchAvailable := false;
      }
    }

    /** Nothing is sent. */
    method StartOutput()
      requires Idle()
      modifies this`blocks, sink, sink.out
      ensures Apart() && SentTo(win.Input(), 0) && sink.Ready() && block.tokens == [] && block.lastLit == 0
      ensures blocks == []
      ensures sink.bits == [] && sink.biValid == 0 && sink.out.taken == 0 && sink.out.put == []
      ensures win.window.Length == WINDOW_SIZE && win.prev.Length == WINDOW_SIZE && win.window != win.prev
      ensures win.pos == 0
      ensures 1 <= level <= 9
    {
      hide Block.Valid, BitSink.Valid, Reads, LowBytes, Covered, Produced;
      sink.Restart();
      blocks := [];
      NothingRead();
      NothingCovered(win.Input());
      assert win.Input()[..0] == [];
    }

    lemma NothingToDo()
      requires Apart() && SentTo(win.Input(), 0) && block.tokens == [] && block.lastLit == 0 && win.data == []
      requires sink.bits == [] && sink.biValid == 0
      ensures Ended()
    {
      hide Block.Valid, BitSink.Valid, Reads, LowBytes, Covered, Produced;
    }

    /** The window is filled and the method prepared, unless there is no input. */
    method StartMatching()
      requires Apart() && SentTo(win.Input(), 0) && block.tokens == [] && block.lastLit == 0
      requires win.window.Length == WINDOW_SIZE && win.prev.Length == WINDOW_SIZE && win.window != win.prev
      requires win.pos == 0
      requires 1 <= level <= 9
      modifies this`matchLength, this`matchAvailable, win, win.window, win.prev
      ensures Apart() && SentTo(win.Input(), 0) && block.tokens == [] && block.lastLit == 0
      ensures win.data == old(win.data) && win.base + win.strStart == 0 && (win.lookahead == 0 <==> win.data == [])
      ensures win.data != [] ==> Running()
      ensures matchAvailable == (level <= 3 && old(matchAvailable))
    {
      hide Window.Valid, HashReady, IsMatch, Covers, LowBytes, Compressor.SentTo;
      win.Init(level);
      InitMatching();
      CoverNothing(win.Input(), 0);
    }

    /** `zip_init_deflate` */
    method InitDeflate()
      requires Idle()
      modifies this`matchLength, this`matchAvailable, this`blocks, this`complete, win, win.window, win.prev, sink,
        sink.out
      ensures win.data == old(win.data) && blocks == [] && !complete && sink.bits == [] && sink.out.taken == 0
      ensures sink.out.put == []
      ensures win.base + win.strStart == 0 && (win.lookahead == 0 <==> win.data == [])
      ensures win.data != [] ==> Running() && sink.Ready()
      ensures win.data == [] ==> Ended()
      ensures matchAvailable == (level <= 3 && old(matchAvailable))
    {
      hide Window.Valid, Window.Ready, BitSink.Valid, LowBytes, Covers, Compressor.SentTo, Compressor.Ended,
        Compressor.Idle;
      StartOutput();
      StartMatching();
      complete := false;
      if win.data == [] {
        NothingToDo();
      }
    }

    /** All input is consumed and in tokens, but for the byte that may be pending. */
    ghost predicate Consumed()
      reads this`level, this`matchAvailable, this`matchLength, this`blocks, win, win.window, win.prev, block.Repr(),
        sink, sink.out, sink.out.outbuf, sink.out.queue, sink.out.queue.Repr
    {
      && (if level <= 3 then Eager() else Lazy()) && win.lookahead == 0 && win.data != []
    }

    /** What the tokens stand for after the last literal: with the fast method nothing is
        pending, and the last byte is sent twice. */
    ghost function ViaTokens(): (r: seq<int>)
      requires win.data != []
      reads this`level, this`matchAvailable, win
      ensures win.Input() <= r
    {
      WithLast(win.Input(), level <= 3 && matchAvailable)
    }

    /** The literal that `zip_deflate_internal` sends when a byte is pending. */
    method TallyLast()
      requires Consumed() && sink.Ready()
      modifies block.Repr()
      ensures Apart() && block.Valid() && win.Valid() && 0 <= win.base + win.blockStart <= |win.data|
      ensures Expand(block.tokens, win.Input()[..win.base + win.blockStart]) == Some(ViaTokens())
    {
      hide Window.Valid, Block.Valid, BitSink.Valid, IsMatch, HashReady, Profitable, Covers, Expand, Reads, LowBytes,
        Covered, Complete, SentOk, Produced;
      ghost var input, b := win.Input(), win.base + win.blockStart;
      if matchAvailable {
        WindowByte(win, win.strStart - 1);
        LastLiteral(block.tokens, input, b, level <= 3);
        var flush := block.Tally(0, ToByte(win.At(win.strStart - 1)), level, win.strStart - win.blockStart);
      } else {
        CoversAll(block.tokens, input, b);
      }
    }

    /** The end of the input: the pending byte, the last block, and the padding. */
    method Finish()
      requires Consumed() && sink.Ready()
      modifies this`blocks, this`complete, this`final, block.Repr(), sink.Repr()
      ensures Ended() && complete && sink.Written() && sink.out.taken < |sink.out.put|
      ensures blocks != []
      ensures final == if blocks[|blocks| - 1].kind.Stored? then win.Input() else ViaTokens()
    {
      hide Window.Valid, Block.Valid, BitSink.Valid, Reads, Expand, Intact, InflateBits, IsMatch, HashReady, Covers,
        Covered, Complete, SentOk, Produced, LowBytes;
      PutWithin(sink);
      ghost var bits0 := sink.bits;
      TallyLast();
      assert Sending();
      LastBlock();
      complete := true;
      PutWithin(sink);
    }

    /** What `zip_deflate_internal` does between its two copies. */
    method Compress()
      requires Running() && sink.Ready() && !complete && win.data != []
      modifies this`matchLength, this`prevMatch, this`matchAvailable, this`blocks, this`complete, this`final,
        win, win.window, win.prev, block.Repr(), sink.Repr()
      ensures sink.Written() && sink.out.taken < |sink.out.put| && win.data == old(win.data)
      ensures Apart() && if complete then Ended() else Running()
      ensures old(sink.out.queue.qhead == null) ==> win.base + win.strStart > old(win.base + win.strStart)
      ensures win.base + win.strStart <= |win.data|
      ensures level <= 3 ==> matchAvailable == old(matchAvailable)
      ensures complete ==>
        blocks != [] && final == if blocks[|blocks| - 1].kind.Stored? then win.Input() else ViaTokens()
    {
      hide Window.Valid, Block.Valid, BitSink.Valid, Reads, Expand, Intact, InflateBits, IsMatch, HashReady, Covers,
        LowBytes, Covered, Complete, SentOk, Produced;
      if level <= 3 {
        DeflateFast();
      } else {
        DeflateBetter();
      }
      if win.lookahead == 0 {
        Finish();
      } else {
        HeadPending(sink);
      }
    }

    /** `zip_flush_block(1)` */
    method LastBlock()
      requires Sending() && sink.Ready() && win.Valid() && win.data != []
      requires win.blockStart <= win.strStart && win.base + win.strStart == |win.data| == win.pos
      requires Expand(block.tokens, win.Input()[..win.base + win.blockStart]) == Some(ViaTokens())
      modifies this`blocks, this`final, block.Repr(), sink.Repr()
      ensures Ended() && sink.Written() && |sink.bits| > |old(sink.bits)|
      ensures blocks != [] && final == if blocks[|blocks| - 1].kind.Stored? then win.Input() else ViaTokens()
    {
      hide Window.Valid, Block.Valid, BitSink.Valid, Reads, Expand, Produced, InflateBits, LowBytes, BlockBytes,
        Covered, Complete, SentOk, Covers;
      ghost var input, b, whole, was := win.Input(), win.base + win.blockStart, ViaTokens(), blocks;
      BlockInWindow(win);
      Pieces(input, whole, b);
      SendNext(true, input[..b], whole[b..], input[b..]);
      CompleteSnoc(was, blocks[|blocks| - 1], input, b, whole);
      final := if blocks[|blocks| - 1].kind.Stored? then input else whole;
    }
  }

  lemma Pieces(input: seq<int>, whole: seq<int>, b: nat)
    requires input <= whole && b <= |input|
    ensures input[..b] + input[b..] == input && input[b..] == input[b..|input|] && input[..b] + whole[b..] == whole
  {
    assert whole[..b] == input[..b];
  }

  lemma CoversAll(ts: seq<Token>, input: seq<int>, b: int)
    requires Covers(ts, input, b, |input|)
    ensures 0 <= b <= |input| && TokensOk(ts) && Expand(ts, input[..b]) == Some(input)
  {
    assert input[..|input|] == input;
  }

  /** The last byte, sent when the tokens stand for all before it, or for it as well. */
  lemma LastLiteral(ts: seq<Token>, input: seq<int>, b: int, twice: bool)
    requires input != [] && IsByte(input[|input| - 1])
    requires Covers(ts, input, b, if twice then |input| else |input| - 1)
    ensures 0 <= b <= |input| && TokensOk(ts + [Literal(input[|input| - 1])])
    ensures Expand(ts + [Literal(input[|input| - 1])], input[..b])
         == Some(WithLast(input, twice))
  {
    if twice {
      CoversAll(ts, input, b);
      ExpandSnoc(ts, Literal(input[|input| - 1]), input[..b], input);
    } else {
      CoverLiteral(ts, input, b, |input| - 1);
      CoversAll(ts + [Literal(input[|input| - 1])], input, b);
    }
  }

  lemma HeadPending(sink: BitSink)
    requires sink.Valid() && sink.out.queue.qhead != null
    ensures sink.out.taken < |sink.out.put|
  {
    sink.out.QueuedIsPending();
  }

  /** How many bytes a number of bits has filled. */
  lemma PutWithin(sink: BitSink)
    requires sink.Valid()
    ensures |sink.bits| == 8 * |sink.out.put| + sink.biValid && sink.out.taken <= |sink.out.put|
  {
  }

  lemma NothingRead()
    ensures Reads([], Some([]))
  {
    forall rest: seq<bool> ensures [] + rest == rest {}
  }

  lemma NothingCovered(input: seq<int>)
    ensures Covered([], input, 0) && Produced([], []) == Some([])
  {
  }

  /** A match that is longer than `prev` bytes is the closest one of its length, unless the input
      ends with it. */
  predicate Closest(input: seq<int>, seen: set<nat>, p: nat, prev: nat, found: nat, at: int)
  {
    found >= MIN_MATCH && found > prev && p + found < |input| ==> Nearest(input, seen, at, p, found)
  }

  /** What a search for the string at `p` comes to, after a match of `prev` bytes for the one
      before: the longest match that it can find, and the closest one of them, but one of three
      bytes that is far away does not count. */
  predicate LongestNear(input: seq<int>, seen: set<nat>, lo: nat, p: nat, tries: nat, prev: nat, found: nat, at: int)
    requires Bytes(input)
  {
    && (Longest(input, seen, lo, p, tries, if found < 2 then 2 else found)
        || (found == 2 && Longest(input, seen, lo, p, tries, MIN_MATCH) && p - at > TOO_FAR))
    && (found == MIN_MATCH ==> p - at <= TOO_FAR)
    && Closest(input, seen, p, prev, found, at)
  }

  lemma NoMatchIsClosest(input: seq<int>, seen: set<nat>, p: nat, prev: nat, found: nat, at: int)
    requires found < MIN_MATCH
    ensures Closest(input, seen, p, prev, found, at)
  {
  }

  lemma ClosestBefore(input: seq<int>, seen: set<nat>, p: nat, prev: nat, found: nat, at: int)
    requires Closest(input, seen + {p}, p, prev, found, at)
    ensures Closest(input, seen, p, prev, found, at)
  {
    if found >= MIN_MATCH && found > prev && p + found < |input| {
      forall x | x in seen && at < x < p
        ensures !SameRun(input, x, p, found)
      {
        assert x in seen + {p};
      }
    }
  }

  lemma NearBefore(input: seq<int>, seen: set<nat>, lo: nat, p: nat, tries: nat, prev: nat, found: nat, at: int)
    requires Bytes(input) && LongestNear(input, seen + {p}, lo, p, tries, prev, found, at)
    ensures LongestNear(input, seen, lo, p, tries, prev, found, at)
  {
    hide Longest, Closest;
    ClosestBefore(input, seen, p, prev, found, at);
    if Longest(input, seen + {p}, lo, p, tries, if found < 2 then 2 else found) {
      LongestBefore(input, seen, lo, p, tries, if found < 2 then 2 else found);
    } else {
      LongestBefore(input, seen, lo, p, tries, MIN_MATCH);
    }
  }

  /** A literal for the byte at `p`. */
  predicate LiteralAt(t: Token, input: seq<int>, p: int)
  {
    0 <= p < |input| && t.Literal? && t.byte == input[p]
  }

  predicate LiteralSent(sent: seq<Token>, input: seq<int>, p: int)
  {
    |sent| == 1 && LiteralAt(sent[0], input, p)
  }

  predicate MatchSent(sent: seq<Token>, len: nat, dist: int)
  {
    |sent| == 1 && sent[0].Match? && sent[0].length == len && sent[0].distance == dist
  }

  lemma MatchIsBack(input: seq<int>, m: int, p: int, len: nat)
    requires IsMatch(input, m, p, len)
    ensures m < p
  {
  }

  lemma TokensFit(block: Block)
    requires block.Valid()
    ensures TablesFit(block.tables) && TokensOk(block.tokens) && |block.tokens| == block.lastLit < LIT_BUFSIZE
  {
    hide TablesFit, Frequencies;
  }

  /** What became of the tokens of the current block: they were sent, or nothing was. */
  ghost predicate SentIf(sent: bool, was: seq<Sent>, ts: seq<Token>, blocks: seq<Sent>, now: seq<Token>)
  {
    if sent then |blocks| == |was| + 1 && was <= blocks && blocks[|was|].tokens == ts && now == []
    else blocks == was && now == ts
  }

  /** One more block is on record. */
  ghost predicate NewBlock(was: seq<Sent>, blocks: seq<Sent>, ts: seq<Token>, storedLen: int)
  {
    && |blocks| == |was| + 1 && blocks == was + [blocks[|was|]]
    && SentOk(blocks[|was|]) && blocks[|was|].tokens == ts && blocks[|was|].storedLen == storedLen
  }

  lemma ProducedMore(blocks: seq<Sent>, out: seq<int>, s: Sent, viaTokens: seq<int>, viaStored: seq<int>)
    ensures After(Produced(blocks, out), s.kind, Overflowed(s.trees), viaTokens, viaStored)
         == Produced(blocks + [s], out + if s.kind.Stored? then viaStored else viaTokens)
  {
    IntactSnoc(blocks, s);
  }

  lemma ProducedIs(blocks: seq<Sent>, out: seq<int>)
    ensures Produced(blocks, out).Some? ==> Produced(blocks, out).value == out
  {
  }

  lemma WindowByte(win: Window, at: nat)
    requires win.Valid() && win.base + at < win.pos
    ensures win.base + at < |win.data|
    ensures IsByte(win.Input()[win.base + at]) && ToByte(win.At(at)) == win.Input()[win.base + at]
  {
    assert win.window[..][at] == win.Input()[win.base + at];
  }

  /** What is left of the block in the window is the input. */
  lemma BlockInWindow(win: Window)
    requires win.Valid() && win.blockStart <= win.strStart && win.base + win.strStart <= win.pos
    requires 0 <= win.base + win.blockStart
    ensures win.window.Length == WINDOW_SIZE && win.strStart <= WINDOW_SIZE && win.base + win.strStart <= |win.data|
    ensures BlockBytes(win.window[..], win.blockStart, win.strStart,
                       win.Input()[win.base + win.blockStart..win.base + win.strStart])
  {
    if win.blockStart >= 0 {
      assert win.window[..][win.blockStart..win.strStart]
          == win.Input()[win.base + win.blockStart..win.base + win.strStart];
    }
  }
}
