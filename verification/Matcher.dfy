/** The sliding window and the match finder (`zip_lm_init`, `zip_fill_window`,
    `zip_INSERT_STRING`, `zip_longest_match`). */
module Matcher {
  import opened Bits
  import opened Hashing
  import opened Chains

  const TOO_FAR: nat := 4096

  datatype Configuration = Configuration(goodLength: nat, maxLazy: nat, maxChain: nat)

  const CONFIGURATION_TABLE: seq<Configuration> := [
    Configuration(0, 0, 0),
    Configuration(4, 4, 4), Configuration(4, 5, 8), Configuration(4, 6, 32),
    Configuration(4, 4, 16), Configuration(8, 16, 32), Configuration(8, 16, 128),
    Configuration(8, 32, 256), Configuration(32, 128, 1024), Configuration(32, 258, 4096)]

  /** A window cell, as JavaScript reads it: past the end there is nothing. */
  function Cell(win: seq<int>, i: nat): int { if i < |win| then win[i] else -1 }

  predicate SameCell(win: seq<int>, a: nat, b: nat, k: nat) { Cell(win, a + k) == Cell(win, b + k) }

  /** The cells from the fourth to the `len`th are the same at `a` and at `b`. */
  predicate SameFourth(win: seq<int>, a: nat, b: nat, len: nat)
  {
    forall k :: 3 <= k < len ==> SameCell(win, a, b, k)
  }

  /** The first `n` cells are the same at `a` and at `b`. */
  predicate Agrees(win: seq<int>, a: nat, b: nat, n: nat)
  {
    forall k :: 0 <= k < n ==> SameCell(win, a, b, k)
  }

  /** No string of the chain agrees with the one at `str` any further than `len`, unless `len`
      is the maximum. */
  predicate NoLonger(win: seq<int>, chain: seq<nat>, str: nat, len: nat)
  {
    len >= MAX_MATCH || forall i :: 0 <= i < |chain| ==> !Agrees(win, chain[i], str, len + 1)
  }

  /** The string at `ms` is the first one of the chain that agrees with the one at `str` as far as
      `len`. */
  predicate FirstOf(win: seq<int>, chain: seq<nat>, str: nat, ms: int, len: nat)
  {
    exists i :: 0 <= i < |chain| && IsFirst(win, chain, str, ms, len, i)
  }

  predicate IsFirst(win: seq<int>, chain: seq<nat>, str: nat, ms: int, len: nat, i: nat)
    requires i < |chain|
  {
    chain[i] == ms && forall j :: 0 <= j < i ==> !Agrees(win, chain[j], str, len)
  }

  /** `c & 0xff`; what is not there counts as 0. */
  function ToByte(c: int): (r: nat)
    ensures r < 256 && (IsByte(c) ==> r == c)
  {
    if c < 0 then 0 else c % 256
  }

  predicate AllBelow(seen: set<nat>, p: nat)
  {
    forall x {:trigger x in seen} :: 0 <= x < p ==> x in seen
  }

  lemma AddedAll(was: set<nat>, seen: set<nat>, a: nat, b: nat)
    requires AllBelow(was, a) && Added(was, seen, a, b)
    ensures AllBelow(seen, b)
  {
    forall x: nat | x < b
      ensures x in seen
    {
      if x < a {
        assert x in was;
      }
    }
  }

  /** The positions from `a` up to `b` were inserted as well. */
  predicate Added(was: set<nat>, seen: set<nat>, a: nat, b: nat)
  {
    && (forall p {:trigger p in was} :: p in was ==> p in seen)
    && (forall p {:trigger p in seen} :: p in seen ==> p in was || a <= p < b)
    && (forall p {:trigger p in seen} :: a <= p < b ==> p in seen)
  }

  lemma AddedNone(was: set<nat>, a: nat)
    ensures Added(was, was, a, a)
  {
  }

  lemma AddedFirst(was: set<nat>, p: nat, seen: set<nat>, b: nat)
    requires Added(was + {p}, seen, p + 1, b) && p < b
    ensures Added(was, seen, p, b)
  {
    forall x {:trigger x in seen} | x in seen
      ensures x in was || p <= x < b
    {
      assert x in was + {p} || p + 1 <= x < b;
    }
    assert p in was + {p};
    forall x {:trigger x in was} | x in was
      ensures x in seen
    {
      assert x in was + {p};
    }
  }

  /** The running hash is ready for the string at absolute position `p`. */
  predicate HashReady(input: seq<int>, h: nat, p: nat)
  {
    h < HASH_SIZE && (p + 2 <= |input| ==> input[p] >= 0 && input[p + 1] >= 0 && Rolled(h, input[p], input[p + 1]))
  }

  class Window {
    const window: array<int>
    const prev: array<int>
    var data: seq<nat>          // zip_deflate_data, as character codes
    var pos: nat                // zip_deflate_pos
    var insH: nat
    var hashHead: int
    var strStart: nat
    var matchStart: int
    var lookahead: nat
    var prevLength: nat
    var blockStart: int
    var eofile: bool
    var maxChainLength: nat
    var goodMatch: nat
    var maxLazyMatch: nat

    ghost var base: nat         // the input position of window[0]
    ghost var next: nat         // one past the window index that was inserted last
    ghost var seen: set<nat>    // the input positions inserted so far

    ghost function Repr(): set<object> { {this, window, prev} }

    ghost function Input(): (r: seq<int>)
      reads this`data
      ensures Bytes(r) && |r| == |data|
    {
      LowBytes(data)
    }

    /** `zip_window[i]` */
    function At(i: nat): (c: int)
      reads window
      ensures c == Cell(window[..], i)
    {
      if i < window.Length then window[i] else -1
    }

    /** The window holds what has been read, and the chains are sound. */
    ghost predicate Valid()
      reads this`data, this`pos, this`base, this`seen, this`next, this`eofile, this`maxChainLength, window, prev
    {
      && window != prev && window.Length == WINDOW_SIZE && prev.Length == WINDOW_SIZE
      && base <= pos <= |data| && pos - base <= WINDOW_SIZE
      && Loaded(window[..], Input(), base, pos - base)
      && HeadsOk(prev[..], Input(), base, seen, next) && ChainsOk(prev[..], Input(), base, seen, next)
      && (eofile ==> pos == |data|) && maxChainLength > 3
    }

    /** Between strings: `strStart` is the next one, and there is enough lookahead. */
    ghost predicate Ready()
      reads this, window, prev
    {
      && Valid() && base + strStart + lookahead == pos <= |data| && next <= strStart
      && HashReady(Input(), insH, base + strStart)
      && (eofile || lookahead >= MIN_LOOKAHEAD) && (eofile ==> pos == |data|) && blockStart <= strStart
    }

    constructor ()
      ensures window.Length == WINDOW_SIZE && prev.Length == WINDOW_SIZE && window != prev && fresh(Repr())
      ensures pos == 0 && data == []
    {
      window := new int[WINDOW_SIZE];
      prev := new int[WINDOW_SIZE];
      data, pos := [], 0;
      insH, hashHead, strStart, matchStart, lookahead, prevLength, blockStart := 0, 0, 0, 0, 0, 0, 0;
      eofile := false;
      maxChainLength, goodMatch, maxLazyMatch := 0, 0, 0;
      base, next, seen := 0, 0, {};
    }

    /** `zip_INSERT_STRING`: `hashHead` is the last string before with the same key. */
    method InsertString()
      requires Valid() && next <= strStart && HashReady(Input(), insH, base + strStart)
      requires pos == |data| || base + strStart + MIN_MATCH <= pos
      modifies this`insH, this`hashHead, this`next, this`seen, prev
      ensures Valid() && next == strStart + 1 && HashReady(Input(), insH, base + strStart + 1)
      ensures 0 <= hashHead
      ensures hashHead == NIL || strStart - hashHead > MAX_DIST || Candidate(Input(), base, seen, strStart, hashHead)
      ensures LatestBefore() && seen == old(seen) + {base + strStart}
    {
      hide Loaded, HeadsOk, ChainsOk, LowBytes, UpdateHash, HashReady, Link, HasKey, Candidate, KeyAt, Bytes;
      ghost var input, h0, prev0 := Input(), insH, prev[..];
      insH := UpdateHash(insH, ToByte(At(strStart + MIN_MATCH - 1)));
      HashAdvances(window[..], input, base, pos - base, strStart, h0);
      hashHead := Head(prev[..], insH);
      HeadIsCandidate(prev0, input, base, seen, next, strStart, insH);
      if base + strStart + MIN_MATCH <= |data| {
        HeadIsLatest(prev0, input, base, seen, next, strStart, insH);
      }
      InsertKeepsHeads(prev0, input, base, seen, next, strStart, insH);
      InsertKeepsChains(prev0, input, base, seen, next, strStart, insH);
      prev[strStart % WSIZE] := hashHead;
      prev[WSIZE + insH] := strStart;
      assert prev[..] == Inserted(prev0, strStart, insH);
      next := strStart + 1;
      seen := seen + {base + strStart};
    }

    /** `hashHead` is the latest string before that has the key of the one at `strStart`. */
    ghost predicate LatestBefore()
      reads this`data, this`base, this`strStart, this`seen, this`hashHead
    {
      base + strStart + MIN_MATCH <= |data| ==>
        Link(Input(), base, seen, hashHead, KeyAt(Input(), base + strStart), strStart)
    }

    /** What a search may miss: matches that start too far back, or behind many strings with the
        same key. */
    ghost predicate LongestFound(len: nat)
      reads this`data, this`base, this`strStart, this`seen, this`prevLength, this`goodMatch, this`maxChainLength
    {
      Longest(Input(), seen, base + if strStart > MAX_DIST then strStart - MAX_DIST else 0, base + strStart,
              if prevLength >= goodMatch then maxChainLength / 4 else maxChainLength, if len < 2 then 2 else len)
    }

    /** A match that is longer than `prevLength` is the first one of its length in the chain. */
    ghost predicate FirstBest(chain: seq<nat>, len: nat)
      reads this`prevLength, this`strStart, this`matchStart, window
    {
      len > prevLength ==> FirstOf(window[..], chain, strStart, matchStart, len)
    }

    /** A match that is longer than `prevLength` is the closest one of its length. */
    ghost predicate ClosestFound(len: nat)
      reads this`data, this`pos, this`base, this`strStart, this`seen, this`prevLength, this`matchStart
    {
      len > prevLength && base + strStart + len <= pos ==>
        Nearest(Input(), seen, base + matchStart, base + strStart, len)
    }

    /** Anything longer than `prevLength` is a true match. */
    ghost predicate TrueMatch(bestLen: nat)
      reads this
    {
      bestLen > prevLength ==> MatchFound(Input(), base, strStart, pos, matchStart, bestLen)
    }

    /** How far back the search may go. */
    function Limit(): nat
      reads this`strStart
    {
      if strStart > MAX_DIST then strStart - MAX_DIST else NIL
    }

    /** How many strings the search looks at, after a match of `prev` bytes. */
    function Tries(prev: nat): nat
      reads this`goodMatch, this`maxChainLength
    {
      if prev >= goodMatch then maxChainLength / 4 else maxChainLength
    }

    function ChainLength(): nat
      reads this`prevLength, this`goodMatch, this`maxChainLength
    {
      Tries(prevLength)
    }

    /** `zip_longest_match`: anything longer than `prevLength` is a true match, and no string
        that the search looks at matches any further. */
    method LongestMatch(hashHead: int) returns (len: nat)
      requires Valid() && next == strStart + 1 && base + strStart <= pos && 2 <= prevLength
      requires Candidate(Input(), base, seen, strStart, hashHead)
      requires hashHead == this.hashHead && LatestBefore() && (pos == |data| || base + strStart + MAX_MATCH <= pos)
      modifies this`matchStart
      ensures Valid() && len >= prevLength && TrueMatch(len) && LongestFound(len) && ClosestFound(len)
      ensures hashHead > 0 && prev.Length == WINDOW_SIZE
      ensures NoLonger(window[..], Visited(prev[..], hashHead, Limit(), ChainLength()), strStart, len)
    {
      SearchStarts(hashHead);
      hide Window.Valid, Window.At, Candidate, MatchFound, LowBytes, Agrees, Visited, Window.TrueMatch, NoLonger,
        Window.Searching, Window.LatestBefore, Window.LongestFound, Window.FirstBest, Window.ClosestFound;
      var curMatch, chainLength, bestLen := hashHead, maxChainLength, prevLength;
      var limit := if strStart > MAX_DIST then strStart - MAX_DIST else NIL;
      var scanEnd1, scanEnd := At(strStart + bestLen - 1), At(strStart + bestLen);
      if prevLength >= goodMatch {
        chainLength := chainLength / 4;
      }
      len := SearchChain(curMatch, bestLen, scanEnd1, scanEnd, limit, chainLength,
                         Visited(prev[..], hashHead, limit, chainLength), []);
      NothingMissed(len);
      NothingCloser(len);
    }

    /** The loop of `zip_longest_match`. */
    method SearchChain(curMatch0: int, bestLen0: nat, scanEnd10: int, scanEnd0: int, limit: nat, chainLength0: nat,
                       ghost chain: seq<nat>, ghost done0: seq<nat>)
      returns (bestLen: nat)
      requires Valid() && next == strStart + 1 && base + strStart <= pos && 2 <= prevLength <= bestLen0
      requires TrueMatch(bestLen0)
      requires Searching(curMatch0, bestLen0, scanEnd10, scanEnd0, limit, chainLength0, chain, done0)
      requires strStart - limit <= MAX_DIST && curMatch0 > 0
      modifies this`matchStart
      ensures Valid() && bestLen >= bestLen0 && TrueMatch(bestLen) && NoLonger(window[..], chain, strStart, bestLen)
      ensures FirstBest(chain, bestLen)
    {
      hide Window.Valid, Window.TrueMatch, NoLonger, Window.Searching, Window.FirstBest;
      var curMatch, scanEnd1, scanEnd, chainLength := curMatch0, scanEnd10, scanEnd0, chainLength0;
      bestLen := bestLen0;
      ghost var done: seq<nat> := done0;
      var more := true;
      while more
        invariant Valid() && bestLen >= bestLen0 && TrueMatch(bestLen) && curMatch >= 0
        invariant if more then Searching(curMatch, bestLen, scanEnd1, scanEnd, limit, chainLength, chain, done)
                  else NoLonger(window[..], chain, strStart, bestLen) && FirstBest(chain, bestLen)
        decreases chainLength
      {
        done := done + [curMatch];
        curMatch, bestLen, scanEnd1, scanEnd, more :=
          Look(curMatch, bestLen, scanEnd1, scanEnd, limit, chainLength, chain, done[..|done| - 1]);
        chainLength := chainLength - 1;
      }
    }

    /** Nothing longer among the strings that were looked at means nothing longer anywhere in
        reach. */
    lemma NothingMissed(len: nat)
      requires Valid() && next == strStart + 1 && base + strStart <= pos && len >= 2 && hashHead > 0
      requires LatestBefore() && (pos == |data| || base + strStart + MAX_MATCH <= pos) && prev.Length == WINDOW_SIZE
      requires NoLonger(window[..], Visited(prev[..], hashHead, Limit(), ChainLength()), strStart, len)
      ensures LongestFound(len)
    {
      hide HeadsOk, ChainsOk, LowBytes, Visited, Link, KeyAt, SameByte, WithKey, NoLonger, Loaded;
      ghost var input, p := Input(), base + strStart;
      if len < MAX_MATCH {
        forall m | m in seen && base + Limit() < m < p && SameRun(input, m, p, len + 1)
                   && |WithKey(input, seen, m, p, KeyAt(input, p))| < ChainLength()
          ensures false
        {
          SameRunSameKey(input, m, p, len + 1);
          AllVisited(prev[..], input, base, seen, next, hashHead, KeyAt(input, p), strStart, Limit(), ChainLength(), m);
          RunAgrees(window[..], input, base, pos, m - base, strStart, len + 1);
          NotVisited(window[..], Visited(prev[..], hashHead, Limit(), ChainLength()), strStart, len, m - base);
        }
      }
    }

    /** Nothing in reach has the key of the string. */
    lemma NothingInReach()
      requires LatestBefore() && (hashHead == NIL || strStart - hashHead > MAX_DIST)
      ensures LongestFound(2)
    {
      hide KeyAt, SameByte, WithKey, LowBytes;
      ghost var input, p := Input(), base + strStart;
      forall m | m in seen && base + Limit() < m < p && SameRun(input, m, p, 3)
        ensures false
      {
        SameRunSameKey(input, m, p, 3);
      }
    }

    lemma LongestShort(len: nat)
      requires LongestFound(2) && len <= 2
      ensures LongestFound(len)
    {
    }

    /** No match is longer than what has been read, or than the maximum. */
    lemma NothingLonger()
      requires base + strStart + lookahead == pos && (pos == |data| || lookahead >= MAX_MATCH)
      ensures LongestFound(lookahead)
    {
      hide KeyAt, WithKey, LowBytes;
    }

    lemma StillFirst(done: seq<nat>, chain: seq<nat>, len: nat)
      requires FirstBest(done, len) && done <= chain
      ensures FirstBest(chain, len)
    {
      hide Agrees;
      if len > prevLength {
        var i :| 0 <= i < |done| && IsFirst(window[..], done, strStart, matchStart, len, i);
        assert IsFirst(window[..], chain, strStart, matchStart, len, i);
      }
    }

    /** What is longer than anything before is the first one of its length. */
    lemma NewFirst(done: seq<nat>, q: nat, bestLen: nat, len: nat)
      requires NoLonger(window[..], done, strStart, bestLen) && bestLen < len <= MAX_MATCH
      ensures FirstOf(window[..], done + [q], strStart, q, len)
    {
      var chain := done + [q];
      forall j | 0 <= j < |done|
        ensures !Agrees(window[..], chain[j], strStart, len)
      {
        assert !Agrees(window[..], done[j], strStart, bestLen + 1);
      }
      assert IsFirst(window[..], chain, strStart, q, len, |done|);
    }

    /** The first one in the chain is the closest one of all. */
    lemma NothingCloser(len: nat)
      requires Valid() && next == strStart + 1 && len >= prevLength >= 2 && hashHead > 0 && LatestBefore()
      requires prev.Length == WINDOW_SIZE && TrueMatch(len)
      requires FirstBest(Visited(prev[..], hashHead, Limit(), ChainLength()), len)
      ensures ClosestFound(len)
    {
      hide HeadsOk, ChainsOk, LowBytes, Visited, Link, KeyAt, SameByte, Loaded, Agrees;
      if len > prevLength && base + strStart + len <= pos {
        ghost var input, p, chain := Input(), base + strStart, Visited(prev[..], hashHead, Limit(), ChainLength());
        var i :| 0 <= i < |chain| && IsFirst(window[..], chain, strStart, matchStart, len, i);
        forall m | m in seen && base + matchStart < m < p && SameRun(input, m, p, len)
          ensures false
        {
          SameRunSameKey(input, m, p, len);
          CloserBefore(prev[..], input, base, seen, next, hashHead, KeyAt(input, p), strStart, Limit(), ChainLength(),
                       i, m);
          RunAgrees(window[..], input, base, pos, m - base, strStart, len);
          NotFirst(window[..], chain, strStart, matchStart, len, i, m - base);
        }
      }
    }

    lemma SearchStarts(hashHead: int)
      requires Valid() && 2 <= prevLength && Candidate(Input(), base, seen, strStart, hashHead)
      ensures hashHead > 0 && prev.Length == WINDOW_SIZE && ChainLength() > 0 && TrueMatch(prevLength)
      ensures Searching(hashHead, prevLength, At(strStart + prevLength - 1), At(strStart + prevLength), Limit(),
                        ChainLength(), Visited(prev[..], hashHead, Limit(), ChainLength()), [])
    {
      hide HeadsOk, ChainsOk, Loaded, LowBytes, Visited;
      NoneVisited(window[..], strStart, prevLength);
    }

    /** Between two strings of the chain. */
    ghost predicate Searching(curMatch: int, bestLen: nat, scanEnd1: int, scanEnd: int, limit: nat, chainLength: nat,
                              chain: seq<nat>, done: seq<nat>)
      reads this, window, prev
    {
      && curMatch > 0 && Candidate(Input(), base, seen, strStart, curMatch) && chainLength > 0
      && prev.Length == WINDOW_SIZE
      && scanEnd1 == At(strStart + bestLen - 1) && scanEnd == At(strStart + bestLen)
      && NoLonger(window[..], done, strStart, bestLen) && FirstBest(done, bestLen)
      && chain == done + Visited(prev[..], curMatch, limit, chainLength)
    }

    /** One string of the chain, and whether to go on with the next. */
    method Look(curMatch: int, bestLen: nat, scanEnd1: int, scanEnd: int, limit: nat, chainLength: nat,
                ghost chain: seq<nat>, ghost done: seq<nat>)
      returns (next': nat, bestLen': nat, scanEnd1': int, scanEnd': int, more: bool)
      requires Valid() && next == strStart + 1 && base + strStart <= pos && 2 <= prevLength <= bestLen
      requires TrueMatch(bestLen)
      requires Searching(curMatch, bestLen, scanEnd1, scanEnd, limit, chainLength, chain, done)
      requires strStart - limit <= MAX_DIST
      modifies this`matchStart
      ensures Valid() && bestLen' >= bestLen && TrueMatch(bestLen')
      ensures curMatch > 0 && chainLength > 0 && if more
        then chainLength > 1 && next' > 0
             && Searching(next', bestLen', scanEnd1', scanEnd', limit, chainLength - 1, chain, done + [curMatch])
        else NoLonger(window[..], chain, strStart, bestLen') && FirstBest(chain, bestLen')
    {
      hide Window.Valid, Window.At, Candidate, MatchFound, LowBytes, Agrees, Visited, Window.TrueMatch, NoLonger,
        Window.FirstBest;
      var full;
      bestLen', scanEnd1', scanEnd', full := Improve(curMatch, bestLen, scanEnd1, scanEnd, done);
      VisitedStep(prev[..], done, curMatch, limit, chainLength);
      next' := Follow(curMatch, limit);
      if full {
        MaximumIsEnough(window[..], chain, strStart, bestLen');
      }
      StillFirst(done + [curMatch], chain, bestLen');
      more := !full && next' > limit && chainLength > 1;
    }

    /** One candidate, which becomes the match if it is longer than the best so far; a match of
        the maximal length ends the search. */
    method Improve(curMatch: int, bestLen: nat, scanEnd1: int, scanEnd: int, ghost done: seq<nat>)
      returns (bestLen': nat, scanEnd1': int, scanEnd': int, full: bool)
      requires Valid() && base + strStart <= pos && bestLen >= prevLength >= 2 && TrueMatch(bestLen)
      requires Candidate(Input(), base, seen, strStart, curMatch)
      requires scanEnd1 == At(strStart + bestLen - 1) && scanEnd == At(strStart + bestLen)
      requires NoLonger(window[..], done, strStart, bestLen) && FirstBest(done, bestLen)
      modifies this`matchStart
      ensures Valid() && bestLen' >= bestLen && TrueMatch(bestLen') && curMatch > 0
      ensures FirstBest(done + [curMatch], bestLen')
      ensures scanEnd1' == At(strStart + bestLen' - 1) && scanEnd' == At(strStart + bestLen')
      ensures NoLonger(window[..], done + [curMatch], strStart, bestLen') && (full ==> bestLen' >= MAX_MATCH)
    {
      assert curMatch > 0;
      hide Window.Valid, Window.At, Candidate, MatchFound, LowBytes, Agrees, NoLonger, Window.FirstBest;
      bestLen', scanEnd1', scanEnd', full := bestLen, scanEnd1, scanEnd, false;
      var len := TryCandidate(curMatch, bestLen, scanEnd1, scanEnd);
      StillFirst(done, done + [curMatch], bestLen);
      if len > bestLen {
        NewFirst(done, curMatch, bestLen, len);
        matchStart := curMatch;
        bestLen' := len;
        full := len >= MAX_MATCH;
        scanEnd1', scanEnd' := At(strStart + len - 1), At(strStart + len);
      }
      OneMoreVisited(window[..], done, curMatch, strStart, bestLen, bestLen');
    }

    /** The next string of the chain. */
    method Follow(curMatch: int, limit: int) returns (q: int)
      requires Valid() && next == strStart + 1 && Candidate(Input(), base, seen, strStart, curMatch)
      requires limit >= 0 && strStart - limit <= MAX_DIST
      ensures q > limit ==> Candidate(Input(), base, seen, strStart, q)
      ensures prev.Length == WINDOW_SIZE && curMatch > 0 && q == prev[curMatch % WSIZE] >= 0
    {
      NextCandidate(prev[..], Input(), base, seen, strStart, curMatch, limit);
      q := prev[curMatch % WSIZE];
    }

    /** One candidate: it is skipped, with length 0, when it cannot be longer than `bestLen`
        or differs in the first two bytes. */
    method TryCandidate(curMatch: int, bestLen: nat, scanEnd1: int, scanEnd: int) returns (len: nat)
      requires Valid() && base + strStart <= pos && bestLen >= 1
      requires Candidate(Input(), base, seen, strStart, curMatch)
      requires scanEnd1 == At(strStart + bestLen - 1) && scanEnd == At(strStart + bestLen)
      ensures len > 0 ==> MatchFound(Input(), base, strStart, pos, curMatch, len)
      ensures curMatch > 0 && var best := if len > bestLen then len else bestLen;
        best >= MAX_MATCH || !Agrees(window[..], curMatch, strStart, best + 1)
    {
      assert curMatch > 0;
      hide HeadsOk, ChainsOk, Loaded, Candidate, MatchFound, LowBytes, SameFourth;
      if At(curMatch + bestLen) != scanEnd || At(curMatch + bestLen - 1) != scanEnd1
         || At(curMatch) != At(strStart) || At(curMatch + 1) != At(strStart + 1) {
        assert !SameCell(window[..], curMatch, strStart, bestLen)
            || !SameCell(window[..], curMatch, strStart, bestLen - 1)
            || !SameCell(window[..], curMatch, strStart, 0) || !SameCell(window[..], curMatch, strStart, 1);
        return 0;
      }
      len := CompareFrom(curMatch, strStart);
      RunIsMatch(window[..], Input(), base, seen, strStart, pos, curMatch, len);
    }

    /** The inner loop of `zip_longest_match`: compares from the fourth byte on, with a test
        for the maximal length after every eighth comparison. */
    method CompareFrom(match_: nat, scan: nat) returns (len: nat)
      requires window.Length == WINDOW_SIZE
      ensures MIN_MATCH <= len <= MAX_MATCH
      ensures SameFourth(window[..], match_, scan, len)
      ensures len < MAX_MATCH ==> !SameCell(window[..], match_, scan, len)
    {
      var scanp, matchp, strEnd := scan + 2, match_ + 2, scan + MAX_MATCH;
      var compared := 0;
      while true
        invariant scanp == scan + 2 + compared && matchp == match_ + 2 + compared && compared < 256
        invariant forall k :: 3 <= k < 3 + compared ==> SameCell(window[..], match_, scan, k)
        decreases 256 - compared
      {
        scanp, matchp := scanp + 1, matchp + 1;
        if At(scanp) != At(matchp) {
          break;
        }
        compared := compared + 1;
        if compared % 8 == 0 && scanp >= strEnd {
          break;
        }
      }
      len := MAX_MATCH - (strEnd - scanp);
    }

    /** `zip_read_buff`: as much of the input as there is, up to `n` bytes. */
    method ReadBuff(offset: nat, n: nat) returns (i: nat)
      requires window.Length == WINDOW_SIZE && offset + n <= WINDOW_SIZE && pos <= |data|
      modifies this`pos, window
      ensures i == Min(n, |data| - old(pos)) && pos == old(pos) + i
      ensures window[..] == old(window[..offset]) + LowBytes(data)[old(pos)..pos] + old(window[offset + i..])
    {
      hide LowBytes;
      ghost var win, p0, input := window[..], pos, LowBytes(data);
      i := 0;
      assert win == win[..offset] + input[p0..p0] + win[offset..];
      while i < n && pos < |data|
        invariant i <= n && pos == p0 + i <= |data|
        invariant window[..] == win[..offset] + input[p0..pos] + win[offset + i..]
      {
        ReadStep(win, window[..], input, offset, p0, i);
        window[offset + i] := data[pos] % 256;
        pos := pos + 1;
        i := i + 1;
      }
    }

    /** The sliding of `zip_fill_window`: the upper half of the window moves down, and every
        entry of the chains with it. */
    method Slide()
      requires Valid() && strStart >= WSIZE && base + strStart <= pos
      modifies this`strStart, this`matchStart, this`blockStart, this`base, this`next, window, prev
      ensures Valid() && base == old(base) + WSIZE && strStart == old(strStart) - WSIZE && next == SlidEntry(old(next))
      ensures matchStart == old(matchStart) - WSIZE && blockStart == old(blockStart) - WSIZE
    {
      hide HeadsOk, ChainsOk, LowBytes;
      ghost var win, prev0, input := window[..], prev[..], Input();
      CopyDown();
      matchStart := matchStart - WSIZE;
      strStart := strStart - WSIZE;
      blockStart := blockStart - WSIZE;
      SlideChains();
      SlideKeeps(prev0, prev[..], input, base, seen, next);
      base := base + WSIZE;
      next := SlidEntry(next);
    }

    method CopyDown()
      requires window.Length == WINDOW_SIZE
      modifies window
      ensures forall i :: 0 <= i < WSIZE ==> window[i] == old(window[WSIZE + i])
    {
      var n := 0;
      while n < WSIZE
        invariant n <= WSIZE
        invariant forall i :: 0 <= i < n ==> window[i] == old(window[WSIZE + i])
        invariant forall i :: n <= i < WINDOW_SIZE ==> window[i] == old(window[i])
      {
        window[n] := window[WSIZE + n];
        n := n + 1;
      }
    }

    method SlideChains()
      requires prev.Length == WINDOW_SIZE
      modifies prev
      ensures Slid(old(prev[..]), prev[..])
    {
      ghost var prev0 := prev[..];
      var n := 0;
      while n < HASH_SIZE
        invariant n <= HASH_SIZE
        invariant forall i :: WSIZE <= i < WSIZE + n ==> prev[i] == SlidEntry(prev0[i])
        invariant forall i :: 0 <= i < WINDOW_SIZE && !(WSIZE <= i < WSIZE + n) ==> prev[i] == prev0[i]
      {
        var m := prev[WSIZE + n];
        prev[WSIZE + n] := if m >= WSIZE then m - WSIZE else NIL;
        n := n + 1;
      }
      n := 0;
      while n < WSIZE
        invariant n <= WSIZE
        invariant forall i :: 0 <= i < n ==> prev[i] == SlidEntry(prev0[i])
        invariant forall i :: n <= i < WSIZE ==> prev[i] == prev0[i]
        invariant forall i :: WSIZE <= i < WSIZE + HASH_SIZE ==> prev[i] == SlidEntry(prev0[i])
      {
        var m := prev[n];
        prev[n] := if m >= WSIZE then m - WSIZE else NIL;
        n := n + 1;
      }
    }

    /** Everything `Ready` says but the amount of lookahead. */
    ghost predicate Reading()
      reads this, window, prev
    {
      && Valid() && base + strStart + lookahead == pos <= |data| && next <= strStart && blockStart <= strStart
    }

    lemma WithinInput()
      requires Valid()
      ensures base <= pos <= |data| && pos - base <= WINDOW_SIZE && (eofile ==> pos == |data|)
    {
    }

    /** Up to `n` more bytes of the input, behind those that are in the window, or its end. */
    method ReadOn(offset: nat, n: nat) returns (i: nat)
      requires Valid() && base + offset == pos && offset + n <= WINDOW_SIZE && n > 0 && !eofile
      modifies this`pos, this`eofile, window
      ensures Valid() && i == Min(n, |data| - old(pos)) && pos == old(pos) + i && eofile == (i == 0)
    {
      hide HeadsOk, ChainsOk, LowBytes, Loaded;
      ghost var win, p0 := window[..], pos;
      i := ReadBuff(offset, n);
      LoadMore(win, window[..], Input(), base, p0, pos);
      eofile := i <= 0;
    }

    /** `zip_fill_window`: more of the input, or its end; nothing moves in the input. */
    method FillWindow()
      requires Reading() && lookahead < MIN_LOOKAHEAD && !eofile
      modifies this`pos, this`strStart, this`matchStart, this`blockStart, this`lookahead, this`eofile, this`base,
        this`next,
        window, prev
      ensures Reading() && (eofile || lookahead > old(lookahead))
      ensures lookahead >= old(lookahead) && (old(strStart) > 0 ==> strStart > 0)
      ensures old(pos == |data|) ==> lookahead == old(lookahead)
      ensures base + strStart == old(base + strStart) && base + matchStart == old(base + matchStart)
      ensures base + blockStart == old(base + blockStart)
      ensures base == old(base) + if old(strStart) >= WSIZE + MAX_DIST then WSIZE else 0
    {
      hide Window.Valid, LowBytes;
      WithinInput();
      var more := WINDOW_SIZE - lookahead - strStart;
      if strStart >= WSIZE + MAX_DIST {
        Slide();
        more := more + WSIZE;
      }
      var n := ReadOn(strStart + lookahead, more);
      lookahead := lookahead + n;
    }

    /** The refill loop that ends every step of the compressor. */
    method Refill()
      requires Reading() && HashReady(Input(), insH, base + strStart)
      modifies this`pos, this`strStart, this`matchStart, this`blockStart, this`lookahead, this`eofile, this`base,
        this`next,
        window, prev
      ensures Ready() && lookahead >= old(lookahead) && (old(strStart) > 0 ==> strStart > 0)
      ensures old(pos == |data|) ==> lookahead == old(lookahead)
      ensures base + strStart == old(base + strStart) && base + matchStart == old(base + matchStart)
      ensures base + blockStart == old(base + blockStart)
    {
      hide HeadsOk, ChainsOk, LowBytes, Loaded, HashReady;
      while lookahead < MIN_LOOKAHEAD && !eofile
        invariant Reading() && base + strStart == old(base + strStart)
        invariant lookahead >= old(lookahead) && (old(strStart) > 0 ==> strStart > 0)
        invariant old(pos == |data|) ==> lookahead == old(lookahead) && pos == |data|
        invariant base + matchStart == old(base + matchStart) && base + blockStart == old(base + blockStart)
        decreases !eofile, MIN_LOOKAHEAD - lookahead
      {
        FillWindow();
      }
    }

    /** `zip_lm_init` */
    method Init(level: nat)
      requires window != prev && window.Length == WINDOW_SIZE && prev.Length == WINDOW_SIZE && 1 <= level <= 9
      requires pos == 0
      modifies this, window, prev
      ensures data == old(data) && base + strStart == 0 && blockStart == 0 && base == 0
      ensures data == [] ==> lookahead == 0
      ensures Configured(level)
      ensures data != [] ==> Ready() && lookahead > 0 && seen == {}
    {
      hide Valid, LowBytes, HashReady;
      ClearHeads();
      Configure(level);
      var more := FirstRead();
      if !more {
        return;
      }
      while lookahead < MIN_LOOKAHEAD && !eofile
        invariant Reading() && base + strStart == 0 && base + blockStart == 0 && lookahead > 0 && data == old(data)
        invariant Configured(level) && seen == {}
        decreases !eofile, MIN_LOOKAHEAD - lookahead
      {
        FillWindow();
      }
      StartHash();
      WithinInput();
    }

    /** The first window of input, if there is any. */
    method FirstRead() returns (more: bool)
      requires window != prev && window.Length == WINDOW_SIZE && prev.Length == WINDOW_SIZE && pos == 0
      requires maxChainLength > 3
      requires forall h :: 0 <= h < HASH_SIZE ==> Head(prev[..], h) == NIL
      modifies this`strStart, this`blockStart, this`base, this`next, this`seen, this`lookahead, this`pos, this`eofile,
        window
      ensures more <==> data != []
      ensures base == strStart == blockStart == 0 && seen == {}
      ensures (more ==> Reading() && lookahead > 0) && (!more ==> lookahead == 0)
    {
      hide LowBytes, HeadsOk, ChainsOk, Loaded;
      strStart, blockStart := 0, 0;
      base, next, seen := 0, 0, {};
      eofile := false;
      NothingLoaded(window[..], prev[..], Input());
      lookahead := ReadOn(0, WINDOW_SIZE);
      more := lookahead > 0;
    }

    /** All strings before `p` are inserted. */
    ghost predicate SeenTo(p: nat)
      reads this`seen
    {
      AllBelow(seen, p)
    }

    /** The parameters are those of the level. */
    predicate Configured(level: nat)
      requires 1 <= level <= 9
      reads this`maxLazyMatch, this`goodMatch, this`maxChainLength
    {
      && maxLazyMatch == [4, 5, 6, 4, 16, 16, 32, 128, 258][level - 1]
      && goodMatch == [4, 4, 4, 4, 8, 8, 8, 32, 32][level - 1]
      && maxChainLength == [4, 8, 32, 16, 32, 128, 256, 1024, 4096][level - 1]
    }

    method Configure(level: nat)
      requires 1 <= level <= 9
      modifies this`maxLazyMatch, this`goodMatch, this`maxChainLength
      ensures Configured(level)
    {
      maxLazyMatch := CONFIGURATION_TABLE[level].maxLazy;
      goodMatch := CONFIGURATION_TABLE[level].goodLength;
      maxChainLength := CONFIGURATION_TABLE[level].maxChain;
    }

    method ClearHeads()
      requires prev.Length == WINDOW_SIZE
      modifies prev
      ensures forall h :: 0 <= h < HASH_SIZE ==> Head(prev[..], h) == NIL
    {
      var j := 0;
      while j < HASH_SIZE
        invariant j <= HASH_SIZE
        invariant forall i :: WSIZE <= i < WSIZE + j ==> prev[i] == NIL
      {
        prev[WSIZE + j] := 0;
        j := j + 1;
      }
    }

    /** The running hash of the first two bytes. */
    method StartHash()
      requires Reading() && base + strStart == 0 && (eofile || lookahead >= MIN_LOOKAHEAD)
      modifies this`insH
      ensures insH < HASH_SIZE && HashReady(Input(), insH, 0)
    {
      hide LowBytes, UpdateHash;
      insH := 0;
      var j := 0;
      while j < MIN_MATCH - 1
        invariant j <= 2
        invariant insH == if j == 0 then 0 else if j == 1 then UpdateHash(0, ToByte(At(0)))
                          else UpdateHash(UpdateHash(0, ToByte(At(0))), ToByte(At(1)))
      {
        insH := UpdateHash(insH, ToByte(At(j)));
        j := j + 1;
      }
      RolledStart(0, ToByte(At(0)), ToByte(At(1)));
      if 2 <= |data| {
        assert window[..][0] == Input()[0] && window[..][1] == Input()[1];
      }
    }

    /** Insertion of the strings inside a match: the next `n` positions. */
    method InsertRun(n: nat)
      requires Valid() && next == strStart + 1 && HashReady(Input(), insH, base + strStart + 1)
      requires n > 0 && (pos == |data| || base + strStart + n + MIN_MATCH <= pos)
      modifies this`insH, this`hashHead, this`next, this`seen, this`strStart, prev
      ensures Valid() && next == strStart + 1 && HashReady(Input(), insH, base + strStart + 1)
      ensures strStart == old(strStart) + n
      ensures Added(old(seen), seen, base + old(strStart) + 1, base + strStart + 1)
    {
      hide Window.Valid, HashReady, LowBytes;
      var left, str0 := n, strStart;
      while left != 0
        invariant left <= n && strStart == str0 + n - left && next == strStart + 1
        invariant Valid() && HashReady(Input(), insH, base + strStart + 1)
        invariant Added(old(seen), seen, base + str0 + 1, base + strStart + 1)
      {
        strStart := strStart + 1;
        InsertString();
        left := left - 1;
      }
    }

    /** The step over a match of `prevLength` bytes that starts one byte back: all strings up
        to its end are inserted. */
    method SkipMatch()
      requires Valid() && next == strStart + 1 && HashReady(Input(), insH, base + strStart + 1)
      requires base + strStart + lookahead == pos <= |data| && MIN_MATCH <= prevLength <= MAX_MATCH
      requires prevLength <= lookahead + 1
      requires blockStart <= strStart && (pos == |data| || lookahead >= MIN_LOOKAHEAD)
      modifies this`insH, this`hashHead, this`next, this`seen, this`strStart, this`lookahead, this`prevLength, prev
      ensures Reading() && HashReady(Input(), insH, base + strStart)
      ensures strStart == old(strStart) + old(prevLength) - 1
      ensures Added(old(seen), seen, base + old(strStart) + 1, base + strStart)
    {
      hide Window.Valid, HashReady, LowBytes;
      lookahead := lookahead - (prevLength - 1);
      prevLength := prevLength - 2;
      InsertRun(prevLength);
      strStart := strStart + 1;
    }

    /** The running hash is computed afresh, after a match whose strings were not inserted. */
    method Rehash()
      requires Valid() && (pos == |data| || base + strStart + 2 <= pos)
      modifies this`insH
      ensures insH < HASH_SIZE && HashReady(Input(), insH, base + strStart)
    {
      hide LowBytes, UpdateHash;
      ghost var a, b := ToByte(At(strStart)), ToByte(At(strStart + 1));
      insH := UpdateHash(ToByte(At(strStart)), ToByte(At(strStart + 1)));
      RolledStart(0, a, b);
      if base + strStart + 2 <= |data| {
        assert window[..][strStart] == Input()[base + strStart];
        assert window[..][strStart + 1] == Input()[base + (strStart + 1)];
      }
    }

    /** The step of `zip_deflate_fast` over a match that starts here: its strings are inserted
        unless it is long. */
    method PassMatch(len: nat)
      requires Valid() && next == strStart + 1 && HashReady(Input(), insH, base + strStart + 1)
      requires base + strStart + lookahead == pos <= |data| && MIN_MATCH <= len <= MAX_MATCH && len <= lookahead
      requires blockStart <= strStart && (pos == |data| || lookahead >= MIN_LOOKAHEAD)
      modifies this`insH, this`hashHead, this`next, this`seen, this`strStart, this`lookahead, prev
      ensures Reading() && HashReady(Input(), insH, base + strStart)
      ensures strStart == old(strStart) + len
      ensures if len <= maxLazyMatch then Added(old(seen), seen, base + old(strStart) + 1, base + strStart)
              else seen == old(seen)
    {
      hide Window.Valid, HashReady, LowBytes;
      lookahead := lookahead - len;
      if len <= maxLazyMatch {
        InsertRun(len - 1);
        strStart := strStart + 1;
      } else {
        strStart := strStart + len;
        Rehash();
      }
    }
  }

  lemma VisitedStep(prev: seq<int>, done: seq<nat>, q: nat, limit: nat, n: nat)
    requires |prev| >= WSIZE && n > 0
    ensures done + Visited(prev, q, limit, n)
         == if n == 1 || prev[q % WSIZE] <= limit then done + [q]
            else done + [q] + Visited(prev, prev[q % WSIZE], limit, n - 1)
  {
  }

  lemma NoneVisited(win: seq<int>, str: nat, len: nat)
    ensures NoLonger(win, [], str, len)
  {
  }

  lemma NotFirst(win: seq<int>, chain: seq<nat>, str: nat, ms: int, len: nat, i: nat, q: nat)
    requires i < |chain| && IsFirst(win, chain, str, ms, len, i) && q in chain[..i]
    ensures !Agrees(win, q, str, len)
  {
  }

  lemma NotVisited(win: seq<int>, chain: seq<nat>, str: nat, len: nat, q: nat)
    requires NoLonger(win, chain, str, len) && len < MAX_MATCH && q in chain
    ensures !Agrees(win, q, str, len + 1)
  {
  }

  /** Equal bytes of the input are equal cells of the window. */
  lemma RunAgrees(win: seq<int>, input: seq<int>, base: nat, pos: nat, q: nat, str: nat, n: nat)
    requires base <= pos && Loaded(win, input, base, pos - base) && SameRun(input, base + q, base + str, n)
    requires base + str + n <= pos
    ensures Agrees(win, q, str, n)
  {
    forall k | 0 <= k < n
      ensures SameCell(win, q, str, k)
    {
      assert SameByte(input, base + q, base + str, k);
      assert win[q + k] == input[base + (q + k)] && win[str + k] == input[base + (str + k)];
    }
  }

  lemma MaximumIsEnough(win: seq<int>, chain: seq<nat>, str: nat, len: nat)
    requires len >= MAX_MATCH
    ensures NoLonger(win, chain, str, len)
  {
  }

  /** One more string was looked at, and the best length has grown or not. */
  lemma OneMoreVisited(win: seq<int>, done: seq<nat>, q: nat, str: nat, len: nat, len': nat)
    requires NoLonger(win, done, str, len) && len <= len' && (len' >= MAX_MATCH || !Agrees(win, q, str, len' + 1))
    ensures NoLonger(win, done + [q], str, len')
  {
    if len' < MAX_MATCH {
      forall i | 0 <= i < |done|
        ensures !Agrees(win, done[i], str, len' + 1)
      {
        assert !Agrees(win, done[i], str, len + 1);
      }
    }
  }

  lemma NothingLoaded(win: seq<int>, prev: seq<int>, input: seq<int>)
    requires |win| == |prev| == WINDOW_SIZE && Bytes(input) && forall h :: 0 <= h < HASH_SIZE ==> Head(prev, h) == NIL
    ensures Loaded(win, input, 0, 0) && HeadsOk(prev, input, 0, {}, 0) && ChainsOk(prev, input, 0, {}, 0)
  {
  }

  lemma LoadMore(win: seq<int>, now: seq<int>, input: seq<int>, base: nat, p0: nat, p1: nat)
    requires base <= p0 <= p1 <= |input| && p1 - base <= |win| && Loaded(win, input, base, p0 - base)
    requires now == win[..p0 - base] + input[p0..p1] + win[p1 - base..]
    ensures Loaded(now, input, base, p1 - base)
  {
  }

  lemma ReadStep(win: seq<int>, now: seq<int>, input: seq<int>, offset: nat, p0: nat, i: nat)
    requires offset + i < |win| && p0 + i < |input|
    requires now == win[..offset] + input[p0..p0 + i] + win[offset + i..]
    ensures now[offset + i := input[p0 + i]] == win[..offset] + input[p0..p0 + i + 1] + win[offset + i + 1..]
  {
  }

  /** Two equal bytes, an equal key, and equal bytes from the fourth on make a match. */
  lemma RunIsMatch(win: seq<int>, input: seq<int>, base: nat, seen: set<nat>, str: nat, pos: nat, q: int, len: nat)
    requires Bytes(input) && base <= pos && Loaded(win, input, base, pos - base) && base + str <= pos
    requires Candidate(input, base, seen, str, q) && MIN_MATCH <= len <= MAX_MATCH
    requires SameCell(win, q, str, 0) && SameCell(win, q, str, 1)
    requires SameFourth(win, q, str, len)
    ensures MatchFound(input, base, str, pos, q, len)
  {
    if base + str + MIN_MATCH <= pos {
      var m, p, n := base + q, base + str, Min(len, pos - base - str);
      forall k | 0 <= k < n && k != 2
        ensures SameByte(input, m, p, k)
      {
        assert win[q + k] == input[base + (q + k)] && win[str + k] == input[base + (str + k)];
        assert SameCell(win, q, str, k);
      }
      assert SameByte(input, m, p, 0) && SameByte(input, m, p, 1);
      assert KeyAt(input, m) == KeyAt(input, p);
      HashGivesThird(input[p], input[p + 1], input[p + 2], input[m + 2]);
      assert SameByte(input, m, p, 2);
    }
  }

  /** The hash after the next byte: the key of the string at `str`, if all of it is there. */
  lemma HashAdvances(win: seq<int>, input: seq<int>, base: nat, n: nat, str: nat, h: nat)
    requires Bytes(input) && Loaded(win, input, base, n) && HashReady(input, h, base + str)
    requires base + n == |input| || str + MIN_MATCH <= n
    ensures var h' := UpdateHash(h, ToByte(Cell(win, str + MIN_MATCH - 1)));
      HasKey(input, base + str, h') && HashReady(input, h', base + str + 1)
  {
    var p := base + str;
    if p + 3 <= |input| {
      assert win[str + 2] == input[base + (str + 2)];
      RolledGivesHash(h, input[p], input[p + 1], input[p + 2]);
      RolledStep(h, input[p], input[p + 1], input[p + 2]);
    }
  }

  lemma HeadIsLatest(prev: seq<int>, input: seq<int>, base: nat, seen: set<nat>, next: nat, str: nat, h: nat)
    requires Bytes(input) && HeadsOk(prev, input, base, seen, next) && next <= str && h < HASH_SIZE
    requires HasKey(input, base + str, h) && base + str + 3 <= |input|
    ensures Link(input, base, seen + {base + str}, Head(prev, h), KeyAt(input, base + str), str)
  {
    hide KeyAt;
    assert Link(input, base, seen, Head(prev, h), h, next);
  }

  lemma HeadIsCandidate(prev: seq<int>, input: seq<int>, base: nat, seen: set<nat>, next: nat, str: nat, h: nat)
    requires Bytes(input) && HeadsOk(prev, input, base, seen, next) && next <= str && h < HASH_SIZE
    requires HasKey(input, base + str, h)
    ensures var q := Head(prev, h);
      0 <= q && (q == NIL || str - q > MAX_DIST || Candidate(input, base, seen + {base + str}, str, q))
  {
    hide KeyAt;
    assert Link(input, base, seen, Head(prev, h), h, next);
  }
}
