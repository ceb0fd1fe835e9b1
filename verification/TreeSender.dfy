/** The loops that count and send the run-length coded lengths (`zip_scan_tree`,
    `zip_send_tree`). */
module TreeSender {
  import opened Bits
  import opened HuffmanCode
  import opened Rfc1951
  import opened SymbolCosts
  import opened BitWriter
  import opened TreeHeader

  /** `f` is `f0` plus one for each time an item uses the symbol. */
  predicate Counted(f: seq<int>, f0: seq<int>, items: seq<Item>)
  {
    && |f| == |f0|
    && forall c {:trigger f[c]} :: 0 <= c < |f| ==> f[c] == f0[c] + Occurs(Syms(items), c)
  }

  lemma CountedRepeat(f: seq<int>, f0: seq<int>, items: seq<Item>, cur: nat, count: nat)
    requires Counted(f, f0, items) && cur < |f|
    ensures Counted(f[cur := f[cur] + count], f0, items + Repeat(Item(cur, 0), count))
  {
    var run := Repeat(Item(cur, 0), count);
    SymsConcat(items, run);
    forall c | 0 <= c < |f|
      ensures f[cur := f[cur] + count][c] == f0[c] + Occurs(Syms(items + run), c)
    {
      OccursConcat(Syms(items), Syms(run), c);
      OccursRepeat(cur, count, c);
    }
  }

  lemma {:induction false} OccursRepeat(cur: nat, count: nat, c: nat)
    ensures Occurs(Syms(Repeat(Item(cur, 0), count)), c) == if c == cur then count else 0
  {
    if count != 0 {
      var r := Repeat(Item(cur, 0), count - 1);
      OccursRepeat(cur, count - 1, c);
      SymsConcat(r, [Item(cur, 0)]);
      assert Syms([Item(cur, 0)]) == [cur];
      OccursSnoc(Syms(r), cur, c);
    }
  }

  lemma CountedOne(f: seq<int>, f0: seq<int>, items: seq<Item>, it: Item)
    requires Counted(f, f0, items) && it.sym < |f|
    ensures Counted(f[it.sym := f[it.sym] + 1], f0, items + [it])
  {
    SymsConcat(items, [it]);
    assert Syms([it]) == [it.sym];
    forall c | 0 <= c < |f|
      ensures f[it.sym := f[it.sym] + 1][c] == f0[c] + Occurs(Syms(items + [it]), c)
    {
      OccursSnoc(Syms(items), it.sym, c);
    }
  }

  /** The update of the frequencies at the end of a run. */
  method CountRun(blFc: array<int>, prev: int, cur: nat, count: nat, ghost f0: seq<int>, ghost done: seq<Item>)
    requires blFc.Length >= BL_CODES && cur < 16 && 1 <= count <= MaxCount(prev, cur)
    requires Counted(blFc[..], f0, done)
    modifies blFc
    ensures Counted(blFc[..], f0, done + RunItems(prev, cur, count))
  {
    ghost var f := blFc[..];
    if count < MinCount(prev, cur) {
      CountedRepeat(f, f0, done, cur, count);
      blFc[cur] := blFc[cur] + count;
      assert blFc[..] == f[cur := f[cur] + count];
    } else if cur != 0 {
      ghost var at := done;
      if cur != prev {
        CountedOne(f, f0, done, Item(cur, 0));
        blFc[cur] := blFc[cur] + 1;
        f, at := f[cur := f[cur] + 1], done + [Item(cur, 0)];
        assert blFc[..] == f;
      }
      ghost var it := Item(REP_3_6, if cur != prev then (if count >= 4 then count - 4 else 0) else count - 3);
      CountedOne(f, f0, at, it);
      blFc[REP_3_6] := blFc[REP_3_6] + 1;
      assert blFc[..] == f[REP_3_6 := f[REP_3_6] + 1];
      assert at + [it] == done + RunItems(prev, cur, count);
    } else if count <= 10 {
      CountedOne(f, f0, done, Item(REPZ_3_10, count - 3));
      blFc[REPZ_3_10] := blFc[REPZ_3_10] + 1;
      assert blFc[..] == f[REPZ_3_10 := f[REPZ_3_10] + 1];
    } else {
      CountedOne(f, f0, done, Item(REPZ_11_138, count - 11));
      blFc[REPZ_11_138] := blFc[REPZ_11_138] + 1;
      assert blFc[..] == f[REPZ_11_138 := f[REPZ_11_138] + 1];
    }
  }

  /** The position of the scan: what is left of the lengths, and what has been seen. */
  predicate Scanning(lens: seq<nat>, n: nat, prev: int, count: nat, next: int, maxCount: int, minCount: int,
                     done: seq<Item>)
  {
    && n <= |lens| && Limited(lens, MAX_BITS)
    && done + Items(lens, n, prev, count) == Items(lens, 0, -1, 0)
    && (n < |lens| ==> next == lens[n] && maxCount == MaxCount(prev, next) && minCount == MinCount(prev, next)
                       && count < maxCount)
    && (n == |lens| ==> next == GUARD && count == 0)
  }

  lemma ScanContinues(lens: seq<nat>, n: nat, prev: int, count: nat, cur: nat, next: int, maxCount: int, minCount: int,
                      done: seq<Item>)
    requires n < |lens| && Scanning(lens, n, prev, count, cur, maxCount, minCount, done)
    requires next == (if n + 1 < |lens| then lens[n + 1] else GUARD)
    requires count + 1 < maxCount && cur == next
    ensures Scanning(lens, n + 1, prev, count + 1, next, maxCount, minCount, done)
    ensures Items(lens, n, prev, count) == Items(lens, n + 1, prev, count + 1)
  {
  }

  lemma ScanEndsRun(lens: seq<nat>, n: nat, prev: int, count: nat, cur: nat, next: int, maxCount: int, minCount: int,
                    done: seq<Item>)
    requires n < |lens| && Scanning(lens, n, prev, count, cur, maxCount, minCount, done)
    requires next == (if n + 1 < |lens| then lens[n + 1] else GUARD)
    requires !(count + 1 < maxCount && cur == next)
    ensures Scanning(lens, n + 1, cur, 0, next, MaxCount(cur, next), MinCount(cur, next),
                     done + RunItems(prev, cur, count + 1))
    ensures Items(lens, n, prev, count) == RunItems(prev, cur, count + 1) + Items(lens, n + 1, cur, 0)
  {
    var run, rest := RunItems(prev, cur, count + 1), Items(lens, n + 1, cur, 0);
    assert done + (run + rest) == done + run + rest;
  }

  lemma ScanEnds(lens: seq<nat>, prev: int, count: nat, next: int, maxCount: int, minCount: int, done: seq<Item>)
    requires Scanning(lens, |lens|, prev, count, next, maxCount, minCount, done)
    ensures done == Items(lens, 0, -1, 0)
  {
    assert done + [] == done;
  }

  /** `zip_scan_tree`: counts exactly the symbols that sending the lengths takes. */
  method ScanTree(dl: array<int>, maxCode: nat, blFc: array<int>, ghost lens: seq<nat>)
    requires dl != blFc && blFc.Length >= BL_CODES && maxCode + 1 < dl.Length
    requires lens == dl[..maxCode + 1] && Limited(lens, MAX_BITS)
    modifies dl, blFc
    ensures dl[..] == old(dl[..])[maxCode + 1 := GUARD]
    ensures Counted(blFc[..], old(blFc[..]), Items(lens, 0, -1, 0))
  {
    ghost var f0, done: seq<Item> := blFc[..], [];
    var prevLen, nextLen, count, maxCount, minCount := -1, dl[0], 0, 7, 4;
    assert forall i :: 0 <= i <= maxCode ==> dl[i] == dl[..maxCode + 1][i];
    if nextLen == 0 {
      maxCount := 138;
      minCount := 3;
    }
    dl[maxCode + 1] := GUARD;
    ghost var marked := dl[..];
    assert forall i :: 0 <= i <= maxCode ==> marked[i] == lens[i];
    assert [] + Items(lens, 0, -1, 0) == Items(lens, 0, -1, 0);
    assert Syms([]) == [];
    var n := 0;
    while n <= maxCode
      invariant n <= maxCode + 1 && dl[..] == marked
      invariant count >= 0 && Scanning(lens, n, prevLen, count, nextLen, maxCount, minCount, done)
      invariant Counted(blFc[..], f0, done)
    {
      var curLen := nextLen;
      nextLen := dl[n + 1];
      assert nextLen == marked[n + 1];
      count := count + 1;
      if count < maxCount && curLen == nextLen {
        ScanContinues(lens, n, prevLen, count - 1, curLen, nextLen, maxCount, minCount, done);
      } else {
        ScanEndsRun(lens, n, prevLen, count - 1, curLen, nextLen, maxCount, minCount, done);
        CountRun(blFc, prevLen, curLen, count, f0, done);
        done := done + RunItems(prevLen, curLen, count);
        count := 0;
        prevLen := curLen;
        maxCount, minCount := NextCounts(curLen, nextLen);
      }
      n := n + 1;
    }
    ScanEnds(lens, prevLen, count, nextLen, maxCount, minCount, done);
  }

  /** The limits for the run that starts with `next`, after a run of `cur`. */
  method NextCounts(cur: int, next: int) returns (maxCount: int, minCount: int)
    ensures maxCount == MaxCount(cur, next) && minCount == MinCount(cur, next)
  {
    if next == 0 {
      maxCount := 138;
      minCount := 3;
    } else if cur == next {
      maxCount := 6;
      minCount := 3;
    } else {
      maxCount := 7;
      minCount := 4;
    }
  }

  // ---- sending ----------------------------------------------------------------------

  predicate CanSend(fc: seq<int>, dl: seq<int>, sym: nat)
  {
    sym < |fc| && sym < |dl| && 0 < dl[sym] <= MAX_BITS && 0 <= fc[sym] < Pow2(dl[sym])
  }

  predicate CanSendAll(items: seq<Item>, fc: seq<int>, dl: seq<int>)
  {
    AllValid(items) && forall i :: 0 <= i < |items| ==> CanSend(fc, dl, items[i].sym)
  }

  lemma CanSendParts(a: seq<Item>, b: seq<Item>, fc: seq<int>, dl: seq<int>)
    requires CanSendAll(a + b, fc, dl)
    ensures CanSendAll(a, fc, dl) && CanSendAll(b, fc, dl)
  {
    forall i | 0 <= i < |a| ensures ItemValid(a[i]) && CanSend(fc, dl, a[i].sym) { assert (a + b)[i] == a[i]; }
    forall i | 0 <= i < |b| ensures ItemValid(b[i]) && CanSend(fc, dl, b[i].sym) { assert (a + b)[|a| + i] == b[i]; }
  }

  /** `zip_SEND_CODE` */
  method SendCode(sink: BitSink, sym: nat, fc: seq<int>, dl: seq<int>)
    requires sink.Ready() && CanSend(fc, dl, sym)
    modifies sink.Repr()
    ensures sink.Written() && sink.bits == old(sink.bits) + CodeBits(fc, dl, sym)
  {
    sink.SendBits(fc[sym], dl[sym]);
  }

  method SendItem(sink: BitSink, it: Item, fc: seq<int>, dl: seq<int>)
    requires sink.Ready()
    requires BL_CODES <= |fc| && BL_CODES <= |dl| && ItemValid(it) && CanSend(fc, dl, it.sym)
    modifies sink.Repr()
    ensures sink.Written() && sink.bits == old(sink.bits) + ItemsBits([it], fc, dl)
  {
    hide BitSink.Valid, ItemsBits, CodeBits, BitsOf, ExtraBits, ItemBits;
    OneItemBits(it, fc, dl);
    SendCode(sink, it.sym, fc, dl);
    sink.SendBits(it.val, ExtraBits(it.sym));
  }

  lemma OneItemBits(it: Item, fc: seq<int>, dl: seq<int>)
    requires BL_CODES <= |fc| && BL_CODES <= |dl| && ItemValid(it)
    ensures ItemsBits([it], fc, dl) == CodeBits(fc, dl, it.sym) + BitsOf(it.val, ExtraBits(it.sym))
  {
    assert ItemsBits([it], fc, dl) == ItemBits(it, fc, dl) + ItemsBits([], fc, dl);
  }

  /** The short run: each of its lengths by itself. */
  method SendSingles(sink: BitSink, cur: nat, count: nat, fc: seq<int>, dl: seq<int>)
    requires sink.Ready() && count > 0
    requires BL_CODES <= |fc| && BL_CODES <= |dl| && cur < 16 && CanSend(fc, dl, cur)
    modifies sink.Repr()
    ensures sink.Written() && AllValid(Repeat(Item(cur, 0), count))
    ensures sink.bits == old(sink.bits) + ItemsBits(Repeat(Item(cur, 0), count), fc, dl)
  {
    hide BitSink.Valid, ItemBits;
    var left := count;
    ghost var bits0 := sink.bits;
    while left != 0
      invariant 0 <= left <= count && sink.Written()
      invariant sink.bits == bits0 + ItemsBits(Repeat(Item(cur, 0), count - left), fc, dl)
    {
      SinglesStep(cur, count - left, fc, dl);
      assert sink.bits + ItemsBits([Item(cur, 0)], fc, dl)
          == bits0 + ItemsBits(Repeat(Item(cur, 0), count - left + 1), fc, dl);
      SendItem(sink, Item(cur, 0), fc, dl);
      left := left - 1;
    }
  }

  lemma SinglesStep(cur: nat, n: nat, fc: seq<int>, dl: seq<int>)
    requires BL_CODES <= |fc| && BL_CODES <= |dl| && cur < 16
    ensures AllValid(Repeat(Item(cur, 0), n)) && AllValid(Repeat(Item(cur, 0), n + 1))
    ensures ItemsBits(Repeat(Item(cur, 0), n + 1), fc, dl)
         == ItemsBits(Repeat(Item(cur, 0), n), fc, dl) + ItemsBits([Item(cur, 0)], fc, dl)
  {
    ItemsBitsConcat(Repeat(Item(cur, 0), n), [Item(cur, 0)], fc, dl);
  }

  /** What is sent at the end of a run. */
  method SendRun(sink: BitSink, prev: int, cur: nat, count: nat, fc: seq<int>, dl: seq<int>)
    requires sink.Ready() && BL_CODES <= |fc| && BL_CODES <= |dl|
    requires cur < 16 && 1 <= count <= MaxCount(prev, cur)
    requires CanSendAll(RunItems(prev, cur, count), fc, dl)
    modifies sink.Repr()
    ensures sink.Written() && sink.bits == old(sink.bits) + ItemsBits(RunItems(prev, cur, count), fc, dl)
  {
    hide BitSink.Valid, ItemBits;
    ghost var run := RunItems(prev, cur, count);
    assert CanSend(fc, dl, run[0].sym);
    if count < MinCount(prev, cur) {
      SendSingles(sink, cur, count, fc, dl);
    } else if cur != 0 {
      assert ItemValid(run[|run| - 1]) && CanSend(fc, dl, run[|run| - 1].sym);
      var left := count;
      if cur != prev {
        ItemsBitsConcat([run[0]], [run[1]], fc, dl);
        assert run == [run[0]] + [run[1]];
        SendItem(sink, Item(cur, 0), fc, dl);
        left := left - 1;
      }
      SendItem(sink, Item(REP_3_6, left - 3), fc, dl);
    } else if count <= 10 {
      SendItem(sink, Item(REPZ_3_10, count - 3), fc, dl);
    } else {
      SendItem(sink, Item(REPZ_11_138, count - 11), fc, dl);
    }
  }

  lemma SentRun(items: seq<Item>, run: seq<Item>, rest: seq<Item>, fc: seq<int>, dl: seq<int>)
    requires BL_CODES <= |fc| && BL_CODES <= |dl| && AllValid(items) && CanSendAll(run + rest, fc, dl)
    ensures CanSendAll(run, fc, dl) && CanSendAll(rest, fc, dl) && AllValid(items + run)
    ensures ItemsBits(items + run, fc, dl) == ItemsBits(items, fc, dl) + ItemsBits(run, fc, dl)
  {
    CanSendParts(run, rest, fc, dl);
    ItemsBitsConcat(items, run, fc, dl);
  }

  lemma NoItems(fc: seq<int>, dl: seq<int>)
    requires BL_CODES <= |fc| && BL_CODES <= |dl|
    ensures AllValid([]) && ItemsBits([], fc, dl) == []
  {
  }

  /** `zip_send_tree` */
  method SendTree(sink: BitSink, lens: array<int>, maxCode: nat, fc: seq<int>, dl: seq<int>, ghost ls: seq<nat>)
    requires sink.Ready() && BL_CODES <= |fc| && BL_CODES <= |dl|
    requires lens !in sink.Repr() && maxCode + 1 < lens.Length && lens[maxCode + 1] == GUARD
    requires ls == lens[..maxCode + 1] && Limited(ls, MAX_BITS) && CanSendAll(Items(ls, 0, -1, 0), fc, dl)
    modifies sink.Repr()
    ensures sink.Written() && sink.bits == old(sink.bits) + ItemsBits(Items(ls, 0, -1, 0), fc, dl)
  {
    hide BitSink.Valid, Items, RunItems, ItemsBits, CanSendAll, AllValid;
    ghost var bits0, done: seq<Item>, marked := sink.bits, [], lens[..];
    NoItems(fc, dl);
    var prevLen, nextLen, count, maxCount, minCount := -1, lens[0], 0, 7, 4;
    assert forall i :: 0 <= i <= maxCode ==> marked[i] == lens[..maxCode + 1][i] == ls[i];
    if nextLen == 0 {
      maxCount := 138;
      minCount := 3;
    }
    assert [] + Items(ls, 0, -1, 0) == Items(ls, 0, -1, 0);
    var n := 0;
    while n <= maxCode
      invariant n <= maxCode + 1 && sink.Written() && lens[..] == marked
      invariant count >= 0 && Scanning(ls, n, prevLen, count, nextLen, maxCount, minCount, done)
      invariant CanSendAll(Items(ls, n, prevLen, count), fc, dl) && AllValid(done)
      invariant sink.bits == bits0 + ItemsBits(done, fc, dl)
    {
      var curLen := nextLen;
      nextLen := lens[n + 1];
      assert nextLen == marked[n + 1];
      count := count + 1;
      if count < maxCount && curLen == nextLen {
        ScanContinues(ls, n, prevLen, count - 1, curLen, nextLen, maxCount, minCount, done);
      } else {
        ghost var run := RunItems(prevLen, curLen, count);
        ScanEndsRun(ls, n, prevLen, count - 1, curLen, nextLen, maxCount, minCount, done);
        SentRun(done, run, Items(ls, n + 1, curLen, 0), fc, dl);
        assert sink.bits + ItemsBits(run, fc, dl) == bits0 + ItemsBits(done + run, fc, dl);
        SendRun(sink, prevLen, curLen, count, fc, dl);
        done := done + run;
        count := 0;
        prevLen := curLen;
        maxCount, minCount := NextCounts(curLen, nextLen);
      }
      n := n + 1;
    }
    ScanEnds(ls, prevLen, count, nextLen, maxCount, minCount, done);
  }
}
