/** Run-length coding of code lengths (`zip_scan_tree`, `zip_send_tree`), against the
    reader of section 3.2.7 of RFC 1951. */
module TreeHeader {
  import opened Bits
  import opened Options
  import opened HuffmanCode
  import opened Rfc1951
  import opened SymbolCosts
  import opened BitWriter

  const REP_3_6: nat := 16
  const REPZ_3_10: nat := 17
  const REPZ_11_138: nat := 18
  const BL_CODES: nat := 19
  const EXTRA_BLBITS: seq<nat> := [0, 0, 0, 0, 0, 0, 0, 0, 0, 0, 0, 0, 0, 0, 0, 0, 2, 3, 7]
  const GUARD: int := 0xffff

  /** One element of a coded length sequence: a symbol of the code length alphabet and the
      value of its extra bits. */
  datatype Item = Item(sym: nat, val: nat)

  /** The number of extra bits of a code length symbol. */
  function ExtraBits(sym: nat): (n: nat)
    requires sym < BL_CODES
    ensures n <= 7
  {
    EXTRA_BLBITS[sym]
  }

  predicate ItemValid(it: Item)
  {
    it.sym < BL_CODES && it.val < Pow2(ExtraBits(it.sym))
  }

  /** The lengths an item adds, after the lengths `acc`. */
  function Expansion(it: Item, acc: seq<nat>): seq<nat>
  {
    if it.sym < 16 then [it.sym]
    else if it.sym == 16 then (if acc == [] then [] else Repeat(acc[|acc| - 1], 3 + it.val))
    else if it.sym == 17 then Repeat(0, 3 + it.val)
    else Repeat(0, 11 + it.val)
  }

  function ExpandAll(items: seq<Item>, acc: seq<nat>): seq<nat>
  {
    if items == [] then acc else ExpandAll(items[1..], acc + Expansion(items[0], acc))
  }

  lemma {:induction false} ExpandAllConcat(a: seq<Item>, b: seq<Item>, acc: seq<nat>)
    ensures ExpandAll(a + b, acc) == ExpandAll(b, ExpandAll(a, acc))
  {
    if a == [] {
      assert a + b == b;
    } else {
      assert (a + b)[1..] == a[1..] + b;
      ExpandAllConcat(a[1..], b, acc + Expansion(a[0], acc));
    }
  }

  // ---- the items the encoder chooses ------------------------------------------------

  function MaxCount(prev: int, cur: int): int { if cur == 0 then 138 else if prev == cur then 6 else 7 }

  function MinCount(prev: int, cur: int): int { if cur == 0 || prev == cur then 3 else 4 }

  /** The items for a run of `count` lengths `cur`, after a run of lengths `prev`. */
  function RunItems(prev: int, cur: nat, count: nat): (r: seq<Item>)
    requires count >= 1
  {
    if count < MinCount(prev, cur) then Repeat(Item(cur, 0), count)
    else if cur != 0 then
      if cur != prev then [Item(cur, 0), Item(REP_3_6, if count >= 4 then count - 4 else 0)]
      else [Item(REP_3_6, count - 3)]
    else if count <= 10 then [Item(REPZ_3_10, count - 3)]
    else [Item(REPZ_11_138, count - 11)]
  }

  /** The items for `lens[n - count..]`: `count` lengths equal to `lens[n]` are pending, and
      the run before them had length `prev`, or there was none and `prev` is -1. */
  function Items(lens: seq<nat>, n: nat, prev: int, count: nat): seq<Item>
    requires n <= |lens|
    decreases |lens| - n
  {
    if n == |lens| then []
    else if count + 1 < MaxCount(prev, lens[n]) && n + 1 < |lens| && lens[n] == lens[n + 1] then
      Items(lens, n + 1, prev, count + 1)
    else RunItems(prev, lens[n], count + 1) + Items(lens, n + 1, lens[n], 0)
  }

  predicate AllValid(items: seq<Item>) { forall i :: 0 <= i < |items| ==> ItemValid(items[i]) }

  lemma {:induction false} ExpandSingles(v: nat, count: nat, acc: seq<nat>)
    requires v < 16
    ensures ExpandAll(Repeat(Item(v, 0), count), acc) == acc + Repeat(v, count)
  {
    if count != 0 {
      var r := Repeat(Item(v, 0), count - 1);
      ExpandAllConcat(r, [Item(v, 0)], acc);
      ExpandSingles(v, count - 1, acc);
      ExpandOne(Item(v, 0), acc + Repeat(v, count - 1));
    }
  }

  lemma ExpandOne(it: Item, acc: seq<nat>)
    ensures ExpandAll([it], acc) == acc + Expansion(it, acc)
  {
    assert ExpandAll([it], acc) == ExpandAll([], acc + Expansion(it, acc));
  }

  /** The repeat counts of a run fit their 2, 3 or 7 extra bits. */
  lemma RunValid(prev: int, cur: nat, count: nat)
    requires 1 <= count <= MaxCount(prev, cur) && cur < 16
    ensures AllValid(RunItems(prev, cur, count))
  {
    assert Pow2(0) == 1 && Pow2(2) == 4 && Pow2(3) == 8 && Pow2(7) == 128;
  }

  lemma FirstThenRepeat(cur: nat, count: nat, acc: seq<nat>)
    requires 4 <= count <= 7 && 0 < cur < 16
    ensures ExpandAll([Item(cur, 0), Item(REP_3_6, count - 4)], acc) == acc + Repeat(cur, count)
  {
    var a, b := Item(cur, 0), Item(REP_3_6, count - 4);
    assert [a, b] == [a] + [b];
    ExpandAllConcat([a], [b], acc);
    ExpandOne(a, acc);
    ExpandOne(b, acc + [cur]);
    assert [cur] + Repeat(cur, count - 1) == Repeat(cur, count);
    assert acc + [cur] + Repeat(cur, count - 1) == acc + ([cur] + Repeat(cur, count - 1));
  }

  lemma OneItem(it: Item, acc: seq<nat>, run: seq<nat>)
    requires Expansion(it, acc) == run
    ensures ExpandAll([it], acc) == acc + run
  {
    ExpandOne(it, acc);
  }

  lemma RepeatRun(prev: int, cur: nat, count: nat, acc: seq<nat>)
    requires 3 <= count <= 6 && 0 < cur < 16 && prev == cur && acc != [] && acc[|acc| - 1] == cur
    ensures ExpandAll(RunItems(prev, cur, count), acc) == acc + Repeat(cur, count)
  {
    OneItem(Item(REP_3_6, count - 3), acc, Repeat(cur, count));
  }

  lemma ZeroRun(prev: int, count: nat, acc: seq<nat>)
    requires 3 <= count <= 138
    ensures ExpandAll(RunItems(prev, 0, count), acc) == acc + Repeat(0, count)
  {
    OneItem(if count <= 10 then Item(REPZ_3_10, count - 3) else Item(REPZ_11_138, count - 11), acc, Repeat(0, count));
  }

  /** A run's items stand for exactly the run. */
  lemma RunExpands(prev: int, cur: nat, count: nat, acc: seq<nat>)
    requires 1 <= count <= MaxCount(prev, cur) && cur < 16
    requires prev == cur ==> acc != [] && acc[|acc| - 1] == cur
    ensures ExpandAll(RunItems(prev, cur, count), acc) == acc + Repeat(cur, count)
  {
    if count < MinCount(prev, cur) {
      ExpandSingles(cur, count, acc);
    } else if cur == 0 {
      ZeroRun(prev, count, acc);
    } else if cur == prev {
      RepeatRun(prev, cur, count, acc);
    } else {
      FirstThenRepeat(cur, count, acc);
    }
  }

  /** The pending lengths: `count` of them, all equal to `lens[n]`. */
  predicate Pending(lens: seq<nat>, n: nat, count: nat)
  {
    && count <= n <= |lens| && (n == |lens| ==> count == 0)
    && (forall i :: n - count <= i < n ==> n < |lens| && lens[i] == lens[n])
  }

  lemma {:induction false} ItemsValid(lens: seq<nat>, n: nat, prev: int, count: nat)
    requires n <= |lens| && Limited(lens, 15)
    requires n < |lens| ==> count < MaxCount(prev, lens[n])
    ensures AllValid(Items(lens, n, prev, count))
    decreases |lens| - n
  {
    if n == |lens| {
    } else if count + 1 < MaxCount(prev, lens[n]) && n + 1 < |lens| && lens[n] == lens[n + 1] {
      ItemsValid(lens, n + 1, prev, count + 1);
    } else {
      RunValid(prev, lens[n], count + 1);
      ItemsValid(lens, n + 1, lens[n], 0);
    }
  }

  lemma SentPlusRun(lens: seq<nat>, n: nat, count: nat)
    requires n < |lens| && Pending(lens, n, count)
    ensures lens[..n - count] + Repeat(lens[n], count + 1) == lens[..n + 1]
  {
  }

  /** Whatever the lengths, the items expand to them, and no repeat code reaches back
      before the first of them. */
  lemma {:induction false} ItemsExpand(lens: seq<nat>, n: nat, prev: int, count: nat, acc: seq<nat>)
    requires n <= |lens| && Pending(lens, n, count) && Limited(lens, 15)
    requires n < |lens| ==> count < MaxCount(prev, lens[n])
    requires prev == -1 || (n - count > 0 && prev == lens[n - count - 1])
    ensures ExpandAll(Items(lens, n, prev, count), acc + lens[..n - count]) == acc + lens
    decreases |lens| - n
  {
    hide RunItems, Repeat;
    var sent := acc + lens[..n - count];
    if n == |lens| {
      assert lens[..n - count] == lens;
    } else if count + 1 < MaxCount(prev, lens[n]) && n + 1 < |lens| && lens[n] == lens[n + 1] {
      assert n + 1 - (count + 1) == n - count;
      ItemsExpand(lens, n + 1, prev, count + 1, acc);
    } else {
      var run, rest := RunItems(prev, lens[n], count + 1), Items(lens, n + 1, lens[n], 0);
      RunExpands(prev, lens[n], count + 1, sent);
      SentPlusRun(lens, n, count);
      assert sent + Repeat(lens[n], count + 1) == acc + lens[..n + 1];
      assert n + 1 - 0 == n + 1;
      ItemsExpand(lens, n + 1, lens[n], 0, acc);
      ExpandAllConcat(run, rest, sent);
    }
  }

  /** No repeat code refers to what came before the first length. */
  lemma {:induction false} FirstIsNoRepeat(lens: seq<nat>, n: nat, count: nat)
    requires n <= |lens| && Limited(lens, 15)
    ensures var items := Items(lens, n, -1, count); items == [] || items[0].sym != REP_3_6
    decreases |lens| - n
  {
    if n < |lens| {
      if count + 1 < MaxCount(-1, lens[n]) && n + 1 < |lens| && lens[n] == lens[n + 1] {
        FirstIsNoRepeat(lens, n + 1, count + 1);
      } else {
        var run := RunItems(-1, lens[n], count + 1);
        assert run[0].sym != REP_3_6;
        assert (run + Items(lens, n + 1, lens[n], 0))[0] == run[0];
      }
    }
  }

  predicate Starts(items: seq<Item>, acc: seq<nat>)
  {
    acc != [] || items == [] || items[0].sym != REP_3_6
  }

  lemma {:induction false} ExpandGrows(items: seq<Item>, acc: seq<nat>)
    requires Starts(items, acc)
    ensures |ExpandAll(items, acc)| >= |acc| + |items|
  {
    if items != [] {
      assert |Expansion(items[0], acc)| >= 1;
      ExpandGrows(items[1..], acc + Expansion(items[0], acc));
    }
  }

  // ---- bits -------------------------------------------------------------------------

  /** The bits of a symbol. */
  function CodeBits(fc: seq<int>, dl: seq<int>, sym: nat): (r: seq<bool>)
    requires sym < |fc| && sym < |dl|
  {
    if fc[sym] >= 0 && dl[sym] >= 0 then BitsOf(fc[sym], dl[sym]) else []
  }

  function ItemBits(it: Item, fc: seq<int>, dl: seq<int>): seq<bool>
    requires BL_CODES <= |fc| && BL_CODES <= |dl| && ItemValid(it)
  {
    CodeBits(fc, dl, it.sym) + BitsOf(it.val, ExtraBits(it.sym))
  }

  function ItemsBits(items: seq<Item>, fc: seq<int>, dl: seq<int>): seq<bool>
    requires BL_CODES <= |fc| && BL_CODES <= |dl| && AllValid(items)
  {
    if items == [] then [] else ItemBits(items[0], fc, dl) + ItemsBits(items[1..], fc, dl)
  }

  lemma {:induction false} ItemsBitsConcat(a: seq<Item>, b: seq<Item>, fc: seq<int>, dl: seq<int>)
    requires BL_CODES <= |fc| && BL_CODES <= |dl| && AllValid(a) && AllValid(b)
    ensures AllValid(a + b)
    ensures ItemsBits(a + b, fc, dl) == ItemsBits(a, fc, dl) + ItemsBits(b, fc, dl)
  {
    if a == [] {
      assert a + b == b;
    } else {
      assert (a + b)[1..] == a[1..] + b;
      ItemsBitsConcat(a[1..], b, fc, dl);
    }
  }

  /** The table is the canonical code for the lengths `bl`. */
  predicate CanonicalTable(fc: seq<int>, dl: seq<int>, bl: seq<nat>)
  {
    && |bl| <= |fc| && |bl| <= |dl|
    && (forall c :: 0 <= c < |bl| && bl[c] > 0 ==> CodeBits(fc, dl, c) == Codeword(bl, c))
  }

  lemma ReadItem(it: Item, fc: seq<int>, dl: seq<int>, bl: seq<nat>, rest: seq<bool>, acc: seq<nat>)
    requires BL_CODES == |bl| <= |fc| && BL_CODES <= |dl| && ItemValid(it)
    requires ValidLengths(bl) && CanonicalTable(fc, dl, bl) && bl[it.sym] > 0
    requires it.sym == REP_3_6 ==> acc != []
    ensures ReadRun(bl, ItemBits(it, fc, dl) + rest, acc) == Some((Expansion(it, acc), rest))
  {
    hide Codeword, ValidLengths, CodeBits, FindSymbol, Repeat;
    var x := BitsOf(it.val, ExtraBits(it.sym));
    assert ItemBits(it, fc, dl) + rest == Codeword(bl, it.sym) + (x + rest);
    ReadCodeword(bl, it.sym, x + rest);
    if it.sym < 16 {
      assert x + rest == rest;
    } else {
      ReadBitsOf(it.val, ExtraBits(it.sym), rest);
    }
  }

  lemma ReadLengthsStep(bl: seq<nat>, s: seq<bool>, acc: seq<nat>, total: nat, run: seq<nat>, s1: seq<bool>)
    requires |acc| < total && ReadRun(bl, s, acc) == Some((run, s1))
    ensures ReadLengths(bl, s, acc, total) == ReadLengths(bl, s1, acc + run, total)
  {
  }

  /** The items can be sent with the lengths `bl`. */
  predicate Sent(items: seq<Item>, bl: seq<nat>)
  {
    AllValid(items) && |bl| == BL_CODES && forall i :: 0 <= i < |items| ==> bl[items[i].sym] > 0
  }

  lemma ItemsBitsFirst(items: seq<Item>, fc: seq<int>, dl: seq<int>, rest: seq<bool>)
    requires BL_CODES <= |fc| && BL_CODES <= |dl| && AllValid(items) && items != []
    ensures ItemsBits(items, fc, dl) + rest == ItemBits(items[0], fc, dl) + (ItemsBits(items[1..], fc, dl) + rest)
  {
    var a, b := ItemBits(items[0], fc, dl), ItemsBits(items[1..], fc, dl);
    assert ItemsBits(items, fc, dl) == a + b;
    hide ItemBits, ItemsBits;
    AppendAssoc(a, b, rest);
  }

  /** Reading the bits of an item continues with the lengths it stands for. */
  lemma ReadFirst(it: Item, fc: seq<int>, dl: seq<int>, bl: seq<nat>, rest: seq<bool>, acc: seq<nat>, total: nat)
    requires BL_CODES == |bl| <= |fc| && BL_CODES <= |dl| && ItemValid(it)
    requires ValidLengths(bl) && CanonicalTable(fc, dl, bl) && bl[it.sym] > 0
    requires |acc| < total && (it.sym == REP_3_6 ==> acc != [])
    ensures ReadLengths(bl, ItemBits(it, fc, dl) + rest, acc, total)
         == ReadLengths(bl, rest, acc + Expansion(it, acc), total)
    ensures |Expansion(it, acc)| > 0
  {
    ReadItem(it, fc, dl, bl, rest, acc);
    ReadLengthsStep(bl, ItemBits(it, fc, dl) + rest, acc, total, Expansion(it, acc), rest);
  }

  /** Reading the bits of the items continues with the lengths they expand to. */
  lemma {:induction false} ReadItems(items: seq<Item>, fc: seq<int>, dl: seq<int>, bl: seq<nat>, rest: seq<bool>,
                                     acc: seq<nat>, total: nat)
    requires BL_CODES <= |fc| && BL_CODES <= |dl|
    requires Sent(items, bl) && ValidLengths(bl) && CanonicalTable(fc, dl, bl)
    requires Starts(items, acc) && |ExpandAll(items, acc)| <= total
    ensures ReadLengths(bl, ItemsBits(items, fc, dl) + rest, acc, total)
         == ReadLengths(bl, rest, ExpandAll(items, acc), total)
  {
    hide ReadLengths, ValidLengths, CanonicalTable, ItemBits;
    if items == [] {
      assert ItemsBits(items, fc, dl) + rest == rest;
    } else {
      ItemsBitsFirst(items, fc, dl, rest);
      ExpandGrows(items, acc);
      ReadFirst(items[0], fc, dl, bl, ItemsBits(items[1..], fc, dl) + rest, acc, total);
      ReadItems(items[1..], fc, dl, bl, rest, acc + Expansion(items[0], acc), total);
    }
  }

  // ---- counting and sending ---------------------------------------------------------

  function Syms(items: seq<Item>): (r: seq<nat>)
    ensures |r| == |items| && forall i :: 0 <= i < |r| ==> r[i] == items[i].sym
  {
    seq(|items|, i requires 0 <= i < |items| => items[i].sym)
  }

  lemma SymsConcat(a: seq<Item>, b: seq<Item>)
    ensures Syms(a + b) == Syms(a) + Syms(b)
  {
  }

  /** The items bits are as many as the code length tree's cost model says. */
  lemma {:induction false} ItemsCost(items: seq<Item>, fc: seq<int>, dl: seq<int>)
    requires BL_CODES <= |fc| && BL_CODES <= |dl| && AllValid(items)
    requires forall i :: 0 <= i < |items| ==> fc[items[i].sym] >= 0 && dl[items[i].sym] >= 0
    ensures |ItemsBits(items, fc, dl)| == StreamCost(Syms(items), dl, EXTRA_BLBITS, 0)
  {
    if items == [] {
    } else {
      var a, b := [items[0]], items[1..];
      assert items == a + b;
      SymsConcat(a, b);
      StreamCostConcat(Syms(a), Syms(b), dl, EXTRA_BLBITS, 0);
      ItemsCost(b, fc, dl);
      assert Syms(a) == [] + [items[0].sym];
      StreamCostSnoc([], items[0].sym, dl, EXTRA_BLBITS, 0);
      assert StreamCost([], dl, EXTRA_BLBITS, 0) == 0;
    }
  }
}
