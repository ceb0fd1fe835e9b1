/** The constant tables (`zip_ct_init`): from lengths and distances to their codes, and the
    static trees, against sections 3.2.5 and 3.2.6 of RFC 1951. */
module CodeTables {
  import opened Bits
  import opened HuffmanCode
  import opened Rfc1951
  import opened BitLengths
  import opened CodeStrings
  import opened BitWriter
  import opened TreeHeader
  import opened TreeSender

  const LITERALS: nat := 256
  const LENGTH_CODES: nat := 29
  const L_CODES: nat := 286
  const D_CODES: nat := 30
  const EXTRA_LBITS: seq<nat> := [
    0, 0, 0, 0, 0, 0, 0, 0, 1, 1, 1, 1, 2, 2, 2, 2, 3, 3, 3, 3, 4, 4, 4, 4, 5, 5, 5, 5, 0]
  const EXTRA_DBITS: seq<nat> := [
    0, 0, 0, 0, 1, 1, 2, 2, 3, 3, 4, 4, 5, 5, 6, 6, 7, 7, 8, 8, 9, 9, 10, 10, 11, 11, 12, 12, 13, 13]

  /** A tree as the block writer sees it: symbol `n` is sent as `dl[n]` bits of `fc[n]`. */
  datatype CodeTable = CodeTable(fc: seq<int>, dl: seq<int>)

  datatype Tables = Tables(lengthCode: seq<int>, baseLength: seq<int>, distCode: seq<int>, baseDist: seq<int>,
                           staticL: CodeTable, staticD: CodeTable)

  // ---- lengths ----------------------------------------------------------------------

  function LengthBits(code: nat): nat
    requires code < LENGTH_CODES
  {
    EXTRA_LBITS[code]
  }

  /** The first match length, less 3, of a length code. */
  function LengthStart(code: nat): nat
    requires code <= LENGTH_CODES - 1
  {
    if code < LENGTH_CODES - 1 then LENGTH_BASE[code] - 3 else 256
  }

  lemma LengthStep(code: nat)
    requires code < LENGTH_CODES - 1
    ensures LengthStart(code + 1) == LengthStart(code) + Pow2(LengthBits(code)) <= 256
    ensures LengthBits(code) == LENGTH_EXTRA[code]
  {
    assert Pow2(1) == 2 && Pow2(2) == 4 && Pow2(3) == 8 && Pow2(4) == 16 && Pow2(5) == 32;
  }

  /** A match of length `lc + 3` may be sent with the given length code. */
  predicate LengthFits(code: int, lc: nat)
  {
    && 0 <= code < LENGTH_CODES
    && (if code == LENGTH_CODES - 1 then lc == 255
        else LengthStart(code) <= lc < LengthStart(code) + Pow2(LengthBits(code)))
  }

  predicate LengthsCoded(lengthCode: seq<int>, n: nat)
  {
    n <= |lengthCode| && forall lc :: 0 <= lc < n ==> LengthFits(lengthCode[lc], lc)
  }

  predicate LengthBases(baseLength: seq<int>, n: nat)
  {
    n <= |baseLength| && n < LENGTH_CODES && forall c :: 0 <= c < n ==> baseLength[c] == LengthStart(c)
  }

  method LengthTables() returns (lengthCode: array<int>, baseLength: array<int>)
    ensures LengthsCoded(lengthCode[..], 256) && LengthBases(baseLength[..], LENGTH_CODES - 1)
    ensures lengthCode.Length == 256 && baseLength.Length == LENGTH_CODES && lengthCode[255] == LENGTH_CODES - 1
    ensures fresh(lengthCode) && fresh(baseLength)
  {
    hide LengthStart, LengthBits;
    lengthCode, baseLength := new int[256], new int[LENGTH_CODES];
    var length, code := 0, 0;
    assert LengthStart(0) == 0 by { LengthEnds(); }
    while code < LENGTH_CODES - 1
      invariant code <= LENGTH_CODES - 1 && length == LengthStart(code) <= 256
      invariant LengthsCoded(lengthCode[..], length) && LengthBases(baseLength[..], code)
    {
      LengthStep(code);
      baseLength[code] := length;
      var n := 0;
      while n < Pow2(LengthBits(code))
        invariant n <= Pow2(LengthBits(code)) && length == LengthStart(code) + n
        invariant LengthsCoded(lengthCode[..], length) && LengthBases(baseLength[..], code + 1)
      {
        lengthCode[length] := code;
        length := length + 1;
        n := n + 1;
      }
      code := code + 1;
    }
    LengthEnds();
    lengthCode[length - 1] := code;
  }

  lemma LengthEnds()
    ensures LengthStart(0) == 0 && LengthStart(LENGTH_CODES - 1) == 256
  {
  }

  // ---- distances --------------------------------------------------------------------

  function DistBits(code: nat): nat
    requires code < D_CODES
  {
    EXTRA_DBITS[code]
  }

  /** The first distance, less 1, of a distance code. */
  function DistStart(code: nat): nat
    requires code <= D_CODES
  {
    if code < D_CODES then DISTANCE_BASE[code] - 1 else 32768
  }

  lemma SmallPowers()
    ensures Pow2(0) == 1 && Pow2(1) == 2 && Pow2(2) == 4 && Pow2(3) == 8 && Pow2(4) == 16 && Pow2(5) == 32
    ensures Pow2(6) == 64 && Pow2(7) == 128 && Pow2(8) == 256 && Pow2(9) == 512 && Pow2(10) == 1024
    ensures Pow2(11) == 2048 && Pow2(12) == 4096 && Pow2(13) == 8192
  {
  }

  lemma DistStep(code: nat)
    requires code < D_CODES
    ensures DistStart(code + 1) == DistStart(code) + Pow2(DistBits(code))
    ensures DistBits(code) == DISTANCE_EXTRA[code]
    ensures code < 16 ==> DistStart(code + 1) <= 256
    ensures code >= 16 ==> DistBits(code) >= 7 && Pow2(DistBits(code)) == 128 * Pow2(DistBits(code) - 7)
    ensures code >= 16 ==> DistStart(code + 1) <= 32768
  {
    SmallPowers();
    hide Pow2;
  }

  predicate DistFits(code: int, dist: nat)
  {
    0 <= code < D_CODES && DistStart(code) <= dist < DistStart(code) + Pow2(DistBits(code))
  }

  /** `zip_D_CODE` */
  function DCode(distCode: seq<int>, dist: nat): int
    requires dist < 32768 && |distCode| == 512
  {
    if dist < 256 then distCode[dist] else distCode[256 + dist / 128]
  }

  predicate NearCoded(distCode: seq<int>, n: nat)
  {
    n <= |distCode| && forall d :: 0 <= d < n ==> DistFits(distCode[d], d)
  }

  /** The second half of the table: one entry for every 128 distances. */
  predicate FarCoded(distCode: seq<int>, n: nat)
  {
    && n + 256 <= |distCode|
    && forall j {:trigger distCode[256 + j]} :: 2 <= j < n ==>
         DistFits(distCode[256 + j], 128 * j) && DistFits(distCode[256 + j], 128 * j + 127)
  }

  predicate DistBases(baseDist: seq<int>, n: nat)
  {
    n <= |baseDist| && n <= D_CODES && forall c :: 0 <= c < n ==> baseDist[c] == DistStart(c)
  }

  lemma DistEnds()
    ensures DistStart(0) == 0 && DistStart(16) == 256 && DistStart(D_CODES) == 32768
  {
  }

  method DistTables() returns (distCode: array<int>, baseDist: array<int>)
    ensures distCode.Length == 512 && NearCoded(distCode[..], 256) && FarCoded(distCode[..], 256)
    ensures baseDist.Length == D_CODES && DistBases(baseDist[..], D_CODES)
    ensures fresh(distCode) && fresh(baseDist)
  {
    hide DistStart, DistBits;
    distCode, baseDist := new int[512], new int[D_CODES];
    var dist, code := 0, 0;
    DistEnds();
    while code < 16
      invariant code <= 16 && dist == DistStart(code) <= 256
      invariant NearCoded(distCode[..], dist) && DistBases(baseDist[..], code)
    {
      DistStep(code);
      baseDist[code] := dist;
      var n := 0;
      while n < Pow2(DistBits(code))
        invariant n <= Pow2(DistBits(code)) && dist == DistStart(code) + n
        invariant NearCoded(distCode[..], dist) && DistBases(baseDist[..], code + 1)
      {
        distCode[dist] := code;
        dist := dist + 1;
        n := n + 1;
      }
      code := code + 1;
    }
    FarTable(distCode, baseDist);
  }

  /** The last loop over the distance codes; distances count in steps of 128 here. */
  method FarTable(distCode: array<int>, baseDist: array<int>)
    requires distCode != baseDist && distCode.Length == 512 && baseDist.Length == D_CODES
    requires NearCoded(distCode[..], 256) && DistBases(baseDist[..], 16)
    modifies distCode, baseDist
    ensures NearCoded(distCode[..], 256) && FarCoded(distCode[..], 256) && DistBases(baseDist[..], D_CODES)
  {
    hide DistStart, DistBits;
    DistEnds();
    var code, dist := 16, 2;
    while code < D_CODES
      invariant 16 <= code <= D_CODES && 128 * dist == DistStart(code) && 2 <= dist <= 256
      invariant NearCoded(distCode[..], 256) && FarCoded(distCode[..], dist) && DistBases(baseDist[..], code)
    {
      DistStep(code);
      baseDist[code] := 128 * dist;
      var n := 0;
      while n < Pow2(DistBits(code) - 7)
        invariant n <= Pow2(DistBits(code) - 7) && 128 * dist == DistStart(code) + 128 * n && 2 <= dist
        invariant NearCoded(distCode[..], 256) && FarCoded(distCode[..], dist) && DistBases(baseDist[..], code + 1)
      {
        distCode[256 + dist] := code;
        dist := dist + 1;
        n := n + 1;
      }
      code := code + 1;
    }
  }

  lemma DistCoded(distCode: seq<int>, dist: nat)
    requires dist < 32768 && |distCode| == 512 && NearCoded(distCode, 256) && FarCoded(distCode, 256)
    ensures DistFits(DCode(distCode, dist), dist)
  {
    hide DistStart, DistBits;
    if dist >= 256 {
      var j := dist / 128;
      assert DistFits(distCode[256 + j], 128 * j) && DistFits(distCode[256 + j], 128 * j + 127);
    }
  }

  // ---- static trees -----------------------------------------------------------------

  /** Symbol `sym` is sent as its codeword for the lengths `lens`. */
  predicate Encodes(t: CodeTable, lens: seq<nat>, sym: nat)
  {
    && CanSend(t.fc, t.dl, sym) && sym < |lens| && t.dl[sym] == lens[sym]
    && CodeBits(t.fc, t.dl, sym) == Codeword(lens, sym)
  }

  lemma {:induction false} RankOfRepeat(v: nat, n: nat, k: nat, len: nat)
    requires k <= n
    ensures Rank(Repeat(v, n), k, len) == if v == len then k else 0
  {
    if k != 0 {
      RankOfRepeat(v, n, k - 1, len);
    }
  }

  lemma {:induction false} RankConcat(a: seq<nat>, b: seq<nat>, k: nat, len: nat)
    requires k <= |b|
    ensures Rank(a + b, |a| + k, len) == Rank(a, |a|, len) + Rank(b, k, len)
  {
    if k != 0 {
      RankConcat(a, b, k - 1, len);
    } else {
      RankPrefix(a, b, |a|, len);
    }
  }

  lemma {:induction false} RankPrefix(a: seq<nat>, b: seq<nat>, k: nat, len: nat)
    requires k <= |a|
    ensures Rank(a + b, k, len) == Rank(a, k, len)
  {
    if k != 0 {
      RankPrefix(a, b, k - 1, len);
    }
  }

  lemma CountOfConcat(a: seq<nat>, b: seq<nat>, len: nat)
    ensures Count(a + b, len) == Count(a, len) + Count(b, len)
  {
    RankConcat(a, b, |b|, len);
  }

  lemma FixedCounts(len: nat)
    ensures Count(FixedLiteralLengths(), len)
         == if len == 7 then 24 else if len == 8 then 152 else if len == 9 then 112 else 0
  {
    RankOfRepeat(8, 144, 144, len);
    RankOfRepeat(9, 112, 112, len);
    RankOfRepeat(7, 24, 24, len);
    RankOfRepeat(8, 8, 8, len);
    hide Repeat;
    CountOfConcat(Repeat(8, 144), Repeat(9, 112), len);
    CountOfConcat(Repeat(8, 144) + Repeat(9, 112), Repeat(7, 24), len);
    CountOfConcat(Repeat(8, 144) + Repeat(9, 112) + Repeat(7, 24), Repeat(8, 8), len);
  }

  lemma {:induction false} KraftOfCounts(lens: seq<nat>, len: nat)
    requires len <= MAX_BITS
    requires forall b :: 1 <= b <= MAX_BITS && b != 7 && b != 8 && b != 9 ==> Count(lens, b) == 0
    ensures KraftByLength(lens, |lens|, MAX_BITS, len)
         == (if len >= 7 then Shl(Count(lens, 7), 8) else 0) + (if len >= 8 then Shl(Count(lens, 8), 7) else 0)
          + (if len >= 9 then Shl(Count(lens, 9), 6) else 0)
  {
    if len != 0 {
      KraftOfCounts(lens, len - 1);
      ShlAdd(0, 0, MAX_BITS - len);
      assert Rank(lens, |lens|, len) == Count(lens, len);
    }
  }

  lemma ShlSmall(v: nat)
    ensures Shl(v, 6) == 64 * v && Shl(v, 7) == 128 * v && Shl(v, 8) == 256 * v && Shl(v, 10) == 1024 * v
  {
    Shl8(v);
    assert Shl(v, 8) == 2 * Shl(v, 7) == 4 * Shl(v, 6);
    assert Shl(v, 10) == 2 * Shl(v, 9) == 4 * Shl(v, 8);
  }

  function StaticLength(n: nat): nat { if n < 144 then 8 else if n < 256 then 9 else if n < 280 then 7 else 8 }

  /** The fixed literal/length code uses up the code space exactly. */
  lemma FixedLiteralsValid()
    ensures ValidLengths(FixedLiteralLengths())
  {
    var lens := FixedLiteralLengths();
    FixedLimited();
    hide FixedLiteralLengths;
    forall b | 1 <= b <= MAX_BITS && b != 7 && b != 8 && b != 9
      ensures Count(lens, b) == 0
    {
      FixedCounts(b);
    }
    KraftOfCounts(lens, MAX_BITS);
    KraftByLengthTotal(lens, |lens|, MAX_BITS);
    FixedCounts(7);
    FixedCounts(8);
    FixedCounts(9);
    ShlSmall(24);
    ShlSmall(152);
    ShlSmall(112);
    assert Pow2(15) == 32768;
  }

  lemma FixedLimited()
    ensures |FixedLiteralLengths()| == 288 && Limited(FixedLiteralLengths(), 9)
    ensures forall i :: 0 <= i < 288 ==> FixedLiteralLengths()[i] == StaticLength(i)
  {
    hide Repeat;
  }

  lemma {:induction false} FirstCodeOfLonger(lens: seq<nat>, len: nat)
    requires forall b :: 1 <= b < len ==> Count(lens, b) == 0
    ensures FirstCode(lens, len) == 0
  {
    if len > 1 {
      FirstCodeOfLonger(lens, len - 1);
    }
  }

  /** The fixed distance code of symbol `n` is `n` itself. */
  lemma FixedDistance(n: nat)
    requires n < 32
    ensures FixedDistanceLengths()[n] == 5 && Code(FixedDistanceLengths(), n) == n
  {
    var lens := FixedDistanceLengths();
    forall b | 1 <= b < 5
      ensures Count(lens, b) == 0
    {
      RankOfRepeat(5, 32, 32, b);
    }
    FirstCodeOfLonger(lens, 5);
    RankOfRepeat(5, 32, n, 5);
  }

  lemma FixedDistancesValid()
    ensures ValidLengths(FixedDistanceLengths())
  {
    KraftOfRepeat(5, 32, 32);
    ShlSmall(32);
    assert Pow2(5) == 32 && Pow2(10) == 1024 && Pow2(15) == 32768;
  }

  lemma {:induction false} KraftOfRepeat(v: nat, n: nat, k: nat)
    requires 0 < v <= MAX_BITS && k <= n
    ensures KraftOf(Repeat(v, n), k, MAX_BITS) == Shl(k, MAX_BITS - v)
  {
    ShlAdd(0, 0, MAX_BITS - v);
    if k != 0 {
      KraftOfRepeat(v, n, k - 1);
      ShlAdd(k - 1, 1, MAX_BITS - v);
      ShlPow2(0, MAX_BITS - v);
    }
  }

  /** Every symbol of the fixed code is sent as its codeword. */
  predicate EncodesAll(t: CodeTable, lens: seq<nat>, n: nat)
  {
    |t.fc| == |t.dl| == n && forall sym :: 0 <= sym < n ==> Encodes(t, lens, sym)
  }

  /** One of the loops over the static literal tree: symbols `[from, to)` get length `len`. */
  method FillLengths(dl: array<int>, blCount: array<int>, from: nat, to: nat, len: nat)
    requires dl != blCount && from <= to <= dl.Length && len < blCount.Length
    modifies dl, blCount
    ensures forall k :: 0 <= k < dl.Length ==> dl[k] == if from <= k < to then len else old(dl[k])
    ensures forall b :: 0 <= b < blCount.Length ==> blCount[b] == old(blCount[b]) + if b == len then to - from else 0
  {
    var n := from;
    while n < to
      invariant from <= n <= to
      invariant forall k :: 0 <= k < dl.Length ==> dl[k] == if from <= k < n then len else old(dl[k])
      invariant forall b :: 0 <= b < blCount.Length ==> blCount[b] == old(blCount[b]) + if b == len then n - from else 0
    {
      dl[n] := len;
      n := n + 1;
      blCount[len] := blCount[len] + 1;
    }
  }

  method StaticLiteralTree() returns (t: CodeTable)
    ensures EncodesAll(t, FixedLiteralLengths(), 288)
  {
    hide FixedLiteralLengths;
    FixedLimited();
    var blCount, dl, fc := new int[MAX_BITS + 1], new int[288], new int[288];
    var bits := 0;
    while bits <= MAX_BITS
      invariant bits <= MAX_BITS + 1 && forall b :: 0 <= b < bits ==> blCount[b] == 0
    {
      blCount[bits] := 0;
      bits := bits + 1;
    }
    FillLengths(dl, blCount, 0, 144, 8);
    FillLengths(dl, blCount, 144, 256, 9);
    FillLengths(dl, blCount, 256, 280, 7);
    FillLengths(dl, blCount, 280, 288, 8);
    ghost var lens := FixedLiteralLengths();
    assert dl[..288] == lens;
    StaticCounts(blCount[..]);
    ghost var fc0 := fc[..];
    GenCodes(fc, dl, L_CODES + 1, blCount, lens);
    assert dl[..] == lens;
    t := CodeTable(fc[..], dl[..]);
    StaticEncodes(t, fc0, blCount[..]);
  }

  lemma StaticCounts(cnt: seq<int>)
    requires |cnt| == MAX_BITS + 1
    requires forall b {:trigger cnt[b]} :: 0 <= b <= MAX_BITS ==>
      cnt[b] == if b == 7 then 24 else if b == 8 then 152 else if b == 9 then 112 else 0
    ensures Counts(cnt, FixedLiteralLengths())
  {
    hide FixedLiteralLengths;
    forall b | 1 <= b <= MAX_BITS
      ensures cnt[b] == Count(FixedLiteralLengths(), b)
    {
      FixedCounts(b);
    }
  }

  lemma StaticEncodes(t: CodeTable, fc0: seq<int>, cnt: seq<int>)
    requires |t.fc| == |t.dl| == |fc0| == 288 && t.dl == FixedLiteralLengths()
    requires Limited(FixedLiteralLengths(), MAX_BITS)
    requires Counts(cnt, FixedLiteralLengths()) && CodesSet(t.fc, fc0, cnt, FixedLiteralLengths(), 288)
    ensures EncodesAll(t, FixedLiteralLengths(), 288)
  {
    FixedLimited();
    hide FixedLiteralLengths;
    var lens := FixedLiteralLengths();
    forall sym | 0 <= sym < 288
      ensures Encodes(t, lens, sym)
    {
      assert lens[sym] == StaticLength(sym) > 0;
      CodesAreCanonical(cnt, lens, sym);
      assert t.fc[sym] == ReverseBits(Assigned(cnt, lens, sym), lens[sym]);
    }
  }

  method StaticDistanceTree() returns (t: CodeTable)
    ensures EncodesAll(t, FixedDistanceLengths(), D_CODES)
  {
    hide FixedDistanceLengths;
    var dl, fc := new int[D_CODES], new int[D_CODES];
    var n := 0;
    while n < D_CODES
      invariant n <= D_CODES
      invariant forall k :: 0 <= k < n ==> dl[k] == 5 && fc[k] == ReverseBits(k, 5)
    {
      dl[n] := 5;
      fc[n] := BiReverse(n, 5);
      n := n + 1;
    }
    t := CodeTable(fc[..], dl[..]);
    forall sym | 0 <= sym < D_CODES
      ensures Encodes(t, FixedDistanceLengths(), sym)
    {
      FixedDistance(sym);
      assert sym < Pow2(5);
      ReverseBitsInvolution(sym, 5);
    }
  }

  /** What the block writer needs of the tables. */
  predicate TablesFit(t: Tables)
  {
    && |t.lengthCode| == 256 && LengthsCoded(t.lengthCode, 256) && t.lengthCode[255] == LENGTH_CODES - 1
    && |t.baseLength| == LENGTH_CODES && LengthBases(t.baseLength, LENGTH_CODES - 1)
    && |t.distCode| == 512 && NearCoded(t.distCode, 256) && FarCoded(t.distCode, 256)
    && |t.baseDist| == D_CODES && DistBases(t.baseDist, D_CODES)
    && EncodesAll(t.staticL, FixedLiteralLengths(), 288) && EncodesAll(t.staticD, FixedDistanceLengths(), D_CODES)
  }

  /** `zip_ct_init`, the constant part. */
  method InitTables() returns (t: Tables)
    ensures TablesFit(t)
  {
    var lengthCode, baseLength := LengthTables();
    var distCode, baseDist := DistTables();
    var staticL := StaticLiteralTree();
    var staticD := StaticDistanceTree();
    t := Tables(lengthCode[..], baseLength[..], distCode[..], baseDist[..], staticL, staticD);
  }
}
