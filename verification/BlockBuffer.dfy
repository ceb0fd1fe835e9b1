/** How the encoder stores the tokens of the current block: one array of literals and
    lengths, one of distances, and one of flags, eight to a byte (`zip_ct_tally`). */
module BlockBuffer {
  import opened Bits
  import opened Tokens

  /** What `zip_l_buf` holds for a token. */
  function LitOrLength(t: Token): int
  {
    match t
    case Literal(b) => b
    case Match(len, _) => len - 3
  }

  /** What `zip_d_buf` holds for the tokens. */
  function Distances(ts: seq<Token>): seq<int>
  {
    if ts == [] then []
    else
      var r, t := Distances(ts[..|ts| - 1]), ts[|ts| - 1];
      if t.Match? then r + [t.distance - 1] else r
  }

  lemma DistancesSnoc(ts: seq<Token>, t: Token)
    ensures Distances(ts + [t]) == if t.Match? then Distances(ts) + [t.distance - 1] else Distances(ts)
  {
    assert (ts + [t])[..|ts|] == ts;
  }

  lemma {:induction false} DistancesPrefix(ts: seq<Token>, n: nat)
    requires n < |ts|
    ensures Distances(ts[..n]) <= Distances(ts)
    ensures |Distances(ts)| <= |ts|
    ensures ts[n].Match? ==>
      |Distances(ts[..n])| < |Distances(ts)| && Distances(ts)[|Distances(ts[..n])|] == ts[n].distance - 1
    decreases |ts|
  {
    var first := ts[..|ts| - 1];
    if n < |ts| - 1 {
      assert first[..n] == ts[..n];
      DistancesPrefix(first, n);
    } else if n > 0 {
      DistancesPrefix(first, n - 1);
    }
  }

  function Kinds(ts: seq<Token>): (r: seq<bool>)
    ensures |r| == |ts| && forall i :: 0 <= i < |r| ==> r[i] == ts[i].Match?
  {
    seq(|ts|, i requires 0 <= i < |ts| => ts[i].Match?)
  }

  /** The flags of the tokens from `a` to the end of their group of eight. */
  function GroupFrom(ts: seq<Token>, a: nat): nat
    requires a <= |ts|
  {
    ValueOf(Kinds(ts)[a..GroupEnd(a, |ts|)])
  }

  function GroupEnd(a: nat, n: nat): (e: nat)
    requires a <= n
    ensures a <= e <= n
  {
    if a / 8 * 8 + 8 <= n then a / 8 * 8 + 8 else n
  }

  /** The arrays hold the tokens. */
  predicate Recorded(lb: seq<int>, db: seq<int>, fb: seq<int>, ts: seq<Token>)
  {
    && |lb| == |ts| && (forall i :: 0 <= i < |ts| ==> lb[i] == LitOrLength(ts[i]))
    && db == Distances(ts)
    && (forall j :: 0 <= j < |fb| ==> 8 * j <= |ts| && fb[j] == GroupFrom(ts, 8 * j))
  }

  /** The flags that are not in the array yet. */
  predicate Open(flags: nat, flagBit: nat, lastFlags: nat, ts: seq<Token>)
  {
    && lastFlags == |ts| / 8
    && flags == ValueOf(Kinds(ts)[8 * lastFlags..])
    && flagBit == Pow2(|ts| % 8)
  }

  lemma KindsSnoc(ts: seq<Token>, t: Token)
    ensures Kinds(ts + [t]) == Kinds(ts) + [t.Match?]
  {
  }

  lemma FlagAdded(flags: nat, flagBit: nat, lastFlags: nat, ts: seq<Token>, t: Token)
    requires Open(flags, flagBit, lastFlags, ts)
    ensures ValueOf(Kinds(ts + [t])[8 * lastFlags..]) == if t.Match? then BitOr(flags, flagBit) else flags
    ensures 2 * flagBit == Pow2(|ts| % 8 + 1)
  {
    hide ValueOf, BitOr;
    var group := Kinds(ts)[8 * lastFlags..];
    KindsSnoc(ts, t);
    assert Kinds(ts + [t])[8 * lastFlags..] == group + [t.Match?];
    assert |group| == |ts| % 8;
    OneMoreFlag(group, t.Match?);
  }

  lemma OneMoreFlag(group: seq<bool>, b: bool)
    ensures ValueOf(group + [b]) == if b then BitOr(ValueOf(group), Pow2(|group|)) else ValueOf(group)
  {
    hide BitOr, Shl, ValueOf, Pow2;
    ValueOfConcat(group, [b]);
    OneFlag(b, |group|);
    BitOrDisjoint(ValueOf(group), |group|, 1);
  }

  lemma OneFlag(b: bool, n: nat)
    ensures ValueOf([b]) == (if b then 1 else 0) && Shl(1, n) == Pow2(n) && Shl(0, n) == 0
  {
    ShlPow2(0, n);
    ShlAdd(0, 0, n);
  }

  lemma GroupKeeps(ts: seq<Token>, t: Token, a: nat)
    requires a / 8 * 8 + 8 <= |ts|
    ensures GroupFrom(ts + [t], a) == GroupFrom(ts, a)
  {
    KindsSnoc(ts, t);
    var e := GroupEnd(a, |ts|);
    assert Kinds(ts + [t])[a..e] == Kinds(ts)[a..e];
  }

  /** Recording one more token keeps the groups that are complete. */
  lemma RecordedSnoc(lb: seq<int>, db: seq<int>, fb: seq<int>, ts: seq<Token>, t: Token)
    requires Recorded(lb, db, fb, ts) && |fb| <= |ts| / 8
    ensures Recorded(lb + [LitOrLength(t)], if t.Match? then db + [t.distance - 1] else db, fb, ts + [t])
  {
    DistancesSnoc(ts, t);
    hide GroupFrom;
    forall j | 0 <= j < |fb|
      ensures 8 * j <= |ts + [t]| && fb[j] == GroupFrom(ts + [t], 8 * j)
    {
      GroupKeeps(ts, t, 8 * j);
    }
  }

  lemma GroupClosed(ts: seq<Token>, lastFlags: nat)
    requires lastFlags == |ts| / 8 || (8 * lastFlags + 8 == |ts|)
    ensures GroupFrom(ts, 8 * lastFlags) == ValueOf(Kinds(ts)[8 * lastFlags..])
  {
    assert GroupEnd(8 * lastFlags, |ts|) == |ts|;
    assert Kinds(ts)[8 * lastFlags..|ts|] == Kinds(ts)[8 * lastFlags..];
  }

  /** The flags of the open group go to the array, full or not. */
  lemma FlagsSaved(lb: seq<int>, db: seq<int>, fb: seq<int>, ts: seq<Token>, flags: nat)
    requires Recorded(lb, db, fb, ts) && (|fb| == |ts| / 8 || 8 * |fb| + 8 == |ts|)
    requires flags == ValueOf(Kinds(ts)[8 * |fb|..])
    ensures Recorded(lb, db, fb + [flags], ts)
  {
    GroupClosed(ts, |fb|);
    hide GroupFrom;
  }

  // ---- reading the flags ------------------------------------------------------------

  /** The lowest flag is that of the next token, and shifting moves on to the one after. */
  lemma FlagRead(ts: seq<Token>, n: nat)
    requires n < |ts|
    ensures GroupFrom(ts, n) % 2 == (if ts[n].Match? then 1 else 0)
    ensures (n + 1) % 8 != 0 && n + 1 < |ts| ==> GroupFrom(ts, n) / 2 == GroupFrom(ts, n + 1)
  {
    var e := GroupEnd(n, |ts|);
    var g := Kinds(ts)[n..e];
    assert e > n;
    assert g[0] == ts[n].Match?;
    if (n + 1) % 8 != 0 && n + 1 < |ts| {
      assert GroupEnd(n + 1, |ts|) == e by { assert (n + 1) / 8 == n / 8; }
      TailSlice(Kinds(ts), n, e);
    }
    hide GroupEnd;
    ValueOfFirst(g);
  }

  lemma TailSlice(s: seq<bool>, n: nat, e: nat)
    requires n < e <= |s|
    ensures s[n..e][1..] == s[n + 1..e]
  {
  }

  lemma ValueOfFirst(g: seq<bool>)
    requires g != []
    ensures ValueOf(g) % 2 == (if g[0] then 1 else 0) && ValueOf(g) / 2 == ValueOf(g[1..])
  {
  }
}
