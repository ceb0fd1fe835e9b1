/** A text of 511 bytes in which no three bytes repeat, and with the end of the block every
    byte in it is as frequent as a power of two. */
module SteepText {
  import opened SymbolCosts
  import opened SmallBlocks

  const SIZE: nat := 511

  /** Half of the heavy bytes are the same; then come a few that are less and less frequent. */
  function Heavy(i: nat): (b: nat)
    ensures i < 256 ==> 180 <= b <= 190 || 238 <= b <= 254
  {
    if i % 2 == 0 then 254 else Rarer(i / 2)
  }

  function Rarer(j: nat): (b: nat)
    ensures j < 128 ==> (180 <= b <= 190 || 238 <= b <= 252) && b % 2 == 0
  {
    if j < 96 then 248 + 2 * (j / 32)
    else if j < 116 then 238 + 2 * ((j - 96) / 4)
    else 180 + 2 * ((j - 116) / 2)
  }

  /** The bytes between them come twice in a row, the last ones once. */
  function Light(i: nat): (b: nat)
    ensures i < 255 ==> b < 180 || 192 <= b <= 236
  {
    if i < 218 then i / 2
    else if i < 248 then 192 + 2 * ((i - 218) / 2)
    else if i == 248 then 222
    else if i == 249 then 225
    else 228 + 2 * (i - 250)
  }

  function Byte(n: nat): nat { if n % 2 == 0 then Heavy(n / 2) else Light(n / 2) }

  /** The first `n` bytes. */
  function TextTo(n: nat): (r: seq<nat>)
    ensures |r| == n && forall i {:trigger r[i]} :: 0 <= i < n ==> r[i] == Byte(i)
  {
    if n == 0 then [] else TextTo(n - 1) + [Byte(n - 1)]
  }

  function Text(): (r: seq<nat>)
    ensures |r| == SIZE && forall i {:trigger r[i]} :: 0 <= i < SIZE ==> r[i] == Byte(i) < 256
  {
    TextTo(SIZE)
  }

  // ---- no three bytes repeat ------------------------------------------------------------

  lemma LightSame(i: nat, j: nat)
    requires i < j < 255 && Light(i) == Light(j)
    ensures i % 2 == 0 && j == i + 1
  {
  }

  lemma NoThree(p: nat, q: nat)
    requires p < q && q + 3 <= SIZE
    ensures Byte(p) != Byte(q) || Byte(p + 1) != Byte(q + 1) || Byte(p + 2) != Byte(q + 2)
  {
    hide Rarer, Light;
    if p % 2 == q % 2 {
      var i, j := p / 2, q / 2;
      if Light(i) == Light(j) {
        LightSame(i, j);
      }
      if p % 2 == 1 && Light(i + 1) == Light(j + 1) {
        LightSame(i + 1, j + 1);
      }
    }
  }

  lemma {:induction false} NoRepeats(n: nat)
    ensures Repeats(Text(), n) == 0
  {
    if n != 0 {
      NoRepeats(n - 1);
      if RepeatsAt(Text(), n - 1) {
        var p :| 0 <= p < n - 1 && SameThree(Text(), p, n - 1);
        SameBytes(p, n - 1);
        NoThree(p, n - 1);
      }
    }
  }

  lemma SameBytes(p: nat, q: nat)
    requires p < q && SameThree(Text(), p, q)
    ensures q + 3 <= SIZE && Byte(p) == Byte(q) && Byte(p + 1) == Byte(q + 1) && Byte(p + 2) == Byte(q + 2)
  {
    var a, b := Text()[p..p + 3], Text()[q..q + 3];
    assert a[0] == Text()[p] && a[1] == Text()[p + 1] && a[2] == Text()[p + 2];
    assert b[0] == Text()[q] && b[1] == Text()[q + 1] && b[2] == Text()[q + 2];
  }

  // ---- how often each byte occurs -------------------------------------------------------

  function UpTo(x: int, most: nat): nat { if x < 0 then 0 else if x <= most then x else most }

  /** How many of the first `k` heavy bytes are `c`. */
  function HeavyCount(k: nat, c: nat): nat
  {
    if c == 254 then (k + 1) / 2 else RarerCount(k / 2, c)
  }

  function RarerCount(k: nat, c: nat): nat
  {
    if c % 2 == 1 then 0
    else if 248 <= c < 254 then UpTo(k - 16 * (c - 248), 32)
    else if 238 <= c < 248 then UpTo(k - (96 + 2 * (c - 238)), 4)
    else if 180 <= c < 192 then UpTo(k - (116 + c - 180), 2)
    else 0
  }

  lemma RarerStep(k: nat, c: nat)
    requires k < 128
    ensures RarerCount(k + 1, c) == RarerCount(k, c) + if Rarer(k) == c then 1 else 0
  {
  }

  lemma HeavyStep(k: nat, c: nat)
    requires k < 256
    ensures HeavyCount(k + 1, c) == HeavyCount(k, c) + if Heavy(k) == c then 1 else 0
  {
    hide Rarer, RarerCount;
    if k % 2 == 1 {
      RarerStep(k / 2, c);
    }
  }

  function LightCount(k: nat, c: nat): nat
  {
    if c < 109 then UpTo(k - 2 * c, 2)
    else if 192 <= c < 222 && c % 2 == 0 then UpTo(k - (c + 26), 2)
    else if c == 222 then UpTo(k - 248, 1)
    else if c == 225 then UpTo(k - 249, 1)
    else if 228 <= c < 238 && c % 2 == 0 then UpTo(k - (136 + c / 2), 1)
    else 0
  }

  lemma LightStep(k: nat, c: nat)
    requires k < 255
    ensures LightCount(k + 1, c) == LightCount(k, c) + if Light(k) == c then 1 else 0
  {
  }

  lemma {:induction false} OccursInText(n: nat, c: nat)
    requires n <= SIZE
    ensures Occurs(TextTo(n), c) == HeavyCount((n + 1) / 2, c) + LightCount(n / 2, c)
  {
    hide HeavyCount, LightCount, Heavy, Light, Occurs;
    if n == 0 {
      NoneYet(c);
    } else {
      OccursInText(n - 1, c);
      OccursSnoc(TextTo(n - 1), Byte(n - 1), c);
      if n % 2 == 1 {
        HeavyStep(n / 2, c);
      } else {
        LightStep(n / 2 - 1, c);
      }
    }
  }

  lemma NoneYet(c: nat)
    ensures HeavyCount(0, c) == 0 && LightCount(0, c) == 0 && Occurs(TextTo(0), c) == 0
  {
  }
}
