/** Little-endian integers as bytes. */
module LittleEndian {
  import opened Bytes
  import opened Arithmetic

  function Le(b: seq<Byte>): nat { if b == [] then 0 else (b[0] as nat) + 256 * Le(b[1..]) }

  function ToLe(v: nat, k: nat): (b: seq<Byte>)
    ensures |b| == k
    decreases k
  {
    if k == 0 then [] else [v % 256] + ToLe(v / 256, k - 1)
  }

  function Pow256(k: nat): nat { if k == 0 then 1 else 256 * Pow256(k - 1) }

  lemma {:induction false} LeInverts(v: nat, k: nat)
    requires v < Pow256(k)
    ensures Le(ToLe(v, k)) == v
    decreases k
  {
    if k > 0 {
      LeInverts(v / 256, k - 1);
      assert ToLe(v, k)[1..] == ToLe(v / 256, k - 1);
    }
  }

  lemma LowByte(a: Byte, v: nat)
    ensures ((a as nat) + 256 * v) % 256 == a && ((a as nat) + 256 * v) / 256 == v
  {
  }

  lemma {:induction false} ToLeInverts(b: seq<Byte>)
    ensures ToLe(Le(b), |b|) == b && Le(b) < Pow256(|b|)
    decreases |b|
  {
    if b != [] {
      ToLeInverts(b[1..]);
      LowByte(b[0], Le(b[1..]));
      ToLeStep(Le(b), |b|);
      assert b == [b[0]] + b[1..];
    }
  }

  lemma ToLeStep(v: nat, k: nat)
    requires k > 0
    ensures ToLe(v, k) == [v % 256] + ToLe(v / 256, k - 1)
  {
  }

  /** The `k`-th byte has weight 256^k. */
  lemma {:induction false} LeByte(b: seq<Byte>, k: nat)
    requires k < |b|
    ensures Pow256(0) == 1 && Pow256(k + 1) == 256 * Pow256(k) > 0 && Le(b) / Pow256(k) % 256 == b[k]
    decreases k
  {
    var rest := Le(b[1..]);
    LowByte(b[0], rest);
    if k > 0 {
      hide Le, Pow256;
      LeByte(b[1..], k - 1);
      LeStep(b, k);
      DigitFirst(b[0], rest, 256, Pow256(k - 1));
    }
  }

  lemma LeStep(b: seq<Byte>, k: nat)
    requires b != [] && k > 0
    ensures Le(b) == (b[0] as nat) + 256 * Le(b[1..]) && Pow256(k) == 256 * Pow256(k - 1)
    ensures Pow256(0) == 1 && Pow256(k + 1) == 256 * Pow256(k)
  {
  }
}
