/** Searching and trimming text kept as bytes. */
module Search {
  import opened Bytes

  /** The bytes `w` stand at position `p`. */
  predicate Stands(b: seq<Byte>, p: nat, w: seq<Byte>) { p + |w| <= |b| && b[p..p + |w|] == w }

  /** First occurrence of a literal. */
  function Find(hay: seq<Byte>, needle: seq<Byte>): (r: Option<nat>)
    ensures r.Some? ==> Stands(hay, r.value, needle)
    ensures forall k :: 0 <= k <= |hay| && (r.Some? ==> k < r.value) ==> !(needle <= hay[k..])
  {
    if needle <= hay then Some(0)
    else if hay == [] then None
    else
      var r := Find(hay[1..], needle);
      FindStep(hay, needle, r);
      if r.None? then None else Some(r.value + 1)
  }

  /** What is first in the rest is first in the whole, if it does not stand in front. */
  lemma FindStep(hay: seq<Byte>, needle: seq<Byte>, r: Option<nat>)
    requires hay != [] && !(needle <= hay) && (r.Some? ==> Stands(hay[1..], r.value, needle))
    requires forall k :: 0 <= k <= |hay[1..]| && (r.Some? ==> k < r.value) ==> !(needle <= hay[1..][k..])
    ensures r.Some? ==> Stands(hay, r.value + 1, needle)
    ensures forall k :: 0 <= k <= |hay| && (r.Some? ==> k < r.value + 1) ==> !(needle <= hay[k..])
  {
    if r.Some? { assert hay[1..][r.value..r.value + |needle|] == hay[r.value + 1..r.value + 1 + |needle|]; }
    forall k | 0 <= k <= |hay| && (r.Some? ==> k < r.value + 1) ensures !(needle <= hay[k..]) {
      if k == 0 {
        assert hay[0..] == hay;
      } else {
        assert hay[k..] == hay[1..][k - 1..];
      }
    }
  }

  lemma StandsIs(t: seq<Byte>, k: nat, w: seq<Byte>)
    ensures Stands(t, k, w) <==> k <= |t| && w <= t[k..]
  {
    if Stands(t, k, w) { assert t[k..][..|w|] == t[k..k + |w|]; }
    if k <= |t| && w <= t[k..] { assert t[k..][..|w|] == t[k..k + |w|]; }
  }

  /** The first place where the literal stands is the one found. */
  lemma FoundAt(hay: seq<Byte>, needle: seq<Byte>, p: nat)
    requires p <= |hay| && needle <= hay[p..] && forall k :: 0 <= k < p ==> !(needle <= hay[k..])
    ensures Find(hay, needle) == Some(p)
  {
    hide Find;
    var r := Find(hay, needle);
    if r.Some? { StandsIs(hay, r.value, needle); }
  }

  /** ASCII whitespace. */
  predicate IsSpace(b: Byte) { 9 <= b <= 13 || b == SPACE }

  function TrimEnd(s: seq<Byte>): seq<Byte> {
    if s != [] && IsSpace(s[|s| - 1]) then TrimEnd(s[..|s| - 1]) else s
  }

  function Trim(s: seq<Byte>): seq<Byte> {
    if s != [] && IsSpace(s[0]) then Trim(s[1..]) else TrimEnd(s)
  }

  predicate AllSpace(s: seq<Byte>) { forall k :: 0 <= k < |s| ==> IsSpace(s[k]) }

  /** Text that starts and ends in a visible byte is what is left of it in whitespace. */
  lemma {:induction false} TrimAround(a: seq<Byte>, s: seq<Byte>, b: seq<Byte>)
    requires AllSpace(a) && AllSpace(b) && s != [] && !IsSpace(s[0]) && !IsSpace(s[|s| - 1])
    ensures Trim(a + s + b) == s
    decreases |a| + |b|
  {
    var t := a + s + b;
    if a != [] {
      assert t[1..] == a[1..] + s + b;
      TrimAround(a[1..], s, b);
    } else {
      assert t == s + b;
      TrimEndAround(s, b);
    }
  }

  lemma {:induction false} TrimEndAround(s: seq<Byte>, b: seq<Byte>)
    requires AllSpace(b) && s != [] && !IsSpace(s[|s| - 1])
    ensures TrimEnd(s + b) == s
    decreases |b|
  {
    if b == [] {
      assert s + b == s;
    } else {
      assert (s + b)[..|s + b| - 1] == s + b[..|b| - 1];
      TrimEndAround(s, b[..|b| - 1]);
    }
  }

  /** Tab, line feed, vertical tab, form feed, carriage return and space. */
  lemma SpacesAre(b: Byte)
    ensures IsSpace(b) <==> b in [9, 10, 11, 12, 13, 32]
  {
  }

  /** What is left has no whitespace at its ends, and only whitespace was around it. */
  lemma {:induction false} TrimExactly(s: seq<Byte>) returns (a: seq<Byte>, b: seq<Byte>)
    ensures s == a + Trim(s) + b && AllSpace(a) && AllSpace(b)
    ensures Trim(s) != [] ==> !IsSpace(Trim(s)[0]) && !IsSpace(Trim(s)[|Trim(s)| - 1])
    decreases |s|
  {
    hide IsSpace;
    if s != [] && IsSpace(s[0]) {
      a, b := TrimExactly(s[1..]);
      assert s == [s[0]] + s[1..];
      assert s == ([s[0]] + a) + Trim(s) + b;
      a := [s[0]] + a;
    } else {
      a := [];
      b := TrimEndExactly(s);
      assert [] + TrimEnd(s) + b == TrimEnd(s) + b;
    }
  }

  lemma {:induction false} TrimEndExactly(s: seq<Byte>) returns (b: seq<Byte>)
    ensures s == TrimEnd(s) + b && AllSpace(b) && (TrimEnd(s) != [] ==> !IsSpace(TrimEnd(s)[|TrimEnd(s)| - 1]))
    decreases |s|
  {
    hide IsSpace;
    if s != [] && IsSpace(s[|s| - 1]) {
      var k := |s| - 1;
      b := TrimEndExactly(s[..k]);
      assert s == s[..k] + [s[k]];
      assert s == TrimEnd(s) + (b + [s[k]]);
      b := b + [s[k]];
    } else {
      b := [];
      assert s + [] == s;
    }
  }
}
