/** Bytes, C strings, positions in a byte buffer, and what else all modules share. */
module Bytes {

  type byte = x: int | 0 <= x < 256

  /** What a `char *` denotes: the bytes before its terminator. */
  type CString = s: seq<byte> | 0 !in s witness []

  function Max(a: nat, b: nat): nat { if a < b then b else a }

  datatype Option<+T> = None | Some(value: T)

  /** The C string a buffer holding `s` and then a terminator denotes (strlen stops at the first zero). */
  function CStr(s: seq<byte>): (r: CString)
    ensures r <= s
    ensures |r| < |s| ==> s[|r|] == 0
    ensures 0 !in s ==> r == s
  {
    if s == [] || s[0] == 0 then [] else [s[0]] + CStr(s[1..])
  }

  /** Whatever stands behind the terminator is no part of the string. */
  lemma {:induction false} CStrTerminated(a: seq<byte>, n: nat)
    requires n < |a| && a[n] == 0
    ensures CStr(a) == CStr(a[..n])
    decreases n
  {
    if n == 0 {
    } else {
      CStrTerminated(a[1..], n - 1);
      assert a[1..][..n - 1] == a[..n][1..];
    }
  }

  /** Bytes that hold no terminator are part of the string. */
  lemma {:induction false} CStrBehind(a: seq<byte>, b: seq<byte>)
    requires 0 !in a
    ensures CStr(a + b) == a + CStr(b)
  {
    if a == [] {
      assert a + b == b;
    } else {
      assert (a + b)[1..] == a[1..] + b;
      CStrBehind(a[1..], b);
    }
  }

  /** `s` stands in `c` at offset `o`. */
  predicate At(c: seq<byte>, o: nat, s: seq<byte>) {
    o + |s| <= |c| && c[o..o + |s|] == s
  }

  /** `b` stands in `c` at `p`. */
  predicate Holds(c: seq<byte>, p: nat, b: byte) {
    p < |c| && c[p] == b
  }

  lemma AtConcat(c: seq<byte>, o: nat, a: seq<byte>, b: seq<byte>)
    ensures At(c, o, a + b) <==> At(c, o, a) && At(c, o + |a|, b)
  {
    if o + |a| + |b| <= |c| {
      var m := o + |a|;
      assert c[o..m + |b|] == c[o..m] + c[m..m + |b|];
      if At(c, o, a + b) {
        assert c[o..m] == (a + b)[..|a|] == a;
        assert c[m..m + |b|] == (a + b)[|a|..] == b;
      }
    }
  }

  lemma AtIndex(c: seq<byte>, o: nat, s: seq<byte>)
    requires At(c, o, s)
    ensures forall i {:trigger s[i]} :: 0 <= i < |s| ==> c[o + i] == s[i]
  {
    forall i | 0 <= i < |s| ensures c[o + i] == s[i] {
      assert c[o..o + |s|][i] == s[i];
    }
  }

  lemma StartsWith(c: seq<byte>, o: nat, s: seq<byte>)
    requires At(c, o, s) && s != []
    ensures o < |c| && c[o] == s[0]
  {
    assert c[o..o + |s|][0] == s[0];
  }

  /** Where two strings part: they agree in front of `i`, and `s` ends there or has the smaller byte. */
  predicate PartAt(s: seq<byte>, t: seq<byte>, i: nat) {
    i <= |s| && i < |t| && (forall k :: 0 <= k < i ==> s[k] == t[k]) && (i < |s| ==> s[i] < t[i])
  }

  /** The order of a dictionary. */
  ghost predicate Before(s: seq<byte>, t: seq<byte>) {
    exists i :: 0 <= i < |t| && PartAt(s, t, i)
  }

  lemma BeforeIsStrict(s: seq<byte>, t: seq<byte>, i: nat)
    requires PartAt(s, t, i)
    ensures Before(s, t) && !Before(t, s) && s != t
  {
    assert forall k :: 0 <= k < |s| ==> !PartAt(t, s, k);
  }

  lemma NotBeforeItself(s: seq<byte>)
    ensures !Before(s, s)
  {
  }
}
