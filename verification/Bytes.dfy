/** Byte strings and the C string-library scans used throughout the relay. */
module Bytes {

  type byte = bv8
  type Bytes = seq<byte>

  const NUL: byte := 0
  const NEWLINE: byte := 10
  const SPACE: byte := 32
  const COLON: byte := 58
  const AT: byte := 64
  const PIPE: byte := 124

  /** The bytes are the codes of the string's characters. */
  predicate Spells(bytes: Bytes, s: string) {
    |bytes| == |s| && forall k :: 0 <= k < |s| ==> bytes[k] as int == s[k] as int
  }

  /** The constants are the characters they are named for. */
  lemma Characters()
    ensures Spells([NUL], "\0") && Spells([NEWLINE], "\n") && Spells([SPACE], " ")
    ensures Spells([COLON], ":") && Spells([AT], "@") && Spells([PIPE], "|")
  {}

  datatype Option<+T> = None | Some(value: T)

  /** memchr / strchr: the index of the first `c` in `s`, or |s| when there is none. */
  function IndexOf<T(==)>(s: seq<T>, c: T): (i: nat)
    ensures i <= |s|
    ensures c !in s[..i]
    ensures i < |s| ==> s[i] == c
    ensures i == |s| <==> c !in s
  {
    if s == [] then 0
    else if s[0] == c then 0
    else
      assert s[..1 + IndexOf(s[1..], c)] == [s[0]] + s[1..][..IndexOf(s[1..], c)];
      1 + IndexOf(s[1..], c)
  }

  /** The first occurrence is the only index with a clean prefix. */
  lemma IndexOfUnique<T>(s: seq<T>, c: T, i: nat)
    requires i <= |s| && c !in s[..i] && (i < |s| ==> s[i] == c)
    ensures IndexOf(s, c) == i
  {
    var j := IndexOf(s, c);
    assert forall k :: 0 <= k < j ==> s[..j][k] == s[k];
    assert forall k :: 0 <= k < i ==> s[..i][k] == s[k];
  }

  lemma FirstOf<T>(a: seq<T>, c: T, b: seq<T>)
    requires c !in a
    ensures IndexOf(a + [c] + b, c) == |a|
    ensures (a + [c] + b)[..|a|] == a && (a + [c] + b)[|a| + 1..] == b
  {
    hide IndexOf;
    assert (a + [c] + b)[..|a|] == a;
    IndexOfUnique(a + [c] + b, c, |a|);
  }

  /** Cutting at the first occurrence and rejoining gives the string back. */
  lemma CutAt<T>(s: seq<T>, c: T)
    requires c in s
    ensures var i := IndexOf(s, c); i < |s| && s == s[..i] + [c] + s[i + 1..] && c !in s[..i]
  {
    hide IndexOf;
    Rejoin(s, IndexOf(s, c));
  }

  lemma Rejoin<T>(s: seq<T>, i: nat)
    requires i < |s|
    ensures s == s[..i] + [s[i]] + s[i + 1..]
  {}

  /** What C's strlen and strcmp see of a buffer: everything before the first NUL. */
  function CString(s: Bytes): (r: Bytes)
    ensures 0 !in r
    ensures r <= s
    ensures 0 !in s ==> r == s
  {
    s[..IndexOf(s, NUL)]
  }

  lemma CStringEnds(s: Bytes)
    ensures |CString(s)| < |s| ==> s[|CString(s)|] == 0
    ensures CString(s) == s || |CString(s)| < |s|
  {}

  lemma CStringFrom(s: Bytes, from: nat)
    requires from <= |CString(s)|
    ensures CString(s[from..]) == CString(s)[from..]
  {
    hide IndexOf;
    var i := IndexOf(s, NUL);
    assert s[from..][..i - from] == s[..i][from..];
    IndexOfUnique(s[from..], NUL, i - from);
  }

  /** An occurrence in the C string is where the first one in the whole is. */
  lemma IndexInCString(s: Bytes, from: nat, c: byte)
    requires from <= |CString(s)| && c in CString(s)[from..]
    ensures IndexOf(s[from..], c) == IndexOf(CString(s)[from..], c) < |CString(s)| - from
  {
    hide IndexOf;
    var t := CString(s)[from..];
    var i := IndexOf(t, c);
    assert s[from..][..i] == t[..i];
    assert s[from..][i] == t[i];
    IndexOfUnique(s[from..], c, i);
  }

  function Count<T(==)>(s: seq<T>, c: T): nat {
    if s == [] then 0 else Count(s[..|s| - 1], c) + if s[|s| - 1] == c then 1 else 0
  }

  lemma {:induction false} CountConcat<T>(a: seq<T>, b: seq<T>, c: T)
    ensures Count(a + b, c) == Count(a, c) + Count(b, c)
  {
    if b == [] {
      assert a + b == a;
    } else {
      assert (a + b)[..|a + b| - 1] == a + b[..|b| - 1];
      CountConcat(a, b[..|b| - 1], c);
    }
  }

  lemma {:induction false} CountZero<T>(s: seq<T>, c: T)
    ensures Count(s, c) == 0 <==> c !in s
  {
    if s != [] {
      CountZero(s[..|s| - 1], c);
      assert s == s[..|s| - 1] + [s[|s| - 1]];
    }
  }
}
