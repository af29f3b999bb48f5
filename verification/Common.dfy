/** Shared vocabulary: optional values, 64-bit block numbers and the ascending
    enumeration that an ordered map gives of its keys. */
module Common {

  datatype Option<+T> = None | Some(value: T)

  const TWO_TO_THE_63: int := 0x8000_0000_0000_0000
  const MAX_U64: int := 0xFFFF_FFFF_FFFF_FFFF

  type U64 = x: int | 0 <= x < 0x1_0000_0000_0000_0000

  function SaturatingSub(a: U64, b: U64): U64 {
    if a < b then 0 else a - b
  }

  function Max(a: U64, b: U64): U64 {
    if a < b then b else a
  }

  function Get<K, V>(m: map<K, V>, k: K): Option<V> {
    if k in m then Some(m[k]) else None
  }

  ghost predicate NoDuplicates<T>(s: seq<T>) {
    forall i, j :: 0 <= i < j < |s| ==> s[i] != s[j]
  }

  // ---- trimming ----

  /** The characters with the Unicode White_Space property. */
  predicate IsWhitespace(c: char) {
    || '\U{9}' <= c <= '\U{d}' || c == ' ' || c == '\U{85}' || c == '\U{a0}' || c == '\U{1680}'
    || '\U{2000}' <= c <= '\U{200a}' || c == '\U{2028}' || c == '\U{2029}' || c == '\U{202f}'
    || c == '\U{205f}' || c == '\U{3000}'
  }

  /** The code points with that property, one by one. */
  const WHITE_SPACE: set<int> := {
    0x9, 0xA, 0xB, 0xC, 0xD, 0x20, 0x85, 0xA0, 0x1680, 0x2000, 0x2001, 0x2002, 0x2003, 0x2004, 0x2005, 0x2006,
    0x2007, 0x2008, 0x2009, 0x200A, 0x2028, 0x2029, 0x202F, 0x205F, 0x3000}

  lemma WhitespaceExactly(c: char)
    ensures IsWhitespace(c) <==> c as int in WHITE_SPACE
  {
  }

  function TrimStart(s: string): string {
    if s != "" && IsWhitespace(s[0]) then TrimStart(s[1..]) else s
  }

  function TrimEnd(s: string): string {
    if s != "" && IsWhitespace(s[|s| - 1]) then TrimEnd(s[..|s| - 1]) else s
  }

  lemma ConcatAssociative<T>(a: seq<T>, b: seq<T>, c: seq<T>)
    ensures (a + b) + c == a + (b + c)
  {
  }

  // ---- first occurrence in a sequence ----

  ghost predicate IsFirst<T>(s: seq<T>, x: T, n: int) {
    0 <= n < |s| && s[n] == x && x !in s[..n]
  }

  lemma {:induction false} FirstExists<T>(s: seq<T>, x: T)
    requires x in s
    ensures exists n :: IsFirst(s, x, n)
  {
    var last := |s| - 1;
    if x in s[..last] {
      FirstExists(s[..last], x);
      var n :| IsFirst(s[..last], x, n);
      assert s[..last][..n] == s[..n];
      assert IsFirst(s, x, n);
    } else {
      assert IsFirst(s, x, last);
    }
  }

  lemma FirstUnique<T>(s: seq<T>, x: T, n: int, m: int)
    requires IsFirst(s, x, n) && IsFirst(s, x, m)
    ensures n == m
  {
  }

  /** The index of the first `x` in `s`. */
  ghost function Position<T>(s: seq<T>, x: T): (n: nat)
    requires x in s
    ensures IsFirst(s, x, n)
  {
    FirstExists(s, x);
    var n :| IsFirst(s, x, n);
    n
  }

  lemma PositionIs<T>(s: seq<T>, x: T, n: nat)
    requires IsFirst(s, x, n)
    ensures x in s && Position(s, x) == n
  {
    FirstUnique(s, x, n, Position(s, x));
  }

  // ---- ascending enumeration of a set of block numbers ----

  ghost predicate StrictlyAscending(q: seq<U64>) {
    forall i, j :: 0 <= i < j < |q| ==> q[i] < q[j]
  }

  ghost predicate IsLeast(m: U64, s: set<U64>) {
    m in s && forall k :: k in s ==> m <= k
  }

  lemma {:induction false} LeastExists(s: set<U64>)
    requires s != {}
    ensures exists m :: IsLeast(m, s)
  {
    var x :| x in s;
    var rest := s - {x};
    if rest == {} {
      assert s == {x};
      assert IsLeast(x, s);
    } else {
      LeastExists(rest);
      var m :| IsLeast(m, rest);
      assert forall k :: k in s ==> k == x || k in rest;
      assert IsLeast(if x < m then x else m, s);
    }
  }

  function Least(s: set<U64>): (m: U64)
    requires s != {}
    ensures IsLeast(m, s)
  {
    LeastExists(s);
    assert exists m :: m in s && forall k :: k in s ==> m <= k by {
      var m :| IsLeast(m, s);
    }
    var m :| m in s && forall k :: k in s ==> m <= k;
    m
  }

  /** `q` lists exactly the members of `s`, smallest first. */
  ghost predicate Enumerates(q: seq<U64>, s: set<U64>) {
    && StrictlyAscending(q)
    && (forall i :: 0 <= i < |q| ==> q[i] in s)
    && (forall k :: k in s ==> k in q)
  }

  /** The members of `s` from smallest to largest. */
  function Ascending(s: set<U64>): (q: seq<U64>)
    ensures Enumerates(q, s)
  {
    if s == {} then []
    else
      var m := Least(s);
      [m] + Ascending(s - {m})
  }

  /** There is only one ascending enumeration, so any ordered traversal is `Ascending`. */
  lemma {:induction false} EnumerationUnique(p: seq<U64>, q: seq<U64>, s: set<U64>)
    requires Enumerates(p, s) && Enumerates(q, s)
    ensures p == q
    decreases |p|
  {
    if p == [] {
      assert forall k :: k !in s;
    } else {
      assert p[0] in q;
      assert q[0] in p;
      TailEnumerates(p, s);
      TailEnumerates(q, s);
      EnumerationUnique(p[1..], q[1..], s - {p[0]});
      assert p == [p[0]] + p[1..] && q == [q[0]] + q[1..];
    }
  }

  lemma TailEnumerates(q: seq<U64>, s: set<U64>)
    requires Enumerates(q, s) && q != []
    ensures Enumerates(q[1..], s - {q[0]})
  {
    forall k | k in s - {q[0]} ensures k in q[1..] {
      var j :| 0 <= j < |q| && q[j] == k;
      assert q[1..][j - 1] == k;
    }
  }
}
