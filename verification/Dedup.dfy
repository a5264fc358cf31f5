/** The helpers that collect distinct ids and drop repeated snapshots before a batch is sent. */
module Dedup {

  /** Element `i` is the first eligible one with its key. */
  predicate IsFirst<T, K(==)>(data: seq<T>, eligible: T -> bool, key: T -> K, i: nat)
    requires i < |data|
  {
    eligible(data[i]) && forall j | 0 <= j < i && eligible(data[j]) :: key(data[j]) != key(data[i])
  }

  /** The first occurrences among the first `n` elements, in order. */
  function Firsts<T, K(==)>(data: seq<T>, eligible: T -> bool, key: T -> K, n: nat): (r: seq<T>)
    requires n <= |data|
  {
    if n == 0 then []
    else Firsts(data, eligible, key, n - 1) + if IsFirst(data, eligible, key, n - 1) then [data[n - 1]] else []
  }

  /** The loop shared by the unique-id and dedup helpers: a seen set and an append. */
  method Deduplicate<T, K(==)>(data: seq<T>, eligible: T -> bool, key: T -> K) returns (result: seq<T>)
    ensures result == Firsts(data, eligible, key, |data|)
  {
    var seen: set<K> := {};
    result := [];
    for i := 0 to |data|
      invariant forall j | 0 <= j < i && eligible(data[j]) :: key(data[j]) in seen
      invariant forall k | k in seen :: exists j :: 0 <= j < i && eligible(data[j]) && key(data[j]) == k
      invariant result == Firsts(data, eligible, key, i)
    {
      var d := data[i];
      assert IsFirst(data, eligible, key, i) <==> eligible(d) && key(d) !in seen;
      if eligible(d) && key(d) !in seen {
        seen := seen + {key(d)};
        result := result + [d];
      }
    }
  }

  /** The result lists, in input order, exactly the elements at first positions. */
  lemma {:induction false} FirstsArePositions<T, K>(data: seq<T>, eligible: T -> bool, key: T -> K, n: nat)
      returns (at: seq<nat>)
    requires n <= |data|
    ensures |at| == |Firsts(data, eligible, key, n)|
    ensures forall k | 0 <= k < |at| :: at[k] < n && Firsts(data, eligible, key, n)[k] == data[at[k]]
    ensures forall k | 0 <= k < |at| :: IsFirst(data, eligible, key, at[k])
    ensures forall k, m | 0 <= k < m < |at| :: at[k] < at[m]
    ensures forall i: nat | i < n && IsFirst(data, eligible, key, i) :: i in at
  {
    at := [];
    if n > 0 {
      var before := FirstsArePositions(data, eligible, key, n - 1);
      at := before;
      if IsFirst(data, eligible, key, n - 1) {
        at := before + [n - 1];
        assert at[|before|] == n - 1;
      }
      forall i: nat | i < n && IsFirst(data, eligible, key, i) ensures i in at {
        if i < n - 1 { assert i in before; }
      }
    }
  }

  /** So no two of its elements share a key, and it covers exactly the keys of the eligible input. */
  lemma FirstsAreDistinctAndComplete<T, K>(data: seq<T>, eligible: T -> bool, key: T -> K)
    ensures var r := Firsts(data, eligible, key, |data|);
            && (forall i, j | 0 <= i < j < |r| :: key(r[i]) != key(r[j]))
            && (forall x | x in r :: x in data && eligible(x))
            && (forall d | d in data && eligible(d) :: exists x :: x in r && key(x) == key(d))
  {
    FirstsAreDistinct(data, eligible, key);
    FirstsAreEligible(data, eligible, key);
    forall d | d in data && eligible(d)
      ensures exists x :: x in Firsts(data, eligible, key, |data|) && key(x) == key(d)
    {
      var x := FirstsAreComplete(data, eligible, key, d);
    }
  }

  lemma FirstsAreDistinct<T, K>(data: seq<T>, eligible: T -> bool, key: T -> K)
    ensures var r := Firsts(data, eligible, key, |data|);
            forall i, j | 0 <= i < j < |r| :: key(r[i]) != key(r[j])
  {
    var r := Firsts(data, eligible, key, |data|);
    var at := FirstsArePositions(data, eligible, key, |data|);
    forall i, j | 0 <= i < j < |r| ensures key(r[i]) != key(r[j]) {
      assert IsFirst(data, eligible, key, at[j]) && IsFirst(data, eligible, key, at[i]);
    }
  }

  lemma FirstsAreEligible<T, K>(data: seq<T>, eligible: T -> bool, key: T -> K)
    ensures forall x | x in Firsts(data, eligible, key, |data|) :: x in data && eligible(x)
  {
    var r := Firsts(data, eligible, key, |data|);
    var at := FirstsArePositions(data, eligible, key, |data|);
    forall x | x in r ensures x in data && eligible(x) {
      var k :| 0 <= k < |r| && r[k] == x;
      assert IsFirst(data, eligible, key, at[k]) && data[at[k]] == x;
    }
  }

  lemma FirstsAreComplete<T, K>(data: seq<T>, eligible: T -> bool, key: T -> K, d: T) returns (x: T)
    requires d in data && eligible(d)
    ensures x in Firsts(data, eligible, key, |data|) && key(x) == key(d)
  {
    var i :| 0 <= i < |data| && data[i] == d;
    var at := FirstsArePositions(data, eligible, key, |data|);
    var f := FirstWithKey(data, eligible, key, i);
    var k :| 0 <= k < |at| && at[k] == f;
    x := Firsts(data, eligible, key, |data|)[k];
  }

  lemma {:induction false} FirstWithKey<T, K>(data: seq<T>, eligible: T -> bool, key: T -> K, i: nat) returns (f: nat)
    requires i < |data| && eligible(data[i])
    ensures f <= i && IsFirst(data, eligible, key, f) && key(data[f]) == key(data[i])
    decreases i
  {
    if IsFirst(data, eligible, key, i) {
      return i;
    }
    var j :| 0 <= j < i && eligible(data[j]) && key(data[j]) == key(data[i]);
    f := FirstWithKey(data, eligible, key, j);
  }

  /** Among the first `n` elements, equal keys mean equal other keys. */
  predicate KeysAgree<T, K(==), L(==)>(data: seq<T>, eligible: T -> bool, key: T -> K, other: T -> L, n: nat)
    requires n <= |data|
  {
    forall i, j | 0 <= i < j < n && eligible(data[i]) && eligible(data[j]) ::
      key(data[i]) == key(data[j]) ==> other(data[i]) == other(data[j])
  }

  /** A coarser key gives the same result where it agrees with the finer one, and drops an element where it does not. */
  lemma {:induction false} CoarserKey<T, K, L>(data: seq<T>, eligible: T -> bool, key: T -> K, other: T -> L, n: nat)
    requires n <= |data| && KeysAgree(data, eligible, other, key, n)
    ensures if KeysAgree(data, eligible, key, other, n)
            then Firsts(data, eligible, key, n) == Firsts(data, eligible, other, n)
            else |Firsts(data, eligible, key, n)| < |Firsts(data, eligible, other, n)|
  {
    if n > 0 {
      CoarserKey(data, eligible, key, other, n - 1);
      assert IsFirst(data, eligible, key, n - 1) ==> IsFirst(data, eligible, other, n - 1);
      if KeysAgree(data, eligible, key, other, n) {
        assert IsFirst(data, eligible, other, n - 1) ==> IsFirst(data, eligible, key, n - 1);
      } else if KeysAgree(data, eligible, key, other, n - 1) {
        DisagreementIsFirst(data, eligible, key, other, n);
      }
    }
  }

  /** The first disagreement is at an element that is first by the finer key and not by the coarser one. */
  lemma DisagreementIsFirst<T, K, L>(data: seq<T>, eligible: T -> bool, key: T -> K, other: T -> L, n: nat)
    requires 0 < n <= |data| && KeysAgree(data, eligible, other, key, n)
    requires KeysAgree(data, eligible, key, other, n - 1) && !KeysAgree(data, eligible, key, other, n)
    ensures IsFirst(data, eligible, other, n - 1) && !IsFirst(data, eligible, key, n - 1)
  {
    var i, j :| 0 <= i < j < n && eligible(data[i]) && eligible(data[j])
        && key(data[i]) == key(data[j]) && other(data[i]) != other(data[j]);
    assert j == n - 1;
    forall k | 0 <= k < n - 1 && eligible(data[k]) ensures other(data[k]) != other(data[n - 1]) {
      assert k < i || k == i || i < k;
    }
  }

  const NUL := '\0'

  function JoinNul(p: (string, string)): string { p.0 + [NUL] + p.1 }

  function NulIndex(s: string): nat {
    if s == [] || s[0] == NUL then 0 else 1 + NulIndex(s[1..])
  }

  lemma {:induction false} NulIndexOfJoin(p: (string, string))
    requires NUL !in p.0
    ensures NulIndex(JoinNul(p)) == |p.0|
    decreases |p.0|
  {
    if p.0 != [] {
      assert JoinNul(p)[1..] == JoinNul((p.0[1..], p.1));
      NulIndexOfJoin((p.0[1..], p.1));
    }
  }

  /** Joining with a NUL loses nothing when the first component has none. */
  lemma JoinIsInjective(p: (string, string), q: (string, string))
    requires NUL !in p.0 && NUL !in q.0
    ensures JoinNul(p) == JoinNul(q) <==> p == q
  {
    NulIndexOfJoin(p);
    NulIndexOfJoin(q);
    assert JoinNul(p)[..|p.0|] == p.0 && JoinNul(q)[..|q.0|] == q.0;
    assert JoinNul(p)[|p.0| + 1..] == p.1 && JoinNul(q)[|q.0| + 1..] == q.1;
  }

  /** With a NUL in an id, two different pairs can share a joined key. */
  lemma JoinCanCollide()
    ensures var p, q := (['p', NUL, 'q'], "r"), ("p", ['q', NUL, 'r']);
            p != q && JoinNul(p) == JoinNul(q)
  {
    assert JoinNul((['p', NUL, 'q'], "r")) == ['p', NUL, 'q', NUL, 'r'];
    assert JoinNul(("p", ['q', NUL, 'r'])) == ['p', NUL, 'q', NUL, 'r'];
    assert (['p', NUL, 'q'])[1] == NUL;
    assert |['p', NUL, 'q']| != |"p"|;
  }

  /** `b` is `a`, a NUL, and more. */
  predicate ExtendsByNul(a: string, b: string) {
    |a| < |b| && b[..|a|] == a && b[|a|] == NUL
  }

  lemma CollisionExtends(p: (string, string), q: (string, string))
    requires JoinNul(p) == JoinNul(q) && p != q
    ensures ExtendsByNul(p.0, q.0) || ExtendsByNul(q.0, p.0)
  {
    var key := JoinNul(p);
    assert key[..|p.0|] == p.0 && key[|p.0|] == NUL && key[|p.0| + 1..] == p.1;
    assert key[..|q.0|] == q.0 && key[|q.0|] == NUL && key[|q.0| + 1..] == q.1;
    if |p.0| < |q.0| {
      assert q.0[..|p.0|] == key[..|p.0|];
      assert q.0[|p.0|] == key[|p.0|];
    } else if |q.0| < |p.0| {
      assert p.0[..|q.0|] == key[..|q.0|];
      assert p.0[|q.0|] == key[|q.0|];
    }
  }

  lemma ExtensionCollides(a: string, b: string)
    requires ExtendsByNul(a, b)
    ensures JoinNul((a, b[|a| + 1..] + [NUL])) == JoinNul((b, ""))
  {
    assert b == a + [NUL] + b[|a| + 1..];
  }

  /** Two ids share a joined key for some texts if and only if they are equal or one is the other, a NUL, and more. */
  lemma IdsCollideExactly(a: string, b: string)
    ensures (exists x, y :: JoinNul((a, x)) == JoinNul((b, y))) <==> a == b || ExtendsByNul(a, b) || ExtendsByNul(b, a)
  {
    if x, y :| JoinNul((a, x)) == JoinNul((b, y)) && a != b {
      CollisionExtends((a, x), (b, y));
    }
    if a == b { assert JoinNul((a, "")) == JoinNul((b, "")); }
    if ExtendsByNul(a, b) { ExtensionCollides(a, b); }
    if ExtendsByNul(b, a) { ExtensionCollides(b, a); }
  }

  /** De-duplicating by the NUL-joined key of (id, text) is de-duplicating by the pair if and only if no two eligible
      elements collide; otherwise it loses one. */
  lemma JoinedDedupIsPairDedup(data: seq<(string, string)>, eligible: ((string, string)) -> bool)
    ensures Firsts(data, eligible, JoinNul, |data|) == Firsts(data, eligible, d => d, |data|)
       <==> forall p, q | p in data && q in data && eligible(p) && eligible(q) && JoinNul(p) == JoinNul(q) :: p == q
  {
    CoarserKey(data, eligible, JoinNul, d => d, |data|);
    if KeysAgree(data, eligible, JoinNul, (d: (string, string)) => d, |data|) {
      forall p, q | p in data && q in data && eligible(p) && eligible(q) && JoinNul(p) == JoinNul(q) ensures p == q {
        var i :| 0 <= i < |data| && data[i] == p;
        var j :| 0 <= j < |data| && data[j] == q;
        assert i < j || i == j || j < i;
      }
    }
  }

  /** No data collides whose ids do not extend one another by a NUL, in particular none whose ids have no NUL. */
  lemma PlainIdsDoNotCollide(data: seq<(string, string)>, eligible: ((string, string)) -> bool)
    requires forall p, q | p in data && q in data && eligible(p) && eligible(q) :: !ExtendsByNul(p.0, q.0)
    ensures Firsts(data, eligible, JoinNul, |data|) == Firsts(data, eligible, d => d, |data|)
  {
    forall p, q | p in data && q in data && eligible(p) && eligible(q) && JoinNul(p) == JoinNul(q) ensures p == q {
      if p != q { CollisionExtends(p, q); }
    }
    JoinedDedupIsPairDedup(data, eligible);
  }
}
