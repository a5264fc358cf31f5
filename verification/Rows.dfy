/** The rows of a source database and the order in which every query returns them. */
module Rows {
  import opened Clock

  newtype Byte = b: int | 0 <= b < 256

  // Message ids compare byte by byte, as SQLite's default collation does.
  type Id = seq<Byte>

  const NO_ID: Id := []

  /** One message row joined with its session. `t` is message.time_updated in milliseconds,
      `tokens` says that tokens.input is present, and `parses` that the message data decodes. The record
      built from a row carries its id and occurs at its time. */
  datatype Row = Row(id: Id, t: int, tokens: bool, parses: bool) {
    function OccurredAt(): Time { FromMilli(t) }
  }

  predicate Distinct(s: set<Row>) {
    forall a, b | a in s && b in s && a.id == b.id :: a == b
  }

  // message.id is the table's primary key.
  type Table = s: set<Row> | Distinct(s) witness {}

  predicate IdLess(a: Id, b: Id) {
    b != [] && (a == [] || a[0] < b[0] || (a[0] == b[0] && IdLess(a[1..], b[1..])))
  }

  /** ORDER BY time_updated ASC, id ASC. */
  predicate Before(a: Row, b: Row) {
    a.t < b.t || (a.t == b.t && IdLess(a.id, b.id))
  }

  lemma IdTotal(a: Id, b: Id)
    ensures a == b || IdLess(a, b) || IdLess(b, a)
  {
    if a != [] && b != [] && a[0] == b[0] {
      IdTotal(a[1..], b[1..]);
      assert a == [a[0]] + a[1..] && b == [b[0]] + b[1..];
    }
  }

  lemma IdAsymmetric(a: Id, b: Id)
    requires IdLess(a, b)
    ensures !IdLess(b, a) && a != b
  {
  }

  lemma IdTransitive(a: Id, b: Id, c: Id)
    requires IdLess(a, b) && IdLess(b, c)
    ensures IdLess(a, c)
  {
  }

  /** Ids compare at the first byte in which they differ, whatever their lengths; a prefix comes first. */
  lemma {:induction false} IdOrderIsBytewise(a: Id, b: Id, k: nat)
    requires k <= |a| && k <= |b| && a[..k] == b[..k] && (k < |a| && k < |b| ==> a[k] != b[k])
    ensures IdLess(a, b) <==> k < |b| && (k == |a| || a[k] < b[k])
    decreases k
  {
    if k > 0 {
      assert a[..k][0] == b[..k][0];
      assert a[1..][..k - 1] == a[..k][1..] && b[1..][..k - 1] == b[..k][1..];
      IdOrderIsBytewise(a[1..], b[1..], k - 1);
    }
  }

  /** (time_updated, id) is a strict total order on rows with different ids. */
  lemma BeforeIsStrictTotal(a: Row, b: Row)
    ensures a.id != b.id ==> Before(a, b) || Before(b, a)
    ensures Before(a, b) ==> !Before(b, a) && a != b
  {
    IdTotal(a.id, b.id);
    if IdLess(a.id, b.id) { IdAsymmetric(a.id, b.id); }
    if IdLess(b.id, a.id) { IdAsymmetric(b.id, a.id); }
  }

  lemma BeforeTransitive(a: Row, b: Row, c: Row)
    requires Before(a, b) && Before(b, c)
    ensures Before(a, c)
  {
    if a.t == b.t == c.t { IdTransitive(a.id, b.id, c.id); }
  }

  predicate Ordered(q: seq<Row>) {
    forall i, j | 0 <= i < j < |q| :: Before(q[i], q[j])
  }

  predicate IsLeast(m: Row, s: set<Row>) {
    m in s && forall x | x in s && x != m :: Before(m, x)
  }

  lemma LeastExists(s: set<Row>)
    requires s != {} && Distinct(s)
    ensures exists m :: IsLeast(m, s)
  {
    var x :| x in s;
    if s == {x} {
      assert IsLeast(x, s);
    } else {
      LeastExists(s - {x});
      var m :| IsLeast(m, s - {x});
      BeforeIsStrictTotal(m, x);
      if Before(m, x) {
        assert IsLeast(m, s);
      } else {
        forall y | y in s && y != x ensures Before(x, y) {
          if y != m { BeforeTransitive(x, m, y); }
        }
        assert IsLeast(x, s);
      }
    }
  }

  lemma LeastIsUnique(s: set<Row>)
    ensures forall a, b | IsLeast(a, s) && IsLeast(b, s) :: a == b
  {
    forall a, b | IsLeast(a, s) && IsLeast(b, s) ensures a == b {
      BeforeIsStrictTotal(a, b);
    }
  }

  /** The rows of `s` in query order. */
  function Sorted(s: set<Row>): seq<Row>
    requires Distinct(s)
  {
    if s == {} then []
    else
      LeastExists(s);
      LeastIsUnique(s);
      var m :| m in s && IsLeast(m, s);
      [m] + Sorted(s - {m})
  }

  /** Sorting lists every row of the set, each before the later ones. */
  lemma {:induction false} SortedFacts(s: set<Row>)
    requires Distinct(s)
    ensures Ordered(Sorted(s))
    ensures forall r :: r in Sorted(s) <==> r in s
  {
    if s != {} {
      LeastExists(s);
      LeastIsUnique(s);
      var m :| m in s && IsLeast(m, s);
      SortedFacts(s - {m});
      var rest := Sorted(s - {m});
      assert Sorted(s) == [m] + rest;
      forall i | 0 <= i < |rest| ensures Before(m, rest[i]) {
        assert rest[i] in rest;
      }
    }
  }

  lemma OrderedTail(q: seq<Row>)
    requires Ordered(q) && q != []
    ensures Ordered(q[1..]) && q[0] !in q[1..]
    ensures forall r | r in q[1..] :: Before(q[0], r)
  {
    forall r | r in q[1..] ensures Before(q[0], r) && r != q[0] {
      BeforeIsStrictTotal(q[0], r);
    }
  }

  /** Query order is the only order: a set of rows has exactly one ordered listing. */
  lemma {:induction false} OrderedIsUnique(p: seq<Row>, q: seq<Row>)
    requires Ordered(p) && Ordered(q)
    requires forall r :: r in p <==> r in q
    ensures p == q
  {
    assert p != [] ==> p[0] in q;
    assert q != [] ==> q[0] in p;
    if p != [] {
      OrderedTail(p);
      OrderedTail(q);
      BeforeIsStrictTotal(p[0], q[0]);
      forall r ensures r in p[1..] <==> r in q[1..] {
        assert r in p <==> r == p[0] || r in p[1..];
        assert r in q <==> r == q[0] || r in q[1..];
      }
      OrderedIsUnique(p[1..], q[1..]);
      assert p == [p[0]] + p[1..] && q == [q[0]] + q[1..];
    }
  }

  /** An ordered listing repeats nothing. */
  lemma {:induction false} OrderedCountsOnce(q: seq<Row>, r: Row)
    requires Ordered(q)
    ensures multiset(q)[r] == if r in q then 1 else 0
  {
    if q != [] {
      OrderedTail(q);
      OrderedCountsOnce(q[1..], r);
      assert q == [q[0]] + q[1..];
    }
  }

  function Last(q: seq<Row>): Row
    requires q != []
  {
    q[|q| - 1]
  }

  function Concat(batches: seq<seq<Row>>): seq<Row> {
    if batches == [] then [] else batches[0] + Concat(batches[1..])
  }
}
