/**
 * The part of SQLite that the store's read queries rely on: the BINARY collation that orders
 * TEXT columns such as `date` and `uploadDate`, and `SELECT * ... ORDER BY <column>` over a
 * table keyed by its primary key.
 */
module Ordering {

  /**
   * SQLite's default BINARY collation on TEXT: byte-wise comparison of the UTF-8 encoding, which
   * is lexicographic order on code points; a proper prefix comes first.
   */
  predicate TextLe(a: string, b: string) {
    |a| == 0 || (|b| > 0 && (a[0] < b[0] || (a[0] == b[0] && TextLe(a[1..], b[1..]))))
  }

  lemma {:induction false} TextLeReflexive(a: string)
    ensures TextLe(a, a)
  {
    if |a| > 0 {
      TextLeReflexive(a[1..]);
    }
  }

  lemma {:induction false} TextLeTotal(a: string, b: string)
    ensures TextLe(a, b) || TextLe(b, a)
  {
    if |a| > 0 && |b| > 0 && a[0] == b[0] {
      TextLeTotal(a[1..], b[1..]);
    }
  }

  lemma {:induction false} TextLeTransitive(a: string, b: string, c: string)
    requires TextLe(a, b) && TextLe(b, c)
    ensures TextLe(a, c)
  {
    if |a| > 0 && a[0] == b[0] && b[0] == c[0] {
      TextLeTransitive(a[1..], b[1..], c[1..]);
    }
  }

  /** Two texts that collate both ways are equal, so ties in an ORDER BY are between equal keys. */
  lemma {:induction false} TextLeAntisymmetric(a: string, b: string)
    requires TextLe(a, b) && TextLe(b, a)
    ensures a == b
  {
    if |a| > 0 {
      TextLeAntisymmetric(a[1..], b[1..]);
      assert a == [a[0]] + a[1..] && b == [b[0]] + b[1..];
    }
  }

  /** `ASC` or `DESC` in an ORDER BY clause. */
  datatype Direction = Ascending | Descending

  /** Key `a` may come before key `b` in a result ordered in direction `dir`. */
  predicate InOrder(dir: Direction, a: string, b: string) {
    match dir
    case Ascending => TextLe(a, b)
    case Descending => TextLe(b, a)
  }

  lemma InOrderTotal(dir: Direction, a: string, b: string)
    ensures InOrder(dir, a, b) || InOrder(dir, b, a)
  {
    TextLeTotal(a, b);
  }

  lemma InOrderTransitive(dir: Direction, a: string, b: string, c: string)
    requires InOrder(dir, a, b) && InOrder(dir, b, c)
    ensures InOrder(dir, a, c)
  {
    match dir
    case Ascending => TextLeTransitive(a, b, c);
    case Descending => TextLeTransitive(c, b, a);
  }

  /** Every earlier row's key may precede every later row's key. */
  ghost predicate SortedBy<R>(rows: seq<R>, key: R -> string, dir: Direction) {
    forall i, j :: 0 <= i < j < |rows| ==> InOrder(dir, key(rows[i]), key(rows[j]))
  }

  /** Inserts `x` into sorted `rows` after every row whose key may precede it. */
  method InsertInOrder<R>(rows: seq<R>, x: R, key: R -> string, dir: Direction) returns (r: seq<R>, p: nat)
    requires SortedBy(rows, key, dir)
    ensures p <= |rows| && r == rows[..p] + [x] + rows[p..]
    ensures SortedBy(r, key, dir)
  {
    p := 0;
    while p < |rows| && InOrder(dir, key(rows[p]), key(x))
      invariant p <= |rows|
      invariant forall k :: 0 <= k < p ==> InOrder(dir, key(rows[k]), key(x))
    {
      p := p + 1;
    }
    if p < |rows| {
      InOrderTotal(dir, key(rows[p]), key(x));
      forall k | p < k < |rows|
        ensures InOrder(dir, key(x), key(rows[k]))
      {
        InOrderTransitive(dir, key(x), key(rows[p]), key(rows[k]));
      }
    }
    r := rows[..p] + [x] + rows[p..];
    forall i, j | 0 <= i < j < |r|
      ensures InOrder(dir, key(r[i]), key(r[j]))
    {
      if j < p {
        assert r[i] == rows[i] && r[j] == rows[j];
      } else if j == p {
        assert r[i] == rows[i] && r[j] == x;
      } else if i < p {
        assert r[i] == rows[i] && r[j] == rows[j - 1];
      } else if i == p {
        assert r[i] == x && r[j] == rows[j - 1];
      } else {
        assert r[i] == rows[i - 1] && r[j] == rows[j - 1];
      }
    }
  }

  /** The primary keys of `rows`. */
  ghost function Ids<R>(rows: seq<R>, rowId: R -> string): set<string> {
    set i | 0 <= i < |rows| :: rowId(rows[i])
  }

  /** No primary key occurs twice in `rows`. */
  ghost predicate Distinct<R>(rows: seq<R>, rowId: R -> string) {
    forall i, j :: 0 <= i < j < |rows| ==> rowId(rows[i]) != rowId(rows[j])
  }

  /** Inserting a row with a new key at position `p` adds that key and keeps the keys distinct. */
  lemma InsertedRow<R>(before: seq<R>, x: R, p: nat, rowId: R -> string)
    requires p <= |before| && Distinct(before, rowId) && rowId(x) !in Ids(before, rowId)
    ensures var rows := before[..p] + [x] + before[p..];
      && Ids(rows, rowId) == Ids(before, rowId) + {rowId(x)}
      && Distinct(rows, rowId)
      && forall r :: r in rows ==> r == x || r in before
  {
    var rows := before[..p] + [x] + before[p..];
    assert forall i :: 0 <= i < p ==> rows[i] == before[i];
    assert forall i :: p < i < |rows| ==> rows[i] == before[i - 1];
    forall id | id in Ids(before, rowId)
      ensures id in Ids(rows, rowId)
    {
      var i :| 0 <= i < |before| && rowId(before[i]) == id;
      if i < p {
        assert rowId(rows[i]) == id;
      } else {
        assert rowId(rows[i + 1]) == id;
      }
    }
    assert rowId(rows[p]) == rowId(x);
    forall i, j | 0 <= i < j < |rows|
      ensures rowId(rows[i]) != rowId(rows[j])
    {
      var bi := if i < p then i else i - 1;
      var bj := if j < p then j else j - 1;
      if i != p && j != p {
        assert rows[i] == before[bi] && rows[j] == before[bj];
      } else if i == p {
        assert rowId(rows[j]) == rowId(before[bj]) && rowId(before[bj]) in Ids(before, rowId);
      } else {
        assert rowId(rows[i]) == rowId(before[bi]) && rowId(before[bi]) in Ids(before, rowId);
      }
    }
  }

  /**
   * `SELECT * FROM table ORDER BY key dir` over a table whose map keys are its primary keys:
   * every stored row exactly once, ordered by `key`, rows with equal keys in an unspecified order.
   */
  method SelectOrdered<R>(table: map<string, R>, rowId: R -> string, key: R -> string, dir: Direction)
    returns (rows: seq<R>)
    requires forall id :: id in table ==> rowId(table[id]) == id
    ensures SortedBy(rows, key, dir)
    ensures forall i :: 0 <= i < |rows| ==> rowId(rows[i]) in table && table[rowId(rows[i])] == rows[i]
    ensures forall id :: id in table ==> exists i :: 0 <= i < |rows| && rowId(rows[i]) == id
    ensures forall i, j :: 0 <= i < j < |rows| ==> rowId(rows[i]) != rowId(rows[j])
  {
    rows := [];
    var pending := table.Keys;
    while pending != {}
      invariant pending <= table.Keys
      invariant SortedBy(rows, key, dir)
      invariant Ids(rows, rowId) == table.Keys - pending && Distinct(rows, rowId)
      invariant forall r :: r in rows ==> rowId(r) in table && table[rowId(r)] == r
      decreases pending
    {
      var id :| id in pending;
      var before := rows;
      var p;
      rows, p := InsertInOrder(rows, table[id], key, dir);
      InsertedRow(before, table[id], p, rowId);
      pending := pending - {id};
    }
    forall i | 0 <= i < |rows|
      ensures rowId(rows[i]) in table && table[rowId(rows[i])] == rows[i]
    {
      assert rows[i] in rows;
    }
    forall id | id in table
      ensures exists i :: 0 <= i < |rows| && rowId(rows[i]) == id
    {
      assert id in Ids(rows, rowId);
    }
  }
}
