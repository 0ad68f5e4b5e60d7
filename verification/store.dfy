/**
  The `hits` table, seen through the two statements the handlers run on it:
  an INSERT that appends a row under a fresh AUTOINCREMENT id, and a SELECT
  with a conjunctive WHERE clause, `ORDER BY id DESC`, LIMIT and OFFSET.
  The table is the sequence of its rows in insertion order; nothing ever
  updates or deletes a row.
 */
module Store {
  import opened Wrappers

  /** The columns the pixel route inserts. */
  datatype Hit = Hit(
    date: int,
    category: Option<string>,
    ipAddress: string,
    width: int,
    height: int,
    color: int,
    metadata: Option<string>,
    userAgent: string)

  datatype Row = Row(id: nat, hit: Hit)

  type Table = seq<Row>

  /** AUTOINCREMENT ids: positive, and strictly increasing in insertion order. */
  predicate Valid(t: Table)
  {
    && (forall i :: 0 <= i < |t| ==> t[i].id >= 1)
    && (forall i, j :: 0 <= i < j < |t| ==> t[i].id < t[j].id)
  }

  /** The id the next INSERT receives: one more than the largest id so far, 1 for an empty table. */
  function NextId(t: Table): (id: nat)
    ensures id >= 1
    ensures Valid(t) ==> forall i :: 0 <= i < |t| ==> t[i].id < id
  {
    if |t| == 0 then 1 else t[|t| - 1].id + 1
  }

  /** INSERT: appends the hit under a fresh id; the table stays valid and no existing row changes. */
  function Insert(t: Table, hit: Hit): (t': Table)
    ensures |t'| == |t| + 1 && t'[..|t|] == t
    ensures t'[|t|].hit == hit
    ensures Valid(t) ==> Valid(t') && forall i :: 0 <= i < |t| ==> t[i].id < t'[|t|].id
  {
    t + [Row(NextId(t), hit)]
  }

  /** One conjunct of a WHERE clause, with the value bound to its placeholder. */
  datatype Cond =
    | CategoryIs(category: Option<string>)
    | IpAddressIs(ipAddress: string)
    | DateAtMost(bound: int)
    | DateAtLeast(bound: int)

  /** SQL `column = ?`: a comparison involving NULL is never true. */
  predicate SqlEquals(column: Option<string>, param: Option<string>)
  {
    column.Some? && param.Some? && column.value == param.value
  }

  predicate Holds(c: Cond, row: Row)
  {
    match c
    case CategoryIs(v) => SqlEquals(row.hit.category, v)
    case IpAddressIs(v) => row.hit.ipAddress == v
    case DateAtMost(b) => row.hit.date <= b
    case DateAtLeast(a) => row.hit.date >= a
  }

  /** A row satisfies a WHERE clause when it satisfies every conjunct. */
  predicate Satisfies(row: Row, where: seq<Cond>)
  {
    forall c :: c in where ==> Holds(c, row)
  }

  /** Strictly decreasing ids. */
  predicate Descending(rows: seq<Row>)
  {
    forall i, j :: 0 <= i < j < |rows| ==> rows[i].id > rows[j].id
  }

  /** `SELECT * FROM hits WHERE <where> ORDER BY id DESC`: the matching rows, newest first. */
  function Newest(t: Table, where: seq<Cond>): (r: seq<Row>)
    ensures |r| <= |t|
    ensures forall row :: row in r <==> row in t && Satisfies(row, where)
    ensures Valid(t) ==> Descending(r)
    decreases |t|
  {
    if |t| == 0 then []
    else
      var rest := Newest(t[..|t| - 1], where);
      LastSplit(t);
      if Satisfies(t[|t| - 1], where) then
        NewerFirst(t, rest);
        [t[|t| - 1]] + rest
      else
        rest
  }

  /** The rows of a non-empty table are those of its prefix and its last row. */
  lemma LastSplit(t: Table)
    requires |t| > 0
    ensures forall row :: row in t <==> row in t[..|t| - 1] || row == t[|t| - 1]
  {
    assert t == t[..|t| - 1] + [t[|t| - 1]];
  }

  /** Putting the last row of a valid table in front of descending rows of its prefix keeps them descending. */
  lemma NewerFirst(t: Table, rest: seq<Row>)
    requires |t| > 0
    requires forall row :: row in rest ==> row in t[..|t| - 1]
    requires Valid(t[..|t| - 1]) ==> Descending(rest)
    ensures Valid(t) ==> Descending([t[|t| - 1]] + rest)
  {
    if Valid(t) {
      var older := t[..|t| - 1];
      assert Valid(older);
      forall i | 0 <= i < |rest|
        ensures rest[i].id < t[|t| - 1].id
      {
        assert rest[i] in rest;
        var k :| 0 <= k < |older| && older[k] == rest[i];
      }
    }
  }

  /** `... LIMIT limit OFFSET offset`: skip the first `offset` matching rows, keep at most `limit`. */
  function Select(t: Table, where: seq<Cond>, limit: nat, offset: nat): (r: seq<Row>)
    ensures var all := Newest(t, where);
      && |r| == (if offset >= |all| then 0 else if |all| - offset < limit then |all| - offset else limit)
      && (|r| > 0 ==> offset + |r| <= |all| && r == all[offset..offset + |r|])
    ensures forall row :: row in r ==> row in t && Satisfies(row, where)
    ensures Valid(t) ==> Descending(r)
  {
    var all := Newest(t, where);
    var from := if offset < |all| then offset else |all|;
    var to := if from + limit < |all| then from + limit else |all|;
    var r := all[from..to];
    assert forall row :: row in r ==> row in all;
    r
  }

  /** The rows of a table, last inserted first. */
  function Reverse(t: Table): (r: Table)
    ensures |r| == |t|
  {
    if |t| == 0 then [] else [t[|t| - 1]] + Reverse(t[..|t| - 1])
  }

  /** With no conjunct in the WHERE clause, every row is a candidate, newest first. */
  lemma {:induction false} NoConditionsAllRows(t: Table)
    ensures Newest(t, []) == Reverse(t)
    decreases |t|
  {
    if |t| > 0 {
      NoConditionsAllRows(t[..|t| - 1]);
    }
  }

  /**
    The descending enumeration is unique: any strictly descending sequence
    holding exactly the matching rows is the result of the ordered SELECT.
   */
  lemma NewestIsTheOrderedSelection(t: Table, where: seq<Cond>, r: seq<Row>)
    requires Valid(t) && Descending(r)
    requires forall row :: row in r <==> row in t && Satisfies(row, where)
    ensures r == Newest(t, where)
  {
    DescendingUnique(r, Newest(t, where));
  }

  lemma {:induction false} DescendingUnique(a: seq<Row>, b: seq<Row>)
    requires Descending(a) && Descending(b)
    requires forall row :: row in a <==> row in b
    ensures a == b
    decreases |a|
  {
    SameMembersEmpty(a, b);
    if |a| > 0 {
      assert a[0] in b;
      assert b[0] in a;
      var k :| 0 <= k < |a| && a[k] == b[0];
      var m :| 0 <= m < |b| && b[m] == a[0];
      assert a[0] == b[0];
      forall row
        ensures row in a[1..] <==> row in b[1..]
      {
        if row in a[1..] {
          var i :| 1 <= i < |a| && a[i] == row;
          assert row != a[0];
          assert row in b;
        }
        if row in b[1..] {
          var i :| 1 <= i < |b| && b[i] == row;
          assert row != b[0];
          assert row in a;
        }
      }
      DescendingUnique(a[1..], b[1..]);
    }
  }

  lemma SameMembersEmpty<T>(a: seq<T>, b: seq<T>)
    requires forall x :: x in a <==> x in b
    ensures |a| == 0 <==> |b| == 0
  {
    if |a| > 0 {
      assert a[0] in b;
    }
    if |b| > 0 {
      assert b[0] in a;
    }
  }
}
