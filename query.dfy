/** What the Sequelize queries used by the handlers return, over a table held
    as a sequence of rows in storage order: `findOne` / `findByPk` (the first
    row that the WHERE clause selects), `findAll` with a WHERE clause, and
    `ORDER BY key DESC`. */
module Query {
  import opened Js

  /** Position of the first row that `where` selects. */
  function FirstIndex<T>(rows: seq<T>, where: T -> bool): (r: Option<nat>)
    ensures r.Some? ==> r.value < |rows| && where(rows[r.value])
    ensures r.Some? ==> forall j :: 0 <= j < r.value ==> !where(rows[j])
    ensures r.None? <==> forall j :: 0 <= j < |rows| ==> !where(rows[j])
  {
    if rows == [] then None
    else if where(rows[0]) then Some(0)
    else
      match FirstIndex(rows[1..], where)
      case None => None
      case Some(k) => Some(k + 1)
  }

  /** `findOne({ where })`: the first selected row, or nothing. */
  function FindOne<T>(rows: seq<T>, where: T -> bool): (r: Option<T>)
    ensures r.Some? ==> r.value in rows && where(r.value)
    ensures r.None? <==> forall j :: 0 <= j < |rows| ==> !where(rows[j])
  {
    match FirstIndex(rows, where)
    case None => None
    case Some(k) => Some(rows[k])
  }

  /** Replacing a row by one that the WHERE clause treats alike does not move the
      first match. */
  lemma {:induction false} FirstIndexUpdate<T>(rows: seq<T>, k: nat, row: T, where: T -> bool)
    requires k < |rows|
    requires where(row) == where(rows[k])
    ensures FirstIndex(rows[k := row], where) == FirstIndex(rows, where)
  {
    if k > 0 {
      assert rows[k := row][1..] == rows[1..][k - 1 := row];
      FirstIndexUpdate(rows[1..], k - 1, row, where);
    }
  }

  /** `findAll({ where })`: the selected rows, in storage order. */
  function FindAll<T(!new)>(rows: seq<T>, where: T -> bool): (r: seq<T>)
    ensures forall x :: multiset(r)[x] == if where(x) then multiset(rows)[x] else 0
    ensures forall i :: 0 <= i < |r| ==> where(r[i])
  {
    if rows == [] then []
    else
      var rest := FindAll(rows[1..], where);
      assert rows == [rows[0]] + rows[1..];
      if where(rows[0]) then [rows[0]] + rest else rest
  }

  predicate SortedDesc<T>(s: seq<T>, key: T -> int) {
    forall i, j :: 0 <= i < j < |s| ==> key(s[i]) >= key(s[j])
  }

  /** Places `x` before the first row whose key is at most its own. */
  function InsertDesc<T>(x: T, sorted: seq<T>, key: T -> int): (r: seq<T>)
    requires SortedDesc(sorted, key)
    ensures multiset(r) == multiset(sorted) + multiset{x}
    ensures SortedDesc(r, key)
    ensures |r| == |sorted| + 1
    ensures r[0] == x || (sorted != [] && r[0] == sorted[0])
  {
    if sorted == [] then [x]
    else if key(x) >= key(sorted[0]) then
      ConsSorted(x, sorted, key);
      [x] + sorted
    else
      var rest := InsertDesc(x, sorted[1..], key);
      InsertAfterHead(x, sorted, rest, key);
      [sorted[0]] + rest
  }

  /** The step of `InsertDesc` that keeps the head in front. */
  lemma InsertAfterHead<T>(x: T, sorted: seq<T>, rest: seq<T>, key: T -> int)
    requires sorted != [] && SortedDesc(sorted, key) && key(x) < key(sorted[0])
    requires multiset(rest) == multiset(sorted[1..]) + multiset{x}
    requires SortedDesc(rest, key) && |rest| == |sorted|
    requires rest[0] == x || (|sorted| > 1 && rest[0] == sorted[1])
    ensures multiset([sorted[0]] + rest) == multiset(sorted) + multiset{x}
    ensures SortedDesc([sorted[0]] + rest, key)
  {
    assert sorted == [sorted[0]] + sorted[1..];
    ConsSorted(sorted[0], rest, key);
  }

  /** A head no smaller than the first element keeps a descending sequence descending. */
  lemma ConsSorted<T>(h: T, t: seq<T>, key: T -> int)
    requires SortedDesc(t, key)
    requires t == [] || key(h) >= key(t[0])
    ensures SortedDesc([h] + t, key)
  {
    var s := [h] + t;
    forall i, j | 0 <= i < j < |s|
      ensures key(s[i]) >= key(s[j])
    {
      if i == 0 {
        assert s[j] == t[j - 1];
        assert key(t[0]) >= key(t[j - 1]) || j == 1;
      } else {
        assert s[i] == t[i - 1] && s[j] == t[j - 1];
      }
    }
  }

  /** `order: [[key, 'DESC']]`: the same rows, largest key first. Rows with equal
      keys keep their storage order. */
  function OrderDesc<T>(rows: seq<T>, key: T -> int): (r: seq<T>)
    ensures multiset(r) == multiset(rows)
    ensures |r| == |rows|
    ensures SortedDesc(r, key)
  {
    if rows == [] then []
    else
      assert rows == [rows[0]] + rows[1..];
      InsertDesc(rows[0], OrderDesc(rows[1..], key), key)
  }

  /** The rows whose key is `v`, in the order given. */
  function Ties<T>(rows: seq<T>, key: T -> int, v: int): seq<T> {
    if rows == [] then []
    else (if key(rows[0]) == v then [rows[0]] else []) + Ties(rows[1..], key, v)
  }

  lemma TiesCons<T>(h: T, t: seq<T>, key: T -> int, v: int)
    ensures Ties([h] + t, key, v) == (if key(h) == v then [h] else []) + Ties(t, key, v)
  {
    assert ([h] + t)[0] == h && ([h] + t)[1..] == t;
  }

  lemma SwapEmpty<T>(a: seq<T>, b: seq<T>, c: seq<T>)
    requires a == [] || b == []
    ensures a + (b + c) == b + (a + c)
  {
    if a == [] {
      assert a + (b + c) == b + c && a + c == c;
    } else {
      assert b + c == c && b + (a + c) == a + c;
    }
  }

  /** Inserting `x` puts it in front of the rows with its own key. */
  lemma {:induction false} InsertDescTies<T>(x: T, sorted: seq<T>, key: T -> int, v: int)
    requires SortedDesc(sorted, key)
    ensures Ties(InsertDesc(x, sorted, key), key, v) == (if key(x) == v then [x] else []) + Ties(sorted, key, v)
  {
    if sorted == [] {
      TiesCons(x, [], key, v);
      assert [x] + [] == [x];
    } else if key(x) >= key(sorted[0]) {
      TiesCons(x, sorted, key, v);
    } else {
      var rest := InsertDesc(x, sorted[1..], key);
      assert InsertDesc(x, sorted, key) == [sorted[0]] + rest;
      InsertDescTies(x, sorted[1..], key, v);
      assert sorted == [sorted[0]] + sorted[1..];
      TiesBehindHead(sorted[0], x, sorted[1..], rest, key, v);
    }
  }

  /** A head with a larger key than `x` does not change where `x` stands among its ties. */
  lemma TiesBehindHead<T>(h: T, x: T, t: seq<T>, r: seq<T>, key: T -> int, v: int)
    requires key(h) > key(x)
    requires Ties(r, key, v) == (if key(x) == v then [x] else []) + Ties(t, key, v)
    ensures Ties([h] + r, key, v) == (if key(x) == v then [x] else []) + Ties([h] + t, key, v)
  {
    TiesCons(h, r, key, v);
    TiesCons(h, t, key, v);
    SwapEmpty(if key(h) == v then [h] else [], if key(x) == v then [x] else [], Ties(t, key, v));
  }

  /** `OrderDesc` is stable: the rows sharing any one key come out in storage order. */
  lemma {:induction false} OrderDescKeepsTies<T>(rows: seq<T>, key: T -> int, v: int)
    ensures Ties(OrderDesc(rows, key), key, v) == Ties(rows, key, v)
  {
    if rows != [] {
      OrderDescKeepsTies(rows[1..], key, v);
      InsertDescTies(rows[0], OrderDesc(rows[1..], key), key, v);
      assert rows == [rows[0]] + rows[1..];
      TiesCons(rows[0], rows[1..], key, v);
    }
  }

  /** A rearrangement of rows that all satisfy a condition still has only such rows. */
  lemma PermutationKeeps<T>(rows: seq<T>, rearranged: seq<T>, where: T -> bool)
    requires forall i :: 0 <= i < |rows| ==> where(rows[i])
    requires multiset(rearranged) == multiset(rows)
    ensures forall i :: 0 <= i < |rearranged| ==> where(rearranged[i])
  {
    forall i | 0 <= i < |rearranged|
      ensures where(rearranged[i])
    {
      assert rearranged[i] in multiset(rearranged);
      assert rearranged[i] in rows;
    }
  }
}
