// The two SQLite tables as sequences of rows kept in rowid order, and the SQL
// statements the entities issue as functions on those sequences:
//   SELECT * ... WHERE p  + fetchone()   ->  FetchOne
//   SELECT * ... WHERE p  + fetchall()   ->  Where
//   UPDATE ... SET ... WHERE p           ->  UpdateWhere
//   DELETE FROM ... WHERE p              ->  DeleteWhere
//   INSERT ... + CURSOR.lastrowid        ->  append a row keyed NextRowId

/** One row: the INTEGER PRIMARY KEY `id`, the TEXT column `name`, and the third
    column (`location` for hotels, `hotel_id` for guests). */
datatype Row<C> = Row(id: int, name: NonBlank, third: C)

type HotelRow = Row<NonBlank>
type GuestRow = Row<Int64>

/** `r` is `s` with some elements left out, the rest in their original order. */
ghost predicate IsSubsequence<T>(r: seq<T>, s: seq<T>)
  decreases |s|
{
  if r == [] then true
  else if s == [] then false
  else (r[0] == s[0] && IsSubsequence(r[1..], s[1..])) || IsSubsequence(r, s[1..])
}

/** A table scanned in rowid order: keys strictly increase. */
predicate Ordered<C>(t: seq<Row<C>>)
{
  forall i, j | 0 <= i < j < |t| :: t[i].id < t[j].id
}

/** Some row of `t` has primary key `k`. */
predicate HasId<C>(t: seq<Row<C>>, k: int)
{
  exists i | 0 <= i < |t| :: t[i].id == k
}

/** The largest primary key in a non-empty table. */
function MaxId<C>(t: seq<Row<C>>): (m: int)
  requires t != []
  ensures forall i | 0 <= i < |t| :: t[i].id <= m
  ensures HasId(t, m)
{
  if |t| == 1 then t[0].id
  else
    var rest := MaxId(t[1..]);
    if t[0].id < rest then rest else t[0].id
}

/** The key SQLite gives the next inserted row of a table without AUTOINCREMENT:
    one more than the largest key, or 1 when the table is empty. */
function NextRowId<C>(t: seq<Row<C>>): (k: int)
  ensures !HasId(t, k)
  ensures forall i | 0 <= i < |t| :: t[i].id < k
{
  if t == [] then 1 else MaxId(t) + 1
}

/** Appending a row keyed NextRowId keeps the table in rowid order. */
lemma AppendKeepsOrder<C>(t: seq<Row<C>>, name: NonBlank, third: C)
  requires Ordered(t)
  ensures Ordered(t + [Row(NextRowId(t), name, third)])
  ensures forall k :: HasId(t + [Row(NextRowId(t), name, third)], k) <==> HasId(t, k) || k == NextRowId(t)
{
  var u := t + [Row(NextRowId(t), name, third)];
  forall k | HasId(u, k) ensures HasId(t, k) || k == NextRowId(t) {
    var i :| 0 <= i < |u| && u[i].id == k;
    if i < |t| { assert t[i].id == k; }
  }
  forall k | HasId(t, k) ensures HasId(u, k) {
    var i :| 0 <= i < |t| && t[i].id == k;
    assert u[i].id == k;
  }
  assert u[|t|].id == NextRowId(t);
}

/** Index of the first row that satisfies `p`: what `fetchone()` returns after a
    SELECT with that WHERE clause, scanning in rowid order. */
function FetchOne<C>(t: seq<Row<C>>, p: Row<C> -> bool): (r: Option<nat>)
  ensures r.None? <==> forall i | 0 <= i < |t| :: !p(t[i])
  ensures r.Some? ==> r.value < |t| && p(t[r.value])
  ensures r.Some? ==> forall j | 0 <= j < r.value :: !p(t[j])
{
  if t == [] then None
  else if p(t[0]) then Some(0)
  else
    match FetchOne(t[1..], p)
    case None => None
    case Some(k) => Some(k + 1)
}

/** The rows that satisfy `p`, in table order: `fetchall()` after a SELECT. */
function Where<C(==)>(t: seq<Row<C>>, p: Row<C> -> bool): (r: seq<Row<C>>)
  ensures forall i | 0 <= i < |r| :: p(r[i]) && r[i] in t
  ensures forall i | 0 <= i < |t| && p(t[i]) :: t[i] in r
  ensures |r| <= |t|
{
  if t == [] then []
  else if p(t[0]) then [t[0]] + Where(t[1..], p)
  else Where(t[1..], p)
}

/** A SELECT keeps the rows it returns in table order. */
lemma {:induction false} WhereIsSubsequence<C>(t: seq<Row<C>>, p: Row<C> -> bool)
  ensures IsSubsequence(Where(t, p), t)
{
  if t != [] {
    WhereIsSubsequence(t[1..], p);
    var r := Where(t, p);
    if p(t[0]) {
      assert r[0] == t[0] && r[1..] == Where(t[1..], p);
    } else if r != [] {
      assert IsSubsequence(r, t[1..]);
    }
  }
}

/** The rows a SELECT returns from a table in rowid order are in rowid order. */
lemma {:induction false} WhereKeepsOrder<C>(t: seq<Row<C>>, p: Row<C> -> bool)
  requires Ordered(t)
  ensures Ordered(Where(t, p))
{
  if t != [] {
    var rest := Where(t[1..], p);
    WhereKeepsOrder(t[1..], p);
    if p(t[0]) {
      forall i | 0 <= i < |rest| ensures t[0].id < rest[i].id {
        var j :| 0 <= j < |t[1..]| && t[1..][j] == rest[i];
        assert t[j + 1] == rest[i];
      }
      PrependKeepsOrder(t[0], rest);
    }
  }
}

/** A row keyed below every key of an ordered table can go in front of it. */
lemma PrependKeepsOrder<C>(row: Row<C>, t: seq<Row<C>>)
  requires Ordered(t)
  requires forall i | 0 <= i < |t| :: row.id < t[i].id
  ensures Ordered([row] + t)
{
  var r := [row] + t;
  forall i, j | 0 <= i < j < |r| ensures r[i].id < r[j].id {
    assert r[j] == t[j - 1];
    if i > 0 { assert r[i] == t[i - 1]; }
  }
}

/** The rows a DELETE with WHERE clause `p` leaves behind, in table order. */
function DeleteWhere<C(==)>(t: seq<Row<C>>, p: Row<C> -> bool): (r: seq<Row<C>>)
  ensures forall i | 0 <= i < |r| :: !p(r[i]) && r[i] in t
  ensures forall i | 0 <= i < |t| && !p(t[i]) :: t[i] in r
{
  Where(t, Not(p))
}

/** The rows a DELETE leaves behind stay in rowid order. */
lemma DeleteKeepsOrder<C>(t: seq<Row<C>>, p: Row<C> -> bool)
  requires Ordered(t)
  ensures Ordered(DeleteWhere(t, p))
{
  WhereKeepsOrder(t, Not(p));
}

/** The negation of a WHERE clause. */
function Not<C>(p: Row<C> -> bool): Row<C> -> bool
{
  (row: Row<C>) => !p(row)
}

/** The table after `UPDATE ... SET name = ?, <third> = ? WHERE p`: every
    matching row gets the new values and keeps its key; no other row changes. */
function UpdateWhere<C>(t: seq<Row<C>>, p: Row<C> -> bool, name: NonBlank, third: C): (r: seq<Row<C>>)
  ensures |r| == |t|
  ensures forall i | 0 <= i < |t| :: r[i] == if p(t[i]) then Row(t[i].id, name, third) else t[i]
{
  if t == [] then []
  else [if p(t[0]) then Row(t[0].id, name, third) else t[0]] + UpdateWhere(t[1..], p, name, third)
}

/** An UPDATE changes no key, so the table keeps its order and its key set. */
lemma UpdateKeepsKeys<C>(t: seq<Row<C>>, p: Row<C> -> bool, name: NonBlank, third: C)
  requires Ordered(t)
  ensures Ordered(UpdateWhere(t, p, name, third))
  ensures forall k :: HasId(UpdateWhere(t, p, name, third), k) <==> HasId(t, k)
{
  var u := UpdateWhere(t, p, name, third);
  assert forall i | 0 <= i < |t| :: u[i].id == t[i].id;
}

/** After deleting the rows keyed `k`, no row has key `k`; every other key stays. */
lemma DeleteKeepsOtherKeys<C>(t: seq<Row<C>>, key: Option<int>)
  ensures forall k :: HasId(DeleteWhere(t, IdEquals(key)), k) <==> HasId(t, k) && key != Some(k)
{
  var u := DeleteWhere(t, IdEquals(key));
  forall k | HasId(u, k) ensures HasId(t, k) && key != Some(k) {
    var i :| 0 <= i < |u| && u[i].id == k;
    assert !IdEquals(key)(u[i]);
    var j :| 0 <= j < |t| && t[j] == u[i];
  }
  forall k | HasId(t, k) && key != Some(k) ensures HasId(u, k) {
    var i :| 0 <= i < |t| && t[i].id == k;
    assert !IdEquals(key)(t[i]);
    var j :| 0 <= j < |u| && u[j] == t[i];
  }
}

/** SQL `WHERE id = ?`. A NULL parameter (None) matches no row. */
function IdEquals<C>(key: Option<int>): Row<C> -> bool
{
  (row: Row<C>) => key == Some(row.id)
}

/** SQL `WHERE name is ?`. */
function NameIs<C>(name: string): Row<C> -> bool
{
  (row: Row<C>) => row.name == name
}

/** SQL `WHERE hotel_id = ?` on the guests table. A NULL parameter matches no row. */
function HotelIdEquals(key: Option<int>): GuestRow -> bool
{
  (row: GuestRow) => key == Some(row.third)
}

/** `WHERE hotel_id = NULL` selects nothing: NULL equals no value in SQL. */
lemma {:induction false} NullMatchesNoGuest(t: seq<GuestRow>)
  ensures Where(t, HotelIdEquals(None)) == []
{
  if t != [] {
    NullMatchesNoGuest(t[1..]);
  }
}
