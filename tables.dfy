/** A document collection of the database: documents by id, together with the
    order in which they were inserted. That order stands for Mongo's natural
    order (what `find` and `findOne` without a sort return) and, since
    `createdAt` is stamped at insertion, for creation time. */
module Tables {
  import opened Base

  datatype Table<T> = Table(rows: map<Id, T>, order: seq<Id>)

  /** The order lists every stored document exactly once. */
  ghost predicate Wf<T>(t: Table<T>) {
    NoDup(t.order) && forall id :: id in t.rows <==> id in t.order
  }

  function EmptyTable<T>(): (t: Table<T>)
    ensures Wf(t) && t.rows == map[]
  {
    Table(map[], [])
  }

  /** `new Model(...).save()`: the document is stored under a fresh id and
      becomes the newest one. */
  function Insert<T>(t: Table<T>, id: Id, row: T): (r: Table<T>)
    requires id !in t.rows
    ensures Wf(t) ==> Wf(r)
    ensures r.rows == t.rows[id := row] && r.order == t.order + [id]
  {
    Table(t.rows[id := row], t.order + [id])
  }

  /** An in-place update of one stored document; its position does not change. */
  function Update<T>(t: Table<T>, id: Id, row: T): (r: Table<T>)
    requires id in t.rows
    ensures Wf(t) ==> Wf(r)
    ensures r.rows == t.rows[id := row] && r.order == t.order
  {
    Table(t.rows[id := row], t.order)
  }

  /** `findByIdAndDelete`: the document disappears, all others stay in order. */
  function Delete<T>(t: Table<T>, id: Id): (r: Table<T>)
    ensures Wf(t) ==> Wf(r)
    ensures r.rows == t.rows - {id}
    ensures id !in r.order
  {
    Table(t.rows - {id}, RemoveAll(t.order, id))
  }

  /** Ids of the rows of `rows` listed in `order` that satisfy `p`, in that order. */
  function SelectFrom<T>(order: seq<Id>, rows: map<Id, T>, p: (Id, T) -> bool): (ids: seq<Id>)
    ensures forall id :: id in ids <==> id in order && id in rows && p(id, rows[id])
    ensures NoDup(order) ==> NoDup(ids)
    ensures NoDup(order) ==>
      forall i, j :: 0 <= i < j < |ids| ==> IndexOf(order, ids[i]) < IndexOf(order, ids[j])
  {
    if order == [] then []
    else
      var rest := SelectFrom(order[1..], rows, p);
      assert forall id :: id in order <==> id == order[0] || id in order[1..];
      assert NoDup(order) ==> order[0] !in order[1..];
      assert forall y :: y in order[1..] && y != order[0] ==>
        IndexOf(order, y) == 1 + IndexOf(order[1..], y);
      if order[0] in rows && p(order[0], rows[order[0]]) then [order[0]] + rest
      else rest
  }

  /** `Model.find(filter)` without a sort: the matching documents in natural order. */
  function Select<T>(t: Table<T>, p: (Id, T) -> bool): (ids: seq<Id>)
    requires Wf(t)
    ensures forall id :: id in ids <==> id in t.rows && p(id, t.rows[id])
    ensures NoDup(ids)
    ensures forall i, j :: 0 <= i < j < |ids| ==> IndexOf(t.order, ids[i]) < IndexOf(t.order, ids[j])
  {
    SelectFrom(t.order, t.rows, p)
  }

  /** `Model.findOne(filter)`: the first matching document in natural order, if any. */
  function FindOne<T>(t: Table<T>, p: (Id, T) -> bool): (r: Option<Id>)
    requires Wf(t)
    ensures r.None? <==> forall id :: id in t.rows ==> !p(id, t.rows[id])
    ensures r.Some? ==> r.value in t.rows && p(r.value, t.rows[r.value])
  {
    var ids := Select(t, p);
    if ids == [] then None
    else
      assert ids[0] in ids;
      Some(ids[0])
  }

  function Reverse(s: seq<Id>): (r: seq<Id>)
    ensures |r| == |s|
    ensures forall i :: 0 <= i < |s| ==> r[i] == s[|s| - 1 - i]
  {
    if s == [] then [] else Reverse(s[1..]) + [s[0]]
  }

  lemma ReverseKeepsElements(s: seq<Id>)
    ensures forall x :: x in Reverse(s) <==> x in s
    ensures NoDup(s) ==> NoDup(Reverse(s))
  {
    var r := Reverse(s);
    forall x | x in s ensures x in r {
      var i :| 0 <= i < |s| && s[i] == x;
      assert r[|s| - 1 - i] == x;
    }
  }

  /** `Model.find(filter).sort({ createdAt: -1 })`: the matching documents,
      newest first. */
  function SelectNewestFirst<T>(t: Table<T>, p: (Id, T) -> bool): (ids: seq<Id>)
    requires Wf(t)
    ensures forall id :: id in ids <==> id in t.rows && p(id, t.rows[id])
    ensures NoDup(ids)
    ensures forall i, j :: 0 <= i < j < |ids| ==> IndexOf(t.order, ids[i]) > IndexOf(t.order, ids[j])
  {
    var selected := Select(t, p);
    ReverseKeepsElements(selected);
    var r := Reverse(selected);
    assert forall i :: 0 <= i < |r| ==> r[i] == selected[|selected| - 1 - i];
    r
  }

  /** `.limit(n)`: at most the first `n` results. */
  function Take(s: seq<Id>, n: nat): (r: seq<Id>)
    ensures |r| <= n && |r| <= |s|
    ensures r == s[..|r|]
    ensures |s| <= n ==> r == s
  {
    if |s| <= n then s else s[..n]
  }
}
