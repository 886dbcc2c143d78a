/**
 * `BaseRepository<T>`: an in-memory, sequence-backed store of records keyed by
 * their string `id`, with typed failures `ItemAlreadyExists` and `ItemNotFound`.
 */
module Repository {
  import opened Wrappers

  /** A stored record (`IDBModel`): its `id` and the rest of its fields. */
  datatype Item<V> = Item(id: string, fields: V)

  /** `DBErrorType`. */
  datatype DBError = ItemAlreadyExists | ItemNotFound

  /** No two stored records share an id. */
  ghost predicate DistinctIds<V>(items: seq<Item<V>>)
  {
    forall i, j :: 0 <= i < j < |items| ==> items[i].id != items[j].id
  }

  /** `findIndex((i) => i.id === id)`: the first position holding `id`, or -1. */
  function FindIndex<V>(items: seq<Item<V>>, id: string): (k: int)
    ensures -1 <= k < |items|
    ensures k == -1 <==> forall i :: 0 <= i < |items| ==> items[i].id != id
    ensures k >= 0 ==> items[k].id == id && forall i :: 0 <= i < k ==> items[i].id != id
    decreases |items|
  {
    if |items| == 0 then -1
    else if items[0].id == id then 0
    else
      var k := FindIndex(items[1..], id);
      if k == -1 then -1 else k + 1
  }

  /** `GetById`: the first record with the id, or `undefined`. */
  function GetById<V>(items: seq<Item<V>>, id: string): (r: Option<Item<V>>)
    ensures r.None? <==> forall i :: 0 <= i < |items| ==> items[i].id != id
    ensures r.Some? ==> exists k :: 0 <= k < |items| && items[k] == r.value && r.value.id == id
                                    && forall i :: 0 <= i < k ==> items[i].id != id
  {
    var k := FindIndex(items, id);
    if k == -1 then None else Some(items[k])
  }

  /** `items.filter(filter)`. */
  function Filter<V>(items: seq<Item<V>>, filter: Item<V> -> bool): (r: seq<Item<V>>)
    ensures |r| <= |items|
    ensures forall x :: x in r ==> x in items && filter(x)
    ensures forall x :: x in items && filter(x) ==> x in r
    decreases |items|
  {
    if |items| == 0 then []
    else
      var rest := Filter(items[1..], filter);
      assert forall x :: x in items[1..] ==> x in items;
      assert forall x :: x in items ==> x == items[0] || x in items[1..];
      if filter(items[0]) then [items[0]] + rest else rest
  }

  /** A single record is kept exactly when it matches. */
  lemma FilterSingleton<V>(x: Item<V>, filter: Item<V> -> bool)
    ensures Filter([x], filter) == if filter(x) then [x] else []
  {
    assert [x][1..] == [];
  }

  /**
   * Filtering distributes over concatenation: matches keep their order and
   * their multiplicity, those from `a` before those from `b`.
   */
  lemma {:induction false} FilterAppend<V>(a: seq<Item<V>>, b: seq<Item<V>>, filter: Item<V> -> bool)
    ensures Filter(a + b, filter) == Filter(a, filter) + Filter(b, filter)
    decreases |a|
  {
    if |a| == 0 {
      assert a + b == b;
    } else {
      var ab := a + b;
      var head := if filter(a[0]) then [a[0]] else [];
      assert ab[0] == a[0];
      assert ab[1..] == a[1..] + b;
      assert Filter(ab, filter) == head + Filter(a[1..] + b, filter);
      assert Filter(a, filter) == head + Filter(a[1..], filter);
      FilterAppend(a[1..], b, filter);
      assert head + (Filter(a[1..], filter) + Filter(b, filter)) == (head + Filter(a[1..], filter)) + Filter(b, filter);
    }
  }

  /** `Array.prototype.slice(start, end)`: negative positions count from the end, all are clamped. */
  function Slice<T>(s: seq<T>, start: int, end: int): (r: seq<T>)
    ensures 0 <= start <= end ==> r == s[(if start < |s| then start else |s|)..(if end < |s| then end else |s|)]
    ensures 0 <= end <= start ==> r == []
    ensures |r| <= |s|
  {
    var len := |s|;
    var from := if start < 0 then (if len + start > 0 then len + start else 0) else (if start < len then start else len);
    var to := if end < 0 then (if len + end > 0 then len + end else 0) else (if end < len then end else len);
    if from >= to then [] else s[from..to]
  }

  /** A negative start counts back from the end of the list, stopping at its front. */
  lemma SliceNegativeStart<T>(s: seq<T>, start: int, end: int)
    requires start < 0
    ensures Slice(s, start, end) == Slice(s, if |s| + start > 0 then |s| + start else 0, end)
  {
  }

  /** A negative end counts back from the end of the list, stopping at its front. */
  lemma SliceNegativeEnd<T>(s: seq<T>, start: int, end: int)
    requires end < 0
    ensures Slice(s, start, end) == Slice(s, start, if |s| + end > 0 then |s| + end else 0)
  {
  }

  /** `Query(filter, skip = 0, limit = 10)`: the matches from `skip` on, at most `limit` of them. */
  function Query<V>(items: seq<Item<V>>, filter: Item<V> -> bool, skip: Option<int>, limit: Option<int>): (r: seq<Item<V>>)
    ensures forall x :: x in r ==> x in items && filter(x)
    ensures var s := if skip.Some? then skip.value else 0;
            var l := if limit.Some? then limit.value else 10;
            var matches := Filter(items, filter);
      0 <= s && 0 <= l ==>
        && |r| <= l
        && r == matches[(if s < |matches| then s else |matches|)..(if s + l < |matches| then s + l else |matches|)]
    ensures var s := if skip.Some? then skip.value else 0;
            var l := if limit.Some? then limit.value else 10;
      0 <= s + l <= s ==> r == []
  {
    var s := if skip.Some? then skip.value else 0;
    var l := if limit.Some? then limit.value else 10;
    Slice(Filter(items, filter), s, s + l)
  }

  /**
   * A negative `skip` counts back from the end of the matches: the query is the one
   * that starts there (or at the front) and ends where the original one ends.
   */
  lemma QueryNegativeSkip<V>(items: seq<Item<V>>, filter: Item<V> -> bool, skip: int, limit: Option<int>)
    requires skip < 0
    ensures var l := if limit.Some? then limit.value else 10;
            var n := |Filter(items, filter)|;
            var from := if n + skip > 0 then n + skip else 0;
      Query(items, filter, Some(skip), limit) == Query(items, filter, Some(from), Some(skip + l - from))
  {
    var l := if limit.Some? then limit.value else 10;
    var m := Filter(items, filter);
    var from := if |m| + skip > 0 then |m| + skip else 0;
    assert Query(items, filter, Some(skip), limit) == Slice(m, skip, skip + l);
    assert Query(items, filter, Some(from), Some(skip + l - from)) == Slice(m, from, skip + l);
    SliceNegativeStart(m, skip, skip + l);
  }

  /**
   * When `skip + limit` is negative, the end counts back from the end of the matches:
   * the query is the one from `skip` to that point (or to the front).
   */
  lemma QueryNegativeEnd<V>(items: seq<Item<V>>, filter: Item<V> -> bool, skip: Option<int>, limit: Option<int>)
    requires (if skip.Some? then skip.value else 0) + (if limit.Some? then limit.value else 10) < 0
    ensures var s := if skip.Some? then skip.value else 0;
            var l := if limit.Some? then limit.value else 10;
            var n := |Filter(items, filter)|;
            var to := if n + s + l > 0 then n + s + l else 0;
      Query(items, filter, skip, limit) == Query(items, filter, Some(s), Some(to - s))
  {
    var s := if skip.Some? then skip.value else 0;
    var l := if limit.Some? then limit.value else 10;
    var m := Filter(items, filter);
    var to := if |m| + s + l > 0 then |m| + s + l else 0;
    assert Query(items, filter, skip, limit) == Slice(m, s, s + l);
    assert Query(items, filter, Some(s), Some(to - s)) == Slice(m, s, to);
    SliceNegativeEnd(m, s, s + l);
  }

  /** With the defaults, a query yields the first ten matches. */
  lemma QueryDefaultsFirstTen<V>(items: seq<Item<V>>, filter: Item<V> -> bool)
    ensures var matches := Filter(items, filter);
      Query(items, filter, None, None) == matches[..if |matches| < 10 then |matches| else 10]
  {
  }

  /** `Create`: appends a record whose id is new; an existing id fails and changes nothing. */
  function Create<V>(items: seq<Item<V>>, item: Item<V>): (r: Result<(seq<Item<V>>, Item<V>), DBError>)
    ensures r.Err? <==> exists i :: 0 <= i < |items| && items[i].id == item.id
    ensures r.Err? ==> r.error == ItemAlreadyExists
    ensures r.Ok? ==> r.value.0 == items + [item] && r.value.1 == item
  {
    if GetById(items, item.id).Some? then Err(ItemAlreadyExists)
    else Ok((items + [item], item))
  }

  /** `Update`: replaces the first record with the item's id in place; a missing id fails. */
  function Update<V>(items: seq<Item<V>>, item: Item<V>): (r: Result<(seq<Item<V>>, Item<V>), DBError>)
    ensures r.Err? <==> forall i :: 0 <= i < |items| ==> items[i].id != item.id
    ensures r.Err? ==> r.error == ItemNotFound
    ensures r.Ok? ==>
      && r.value.1 == item
      && |r.value.0| == |items|
      && exists k :: 0 <= k < |items| && items[k].id == item.id && r.value.0[k] == item
           && (forall i :: 0 <= i < k ==> items[i].id != item.id)
           && (forall i :: 0 <= i < |items| && i != k ==> r.value.0[i] == items[i])
  {
    var k := FindIndex(items, item.id);
    if k != -1 then Ok((items[k := item], item))
    else Err(ItemNotFound)
  }

  /** `Delete`: removes the first record with the id, keeping the others in order; a missing id fails. */
  function Delete<V>(items: seq<Item<V>>, id: string): (r: Result<seq<Item<V>>, DBError>)
    ensures r.Err? <==> forall i :: 0 <= i < |items| ==> items[i].id != id
    ensures r.Err? ==> r.error == ItemNotFound
    ensures r.Ok? ==> exists k :: 0 <= k < |items| && items[k].id == id
                                 && (forall i :: 0 <= i < k ==> items[i].id != id)
                                 && r.value == items[..k] + items[k + 1..]
  {
    var k := FindIndex(items, id);
    if k != -1 then Ok(items[..k] + items[k + 1..])
    else Err(ItemNotFound)
  }

  /** Create, update and delete keep ids pairwise distinct. */
  lemma CreatePreservesDistinct<V>(items: seq<Item<V>>, item: Item<V>)
    requires DistinctIds(items) && Create(items, item).Ok?
    ensures DistinctIds(Create(items, item).value.0)
  {
  }

  lemma UpdatePreservesDistinct<V>(items: seq<Item<V>>, item: Item<V>)
    requires DistinctIds(items) && Update(items, item).Ok?
    ensures DistinctIds(Update(items, item).value.0)
  {
  }

  lemma DeletePreservesDistinct<V>(items: seq<Item<V>>, id: string)
    requires DistinctIds(items) && Delete(items, id).Ok?
    ensures DistinctIds(Delete(items, id).value)
  {
    var k := FindIndex(items, id);
    var r := Delete(items, id).value;
    assert forall i :: 0 <= i < |r| ==> r[i] == (if i < k then items[i] else items[i + 1]);
  }

  /** What was created or updated is what `GetById` then finds. */
  lemma CreateThenGet<V>(items: seq<Item<V>>, item: Item<V>)
    requires Create(items, item).Ok?
    ensures GetById(Create(items, item).value.0, item.id) == Some(item)
  {
    var r := Create(items, item).value.0;
    assert forall i :: 0 <= i < |items| ==> r[i].id != item.id;
    assert r[|items|] == item;
  }

  lemma UpdateThenGet<V>(items: seq<Item<V>>, item: Item<V>)
    requires Update(items, item).Ok?
    ensures GetById(Update(items, item).value.0, item.id) == Some(item)
  {
    var k := FindIndex(items, item.id);
    assert FindIndex(Update(items, item).value.0, item.id) == k;
  }

  /** With distinct ids, a deleted id is no longer found. */
  lemma DeleteThenGet<V>(items: seq<Item<V>>, id: string)
    requires DistinctIds(items) && Delete(items, id).Ok?
    ensures GetById(Delete(items, id).value, id) == None
  {
    var k := FindIndex(items, id);
    var r := Delete(items, id).value;
    assert forall i :: 0 <= i < |r| ==> r[i] == (if i < k then items[i] else items[i + 1]);
  }

  /** The repository object: one mutable list of records. */
  class BaseRepository<V(==)> {
    var database: seq<Item<V>>

    constructor()
      ensures database == []
    {
      database := [];
    }

    method CreateItem(item: Item<V>) returns (r: Result<Item<V>, DBError>)
      modifies this
      ensures Create(old(database), item).Ok? ==> r == Ok(item) && database == Create(old(database), item).value.0
      ensures Create(old(database), item).Err? ==> r == Err(ItemAlreadyExists) && database == old(database)
    {
      match Create(database, item)
      case Ok((items, created)) => database := items; r := Ok(created);
      case Err(e) => r := Err(e);
    }

    method UpdateItem(item: Item<V>) returns (r: Result<Item<V>, DBError>)
      modifies this
      ensures Update(old(database), item).Ok? ==> r == Ok(item) && database == Update(old(database), item).value.0
      ensures Update(old(database), item).Err? ==> r == Err(ItemNotFound) && database == old(database)
    {
      match Update(database, item)
      case Ok((items, updated)) => database := items; r := Ok(updated);
      case Err(e) => r := Err(e);
    }

    method DeleteItem(id: string) returns (r: Outcome)
      modifies this
      ensures Delete(old(database), id).Ok? ==> r == Done && database == Delete(old(database), id).value
      ensures Delete(old(database), id).Err? ==> r == Failed(ItemNotFound) && database == old(database)
    {
      match Delete(database, id)
      case Ok(items) => database := items; r := Done;
      case Err(e) => r := Failed(e);
    }
  }

  /** `Delete` returns nothing or throws. */
  datatype Outcome = Done | Failed(error: DBError)
}
