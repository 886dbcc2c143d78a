/**
 * `params.sort((a, b) => a.index - b.index)`: a stable sort of parameter
 * entries by their declared position (`Array.prototype.sort` is stable).
 */
module ParamOrder {
  import opened Metadata

  /** Ascending by index. */
  predicate SortedByIndex(s: seq<ParamEntry>)
  {
    forall i, j :: 0 <= i < j < |s| ==> s[i].index <= s[j].index
  }

  /** The entries with index `k`, in their order in `s`. */
  function WithIndex(s: seq<ParamEntry>, k: nat): seq<ParamEntry>
  {
    if |s| == 0 then []
    else (if s[0].index == k then [s[0]] else []) + WithIndex(s[1..], k)
  }

  /** Places `x` before the first entry whose index is not smaller than its own. */
  function Insert(x: ParamEntry, s: seq<ParamEntry>): (r: seq<ParamEntry>)
    requires SortedByIndex(s)
    ensures |r| == |s| + 1
    ensures forall e :: e in r <==> e in s || e == x
    ensures SortedByIndex(r)
    ensures multiset(r) == multiset(s) + multiset{x}
    decreases |s|
  {
    if |s| == 0 || x.index <= s[0].index then [x] + s
    else
      var rest := Insert(x, s[1..]);
      assert s == [s[0]] + s[1..];
      assert forall e :: e in rest ==> s[0].index <= e.index;
      [s[0]] + rest
  }

  /** The stable sort by index. */
  function SortByIndex(s: seq<ParamEntry>): (r: seq<ParamEntry>)
    ensures SortedByIndex(r)
    ensures multiset(r) == multiset(s)
    ensures |r| == |s|
    decreases |s|
  {
    if |s| == 0 then []
    else
      var r := Insert(s[0], SortByIndex(s[1..]));
      assert s == [s[0]] + s[1..];
      assert |r| == |multiset(r)|;
      r
  }

  /** Inserting `x` adds it in front of the entries sharing its index and moves nothing else. */
  lemma {:induction false} InsertStable(x: ParamEntry, s: seq<ParamEntry>, k: nat)
    requires SortedByIndex(s)
    ensures WithIndex(Insert(x, s), k) == (if x.index == k then [x] else []) + WithIndex(s, k)
    decreases |s|
  {
    var xs: seq<ParamEntry> := if x.index == k then [x] else [];
    if |s| == 0 || x.index <= s[0].index {
      assert ([x] + s)[1..] == s;
      assert WithIndex([x] + s, k) == xs + WithIndex(s, k);
    } else {
      var rest := Insert(x, s[1..]);
      var head: seq<ParamEntry> := if s[0].index == k then [s[0]] else [];
      InsertStable(x, s[1..], k);
      assert WithIndex(rest, k) == xs + WithIndex(s[1..], k);
      assert ([s[0]] + rest)[1..] == rest;
      assert WithIndex([s[0]] + rest, k) == head + WithIndex(rest, k);
      assert WithIndex(s, k) == head + WithIndex(s[1..], k);
      assert head + (xs + WithIndex(s[1..], k)) == xs + (head + WithIndex(s[1..], k)) by {
        assert x.index != s[0].index;
        assert xs == [] || head == [];
      }
    }
  }

  /** The sort is stable: entries sharing an index keep their relative order. */
  lemma {:induction false} SortStable(s: seq<ParamEntry>, k: nat)
    ensures WithIndex(SortByIndex(s), k) == WithIndex(s, k)
    decreases |s|
  {
    if |s| > 0 {
      SortStable(s[1..], k);
      InsertStable(s[0], SortByIndex(s[1..]), k);
    }
  }

  /** A list already in index order is left as it is. */
  lemma {:induction false} SortKeepsSorted(s: seq<ParamEntry>)
    requires SortedByIndex(s)
    ensures SortByIndex(s) == s
    decreases |s|
  {
    if |s| > 0 {
      SortKeepsSorted(s[1..]);
      assert SortByIndex(s[1..]) == s[1..];
      if |s| > 1 {
        assert s[0].index <= s[1].index;
      }
      assert Insert(s[0], s[1..]) == [s[0]] + s[1..];
    }
  }
}
