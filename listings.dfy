/**
  The canonical listing record and the collapse by `(title, link)` that both scripts
  apply to the records they extract from a page.
 */
module Listings {
  import opened Wrappers

  /** One extracted record: `{"title", "link", "location"}`; the location may be empty. */
  datatype Listing = Listing(title: string, link: string, location: string)

  /** The two near-duplicate scripts whose differences the model keeps apart. */
  datatype Script = Bot | Watch

  /** The key of the collapse dictionary. */
  type Pair = (string, string)

  function PairOf(l: Listing): Pair
  {
    (l.title, l.link)
  }

  ghost predicate Occurs(items: seq<Listing>, k: Pair)
  {
    exists i :: 0 <= i < |items| && PairOf(items[i]) == k
  }

  /** A record that is there, as a one-element list; none, as the empty list. */
  function AsSeq(o: Option<Listing>): (r: seq<Listing>)
    ensures |r| <= 1 && (r == [] <==> o.None?) && (o.Some? ==> r[0] == o.value)
  {
    match o
    case Some(l) => [l]
    case None => []
  }

  /**
    The key order of the dictionary `uniq` after `for it in items: uniq[(title, link)] = it`:
    every pair of `items` once, a new key appended, an overwritten key kept in place.
   */
  function UniqKeys(items: seq<Listing>): (ks: seq<Pair>)
    ensures forall i, j :: 0 <= i < j < |ks| ==> ks[i] != ks[j]
    ensures forall k :: k in ks <==> Occurs(items, k)
  {
    if items == [] then []
    else
      var p := items[..|items| - 1];
      var ks := UniqKeys(p);
      var k := PairOf(items[|items| - 1]);
      assert forall i :: 0 <= i < |p| ==> p[i] == items[i];
      assert forall q :: Occurs(items, q) <==> Occurs(p, q) || q == k;
      if k in ks then ks else ks + [k]
  }

  /** The values of `uniq` by key: the record last written for each pair. */
  function Latest(items: seq<Listing>): (m: map<Pair, Listing>)
    ensures forall k :: k in m <==> k in UniqKeys(items)
    ensures forall k :: k in m ==> PairOf(m[k]) == k
  {
    if items == [] then map[]
    else
      var p := items[..|items| - 1];
      var last := items[|items| - 1];
      Latest(p)[PairOf(last) := last]
  }

  /** `list(uniq.values())`: the collapsed list. */
  function Collapse(items: seq<Listing>): (r: seq<Listing>)
    ensures |r| == |UniqKeys(items)|
    ensures forall j :: 0 <= j < |r| ==> PairOf(r[j]) == UniqKeys(items)[j]
  {
    var ks := UniqKeys(items);
    var m := Latest(items);
    seq(|ks|, j requires 0 <= j < |ks| => m[ks[j]])
  }

  /** One more record: a new pair is appended to the key order, and its value is overwritten. */
  lemma CollapseStep(items: seq<Listing>, i: nat)
    requires i < |items|
    ensures UniqKeys(items[..i + 1]) ==
            if PairOf(items[i]) in Latest(items[..i]) then UniqKeys(items[..i]) else UniqKeys(items[..i]) + [PairOf(items[i])]
    ensures Latest(items[..i + 1]) == Latest(items[..i])[PairOf(items[i]) := items[i]]
  {
    var q := items[..i + 1];
    assert q[..|q| - 1] == items[..i];
    assert q[|q| - 1] == items[i];
  }

  /**
    The collapse loop, with the dictionary kept as its key order and its key-to-value map,
    then `list(uniq.values())`.
   */
  method CollapseByPair(items: seq<Listing>) returns (out: seq<Listing>)
    ensures out == Collapse(items)
  {
    var order: seq<Pair> := [];
    var uniq: map<Pair, Listing> := map[];
    for i := 0 to |items|
      invariant order == UniqKeys(items[..i]) && uniq == Latest(items[..i])
    {
      CollapseStep(items, i);
      var k := PairOf(items[i]);
      if k !in uniq {
        order := order + [k];
      }
      uniq := uniq[k := items[i]];
    }
    assert items[..|items|] == items;
    assert forall k :: k in order ==> k in uniq;
    out := seq(|order|, j requires 0 <= j < |order| => uniq[order[j]]);
  }

  /** The first index at which `k` occurs, or `|items|` when it does not. */
  function FirstIdx(items: seq<Listing>, k: Pair): (r: nat)
    ensures r <= |items| && (r < |items| ==> PairOf(items[r]) == k)
    ensures forall j :: 0 <= j < r ==> PairOf(items[j]) != k
  {
    if items == [] then 0
    else
      var p := items[..|items| - 1];
      var f := FirstIdx(p, k);
      if f < |p| then f else if PairOf(items[|items| - 1]) == k then |p| else |items|
  }

  /** The last index at which `k` occurs, or -1 when it does not. */
  function LastIdx(items: seq<Listing>, k: Pair): (r: int)
    ensures -1 <= r < |items| && (r >= 0 ==> PairOf(items[r]) == k)
    ensures forall j :: r < j < |items| ==> PairOf(items[j]) != k
  {
    if items == [] then -1
    else if PairOf(items[|items| - 1]) == k then |items| - 1
    else LastIdx(items[..|items| - 1], k)
  }

  /** Extending a list does not move the first occurrence of a pair that already occurs. */
  lemma FirstIdxPrefix(p: seq<Listing>, x: Listing, k: Pair)
    requires FirstIdx(p, k) < |p|
    ensures FirstIdx(p + [x], k) == FirstIdx(p, k)
  {
    assert (p + [x])[..|p|] == p;
  }

  /** The dictionary's keys appear in the order in which the pairs first occur. */
  lemma {:induction false} UniqKeysFirstOrder(items: seq<Listing>)
    ensures forall a, b :: 0 <= a < b < |UniqKeys(items)| ==>
              FirstIdx(items, UniqKeys(items)[a]) < FirstIdx(items, UniqKeys(items)[b])
  {
    if items != [] {
      var p := items[..|items| - 1];
      var x := items[|items| - 1];
      assert items == p + [x];
      UniqKeysFirstOrder(p);
      var ks := UniqKeys(p);
      forall a | 0 <= a < |ks|
        ensures FirstIdx(items, ks[a]) == FirstIdx(p, ks[a]) < |p|
      {
        assert Occurs(p, ks[a]);
        var i :| 0 <= i < |p| && PairOf(p[i]) == ks[a];
        assert FirstIdx(p, ks[a]) <= i;
        FirstIdxPrefix(p, x, ks[a]);
      }
      if PairOf(x) !in ks {
        var k := PairOf(x);
        assert FirstIdx(p, k) == |p|;
        assert FirstIdx(items, k) == |p|;
      }
    }
  }

  /** Each dictionary value is the record of the pair's last occurrence. */
  lemma {:induction false} LatestIsLast(items: seq<Listing>, k: Pair)
    requires k in Latest(items)
    ensures 0 <= LastIdx(items, k) && Latest(items)[k] == items[LastIdx(items, k)]
  {
    var p := items[..|items| - 1];
    var x := items[|items| - 1];
    if PairOf(x) != k {
      LatestIsLast(p, k);
    }
  }

  /**
    The collapse keeps one record per pair: its pairs are pairwise distinct, they are
    exactly the pairs of the input, they come in first-occurrence order, and each
    record is the input's last record with that pair (so it carries the location of
    the last occurrence, because later dictionary writes overwrite earlier ones).
   */
  lemma CollapseSpec(items: seq<Listing>)
    ensures forall a, b :: 0 <= a < b < |Collapse(items)| ==> PairOf(Collapse(items)[a]) != PairOf(Collapse(items)[b])
    ensures forall k :: (exists j :: 0 <= j < |Collapse(items)| && PairOf(Collapse(items)[j]) == k) <==> Occurs(items, k)
    ensures forall a, b :: 0 <= a < b < |Collapse(items)| ==>
              FirstIdx(items, PairOf(Collapse(items)[a])) < FirstIdx(items, PairOf(Collapse(items)[b]))
    ensures forall j :: 0 <= j < |Collapse(items)| ==>
              0 <= LastIdx(items, PairOf(Collapse(items)[j])) && Collapse(items)[j] == items[LastIdx(items, PairOf(Collapse(items)[j]))]
  {
    var r := Collapse(items);
    var ks := UniqKeys(items);
    UniqKeysFirstOrder(items);
    forall k ensures (exists j :: 0 <= j < |r| && PairOf(r[j]) == k) <==> Occurs(items, k) {
      if Occurs(items, k) {
        assert k in ks;
        var j :| 0 <= j < |ks| && ks[j] == k;
        assert PairOf(r[j]) == k;
      }
    }
    forall j | 0 <= j < |r|
      ensures 0 <= LastIdx(items, PairOf(r[j])) && r[j] == items[LastIdx(items, PairOf(r[j]))]
    {
      LatestIsLast(items, ks[j]);
    }
  }
}
