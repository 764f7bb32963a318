/**
  The persistent seen-store: a table of keys, one per `(title, link)` pair ever
  reported, that makes each filtered record new at most once across runs. The key is
  the SHA-256 hex digest of `title + separator + link`; the digest itself is a
  parameter `hash` of the model.
 */
module Seen {
  import opened Listings

  /** rb_bot.py joins title and link with "|", rb_watch_rbx.py with "||". */
  function Separator(s: Script): string
  {
    match s
    case Bot => "|"
    case Watch => "||"
  }

  /** The text that is hashed into the key. */
  function KeyText(s: Script, l: Listing): string
  {
    l.title + Separator(s) + l.link
  }

  function Key(s: Script, l: Listing, hash: string -> string): string
  {
    hash(KeyText(s, l))
  }

  /** The keys of a batch of records. */
  function KeySet(s: Script, items: seq<Listing>, hash: string -> string): set<string>
  {
    if items == [] then {} else KeySet(s, items[..|items| - 1], hash) + {Key(s, items[|items| - 1], hash)}
  }

  /**
    The records the marking loop reports as new, given the keys stored before the run:
    a record is new when its key is neither stored nor the key of an earlier record of
    the batch (that one inserted it).
   */
  function NewItems(s: Script, seen: set<string>, items: seq<Listing>, hash: string -> string): seq<Listing>
  {
    if items == [] then []
    else
      var p := items[..|items| - 1];
      var last := items[|items| - 1];
      NewItems(s, seen, p, hash) + (if Key(s, last, hash) in seen + KeySet(s, p, hash) then [] else [last])
  }

  /** The positions of the batch whose records are reported, in order. */
  function NewIdx(s: Script, seen: set<string>, items: seq<Listing>, hash: string -> string): seq<int>
  {
    if items == [] then []
    else
      var p := items[..|items| - 1];
      NewIdx(s, seen, p, hash) + (if Key(s, items[|items| - 1], hash) in seen + KeySet(s, p, hash) then [] else [|items| - 1])
  }

  /** The `seen` table: the set of keys stored so far. */
  class SeenStore {
    var keys: set<string>

    /** The table as `setup_db` finds it on disk. */
    constructor (stored: set<string>)
      ensures keys == stored
    {
      keys := stored;
    }

    /** `SELECT 1 FROM seen WHERE k=?` finds a row. */
    predicate Has(k: string)
      reads this
    {
      k in keys
    }

    /** `INSERT INTO seen(k) VALUES(?)`. */
    method Insert(k: string)
      modifies this
      ensures keys == old(keys) + {k}
    {
      keys := keys + {k};
    }

    /**
      The marking loop: for each filtered record, look its key up and, if it is absent,
      insert it and report the record as new. The store ends up holding the batch's keys.
     */
    method MarkNew(s: Script, items: seq<Listing>, hash: string -> string) returns (added: seq<Listing>)
      modifies this
      ensures keys == old(keys) + KeySet(s, items, hash)
      ensures added == NewItems(s, old(keys), items, hash)
    {
      added := [];
      for i := 0 to |items|
        invariant keys == old(keys) + KeySet(s, items[..i], hash)
        invariant added == NewItems(s, old(keys), items[..i], hash)
      {
        assert items[..i + 1][..i] == items[..i];
        var k := Key(s, items[i], hash);
        if !Has(k) {
          Insert(k);
          added := added + [items[i]];
        }
      }
      assert items[..|items|] == items;
    }
  }

  /** A key belongs to the batch exactly when some record of the batch has it. */
  lemma {:induction false} KeySetSpec(s: Script, items: seq<Listing>, hash: string -> string)
    ensures forall k :: k in KeySet(s, items, hash) <==> exists i :: 0 <= i < |items| && Key(s, items[i], hash) == k
  {
    if items != [] {
      var n := |items| - 1;
      var p := items[..n];
      KeySetSpec(s, p, hash);
      forall k | k in KeySet(s, items, hash) ensures exists i :: 0 <= i < |items| && Key(s, items[i], hash) == k {
        if k in KeySet(s, p, hash) {
          var i :| 0 <= i < |p| && Key(s, p[i], hash) == k;
          assert items[i] == p[i];
        } else {
          assert Key(s, items[n], hash) == k;
        }
      }
      forall k, i | 0 <= i < |items| && Key(s, items[i], hash) == k ensures k in KeySet(s, items, hash) {
        if i < n {
          assert p[i] == items[i];
        }
      }
    }
  }

  /**
    What a run reports: records of the batch whose keys were not stored, each key once;
    together they carry every key of the batch that was not stored.
   */
  lemma NewItemsSpec(s: Script, seen: set<string>, items: seq<Listing>, hash: string -> string)
    ensures forall x :: x in NewItems(s, seen, items, hash) ==> x in items && Key(s, x, hash) !in seen
    ensures forall i, j :: 0 <= i < j < |NewItems(s, seen, items, hash)| ==>
              Key(s, NewItems(s, seen, items, hash)[i], hash) != Key(s, NewItems(s, seen, items, hash)[j], hash)
    ensures seen + KeySet(s, NewItems(s, seen, items, hash), hash) == seen + KeySet(s, items, hash)
    ensures KeySet(s, NewItems(s, seen, items, hash), hash) !! seen
  {
    var r := NewItems(s, seen, items, hash);
    NewItemsFromBatch(s, seen, items, hash);
    NewItemsDistinct(s, seen, items, hash);
    NewItemsKeys(s, seen, items, hash);
    KeySetSpec(s, r, hash);
    forall k | k in KeySet(s, r, hash) ensures k !in seen {
      var i :| 0 <= i < |r| && Key(s, r[i], hash) == k;
      assert r[i] in r;
    }
  }

  /**
    The loop reports in batch order: the reported records are the batch's records at
    strictly increasing positions, and a record is reported exactly when its key was not
    stored and no earlier record of the batch has the same key.
   */
  lemma NewItemsInOrder(s: Script, seen: set<string>, items: seq<Listing>, hash: string -> string)
    ensures |NewIdx(s, seen, items, hash)| == |NewItems(s, seen, items, hash)|
    ensures forall k :: 0 <= k < |NewItems(s, seen, items, hash)| ==>
              0 <= NewIdx(s, seen, items, hash)[k] < |items| &&
              NewItems(s, seen, items, hash)[k] == items[NewIdx(s, seen, items, hash)[k]]
    ensures forall a, b :: 0 <= a < b < |NewIdx(s, seen, items, hash)| ==>
              NewIdx(s, seen, items, hash)[a] < NewIdx(s, seen, items, hash)[b]
    ensures forall i :: 0 <= i < |items| ==>
              (i in NewIdx(s, seen, items, hash) <==>
                 Key(s, items[i], hash) !in seen && forall j :: 0 <= j < i ==> Key(s, items[j], hash) != Key(s, items[i], hash))
  {
    NewPositions(s, seen, items, hash);
    NewChosen(s, seen, items, hash);
  }

  /** The reported records sit at strictly increasing positions of the batch. */
  lemma {:induction false} NewPositions(s: Script, seen: set<string>, items: seq<Listing>, hash: string -> string)
    ensures |NewIdx(s, seen, items, hash)| == |NewItems(s, seen, items, hash)|
    ensures forall k :: 0 <= k < |NewItems(s, seen, items, hash)| ==>
              0 <= NewIdx(s, seen, items, hash)[k] < |items| &&
              NewItems(s, seen, items, hash)[k] == items[NewIdx(s, seen, items, hash)[k]]
    ensures forall a, b :: 0 <= a < b < |NewIdx(s, seen, items, hash)| ==>
              NewIdx(s, seen, items, hash)[a] < NewIdx(s, seen, items, hash)[b]
  {
    if items != [] {
      var n := |items| - 1;
      var p := items[..n];
      NewPositions(s, seen, p, hash);
      var r, idx := NewItems(s, seen, items, hash), NewIdx(s, seen, items, hash);
      var rp, ip := NewItems(s, seen, p, hash), NewIdx(s, seen, p, hash);
      if Key(s, items[n], hash) in seen + KeySet(s, p, hash) {
        assert r == rp && idx == ip;
      } else {
        assert r == rp + [items[n]] && idx == ip + [n];
      }
      forall k | 0 <= k < |r| ensures 0 <= idx[k] < |items| && r[k] == items[idx[k]] {
        if k < |rp| {
          assert r[k] == rp[k] && idx[k] == ip[k];
          assert p[idx[k]] == items[idx[k]];
        }
      }
    }
  }

  /** A position is reported exactly when its key is neither stored nor held by an earlier record. */
  lemma {:induction false} NewChosen(s: Script, seen: set<string>, items: seq<Listing>, hash: string -> string)
    ensures forall i :: 0 <= i < |items| ==>
              (i in NewIdx(s, seen, items, hash) <==>
                 Key(s, items[i], hash) !in seen && forall j :: 0 <= j < i ==> Key(s, items[j], hash) != Key(s, items[i], hash))
  {
    if items != [] {
      var n := |items| - 1;
      var p := items[..n];
      var idx, ip := NewIdx(s, seen, items, hash), NewIdx(s, seen, p, hash);
      var k := Key(s, items[n], hash);
      assert idx == ip + (if k in seen + KeySet(s, p, hash) then [] else [n]);
      assert n !in ip by {
        NewIdxBelow(s, seen, p, hash);
      }
      assert n in idx <==> k !in seen && forall j :: 0 <= j < n ==> Key(s, items[j], hash) != k by {
        KeySetSpec(s, p, hash);
        assert forall j :: 0 <= j < n ==> p[j] == items[j];
      }
      forall i | 0 <= i < n
        ensures i in idx <==> Key(s, items[i], hash) !in seen && forall j :: 0 <= j < i ==> Key(s, items[j], hash) != Key(s, items[i], hash)
      {
        assert i in ip <==> Key(s, p[i], hash) !in seen && forall j :: 0 <= j < i ==> Key(s, p[j], hash) != Key(s, p[i], hash) by {
          NewChosen(s, seen, p, hash);
        }
        assert forall j :: 0 <= j <= i ==> p[j] == items[j];
      }
    }
  }

  /** Every reported position is a position of the batch. */
  lemma {:induction false} NewIdxBelow(s: Script, seen: set<string>, items: seq<Listing>, hash: string -> string)
    ensures forall x :: x in NewIdx(s, seen, items, hash) ==> 0 <= x < |items|
  {
    if items != [] {
      NewIdxBelow(s, seen, items[..|items| - 1], hash);
    }
  }

  /** Reported records come from the batch and their keys were not stored. */
  lemma {:induction false} NewItemsFromBatch(s: Script, seen: set<string>, items: seq<Listing>, hash: string -> string)
    ensures forall x :: x in NewItems(s, seen, items, hash) ==> x in items && Key(s, x, hash) !in seen
  {
    if items != [] {
      var p, last := items[..|items| - 1], items[|items| - 1];
      NewItemsFromBatch(s, seen, p, hash);
      assert forall x :: x in p ==> x in items;
      if Key(s, last, hash) !in seen + KeySet(s, p, hash) {
        assert NewItems(s, seen, items, hash) == NewItems(s, seen, p, hash) + [last];
      } else {
        assert NewItems(s, seen, items, hash) == NewItems(s, seen, p, hash);
      }
    }
  }

  /** Stored keys and reported keys together are stored keys and batch keys together. */
  lemma {:induction false} NewItemsKeys(s: Script, seen: set<string>, items: seq<Listing>, hash: string -> string)
    ensures seen + KeySet(s, NewItems(s, seen, items, hash), hash) == seen + KeySet(s, items, hash)
  {
    if items != [] {
      var p, last := items[..|items| - 1], items[|items| - 1];
      var k := Key(s, last, hash);
      var r := NewItems(s, seen, p, hash);
      assert KeySet(s, items, hash) == KeySet(s, p, hash) + {k};
      NewItemsKeys(s, seen, p, hash);
      if k !in seen + KeySet(s, p, hash) {
        assert NewItems(s, seen, items, hash) == r + [last];
        assert KeySet(s, r + [last], hash) == KeySet(s, r, hash) + {k} by {
          assert (r + [last])[..|r|] == r;
        }
      } else {
        assert NewItems(s, seen, items, hash) == r;
      }
    }
  }

  /** No two reported records share a key. */
  lemma {:induction false} NewItemsDistinct(s: Script, seen: set<string>, items: seq<Listing>, hash: string -> string)
    ensures forall i, j :: 0 <= i < j < |NewItems(s, seen, items, hash)| ==>
              Key(s, NewItems(s, seen, items, hash)[i], hash) != Key(s, NewItems(s, seen, items, hash)[j], hash)
  {
    if items != [] {
      var p, last := items[..|items| - 1], items[|items| - 1];
      NewItemsDistinct(s, seen, p, hash);
      var r := NewItems(s, seen, p, hash);
      if Key(s, last, hash) !in seen + KeySet(s, p, hash) {
        NewItemsKeys(s, seen, p, hash);
        KeySetSpec(s, r, hash);
        var r' := r + [last];
        assert NewItems(s, seen, items, hash) == r';
        forall i, j | 0 <= i < j < |r'| ensures Key(s, r'[i], hash) != Key(s, r'[j], hash) {
          if j == |r| {
            assert Key(s, r[i], hash) in KeySet(s, r, hash);
          } else {
            assert r'[i] == r[i] && r'[j] == r[j];
          }
        }
      } else {
        assert NewItems(s, seen, items, hash) == r;
      }
    }
  }

  /** A second run over the same batch, against the store the first run left, reports nothing. */
  lemma {:induction false} SecondRunEmpty(s: Script, seen: set<string>, items: seq<Listing>, hash: string -> string)
    ensures NewItems(s, seen + KeySet(s, items, hash), items, hash) == []
  {
    if items != [] {
      var p := items[..|items| - 1];
      SecondRunEmptyPrefix(s, seen + KeySet(s, items, hash), p, hash);
    }
  }

  /** A batch whose keys are all stored reports nothing. */
  lemma {:induction false} SecondRunEmptyPrefix(s: Script, seen: set<string>, items: seq<Listing>, hash: string -> string)
    requires KeySet(s, items, hash) <= seen
    ensures NewItems(s, seen, items, hash) == []
  {
    if items != [] {
      SecondRunEmptyPrefix(s, seen, items[..|items| - 1], hash);
    }
  }

  /**
    A record is reported at most once across two runs: nothing the second run reports
    has the key of something the first run reported.
   */
  lemma AtMostOnceAcrossRuns(s: Script, seen: set<string>, first: seq<Listing>, second: seq<Listing>, hash: string -> string)
    ensures KeySet(s, NewItems(s, seen, first, hash), hash) !!
            KeySet(s, NewItems(s, seen + KeySet(s, first, hash), second, hash), hash)
  {
    NewItemsSpec(s, seen, first, hash);
    NewItemsSpec(s, seen + KeySet(s, first, hash), second, hash);
  }

  /**
    rb_bot.py's "|" makes `("a|b", "c")` and `("a", "b|c")` hash the same text, so the
    second is never reported once the first has been; "||" keeps these two apart.
   */
  lemma SeparatorCollision()
    ensures KeyText(Bot, Listing("a|b", "c", "")) == KeyText(Bot, Listing("a", "b|c", ""))
    ensures KeyText(Watch, Listing("a|b", "c", "")) != KeyText(Watch, Listing("a", "b|c", ""))
  {
    assert KeyText(Watch, Listing("a|b", "c", ""))[1] == '|';
    assert KeyText(Watch, Listing("a", "b|c", ""))[1] == '|';
    assert KeyText(Watch, Listing("a|b", "c", ""))[2] == 'b';
  }

  /** The colliding record is dropped by rb_bot.py even on an empty store. */
  lemma CollisionHidesSecond(hash: string -> string)
    ensures NewItems(Bot, {}, [Listing("a|b", "c", ""), Listing("a", "b|c", "")], hash) == [Listing("a|b", "c", "")]
  {
    var items := [Listing("a|b", "c", ""), Listing("a", "b|c", "")];
    SeparatorCollision();
    assert items[..1] == [Listing("a|b", "c", "")];
    assert items[..1][..0] == [];
    assert KeySet(Bot, items[..1], hash) == {Key(Bot, items[0], hash)};
  }
}
