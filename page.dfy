/**
  The search page as both scripts read it: the records of the embedded `__NEXT_DATA__`
  document when it yields any, otherwise the item anchors; then the collapse by
  `(title, link)`. rb_bot.py also reads a result total off the same page.
 */
module Page {
  import opened Wrappers
  import opened Json
  import opened Text
  import opened Listings
  import opened Extract

  /**
    One `<a>` element: its href (`a.get("href") or ""`), its text (`get_text(" ", strip=True)`)
    and the "City, ST" text found in its parent's text ("" when there is none).
   */
  datatype Anchor = Anchor(href: string, text: string, nearby: string)

  /**
    What the page offers: the parsed `__NEXT_DATA__` document (None when the script tag is
    missing or empty, or its text does not parse), the anchors in document order, and the
    numbers captured by the "Mostrando a - b de N resultados" and "Próximos (N)" phrases.
   */
  datatype Page = Page(nextData: Option<Json>, anchors: seq<Anchor>, showing: Option<nat>, upcoming: Option<nat>)

  /** The path fragments of `/(item|equipment|auction|lot)/|/inventory/|/cp/`. */
  const ItemFragments: seq<string> := ["/item/", "/equipment/", "/auction/", "/lot/", "/inventory/", "/cp/"]

  /** The href regex, searched case-insensitively: some fragment occurs in the lower-cased href. */
  predicate ItemPath(href: string)
  {
    exists i :: 0 <= i < |ItemFragments| && Contains(Lower(href), ItemFragments[i])
  }

  /** An anchor the fallback loop keeps: non-empty href and text, and an item path. */
  predicate Accepts(a: Anchor)
  {
    a.href != "" && a.text != "" && ItemPath(a.href)
  }

  /** The record of a kept anchor: the text as it is, the joined href, the nearby place. */
  function AnchorListing(a: Anchor, join: string -> string): Listing
  {
    Listing(a.text, join(a.href), a.nearby)
  }

  /** The records the anchor fallback appends, in anchor order. */
  function AnchorRecords(anchors: seq<Anchor>, join: string -> string): seq<Listing>
  {
    if anchors == [] then []
    else
      var a := anchors[|anchors| - 1];
      AnchorRecords(anchors[..|anchors| - 1], join) + (if Accepts(a) then [AnchorListing(a, join)] else [])
  }

  /** The positions of the anchors the fallback keeps, in order. */
  function AnchorIdx(anchors: seq<Anchor>): seq<int>
  {
    if anchors == [] then []
    else AnchorIdx(anchors[..|anchors| - 1]) + (if Accepts(anchors[|anchors| - 1]) then [|anchors| - 1] else [])
  }

  /** The fallback loop, with its two `continue`s. */
  method FallbackAnchors(anchors: seq<Anchor>, join: string -> string) returns (items: seq<Listing>)
    ensures items == AnchorRecords(anchors, join)
  {
    items := [];
    for i := 0 to |anchors|
      invariant items == AnchorRecords(anchors[..i], join)
    {
      assert anchors[..i + 1][..i] == anchors[..i];
      var a := anchors[i];
      if a.href == "" || a.text == "" {
        continue;
      }
      if !ItemPath(a.href) {
        continue;
      }
      var link := join(a.href);
      items := items + [Listing(a.text, link, a.nearby)];
    }
    assert anchors[..|anchors|] == anchors;
  }

  /**
    The fallback keeps exactly the accepted anchors, in order: the records are those of
    the anchors at strictly increasing positions, one per accepted anchor, and a position
    is among them exactly when its anchor is accepted.
   */
  lemma AnchorRecordsSpec(anchors: seq<Anchor>, join: string -> string)
    ensures |AnchorIdx(anchors)| == |AnchorRecords(anchors, join)| <= |anchors|
    ensures forall k :: 0 <= k < |AnchorRecords(anchors, join)| ==>
              0 <= AnchorIdx(anchors)[k] < |anchors| &&
              AnchorRecords(anchors, join)[k] == AnchorListing(anchors[AnchorIdx(anchors)[k]], join)
    ensures forall a, b :: 0 <= a < b < |AnchorIdx(anchors)| ==> AnchorIdx(anchors)[a] < AnchorIdx(anchors)[b]
    ensures forall i :: 0 <= i < |anchors| ==> (i in AnchorIdx(anchors) <==> Accepts(anchors[i]))
    ensures forall r :: r in AnchorRecords(anchors, join) <==>
              exists i :: 0 <= i < |anchors| && Accepts(anchors[i]) && r == AnchorListing(anchors[i], join)
  {
    AnchorPositions(anchors, join);
    AnchorChosen(anchors);
    AnchorRecordsMembers(anchors, join);
  }

  /** The kept anchors' records sit at strictly increasing anchor positions. */
  lemma {:induction false} AnchorPositions(anchors: seq<Anchor>, join: string -> string)
    ensures |AnchorIdx(anchors)| == |AnchorRecords(anchors, join)| <= |anchors|
    ensures forall k :: 0 <= k < |AnchorRecords(anchors, join)| ==>
              0 <= AnchorIdx(anchors)[k] < |anchors| &&
              AnchorRecords(anchors, join)[k] == AnchorListing(anchors[AnchorIdx(anchors)[k]], join)
    ensures forall a, b :: 0 <= a < b < |AnchorIdx(anchors)| ==> AnchorIdx(anchors)[a] < AnchorIdx(anchors)[b]
  {
    if anchors != [] {
      var n := |anchors| - 1;
      var p := anchors[..n];
      AnchorPositions(p, join);
      var recs, idx := AnchorRecords(anchors, join), AnchorIdx(anchors);
      if Accepts(anchors[n]) {
        assert recs == AnchorRecords(p, join) + [AnchorListing(anchors[n], join)] && idx == AnchorIdx(p) + [n];
      } else {
        assert recs == AnchorRecords(p, join) && idx == AnchorIdx(p);
      }
      forall k | 0 <= k < |recs| ensures 0 <= idx[k] < |anchors| && recs[k] == AnchorListing(anchors[idx[k]], join) {
        if k < |AnchorRecords(p, join)| {
          assert recs[k] == AnchorRecords(p, join)[k] && idx[k] == AnchorIdx(p)[k];
          assert p[idx[k]] == anchors[idx[k]];
        }
      }
    }
  }

  /** An anchor position is kept exactly when its anchor is accepted. */
  lemma {:induction false} AnchorChosen(anchors: seq<Anchor>)
    ensures forall i :: 0 <= i < |anchors| ==> (i in AnchorIdx(anchors) <==> Accepts(anchors[i]))
  {
    if anchors != [] {
      var n := |anchors| - 1;
      var p := anchors[..n];
      var idx := AnchorIdx(anchors);
      assert idx == AnchorIdx(p) + (if Accepts(anchors[n]) then [n] else []);
      assert n !in AnchorIdx(p) by {
        AnchorIdxBelow(p);
      }
      forall i | 0 <= i < n ensures i in idx <==> Accepts(anchors[i]) {
        assert i in AnchorIdx(p) <==> Accepts(p[i]) by {
          AnchorChosen(p);
        }
        assert p[i] == anchors[i];
      }
    }
  }

  /** Every kept position is an anchor position. */
  lemma {:induction false} AnchorIdxBelow(anchors: seq<Anchor>)
    ensures forall x :: x in AnchorIdx(anchors) ==> 0 <= x < |anchors|
  {
    if anchors != [] {
      AnchorIdxBelow(anchors[..|anchors| - 1]);
    }
  }

  /** Each record of the fallback is an accepted anchor's, and each accepted anchor's record is there. */
  lemma {:induction false} AnchorRecordsMembers(anchors: seq<Anchor>, join: string -> string)
    ensures forall r :: r in AnchorRecords(anchors, join) <==>
              exists i :: 0 <= i < |anchors| && Accepts(anchors[i]) && r == AnchorListing(anchors[i], join)
  {
    if anchors != [] {
      var n := |anchors| - 1;
      var p := anchors[..n];
      var tail := if Accepts(anchors[n]) then [AnchorListing(anchors[n], join)] else [];
      assert AnchorRecords(anchors, join) == AnchorRecords(p, join) + tail;
      forall r | r in AnchorRecords(anchors, join)
        ensures exists i :: 0 <= i < |anchors| && Accepts(anchors[i]) && r == AnchorListing(anchors[i], join)
      {
        if r in AnchorRecords(p, join) {
          AnchorRecordsMembers(p, join);
          var i :| 0 <= i < |p| && Accepts(p[i]) && r == AnchorListing(p[i], join);
          assert anchors[i] == p[i];
        } else {
          assert r in tail;
        }
      }
      forall r, i | 0 <= i < |anchors| && Accepts(anchors[i]) && r == AnchorListing(anchors[i], join)
        ensures r in AnchorRecords(anchors, join)
      {
        if i < n {
          assert p[i] == anchors[i];
          AnchorRecordsMembers(p, join);
        }
      }
    }
  }

  /** The records of the embedded document, when `if data:` lets the walk run. */
  function Walked(s: Script, page: Page, join: string -> string): seq<Listing>
  {
    if page.nextData.Some? && Truthy(page.nextData.value) then Records(s, page.nextData.value, join) else []
  }

  /** `extract_items_from_nextdata` / `extract_next_items`: walk, else anchors, then collapse. */
  function PageItems(s: Script, page: Page, join: string -> string): seq<Listing>
  {
    var walked := Walked(s, page, join);
    Collapse(if walked != [] then walked else AnchorRecords(page.anchors, join))
  }

  /** `if data: walk(data)` with a fresh `items` list. */
  method WalkDocument(s: Script, page: Page, join: string -> string) returns (items: seq<Listing>)
    ensures items == Walked(s, page, join)
  {
    items := [];
    if page.nextData.Some? && Truthy(page.nextData.value) {
      var w := new Walker(s, join);
      w.Walk(page.nextData.value);
      items := w.items;
    }
  }

  /** The extraction as the scripts run it: the walk, the fallback loop, the dictionary pass. */
  method ExtractPageItems(s: Script, page: Page, join: string -> string) returns (out: seq<Listing>)
    ensures out == PageItems(s, page, join)
  {
    var items := WalkDocument(s, page, join);
    if items == [] {
      items := FallbackAnchors(page.anchors, join);
    }
    out := CollapseByPair(items);
  }

  /**
    The anchors are consulted only when the document yields no record; either way the
    result holds each `(title, link)` pair of the chosen records once, in first-occurrence
    order, carrying the record seen last for it.
   */
  lemma PageItemsSpec(s: Script, page: Page, join: string -> string)
    ensures Walked(s, page, join) != [] ==> PageItems(s, page, join) == Collapse(Walked(s, page, join))
    ensures Walked(s, page, join) == [] ==> PageItems(s, page, join) == Collapse(AnchorRecords(page.anchors, join))
    ensures forall i, j :: 0 <= i < j < |PageItems(s, page, join)| ==>
              PairOf(PageItems(s, page, join)[i]) != PairOf(PageItems(s, page, join)[j])
  {
    var walked := Walked(s, page, join);
    CollapseSpec(if walked != [] then walked else AnchorRecords(page.anchors, join));
  }

  /** The walk's records are those of the document's object nodes in pre-order. */
  lemma WalkedIsPreorder(s: Script, page: Page, join: string -> string)
    requires page.nextData.Some? && Truthy(page.nextData.value)
    ensures Walked(s, page, join) == Harvest(s, Nodes(page.nextData.value), join)
  {
    RecordsArePreorder(s, page.nextData.value, join);
  }

  /** With no usable document the anchors decide, whatever the script. */
  lemma NoDocumentMeansAnchors(s: Script, anchors: seq<Anchor>, showing: Option<nat>, upcoming: Option<nat>, join: string -> string)
    ensures PageItems(s, Page(None, anchors, showing, upcoming), join) == Collapse(AnchorRecords(anchors, join))
  {
  }

  /** The distinct hrefs of item anchors, whatever their text. */
  function ItemLinks(anchors: seq<Anchor>): set<string>
  {
    if anchors == [] then {}
    else
      var a := anchors[|anchors| - 1];
      ItemLinks(anchors[..|anchors| - 1]) + (if ItemPath(a.href) then {a.href} else {})
  }

  /** `extract_total_from_page`: the "Mostrando" total, else the "Próximos" total, else the item-link count. */
  function PageTotal(page: Page): nat
  {
    if page.showing.Some? then page.showing.value
    else if page.upcoming.Some? then page.upcoming.value
    else |ItemLinks(page.anchors)|
  }

  /** The counting pass over the anchors, collecting hrefs into a set. */
  method TotalFromPage(page: Page) returns (total: nat)
    ensures total == PageTotal(page)
  {
    if page.showing.Some? {
      return page.showing.value;
    }
    if page.upcoming.Some? {
      return page.upcoming.value;
    }
    var links: set<string> := {};
    for i := 0 to |page.anchors|
      invariant links == ItemLinks(page.anchors[..i])
    {
      assert page.anchors[..i + 1][..i] == page.anchors[..i];
      var href := page.anchors[i].href;
      if ItemPath(href) {
        links := links + {href};
      }
    }
    assert page.anchors[..|page.anchors|] == page.anchors;
    return |links|;
  }

  /**
    The page total takes the "Mostrando" number first and the "Próximos" number next;
    failing both it counts the distinct item hrefs, which is at most the number of
    anchors and is zero exactly when no anchor's href is an item path.
   */
  lemma PageTotalSpec(page: Page)
    ensures page.showing.Some? ==> PageTotal(page) == page.showing.value
    ensures page.showing.None? && page.upcoming.Some? ==> PageTotal(page) == page.upcoming.value
    ensures page.showing.None? && page.upcoming.None? ==>
              PageTotal(page) <= |page.anchors| &&
              (PageTotal(page) == 0 <==> forall i :: 0 <= i < |page.anchors| ==> !ItemPath(page.anchors[i].href))
  {
    var anchors := page.anchors;
    ItemLinksSpec(anchors);
    if page.showing.None? && page.upcoming.None? {
      if PageTotal(page) == 0 {
        forall i | 0 <= i < |anchors| ensures !ItemPath(anchors[i].href) {
          assert anchors[i].href !in ItemLinks(anchors);
        }
      } else {
        var h :| h in ItemLinks(anchors);
      }
    }
  }

  /**
    The link set holds exactly the item-path hrefs of the anchors, so the count is at most
    the number of anchors and counts an href repeated over several anchors once.
   */
  lemma ItemLinksSpec(anchors: seq<Anchor>)
    ensures forall h :: h in ItemLinks(anchors) <==> exists i :: 0 <= i < |anchors| && anchors[i].href == h && ItemPath(h)
    ensures |ItemLinks(anchors)| <= |anchors|
  {
    ItemLinksMembers(anchors);
    ItemLinksSize(anchors);
  }

  lemma {:induction false} ItemLinksMembers(anchors: seq<Anchor>)
    ensures forall h :: h in ItemLinks(anchors) <==> exists i :: 0 <= i < |anchors| && anchors[i].href == h && ItemPath(h)
  {
    if anchors != [] {
      var n := |anchors| - 1;
      var p, last := anchors[..n], anchors[n];
      var added := if ItemPath(last.href) then {last.href} else {};
      assert ItemLinks(anchors) == ItemLinks(p) + added;
      forall h | h in ItemLinks(anchors) ensures exists i :: 0 <= i < |anchors| && anchors[i].href == h && ItemPath(h) {
        if h in ItemLinks(p) {
          ItemLinksMembers(p);
          var i :| 0 <= i < |p| && p[i].href == h && ItemPath(h);
          assert anchors[i] == p[i];
        } else {
          assert anchors[n].href == h && ItemPath(h);
        }
      }
      forall h, i | 0 <= i < |anchors| && anchors[i].href == h && ItemPath(h) ensures h in ItemLinks(anchors) {
        if i < n {
          assert p[i] == anchors[i];
          ItemLinksMembers(p);
        }
      }
    }
  }

  lemma {:induction false} ItemLinksSize(anchors: seq<Anchor>)
    ensures |ItemLinks(anchors)| <= |anchors|
  {
    if anchors != [] {
      var n := |anchors| - 1;
      var p, last := anchors[..n], anchors[n];
      ItemLinksSize(p);
      var added := if ItemPath(last.href) then {last.href} else {};
      assert ItemLinks(anchors) == ItemLinks(p) + added;
      assert |ItemLinks(p) + added| <= |ItemLinks(p)| + |added|;
    }
  }

  /** An href that contains a fragment in lower case is an item path. */
  lemma ItemPathAt(href: string, f: nat, j: nat)
    requires f < |ItemFragments| && OccursAt(href, ItemFragments[f], j)
    ensures ItemPath(href)
  {
    assert forall k :: 0 <= k < |ItemFragments[f]| ==> ('a' <= ItemFragments[f][k] <= 'z' || ItemFragments[f][k] == '/');
    LowerKeepsOccurrence(href, ItemFragments[f], j);
  }

  /** The site's own category pages ("/cp/...") count as item links. */
  lemma CategoryPageIsItemPath(rest: string)
    ensures ItemPath("/cp/" + rest)
  {
    var h := "/cp/" + rest;
    assert h[0..4] == "/cp/";
    ItemPathAt(h, 5, 0);
  }

  /** Two anchors with the same item href are counted once by the fallback total. */
  lemma RepeatedHrefCountedOnce(a: Anchor, b: Anchor)
    requires a.href == b.href && ItemPath(a.href)
    ensures PageTotal(Page(None, [a, b], None, None)) == 1
  {
    var anchors := [a, b];
    assert anchors[..1] == [a];
    assert anchors[..1][..0] == [];
    assert ItemLinks(anchors[..1]) == {a.href};
  }

  /** An item anchor without text still counts toward the total, though the fallback drops it. */
  lemma TextlessAnchorCountsButYieldsNothing(href: string, join: string -> string)
    requires href != "" && ItemPath(href)
    ensures PageTotal(Page(None, [Anchor(href, "", "")], None, None)) == 1
    ensures AnchorRecords([Anchor(href, "", "")], join) == []
  {
    var anchors := [Anchor(href, "", "")];
    assert anchors[..0] == [];
    assert ItemLinks(anchors) == {href};
  }

  /** The "Mostrando" phrase wins over the "Próximos" phrase and over the anchors. */
  lemma ShowingWins(data: Option<Json>, anchors: seq<Anchor>, n: nat, m: Option<nat>)
    ensures PageTotal(Page(data, anchors, Some(n), m)) == n
  {
  }
}
