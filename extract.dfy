/**
  Record extraction from a parsed JSON value by ordered field probing: the per-object
  probes for title, url and location that both scripts apply, and the recursive `walk`
  over the embedded page document that appends one record per matching object node.
 */
module Extract {
  import opened Wrappers
  import opened Json
  import opened Text
  import opened Listings

  /** Candidate keys for the title, in probing order. */
  const TitleKeys: seq<string> := ["title", "name", "headline", "productTitle", "seoTitle"]
  /** Candidate keys for the url, in probing order. */
  const UrlKeys: seq<string> := ["url", "urlPath", "href", "permalink", "seoUrl", "webUrl", "link"]
  /** Candidate keys inside a nested location object, in probing order. */
  const PlaceKeys: seq<string> := ["displayName", "name", "label", "shortName"]
  /** The outer location keys that rb_watch_rbx.py tries, in order; rb_bot.py tries only "location". */
  const WatchPlaceKeys: seq<string> := ["location", "city", "state", "region", "rbaLocationDisplayName"]

  /**
    The location probe for one outer key `k`: a nested object gives the first of its
    place keys that holds a string, a string is taken as it is, anything else gives nothing.
   */
  function PlaceAt(ms: seq<Member>, k: string): Option<string>
  {
    match Get(ms, k)
    case Some(JObj(inner)) => FirstStr(inner, PlaceKeys)
    case Some(JStr(s)) => Some(s)
    case _ => None
  }

  /** rb_bot.py's location: the probe of "location", or "" when it finds nothing. */
  function BotPlace(ms: seq<Member>): string
  {
    PlaceAt(ms, "location").GetOr("")
  }

  /** A probe result that the `if loc: break` test treats as found. */
  predicate Found(p: Option<string>)
  {
    p.Some? && p.value != ""
  }

  /**
    rb_watch_rbx.py's location: the probe of the first outer key whose probe yields a
    non-empty string; "" when none does.
   */
  function WatchPlace(ms: seq<Member>, keys: seq<string>): string
  {
    if keys == [] then ""
    else if Found(PlaceAt(ms, keys[0])) then PlaceAt(ms, keys[0]).value
    else WatchPlace(ms, keys[1..])
  }

  /**
    The location is "" exactly when no outer key's probe gives a non-empty string;
    otherwise it is the probe of an outer key before which every probe gave nothing or "".
   */
  lemma {:induction false} WatchPlaceSpec(ms: seq<Member>, keys: seq<string>)
    ensures WatchPlace(ms, keys) == "" <==> forall i :: 0 <= i < |keys| ==> !Found(PlaceAt(ms, keys[i]))
    ensures WatchPlace(ms, keys) != "" ==>
              exists i :: 0 <= i < |keys| && PlaceAt(ms, keys[i]) == Some(WatchPlace(ms, keys)) &&
                          forall j :: 0 <= j < i ==> !Found(PlaceAt(ms, keys[j]))
  {
    if keys != [] && !Found(PlaceAt(ms, keys[0])) {
      WatchPlaceSpec(ms, keys[1..]);
      assert forall i :: 1 <= i < |keys| ==> keys[i] == keys[1..][i - 1];
      if WatchPlace(ms, keys) != "" {
        var i :| 0 <= i < |keys[1..]| && PlaceAt(ms, keys[1..][i]) == Some(WatchPlace(ms, keys)) &&
                 forall j :: 0 <= j < i ==> !Found(PlaceAt(ms, keys[1..][j]));
        assert PlaceAt(ms, keys[i + 1]) == Some(WatchPlace(ms, keys));
        forall j | 0 <= j < i + 1 ensures !Found(PlaceAt(ms, keys[j])) {
          if j > 0 {
            assert keys[j] == keys[1..][j - 1];
          }
        }
      }
    }
  }

  /**
    The outer-key loop of rb_watch_rbx.py with its carried `loc`: a probe that yields
    nothing leaves `loc` as it was, one that yields a string overwrites it, and the loop
    stops at the first non-empty one. What is left is `WatchPlace`, up to `loc or ""`.
   */
  method ProbeWatchPlace(ms: seq<Member>) returns (loc: Option<string>)
    ensures loc.GetOr("") == WatchPlace(ms, WatchPlaceKeys)
  {
    loc := None;
    var i := 0;
    while i < |WatchPlaceKeys|
      invariant 0 <= i <= |WatchPlaceKeys|
      invariant loc.GetOr("") == ""
      invariant WatchPlace(ms, WatchPlaceKeys) == WatchPlace(ms, WatchPlaceKeys[i..])
    {
      assert WatchPlaceKeys[i..][1..] == WatchPlaceKeys[i + 1..];
      var v := Get(ms, WatchPlaceKeys[i]);
      if v.Some? && v.value.JObj? {
        var inner := ProbeFirstStr(v.value.members, PlaceKeys);
        if inner.Some? {
          loc := inner;
        }
      } else if v.Some? && v.value.JStr? {
        loc := Some(v.value.s);
      }
      if loc.Some? && loc.value != "" {
        return;
      }
      i := i + 1;
    }
  }

  /**
    What one object node yields: the record built from the probed title, url and
    location, when the script's acceptance test passes.
   */
  function NodeRecord(s: Script, ms: seq<Member>, join: string -> string): Option<Listing>
  {
    var title := FirstStr(ms, TitleKeys);
    var url := FirstStr(ms, UrlKeys);
    match s
    case Bot =>
      if title.Some? && title.value != "" && url.Some? && url.value != ""
      then Some(Listing(Strip(title.value), join(url.value), Strip(BotPlace(ms))))
      else None
    case Watch =>
      if title.Some? && title.value != "" && url.Some?
      then Some(Listing(Strip(title.value), join(url.value), Strip(WatchPlace(ms, WatchPlaceKeys))))
      else None
  }

  /**
    rb_bot.py keeps a node when the probed title and url are both non-empty;
    rb_watch_rbx.py when the title is non-empty and some url candidate holds a string,
    even "". The title and location are stripped, the link is `urljoin(BASE, url)`,
    here `join(url)`, where url is the first candidate holding a string.
   */
  lemma NodeRecordSpec(s: Script, ms: seq<Member>, join: string -> string)
    ensures NodeRecord(s, ms, join).Some? ==>
              FirstStr(ms, TitleKeys).Some? && FirstStr(ms, UrlKeys).Some? &&
              NodeRecord(s, ms, join).value.title == Strip(FirstStr(ms, TitleKeys).value) &&
              NodeRecord(s, ms, join).value.link == join(FirstStr(ms, UrlKeys).value) &&
              NodeRecord(s, ms, join).value.location == Strip(if s.Bot? then BotPlace(ms) else WatchPlace(ms, WatchPlaceKeys))
    ensures s.Bot? ==> (NodeRecord(s, ms, join).Some? <==>
                          FirstStr(ms, TitleKeys).Some? && FirstStr(ms, TitleKeys).value != "" &&
                          FirstStr(ms, UrlKeys).Some? && FirstStr(ms, UrlKeys).value != "")
    ensures s.Watch? ==> (NodeRecord(s, ms, join).Some? <==>
                            FirstStr(ms, TitleKeys).Some? && FirstStr(ms, TitleKeys).value != "" &&
                            exists i :: 0 <= i < |UrlKeys| && StrAt(ms, UrlKeys[i]).Some?)
  {
    FirstStrSpec(ms, UrlKeys);
  }

  /**
    The node step of `walk`, run as the source runs it: the title and url probe loops,
    then the location probe of the script at hand, then the acceptance test.
   */
  method ProbeNode(s: Script, ms: seq<Member>, join: string -> string) returns (r: Option<Listing>)
    ensures r == NodeRecord(s, ms, join)
  {
    var title := ProbeFirstStr(ms, TitleKeys);
    var url := ProbeFirstStr(ms, UrlKeys);
    var loc: string;
    if s.Bot? {
      loc := BotPlace(ms);
    } else {
      var l := ProbeWatchPlace(ms);
      loc := l.GetOr("");
    }
    var accepted := if s.Bot? then title.Some? && title.value != "" && url.Some? && url.value != ""
                    else title.Some? && title.value != "" && url.Some?;
    if accepted {
      r := Some(Listing(Strip(title.value), join(url.value), Strip(loc)));
    } else {
      r := None;
    }
  }

  /**
    The records `walk(x)` appends, in order: an object contributes its own record (if
    any) ahead of everything its values contribute, visited in key order; an array its
    elements' records in element order; a scalar nothing.
   */
  function Records(s: Script, x: Json, join: string -> string): seq<Listing>
    decreases x
  {
    match x
    case JObj(ms) => AsSeq(NodeRecord(s, ms, join)) + MemberRecords(s, ms, join)
    case JArr(xs) => ElemRecords(s, xs, join)
    case _ => []
  }

  function MemberRecords(s: Script, ms: seq<Member>, join: string -> string): seq<Listing>
    decreases ms
  {
    if ms == [] then [] else MemberRecords(s, ms[..|ms| - 1], join) + Records(s, ms[|ms| - 1].value, join)
  }

  function ElemRecords(s: Script, xs: seq<Json>, join: string -> string): seq<Listing>
    decreases xs
  {
    if xs == [] then [] else ElemRecords(s, xs[..|xs| - 1], join) + Records(s, xs[|xs| - 1], join)
  }

  /** One more value of an object: its records follow those of the values before it. */
  lemma MemberRecordsStep(s: Script, ms: seq<Member>, i: nat, join: string -> string)
    requires i < |ms|
    ensures MemberRecords(s, ms[..i + 1], join) == MemberRecords(s, ms[..i], join) + Records(s, ms[i].value, join)
  {
    assert ms[..i + 1][..i] == ms[..i];
  }

  lemma AppendAssoc(a: seq<Listing>, b: seq<Listing>, c: seq<Listing>)
    ensures a + b + c == a + (b + c)
  {
  }

  /** One more element of a list: its records follow those of the elements before it. */
  lemma ElemRecordsStep(s: Script, xs: seq<Json>, i: nat, join: string -> string)
    requires i < |xs|
    ensures ElemRecords(s, xs[..i + 1], join) == ElemRecords(s, xs[..i], join) + Records(s, xs[i], join)
  {
    assert xs[..i + 1][..i] == xs[..i];
  }

  /**
    The `walk` closure together with the `items` list it appends to. Each call appends
    the records of its argument to what is already there.
   */
  class Walker {
    var items: seq<Listing>
    const script: Script
    const join: string -> string

    constructor (s: Script, join: string -> string)
      ensures items == [] && script == s && this.join == join
    {
      items := [];
      script := s;
      this.join := join;
    }

    method Walk(x: Json)
      modifies this
      ensures items == old(items) + Records(script, x, join)
      decreases x, 2
    {
      match x {
        case JObj(ms) =>
          WalkObject(ms);
        case JArr(xs) =>
          WalkElems(xs);
        case _ =>
      }
    }

    /** `walk` on a dict: the node's own record, if it is accepted, then its values. */
    method WalkObject(ms: seq<Member>)
      modifies this
      ensures items == old(items) + AsSeq(NodeRecord(script, ms, join)) + MemberRecords(script, ms, join)
      decreases ms, 1
    {
      var node := ProbeNode(script, ms, join);
      if node.Some? {
        items := items + [node.value];
      }
      assert items == old(items) + AsSeq(node);
      WalkValues(ms);
    }

    /** `for v in x.values(): walk(v)`. */
    method WalkValues(ms: seq<Member>)
      modifies this
      ensures items == old(items) + MemberRecords(script, ms, join)
      decreases ms, 0
    {
      for i := 0 to |ms|
        invariant items == old(items) + MemberRecords(script, ms[..i], join)
      {
        assert ms[i] in ms;
        Walk(ms[i].value);
        MemberRecordsStep(script, ms, i, join);
        AppendAssoc(old(items), MemberRecords(script, ms[..i], join), Records(script, ms[i].value, join));
      }
      assert ms[..|ms|] == ms;
    }

    /** `for v in x: walk(v)`. */
    method WalkElems(xs: seq<Json>)
      modifies this
      ensures items == old(items) + ElemRecords(script, xs, join)
      decreases xs, 0
    {
      for i := 0 to |xs|
        invariant items == old(items) + ElemRecords(script, xs[..i], join)
      {
        assert xs[i] in xs;
        Walk(xs[i]);
        ElemRecordsStep(script, xs, i, join);
        AppendAssoc(old(items), ElemRecords(script, xs[..i], join), Records(script, xs[i], join));
      }
      assert xs[..|xs|] == xs;
    }
  }

  /**
    An independent account of the traversal: every object node of `x`, the root first,
    then the nodes under each value in key order (arrays in element order).
   */
  function Nodes(x: Json): seq<seq<Member>>
    decreases x
  {
    match x
    case JObj(ms) => [ms] + MemberNodes(ms)
    case JArr(xs) => ElemNodes(xs)
    case _ => []
  }

  function MemberNodes(ms: seq<Member>): seq<seq<Member>>
    decreases ms
  {
    if ms == [] then [] else MemberNodes(ms[..|ms| - 1]) + Nodes(ms[|ms| - 1].value)
  }

  function ElemNodes(xs: seq<Json>): seq<seq<Member>>
    decreases xs
  {
    if xs == [] then [] else ElemNodes(xs[..|xs| - 1]) + Nodes(xs[|xs| - 1])
  }

  /** The records among a list of probe outcomes, in order. */
  function Flatten(os: seq<Option<Listing>>): seq<Listing>
  {
    if os == [] then [] else Flatten(os[..|os| - 1]) + AsSeq(os[|os| - 1])
  }

  lemma {:induction false} FlattenAppend(a: seq<Option<Listing>>, b: seq<Option<Listing>>)
    ensures Flatten(a + b) == Flatten(a) + Flatten(b)
    decreases |b|
  {
    if b == [] {
      assert a + b == a;
    } else {
      assert (a + b)[..|a + b| - 1] == a + b[..|b| - 1];
      FlattenAppend(a, b[..|b| - 1]);
    }
  }

  /** The probe outcome of each node in a list of object nodes. */
  function Probes(s: Script, ns: seq<seq<Member>>, join: string -> string): (r: seq<Option<Listing>>)
    ensures |r| == |ns|
  {
    if ns == [] then [] else Probes(s, ns[..|ns| - 1], join) + [NodeRecord(s, ns[|ns| - 1], join)]
  }

  lemma {:induction false} ProbesAppend(s: Script, a: seq<seq<Member>>, b: seq<seq<Member>>, join: string -> string)
    ensures Probes(s, a + b, join) == Probes(s, a, join) + Probes(s, b, join)
    decreases |b|
  {
    if b == [] {
      assert a + b == a;
    } else {
      assert (a + b)[..|a + b| - 1] == a + b[..|b| - 1];
      ProbesAppend(s, a, b[..|b| - 1], join);
    }
  }

  /** The records of a list of object nodes, taken one node at a time. */
  function Harvest(s: Script, ns: seq<seq<Member>>, join: string -> string): seq<Listing>
  {
    Flatten(Probes(s, ns, join))
  }

  lemma HarvestAppend(s: Script, a: seq<seq<Member>>, b: seq<seq<Member>>, join: string -> string)
    ensures Harvest(s, a + b, join) == Harvest(s, a, join) + Harvest(s, b, join)
  {
    ProbesAppend(s, a, b, join);
    FlattenAppend(Probes(s, a, join), Probes(s, b, join));
  }

  /**
    `walk` is a pre-order traversal: its records are exactly the records of the object
    nodes in pre-order, each node contributing one record when its probes accept it.
   */
  lemma {:induction false} RecordsArePreorder(s: Script, x: Json, join: string -> string)
    ensures Records(s, x, join) == Harvest(s, Nodes(x), join)
    decreases x, 2
  {
    match x
    case JObj(ms) =>
      ObjectRecordsArePreorder(s, ms, join);
      assert Records(s, x, join) == AsSeq(NodeRecord(s, ms, join)) + MemberRecords(s, ms, join);
      assert Nodes(x) == [ms] + MemberNodes(ms);
    case JArr(xs) =>
      ElemRecordsArePreorder(s, xs, join);
    case _ =>
  }

  lemma {:induction false} ObjectRecordsArePreorder(s: Script, ms: seq<Member>, join: string -> string)
    ensures AsSeq(NodeRecord(s, ms, join)) + MemberRecords(s, ms, join) == Harvest(s, [ms] + MemberNodes(ms), join)
    decreases ms, 1
  {
    MemberRecordsArePreorder(s, ms, join);
    HarvestAppend(s, [ms], MemberNodes(ms), join);
    HarvestSingle(s, ms, join);
  }

  /** A single node contributes its own record, if its probes accept it. */
  lemma HarvestSingle(s: Script, ms: seq<Member>, join: string -> string)
    ensures Harvest(s, [ms], join) == AsSeq(NodeRecord(s, ms, join))
  {
    assert [ms][..0] == [];
    var p := Probes(s, [ms], join);
    assert p == [NodeRecord(s, ms, join)];
    assert p[..0] == [];
    assert Flatten(p[..0]) == [];
  }

  lemma {:induction false} MemberRecordsArePreorder(s: Script, ms: seq<Member>, join: string -> string)
    ensures MemberRecords(s, ms, join) == Harvest(s, MemberNodes(ms), join)
    decreases ms, 0
  {
    if ms != [] {
      var last := ms[|ms| - 1];
      assert last in ms;
      MemberRecordsArePreorder(s, ms[..|ms| - 1], join);
      RecordsArePreorder(s, last.value, join);
      HarvestAppend(s, MemberNodes(ms[..|ms| - 1]), Nodes(last.value), join);
    }
  }

  lemma {:induction false} ElemRecordsArePreorder(s: Script, xs: seq<Json>, join: string -> string)
    ensures ElemRecords(s, xs, join) == Harvest(s, ElemNodes(xs), join)
    decreases xs, 0
  {
    if xs != [] {
      var last := xs[|xs| - 1];
      assert last in xs;
      ElemRecordsArePreorder(s, xs[..|xs| - 1], join);
      RecordsArePreorder(s, last, join);
      HarvestAppend(s, ElemNodes(xs[..|xs| - 1]), Nodes(last), join);
    }
  }

  /**
    A root object whose probes accept it contributes the first record, ahead of every
    record from its children, which still follow.
   */
  lemma RootRecordFirst(s: Script, ms: seq<Member>, join: string -> string)
    requires NodeRecord(s, ms, join).Some?
    ensures Records(s, JObj(ms), join) == [NodeRecord(s, ms, join).value] + MemberRecords(s, ms, join)
  {
  }

  /** A document that `if data:` rejects yields no records even if it were walked. */
  lemma FalsyYieldsNothing(s: Script, d: Json, join: string -> string)
    requires !Truthy(d)
    ensures Records(s, d, join) == []
  {
    match d
    case JObj(ms) =>
      AbsentKey(ms, TitleKeys[0]);
      FirstStrSpec(ms, TitleKeys);
    case _ =>
  }

  /** An object that carries none of the outer location keys has location "" in both scripts. */
  lemma NoPlaceKeys(ms: seq<Member>)
    requires forall i :: 0 <= i < |ms| ==> ms[i].key !in WatchPlaceKeys
    ensures WatchPlace(ms, WatchPlaceKeys) == "" && BotPlace(ms) == ""
  {
    forall i | 0 <= i < |WatchPlaceKeys| ensures PlaceAt(ms, WatchPlaceKeys[i]).None? {
      AbsentKey(ms, WatchPlaceKeys[i]);
    }
    WatchPlaceSpec(ms, WatchPlaceKeys);
  }

  /**
    Schema-drift tolerance: an object that names its fields `productTitle` and `seoUrl`
    yields the same record as one that names them `title` and `url`.
   */
  lemma SchemaDrift(s: Script, t: string, u: string, join: string -> string)
    ensures NodeRecord(s, [Member("productTitle", JStr(t)), Member("seoUrl", JStr(u))], join) ==
            NodeRecord(s, [Member("title", JStr(t)), Member("url", JStr(u))], join)
  {
    var a := [Member("productTitle", JStr(t)), Member("seoUrl", JStr(u))];
    var b := [Member("title", JStr(t)), Member("url", JStr(u))];
    forall j | 0 <= j < 3 ensures StrAt(a, TitleKeys[j]).None? {
      AbsentKey(a, TitleKeys[j]);
    }
    GetAt(a, "productTitle", 0);
    FirstStrAt(a, TitleKeys, 3);
    forall j | 0 <= j < 4 ensures StrAt(a, UrlKeys[j]).None? {
      AbsentKey(a, UrlKeys[j]);
    }
    GetAt(a, "seoUrl", 1);
    FirstStrAt(a, UrlKeys, 4);
    GetAt(b, "title", 0);
    FirstStrAt(b, TitleKeys, 0);
    GetAt(b, "url", 1);
    FirstStrAt(b, UrlKeys, 0);
    NoPlaceKeys(a);
    NoPlaceKeys(b);
  }

  /**
    The two scripts part ways on an empty url: rb_watch_rbx.py keeps the node with
    link `join("")`, rb_bot.py drops it, even when a later url candidate is non-empty.
   */
  lemma EmptyUrlVariants(t: string, join: string -> string)
    requires t != ""
    ensures NodeRecord(Watch, [Member("title", JStr(t)), Member("url", JStr("")), Member("href", JStr("/x"))], join).Some?
    ensures NodeRecord(Watch, [Member("title", JStr(t)), Member("url", JStr("")), Member("href", JStr("/x"))], join).value.link == join("")
    ensures NodeRecord(Bot, [Member("title", JStr(t)), Member("url", JStr("")), Member("href", JStr("/x"))], join).None?
  {
    var ms := [Member("title", JStr(t)), Member("url", JStr("")), Member("href", JStr("/x"))];
    GetAt(ms, "title", 0);
    FirstStrAt(ms, TitleKeys, 0);
    GetAt(ms, "url", 1);
    FirstStrAt(ms, UrlKeys, 0);
  }

  /**
    rb_watch_rbx.py moves past an outer key whose nested object gives "" and takes the
    next outer key's string; rb_bot.py, which only looks at "location", gets "".
   */
  lemma PlaceVariants()
    ensures WatchPlace([Member("location", JObj([Member("displayName", JStr("")), Member("name", JStr("Ocala"))])),
                        Member("city", JStr("Tampa"))], WatchPlaceKeys) == "Tampa"
    ensures BotPlace([Member("location", JObj([Member("displayName", JStr("")), Member("name", JStr("Ocala"))])),
                      Member("city", JStr("Tampa"))]) == ""
  {
    var inner := [Member("displayName", JStr("")), Member("name", JStr("Ocala"))];
    var ms := [Member("location", JObj(inner)), Member("city", JStr("Tampa"))];
    GetAt(inner, "displayName", 0);
    FirstStrAt(inner, PlaceKeys, 0);
    GetAt(ms, "location", 0);
    GetAt(ms, "city", 1);
    assert PlaceAt(ms, "location") == Some("");
    assert PlaceAt(ms, "city") == Some("Tampa");
    assert WatchPlaceKeys[1..][0] == "city";
  }
}
