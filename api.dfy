/**
  rb_bot.py's primary route: the JSON answer of the advanced-search endpoint, read as
  `(results, total)`. The HTTP exchange itself is outside the model; what it handed
  back is an `ApiAnswer`.
 */
module Api {
  import opened Wrappers
  import opened Json
  import opened Text
  import opened Listings
  import opened Extract

  /**
    What the POST returned once `raise_for_status` let it through: the Content-Type
    header, if any, and the body as `r.json()` parsed it (None when `r.json()` raises).
   */
  datatype ApiAnswer = ApiAnswer(contentType: Option<string>, body: Option<Json>)

  /** Why `fetch_results_via_api` raised. */
  datatype ApiError = NotJson | Unparsable

  /** The records and the total that the route reports. */
  datatype ApiResults = ApiResults(items: seq<Listing>, total: int)

  const JsonType: string := "application/json"

  /** The keys tried for the total, in order. */
  const TotalKeys: seq<string> := ["total", "totalAmount", "totalCount", "count", "resultCount"]

  /** `isinstance(v, int)` for a JSON value, with `int(v)`: Python's booleans are integers. */
  function AsInt(v: Json): Option<int>
  {
    match v
    case JInt(i) => Some(i)
    case JBool(b) => Some(if b then 1 else 0)
    case _ => None
  }

  /** The integer bound to `k`, if `k` holds one. */
  function IntAt(ms: seq<Member>, k: string): Option<int>
  {
    match Get(ms, k)
    case Some(v) => AsInt(v)
    case None => None
  }

  /** The first total key holding an integer. */
  function FirstInt(ms: seq<Member>, keys: seq<string>): Option<int>
  {
    if keys == [] then None
    else if IntAt(ms, keys[0]).Some? then IntAt(ms, keys[0])
    else FirstInt(ms, keys[1..])
  }

  /** The probe gives the integer of the first total key that holds one. */
  lemma {:induction false} FirstIntAt(ms: seq<Member>, keys: seq<string>, i: nat)
    requires i < |keys| && IntAt(ms, keys[i]).Some?
    requires forall j :: 0 <= j < i ==> IntAt(ms, keys[j]).None?
    ensures FirstInt(ms, keys) == IntAt(ms, keys[i])
    decreases i
  {
    if i > 0 {
      assert IntAt(ms, keys[0]).None?;
      assert forall j :: 0 <= j < i - 1 ==> keys[1..][j] == keys[j + 1];
      FirstIntAt(ms, keys[1..], i - 1);
    }
  }

  /**
    The probe finds nothing exactly when no key holds an integer; what it finds is the
    integer of some key that holds one, with no integer under any earlier key.
   */
  lemma {:induction false} FirstIntSpec(ms: seq<Member>, keys: seq<string>)
    ensures FirstInt(ms, keys).None? <==> forall i :: 0 <= i < |keys| ==> IntAt(ms, keys[i]).None?
    ensures FirstInt(ms, keys).Some? ==>
              exists i :: 0 <= i < |keys| && FirstInt(ms, keys) == IntAt(ms, keys[i]) &&
                forall j :: 0 <= j < i ==> IntAt(ms, keys[j]).None?
  {
    if keys != [] && IntAt(ms, keys[0]).None? {
      var rest := keys[1..];
      FirstIntSpec(ms, rest);
      assert forall i :: 1 <= i < |keys| ==> keys[i] == rest[i - 1];
      if FirstInt(ms, keys).Some? {
        var i :| 0 <= i < |rest| && FirstInt(ms, rest) == IntAt(ms, rest[i]) &&
                 forall j :: 0 <= j < i ==> IntAt(ms, rest[j]).None?;
        assert FirstInt(ms, keys) == IntAt(ms, keys[i + 1]);
        forall j | 0 <= j < i + 1 ensures IntAt(ms, keys[j]).None? {
          if j > 0 {
            assert keys[j] == rest[j - 1];
          }
        }
      }
    }
  }

  /** The total the document states, when it is an object with an integer under a total key. */
  function StatedTotal(data: Json): Option<int>
  {
    if data.JObj? then FirstInt(data.members, TotalKeys) else None
  }

  /** The item list: "results" when it is a list, else "items" when it is a list, else nothing. */
  function RawList(data: Json): seq<Json>
  {
    if !data.JObj? then []
    else match Get(data.members, "results")
      case Some(JArr(xs)) => xs
      case _ =>
        match Get(data.members, "items")
        case Some(JArr(xs)) => xs
        case _ => []
  }

  /**
    The item list of an object: the list under "results" when "results" holds a list;
    otherwise the list under "items" when that holds one; otherwise nothing.
   */
  lemma RawListChoice(ms: seq<Member>, xs: seq<Json>, ys: seq<Json>)
    ensures Get(ms, "results") == Some(JArr(xs)) ==> RawList(JObj(ms)) == xs
    ensures !(Get(ms, "results").Some? && Get(ms, "results").value.JArr?) && Get(ms, "items") == Some(JArr(ys)) ==>
              RawList(JObj(ms)) == ys
    ensures (!(Get(ms, "results").Some? && Get(ms, "results").value.JArr?) &&
             !(Get(ms, "items").Some? && Get(ms, "items").value.JArr?)) ==> RawList(JObj(ms)) == []
  {
  }

  /** One element of the item list: an object gives rb_bot.py's node record, anything else nothing. */
  function ApiItem(x: Json, join: string -> string): Option<Listing>
  {
    if x.JObj? then NodeRecord(Bot, x.members, join) else None
  }

  /** The list `results`: the element records in order, with no collapse. */
  function ApiRecords(xs: seq<Json>, join: string -> string): seq<Listing>
  {
    if xs == [] then [] else ApiRecords(xs[..|xs| - 1], join) + AsSeq(ApiItem(xs[|xs| - 1], join))
  }

  /** The positions of the raw list whose elements give a record, in order. */
  function ApiIdx(xs: seq<Json>, join: string -> string): seq<int>
  {
    if xs == [] then []
    else ApiIdx(xs[..|xs| - 1], join) + (if ApiItem(xs[|xs| - 1], join).Some? then [|xs| - 1] else [])
  }

  /** `(ctype or "").lower()` contains "application/json". */
  predicate JsonContent(contentType: Option<string>)
  {
    Contains(Lower(contentType.GetOr("")), JsonType)
  }

  /** `fetch_results_via_api` after the request: its result, or the exception it raises. */
  function ApiOutcome(a: ApiAnswer, join: string -> string): Result<ApiResults, ApiError>
  {
    if !JsonContent(a.contentType) then Err(NotJson)
    else if a.body.None? then Err(Unparsable)
    else
      var items := ApiRecords(RawList(a.body.value), join);
      Ok(ApiResults(items, StatedTotal(a.body.value).GetOr(|items|)))
  }

  /**
    The route raises NotJson exactly when the content type is not JSON, and Unparsable
    exactly when it is but the body does not parse. Otherwise its records are, in order,
    the accepted records of the raw list's object elements, one per chosen element, and
    its total is the stated one or, when no total key holds an integer, the number of
    elements that gave a record.
   */
  lemma ApiOutcomeSpec(a: ApiAnswer, join: string -> string)
    ensures ApiOutcome(a, join) == Err(NotJson) <==> !JsonContent(a.contentType)
    ensures ApiOutcome(a, join) == Err(Unparsable) <==> JsonContent(a.contentType) && a.body.None?
    ensures ApiOutcome(a, join).Ok? ==>
              var xs, r := RawList(a.body.value), ApiOutcome(a, join).value;
              |r.items| == |ApiIdx(xs, join)| &&
              (forall k :: 0 <= k < |r.items| ==>
                 0 <= ApiIdx(xs, join)[k] < |xs| && xs[ApiIdx(xs, join)[k]].JObj? &&
                 NodeRecord(Bot, xs[ApiIdx(xs, join)[k]].members, join) == Some(r.items[k])) &&
              r.total == StatedTotal(a.body.value).GetOr(|ApiIdx(xs, join)|)
  {
    if ApiOutcome(a, join).Ok? {
      ApiRecordsFromElements(RawList(a.body.value), join);
    }
  }

  /** The total loop: the first total key holding an integer, tried in order. */
  method ProbeTotal(data: Json) returns (total: Option<int>)
    ensures total == StatedTotal(data)
  {
    total := None;
    var i := 0;
    while i < |TotalKeys|
      invariant 0 <= i <= |TotalKeys|
      invariant StatedTotal(data) == (if data.JObj? then FirstInt(data.members, TotalKeys[i..]) else None)
    {
      assert TotalKeys[i..][1..] == TotalKeys[i + 1..];
      var v := if data.JObj? then Get(data.members, TotalKeys[i]) else None;
      if v.Some? && AsInt(v.value).Some? {
        total := AsInt(v.value);
        break;
      }
      i := i + 1;
    }
  }

  /** `fetch_results_via_api` from the content-type check on, with its two loops. */
  method FetchResultsViaApi(a: ApiAnswer, join: string -> string) returns (r: Result<ApiResults, ApiError>)
    ensures r == ApiOutcome(a, join)
  {
    var ctype := Lower(a.contentType.GetOr(""));
    if !Contains(ctype, JsonType) {
      return Err(NotJson);
    }
    if a.body.None? {
      return Err(Unparsable);
    }
    var data := a.body.value;
    var total := ProbeTotal(data);
    var rawList := RawList(data);
    var results: seq<Listing> := [];
    for i := 0 to |rawList|
      invariant results == ApiRecords(rawList[..i], join)
    {
      assert rawList[..i + 1][..i] == rawList[..i];
      var x := rawList[i];
      if x.JObj? {
        var node := ProbeNode(Bot, x.members, join);
        if node.Some? {
          results := results + [node.value];
        }
      }
    }
    assert rawList[..|rawList|] == rawList;
    return Ok(ApiResults(results, if total.Some? then total.value else |results|));
  }

  /**
    The API records form an order-preserving subsequence of the raw list: the k-th record
    is the node record of the element at the k-th chosen position, the positions increase,
    and an element is chosen exactly when it is an object whose node record is accepted.
   */
  lemma ApiRecordsFromElements(xs: seq<Json>, join: string -> string)
    ensures |ApiIdx(xs, join)| == |ApiRecords(xs, join)| <= |xs|
    ensures forall k :: 0 <= k < |ApiRecords(xs, join)| ==>
              0 <= ApiIdx(xs, join)[k] < |xs| && xs[ApiIdx(xs, join)[k]].JObj? &&
              NodeRecord(Bot, xs[ApiIdx(xs, join)[k]].members, join) == Some(ApiRecords(xs, join)[k])
    ensures forall a, b :: 0 <= a < b < |ApiIdx(xs, join)| ==> ApiIdx(xs, join)[a] < ApiIdx(xs, join)[b]
    ensures forall i :: 0 <= i < |xs| ==>
              (i in ApiIdx(xs, join) <==> xs[i].JObj? && NodeRecord(Bot, xs[i].members, join).Some?)
  {
    ApiPositions(xs, join);
    ApiChosen(xs, join);
  }

  /** The API records sit at strictly increasing positions of the raw list. */
  lemma {:induction false} ApiPositions(xs: seq<Json>, join: string -> string)
    ensures |ApiIdx(xs, join)| == |ApiRecords(xs, join)| <= |xs|
    ensures forall k :: 0 <= k < |ApiRecords(xs, join)| ==>
              0 <= ApiIdx(xs, join)[k] < |xs| && ApiItem(xs[ApiIdx(xs, join)[k]], join) == Some(ApiRecords(xs, join)[k])
    ensures forall a, b :: 0 <= a < b < |ApiIdx(xs, join)| ==> ApiIdx(xs, join)[a] < ApiIdx(xs, join)[b]
  {
    if xs != [] {
      var n := |xs| - 1;
      var p := xs[..n];
      ApiPositions(p, join);
      var recs, idx := ApiRecords(xs, join), ApiIdx(xs, join);
      if ApiItem(xs[n], join).Some? {
        assert recs == ApiRecords(p, join) + [ApiItem(xs[n], join).value] && idx == ApiIdx(p, join) + [n];
      } else {
        assert recs == ApiRecords(p, join) && idx == ApiIdx(p, join);
      }
      forall k | 0 <= k < |recs| ensures 0 <= idx[k] < |xs| && ApiItem(xs[idx[k]], join) == Some(recs[k]) {
        if k < |ApiRecords(p, join)| {
          assert recs[k] == ApiRecords(p, join)[k] && idx[k] == ApiIdx(p, join)[k];
          assert p[idx[k]] == xs[idx[k]];
        }
      }
    }
  }

  /** A position is chosen exactly when its element gives a record. */
  lemma {:induction false} ApiChosen(xs: seq<Json>, join: string -> string)
    ensures forall i :: 0 <= i < |xs| ==> (i in ApiIdx(xs, join) <==> ApiItem(xs[i], join).Some?)
  {
    if xs != [] {
      var n := |xs| - 1;
      var p := xs[..n];
      var idx := ApiIdx(xs, join);
      assert idx == ApiIdx(p, join) + (if ApiItem(xs[n], join).Some? then [n] else []);
      assert n !in ApiIdx(p, join) by {
        ApiIdxBelow(p, join);
      }
      forall i | 0 <= i < n ensures i in idx <==> ApiItem(xs[i], join).Some? {
        assert i in ApiIdx(p, join) <==> ApiItem(p[i], join).Some? by {
          ApiChosen(p, join);
        }
        assert p[i] == xs[i];
      }
    }
  }

  /** Every chosen position is a position of the raw list. */
  lemma {:induction false} ApiIdxBelow(xs: seq<Json>, join: string -> string)
    ensures forall x :: x in ApiIdx(xs, join) ==> 0 <= x < |xs|
  {
    if xs != [] {
      ApiIdxBelow(xs[..|xs| - 1], join);
    }
  }

  /**
    Unlike the page route, the API route does not collapse duplicates: a raw list that
    repeats an accepted object yields its record twice.
   */
  lemma ApiKeepsDuplicates(ms: seq<Member>, join: string -> string)
    requires NodeRecord(Bot, ms, join).Some?
    ensures ApiRecords([JObj(ms), JObj(ms)], join) == [NodeRecord(Bot, ms, join).value, NodeRecord(Bot, ms, join).value]
  {
    var xs := [JObj(ms), JObj(ms)];
    assert xs[..1] == [JObj(ms)];
    assert xs[..1][..0] == [];
    assert ApiRecords(xs[..1], join) == [NodeRecord(Bot, ms, join).value];
  }

  /** "results" wins over "items" when both are lists. */
  lemma ResultsPreferred(xs: seq<Json>, ys: seq<Json>)
    ensures RawList(JObj([Member("items", JArr(ys)), Member("results", JArr(xs))])) == xs
  {
    var ms := [Member("items", JArr(ys)), Member("results", JArr(xs))];
    GetAt(ms, "results", 1);
  }

  /** "items" is used when "results" is there but is not a list. */
  lemma ItemsWhenResultsNotList(ys: seq<Json>)
    ensures RawList(JObj([Member("results", JNull), Member("items", JArr(ys))])) == ys
  {
    var ms := [Member("results", JNull), Member("items", JArr(ys))];
    GetAt(ms, "results", 0);
    GetAt(ms, "items", 1);
  }

  /** A document that is not an object yields no records and, so, a total of 0. */
  lemma NonObjectBody(ctype: string, xs: seq<Json>, join: string -> string)
    requires JsonContent(Some(ctype))
    ensures ApiOutcome(ApiAnswer(Some(ctype), Some(JArr(xs))), join) == Ok(ApiResults([], 0))
  {
  }

  /** A boolean under a total key counts as the integer 1 or 0. */
  lemma BooleanTotal(b: bool, rest: seq<Member>)
    ensures StatedTotal(JObj([Member("total", JBool(b))] + rest)) == Some(if b then 1 else 0)
  {
    var ms := [Member("total", JBool(b))] + rest;
    assert ms[0].key == "total";
  }

  /** A real-valued total is not an `int`: the probe moves on to the next key. */
  lemma RealTotalSkipped(x: real, n: int)
    ensures StatedTotal(JObj([Member("total", JReal(x)), Member("count", JInt(n))])) == Some(n)
  {
    var ms := [Member("total", JReal(x)), Member("count", JInt(n))];
    GetAt(ms, "total", 0);
    forall j | 1 <= j < 3 ensures IntAt(ms, TotalKeys[j]).None? {
      AbsentKey(ms, TotalKeys[j]);
    }
    GetAt(ms, "count", 1);
    FirstIntAt(ms, TotalKeys, 3);
  }

  /** A content type that contains "application/json" passes the check, whatever follows it. */
  lemma JsonContentFromLowerCase(ctype: string, j: nat)
    requires OccursAt(ctype, JsonType, j)
    ensures JsonContent(Some(ctype))
  {
    assert forall i :: 0 <= i < |JsonType| ==> ('a' <= JsonType[i] <= 'z' || JsonType[i] == '/');
    LowerKeepsOccurrence(ctype, JsonType, j);
  }

  /**
    A content type without the letter j in either case, such as "text/html", makes the
    route raise, so the caller falls back to the page.
   */
  lemma NoLetterJIsNotJson(ctype: string, body: Option<Json>, join: string -> string)
    requires 'j' !in ctype && 'J' !in ctype
    ensures ApiOutcome(ApiAnswer(Some(ctype), body), join) == Err(NotJson)
  {
    LowerMissing(ctype, 'j');
    assert JsonType[12] == 'j';
    MissingCharNotContained(Lower(ctype), JsonType, 'j');
  }

  /** A missing Content-Type header counts as "". */
  lemma MissingTypeIsNotJson(body: Option<Json>, join: string -> string)
    ensures ApiOutcome(ApiAnswer(None, body), join) == Err(NotJson)
  {
  }
}
