/**
  rb_bot.py: one check run (search results by the API, falling back to the page; the
  filter; the seen-store; the digest) and the webhook commands that trigger a count or
  a check and answer in text. The network is given as the outcomes of the two fetches.
 */
module RbBot {
  import opened Wrappers
  import opened Json
  import opened Text
  import opened Listings
  import opened Extract
  import opened Filter
  import opened Api
  import opened Page
  import opened Seen
  import opened Digest

  /**
    What the two requests of one run give: the API POST (its transport and status
    check) and the GET of the search page.
   */
  datatype Net = Net(api: Fetch<ApiAnswer>, html: Fetch<Page>)

  /** The records and the total a run works with. */
  datatype Gathered = Gathered(items: seq<Listing>, total: int)

  /** The API route's result, when the POST went through and the answer was usable. */
  function ApiRoute(net: Net, join: string -> string): Option<ApiResults>
  {
    if net.api.Fetched? && ApiOutcome(net.api.answer, join).Ok? then Some(ApiOutcome(net.api.answer, join).value) else None
  }

  /**
    The first stage of `check_new_items`: the API's records and total, or, when anything
    in the API route raises, the page's total and records; a failing page fetch is the
    error of the whole run.
   */
  function Gather(net: Net, join: string -> string): Result<Gathered, string>
  {
    match ApiRoute(net, join)
    case Some(r) => Ok(Gathered(r.items, r.total))
    case None =>
      match net.html
      case Fetched(p) => Ok(Gathered(PageItems(Bot, p, join), PageTotal(p)))
      case Failed(e) => Err(e)
  }

  /** The count command's total: the API total, else the page total. */
  function GetTotal(net: Net, join: string -> string): Result<int, string>
  {
    match ApiRoute(net, join)
    case Some(r) => Ok(r.total)
    case None =>
      match net.html
      case Fetched(p) => Ok(PageTotal(p))
      case Failed(e) => Err(e)
  }

  /** The API route, then the page route when the API route raises. */
  method GatherItems(net: Net, join: string -> string) returns (r: Result<Gathered, string>)
    ensures r == Gather(net, join)
  {
    if net.api.Fetched? {
      var a := FetchResultsViaApi(net.api.answer, join);
      if a.Ok? {
        return Ok(Gathered(a.value.items, a.value.total));
      }
    }
    if net.html.Failed? {
      return Err(net.html.message);
    }
    var page := net.html.answer;
    var total := TotalFromPage(page);
    var items := ExtractPageItems(Bot, page, join);
    return Ok(Gathered(items, total));
  }

  /** What a check run reports and leaves behind. */
  datatype CheckRun = CheckRun(added: seq<Listing>, total: int, message: Option<Outgoing>, stored: set<string>)

  /**
    `check_new_items` as a function of the stored keys: the gathered records are
    filtered, the new ones are marked, and the digest is attempted when the guard lets it.
   */
  function CheckOutcome(stored: set<string>, net: Net, sendFlag: bool, c: BotConfig,
                        join: string -> string, hash: string -> string): Result<CheckRun, string>
  {
    match Gather(net, join)
    case Err(e) => Err(e)
    case Ok(g) =>
      var filtered := Kept(g.items);
      var added := NewItems(Bot, stored, filtered, hash);
      Ok(CheckRun(added, g.total, BotMessage(sendFlag, added, c), stored + KeySet(Bot, filtered, hash)))
  }

  /**
    One check run against the store. The returned message is the one handed to the
    messaging API; whether it is delivered changes neither the result nor the store.
   */
  method CheckNewItems(store: SeenStore, net: Net, sendFlag: bool, c: BotConfig,
                       join: string -> string, hash: string -> string) returns (r: Result<CheckRun, string>)
    modifies store
    ensures r == CheckOutcome(old(store.keys), net, sendFlag, c, join, hash)
    ensures r.Err? ==> store.keys == old(store.keys)
    ensures r.Ok? ==> store.keys == r.value.stored
  {
    var g := GatherItems(net, join);
    if g.Err? {
      return Err(g.error);
    }
    var filtered := FilterItems(g.value.items);
    var added := store.MarkNew(Bot, filtered, hash);
    var message := BotMessage(sendFlag, added, c);
    return Ok(CheckRun(added, g.value.total, message, store.keys));
  }

  /** When the API route works, the page is never consulted. */
  lemma ApiFirst(net: Net, page: Fetch<Page>, join: string -> string)
    requires ApiRoute(net, join).Some?
    ensures Gather(Net(net.api, page), join) == Gather(net, join)
    ensures Gather(net, join).Ok? && Gather(net, join).value.items == ApiRoute(net, join).value.items
  {
  }

  /**
    When the API route raises (no answer, a non-JSON content type, an unparsable body),
    the run is the page's: its records and total, or the page fetch's error.
   */
  lemma FallbackToPage(net: Net, join: string -> string)
    requires net.api.Failed? || ApiOutcome(net.api.answer, join).Err?
    ensures net.html.Fetched? ==> Gather(net, join) == Ok(Gathered(PageItems(Bot, net.html.answer, join), PageTotal(net.html.answer)))
    ensures net.html.Failed? ==> Gather(net, join) == Err(net.html.message)
  {
  }

  /** The two callers of the total, the count command and a check run, agree on it. */
  lemma CountAgreesWithCheck(net: Net, join: string -> string)
    ensures GetTotal(net, join).Ok? <==> Gather(net, join).Ok?
    ensures GetTotal(net, join).Ok? ==> GetTotal(net, join).value == Gather(net, join).value.total
  {
  }

  /**
    A check reports the new records of the filtered batch: every reported record was
    gathered, passes the filter and had a key that was not stored, and the reported keys
    are distinct; every gathered record that passes the filter with an unstored key has
    its key reported; and the store afterwards is the old one with every filtered
    record's key added. The order of the report is `NewItemsInOrder`'s.
   */
  lemma CheckReportsNewFilteredRecords(stored: set<string>, net: Net, sendFlag: bool, c: BotConfig,
                                       join: string -> string, hash: string -> string)
    requires CheckOutcome(stored, net, sendFlag, c, join, hash).Ok?
    ensures CheckOutcome(stored, net, sendFlag, c, join, hash).value.added ==
              NewItems(Bot, stored, Kept(Gather(net, join).value.items), hash)
    ensures forall x :: x in CheckOutcome(stored, net, sendFlag, c, join, hash).value.added ==>
              x in Gather(net, join).value.items && Keep(x) && Key(Bot, x, hash) !in stored
    ensures forall i, j :: 0 <= i < j < |CheckOutcome(stored, net, sendFlag, c, join, hash).value.added| ==>
              Key(Bot, CheckOutcome(stored, net, sendFlag, c, join, hash).value.added[i], hash) !=
              Key(Bot, CheckOutcome(stored, net, sendFlag, c, join, hash).value.added[j], hash)
    ensures forall x :: x in Gather(net, join).value.items && Keep(x) && Key(Bot, x, hash) !in stored ==>
              Key(Bot, x, hash) in KeySet(Bot, CheckOutcome(stored, net, sendFlag, c, join, hash).value.added, hash)
    ensures CheckOutcome(stored, net, sendFlag, c, join, hash).value.stored ==
              stored + KeySet(Bot, Kept(Gather(net, join).value.items), hash)
  {
    var g := Gather(net, join).value;
    var filtered := Kept(g.items);
    var added := NewItems(Bot, stored, filtered, hash);
    NewItemsSpec(Bot, stored, filtered, hash);
    KeptSubsequence(g.items);
    forall x | x in filtered ensures x in g.items && Keep(x) {
      var k :| 0 <= k < |filtered| && filtered[k] == x;
      assert KeptIdx(g.items)[k] in KeptIdx(g.items);
    }
    forall x | x in g.items && Keep(x) && Key(Bot, x, hash) !in stored
      ensures Key(Bot, x, hash) in KeySet(Bot, added, hash)
    {
      var i :| 0 <= i < |g.items| && g.items[i] == x;
      assert i in KeptIdx(g.items);
      var k :| 0 <= k < |KeptIdx(g.items)| && KeptIdx(g.items)[k] == i;
      assert filtered[k] == x;
      KeySetSpec(Bot, filtered, hash);
      assert Key(Bot, x, hash) in KeySet(Bot, filtered, hash);
    }
  }

  /** A second run on the same answers reports nothing and sends nothing. */
  lemma CheckTwiceIsQuiet(stored: set<string>, net: Net, sendFlag: bool, c: BotConfig,
                          join: string -> string, hash: string -> string)
    requires CheckOutcome(stored, net, sendFlag, c, join, hash).Ok?
    ensures CheckOutcome(CheckOutcome(stored, net, sendFlag, c, join, hash).value.stored, net, sendFlag, c, join, hash).Ok?
    ensures CheckOutcome(CheckOutcome(stored, net, sendFlag, c, join, hash).value.stored, net, sendFlag, c, join, hash).value.added == []
    ensures CheckOutcome(CheckOutcome(stored, net, sendFlag, c, join, hash).value.stored, net, sendFlag, c, join, hash).value.message == None
  {
    var g := Gather(net, join).value;
    SecondRunEmpty(Bot, stored, Kept(g.items), hash);
  }

  /** The webhook's commands, decided on the stripped, lower-cased message body. */
  datatype Command = Count | Check | Help

  /** `(request.values.get("Body") or "").strip().lower()` matched against the command words. */
  function ParseCommand(body: Option<string>): Command
  {
    var incoming := Lower(Strip(body.GetOr("")));
    if incoming == "cantidad" || incoming == "conteo" || incoming == "count" then Count
    else if incoming == "revisar" || incoming == "check" || incoming == "checar" then Check
    else Help
  }

  /** The command does not depend on letter case. */
  lemma CommandIgnoresCase(body: string)
    ensures ParseCommand(Some(Lower(body))) == ParseCommand(Some(body))
  {
    StripLowerCommute(body);
    LowerIdempotent(Strip(body));
  }

  /** The command does not depend on whitespace around the word. */
  lemma CommandIgnoresPadding(pre: string, body: string, post: string)
    requires SpaceRange(pre, 0, |pre|) && SpaceRange(post, 0, |post|)
    ensures ParseCommand(Some(pre + body + post)) == ParseCommand(Some(body))
  {
    StripSurrounding(pre, body, post);
  }

  /** A request without a body gets the help text. */
  lemma MissingBodyIsHelp()
    ensures ParseCommand(None) == Help
  {
    assert Strip("") == "";
  }

  /** A capitalised command word with any whitespace around it, such as " Cantidad\n", is the count command. */
  lemma CommandExample(pre: string, post: string)
    requires SpaceRange(pre, 0, |pre|) && SpaceRange(post, 0, |post|)
    ensures ParseCommand(Some(pre + "Cantidad" + post)) == Count
  {
    CommandIgnoresPadding(pre, "Cantidad", post);
    CantidadIsStripped();
    CantidadLowered();
  }

  lemma CantidadIsStripped()
    ensures Strip("Cantidad") == "Cantidad"
  {
    var w := "Cantidad";
    assert !IsSpace(w[0]) && !IsSpace(w[|w| - 1]);
    StripCut(w, 0, |w|);
    assert w[0..|w|] == w;
  }

  lemma CantidadLowered()
    ensures Lower("Cantidad") == "cantidad"
  {
    var w, l := "Cantidad", Lower("Cantidad");
    forall i | 0 <= i < |w| ensures l[i] == "cantidad"[i] {
      assert l[i] == LowerChar(w[i]);
    }
  }

  const HelpText: string :=
    "Comandos:\n\U{2022} *cantidad* \U{2192} total de resultados\n\U{2022} *revisar* \U{2192} busca nuevos y los lista"

  /** The count command's reply: the total, or the error that prevented it. */
  function CountReply(total: Result<int, string>): string
  {
    match total
    case Ok(n) => "\U{1F522} Resultados actuales con tus filtros (Southern US): " + IntToString(n)
    case Err(e) => "\U{26A0}\U{FE0F} No pude obtener el conteo: " + e
  }

  /** The short line of the check reply: title and location, without the link. */
  function ShortLine(l: Listing): string
  {
    "\U{2022} " + l.title + " [" + PlaceText(l) + "]"
  }

  /** The most records the check reply lists (the digest shows six). */
  const ReplyShown: nat := 5

  /** The short lines of the first five new records. */
  function ShortLines(added: seq<Listing>): seq<string>
  {
    var k := Min(|added|, ReplyShown);
    seq(k, i requires 0 <= i < k => ShortLine(added[i]))
  }

  /** The check command's reply: up to five new records and the total, or the error. */
  function CheckReply(run: Result<CheckRun, string>): string
  {
    match run
    case Ok(r) =>
      if r.added != [] then
        "\U{2705} Nuevos detectados:\n" + Join(ShortLines(r.added), "\n") + "\n\nTotal listados: " + IntToString(r.total)
      else "Sin novedades nuevas. Total listados: " + IntToString(r.total)
    case Err(e) => "\U{26A0}\U{FE0F} Error al revisar: " + e
  }

  /** A count reply ends with the total's digits, or with the error that prevented the count. */
  lemma CountReplyShows(total: Result<int, string>)
    ensures total.Ok? ==> EndsWith(CountReply(total), IntToString(total.value))
    ensures total.Err? ==> EndsWith(CountReply(total), total.error)
  {
    match total
    case Ok(n) => EndsWithLast("\U{1F522} Resultados actuales con tus filtros (Southern US): ", IntToString(n));
    case Err(e) => EndsWithLast("\U{26A0}\U{FE0F} No pude obtener el conteo: ", e);
  }

  /**
    A check reply ends with the total, or with the error; when there are new records it
    lists the short line of each of the first five and no more lines than that, where
    the digest would show six and an overflow line.
   */
  lemma CheckReplyShows(run: Result<CheckRun, string>)
    ensures run.Err? ==> EndsWith(CheckReply(run), run.error)
    ensures run.Ok? ==> EndsWith(CheckReply(run), IntToString(run.value.total))
    ensures run.Ok? ==> forall i :: 0 <= i < Min(|run.value.added|, ReplyShown) ==>
              Contains(CheckReply(run), ShortLine(run.value.added[i]))
    ensures run.Ok? && |run.value.added| > Shown ==> |ShortLines(run.value.added)| == ReplyShown < Shown
  {
    match run
    case Err(e) => EndsWithLast("\U{26A0}\U{FE0F} Error al revisar: ", e);
    case Ok(r) =>
      var digits := IntToString(r.total);
      if r.added == [] {
        EndsWithLast("Sin novedades nuevas. Total listados: ", digits);
      } else {
        var head := "\U{2705} Nuevos detectados:\n";
        var ls := ShortLines(r.added);
        var joined := Join(ls, "\n");
        var front := head + joined + "\n\nTotal listados: ";
        assert CheckReply(run) == front + digits;
        EndsWithLast(front, digits);
        forall i | 0 <= i < Min(|r.added|, ReplyShown) ensures Contains(CheckReply(run), ShortLine(r.added[i])) {
          var j := JoinHasPart(ls, "\n", i);
          OccursAfterPrefix(head, joined, ls[i], j);
          OccursBeforeSuffix(head + joined, "\n\nTotal listados: " + digits, ls[i], |head| + j);
          assert head + joined + ("\n\nTotal listados: " + digits) == CheckReply(run);
        }
      }
  }

  /**
    The webhook: its reply and the keys stored afterwards. A count leaves the store
    alone; a check runs `check_new_items` without sending, so it marks what it reports.
   */
  function WebhookOutcome(body: Option<string>, stored: set<string>, net: Net, c: BotConfig,
                          join: string -> string, hash: string -> string): (string, set<string>)
  {
    match ParseCommand(body)
    case Count => (CountReply(GetTotal(net, join)), stored)
    case Check =>
      var run := CheckOutcome(stored, net, false, c, join, hash);
      (CheckReply(run), if run.Ok? then run.value.stored else stored)
    case Help => (HelpText, stored)
  }

  method Webhook(store: SeenStore, body: Option<string>, net: Net, c: BotConfig,
                 join: string -> string, hash: string -> string) returns (reply: string)
    modifies store
    ensures (reply, store.keys) == WebhookOutcome(body, old(store.keys), net, c, join, hash)
  {
    var cmd := ParseCommand(body);
    match cmd {
      case Count =>
        var total: Result<int, string>;
        var a: Result<ApiResults, ApiError> := Err(NotJson);
        if net.api.Fetched? {
          a := FetchResultsViaApi(net.api.answer, join);
        }
        if a.Ok? {
          total := Ok(a.value.total);
        } else if net.html.Fetched? {
          var n := TotalFromPage(net.html.answer);
          total := Ok(n);
        } else {
          total := Err(net.html.message);
        }
        reply := CountReply(total);
      case Check =>
        var run := CheckNewItems(store, net, false, c, join, hash);
        reply := CheckReply(run);
      case Help =>
        reply := HelpText;
    }
  }

  /** A check from the webhook never produces a message to send, whatever the configuration. */
  lemma WebhookCheckSendsNothing(stored: set<string>, net: Net, c: BotConfig, join: string -> string, hash: string -> string)
    requires CheckOutcome(stored, net, false, c, join, hash).Ok?
    ensures CheckOutcome(stored, net, false, c, join, hash).value.message == None
  {
  }

  /** The count and help commands leave the store as it was. */
  lemma OnlyCheckTouchesStore(body: Option<string>, stored: set<string>, net: Net, c: BotConfig,
                              join: string -> string, hash: string -> string)
    requires ParseCommand(body) != Check
    ensures WebhookOutcome(body, stored, net, c, join, hash).1 == stored
  {
  }

  /**
    A check from the webhook stores what a check run stores: every filtered record's key
    when the records could be gathered, nothing when they could not.
   */
  lemma WebhookCheckStoresFiltered(body: Option<string>, stored: set<string>, net: Net, c: BotConfig,
                                   join: string -> string, hash: string -> string)
    requires ParseCommand(body) == Check
    ensures Gather(net, join).Err? ==> WebhookOutcome(body, stored, net, c, join, hash).1 == stored
    ensures Gather(net, join).Ok? ==>
              WebhookOutcome(body, stored, net, c, join, hash).1 == stored + KeySet(Bot, Kept(Gather(net, join).value.items), hash)
  {
    if Gather(net, join).Ok? {
      CheckReportsNewFilteredRecords(stored, net, false, c, join, hash);
    }
  }

  /** A check never removes a stored key. */
  lemma StoreOnlyGrows(body: Option<string>, stored: set<string>, net: Net, c: BotConfig,
                       join: string -> string, hash: string -> string)
    ensures stored <= WebhookOutcome(body, stored, net, c, join, hash).1
  {
  }
}
