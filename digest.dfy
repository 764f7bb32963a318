/**
  The WhatsApp digest that announces new records: at most six item lines, an overflow
  line for the rest, and a header; and the tests that decide whether it is sent.
 */
module Digest {
  import opened Wrappers
  import opened Text
  import opened Listings

  /** The most item lines a digest shows. */
  const Shown: nat := 6

  /** What an empty location is rendered as. */
  const NoPlace: string := "Ubicaci\U{F3}n N/D"

  /** `n['location'] or 'Ubicación N/D'`. */
  function PlaceText(l: Listing): string
  {
    if l.location == "" then NoPlace else l.location
  }

  /**
    One item line: a bullet, the title, the location in brackets and the link on the next
    line; rb_watch_rbx.py puts two spaces before the bracket, rb_bot.py one.
   */
  function ItemLine(s: Script, l: Listing): string
  {
    "\U{2022} " + l.title + (if s.Bot? then " [" else "  [") + PlaceText(l) + "]\n" + l.link
  }

  /** The line for the records beyond the sixth: "… y N más" (rb_bot.py) or "... y N más". */
  function MoreLine(s: Script, hidden: nat): string
  {
    (if s.Bot? then "\U{2026}" else "...") + " y " + NatToString(hidden) + " m\U{E1}s"
  }

  function Min(a: nat, b: nat): nat
  {
    if a <= b then a else b
  }

  /** The digest lines: one per record up to six, then the overflow line if there are more. */
  function Lines(s: Script, items: seq<Listing>): seq<string>
  {
    var k := Min(|items|, Shown);
    seq(k, i requires 0 <= i < k => ItemLine(s, items[i])) +
    (if |items| > Shown then [MoreLine(s, |items| - Shown)] else [])
  }

  const BotHeader: string := "\U{1F514} Checar: se agreg\U{F3}(n) nuevo(s) D6/D7/D8 (Sureste):\n\n"
  const WatchHeader: string := "\U{1F514} Ritchie Bros \U{2014} nuevos D6/D7/D8 (Sureste):\n\n"

  /** The header of the outgoing message. */
  function Header(s: Script): string
  {
    match s
    case Bot => BotHeader
    case Watch => WatchHeader
  }

  /** The message body: the header, then the lines separated by blank lines. */
  function Body(s: Script, items: seq<Listing>): string
  {
    Header(s) + Join(Lines(s, items), "\n\n")
  }

  /**
    The digest accounts for every record: the first six records get a line each, in
    order, and the overflow line names how many more there are, so the shown and the
    counted records add up to all of them; the overflow line is there exactly when
    there are more than six.
   */
  lemma LinesSpec(s: Script, items: seq<Listing>)
    ensures |items| <= Shown ==> |Lines(s, items)| == |items|
    ensures |items| > Shown ==> |Lines(s, items)| == Shown + 1 && Lines(s, items)[Shown] == MoreLine(s, |items| - Shown)
    ensures forall i :: 0 <= i < Min(|items|, Shown) ==> Lines(s, items)[i] == ItemLine(s, items[i])
  {
  }

  /**
    The message opens with the script's header and shows the line of each of the first
    six records, and the overflow line when there are more; the two scripts' headers differ.
   */
  lemma BodyShowsRecords(s: Script, items: seq<Listing>)
    ensures |Header(s)| <= |Body(s, items)| && Body(s, items)[..|Header(s)|] == Header(s)
    ensures forall i :: 0 <= i < Min(|items|, Shown) ==> Contains(Body(s, items), ItemLine(s, items[i]))
    ensures |items| > Shown ==> Contains(Body(s, items), MoreLine(s, |items| - Shown))
    ensures Header(Bot) != Header(Watch)
  {
    var ls := Lines(s, items);
    var joined := Join(ls, "\n\n");
    LinesSpec(s, items);
    assert (Header(s) + joined)[..|Header(s)|] == Header(s);
    forall i | 0 <= i < Min(|items|, Shown) ensures Contains(Body(s, items), ItemLine(s, items[i])) {
      var j := JoinHasPart(ls, "\n\n", i);
      OccursAfterPrefix(Header(s), joined, ls[i], j);
    }
    if |items| > Shown {
      var j := JoinHasPart(ls, "\n\n", Shown);
      OccursAfterPrefix(Header(s), joined, ls[Shown], j);
    }
    assert |BotHeader| != |WatchHeader|;
  }

  /** A record's line shows its title first and ends with its link. */
  lemma ItemLineShowsRecord(s: Script, l: Listing)
    ensures |ItemLine(s, l)| > 2 + |l.title| + |l.link|
    ensures ItemLine(s, l)[..2 + |l.title|] == "\U{2022} " + l.title
    ensures ItemLine(s, l)[|ItemLine(s, l)| - |l.link|..] == l.link
    ensures ItemLine(s, l)[|ItemLine(s, l)| - |l.link| - 1] == '\n'
  {
    var line := ItemLine(s, l);
    var head := "\U{2022} " + l.title;
    var mid := (if s.Bot? then " [" else "  [") + PlaceText(l) + "]\n";
    assert line == head + mid + l.link;
    assert (head + mid + l.link)[..|head|] == head;
    assert mid[|mid| - 1] == '\n';
    assert line[|line| - |l.link| - 1] == mid[|mid| - 1];
  }

  /** The two scripts' lines for the same record differ only by the extra space. */
  lemma LineVariants(l: Listing)
    ensures ItemLine(Watch, l) == "\U{2022} " + l.title + " " + ItemLine(Bot, l)[2 + |l.title|..]
  {
    var rest := " [" + PlaceText(l) + "]\n" + l.link;
    assert ItemLine(Bot, l) == ("\U{2022} " + l.title) + rest;
    assert ItemLine(Bot, l)[2 + |l.title|..] == rest;
  }

  /** A record without a location is shown with "Ubicación N/D". */
  lemma EmptyLocationShownAsMissing(s: Script, t: string, link: string)
    ensures ItemLine(s, Listing(t, link, "")) ==
            "\U{2022} " + t + (if s.Bot? then " [" else "  [") + "Ubicaci\U{F3}n N/D]\n" + link
  {
  }

  /** Nine new records: six item lines and the line "… y 3 más". */
  lemma NineRecords(items: seq<Listing>)
    requires |items| == 9
    ensures |Lines(Bot, items)| == 7
    ensures Lines(Bot, items)[6] == "\U{2026} y 3 m\U{E1}s"
    ensures Lines(Watch, items)[6] == "... y 3 m\U{E1}s"
  {
    assert NatToString(3) == "3";
  }

  /** Six records fit: no overflow line. */
  lemma SixRecordsNoOverflow(s: Script, items: seq<Listing>)
    requires |items| == 6
    ensures |Lines(s, items)| == 6 && forall i :: 0 <= i < 6 ==> Lines(s, items)[i] == ItemLine(s, items[i])
  {
  }

  /**
    rb_bot.py's credentials and addresses as read from the environment (a missing
    variable reads as ""); the predicates below strip them, as the script does.
   */
  datatype BotConfig = BotConfig(sid: string, token: string, waFrom: string, waTo: string)

  /** `twilio_client` is built only when both the SID and the token are non-empty. */
  predicate ClientConfigured(c: BotConfig)
  {
    Strip(c.sid) != "" && Strip(c.token) != ""
  }

  /** `send_whatsapp and nuevos and twilio_client and WA_FROM and WA_TO`. */
  predicate BotSends(sendFlag: bool, added: seq<Listing>, c: BotConfig)
  {
    sendFlag && added != [] && ClientConfigured(c) && Strip(c.waFrom) != "" && Strip(c.waTo) != ""
  }

  /** rb_watch_rbx.py sends whenever a record is new. */
  predicate WatchSends(added: seq<Listing>)
  {
    added != []
  }

  /** The message that would be handed to the messaging API. */
  datatype Outgoing = Outgoing(from: string, to: string, body: string)

  /** rb_bot.py's message, when its guard lets one through. */
  function BotMessage(sendFlag: bool, added: seq<Listing>, c: BotConfig): (m: Option<Outgoing>)
    ensures m.Some? <==> BotSends(sendFlag, added, c)
  {
    if BotSends(sendFlag, added, c) then Some(Outgoing(Strip(c.waFrom), Strip(c.waTo), Body(Bot, added))) else None
  }

  /** The send guard needs every one of its four parts: none of them can be left out. */
  lemma BotGuardNeedsAll(added: seq<Listing>, c: BotConfig)
    requires added != [] && ClientConfigured(c) && Strip(c.waFrom) != "" && Strip(c.waTo) != ""
    ensures BotSends(true, added, c) && !BotSends(false, added, c) && !BotSends(true, [], c)
    ensures !BotSends(true, added, BotConfig(c.sid, "", c.waFrom, c.waTo))
    ensures !BotSends(true, added, BotConfig(c.sid, c.token, c.waFrom, ""))
  {
    assert Strip("") == "";
  }

  /** A credential of spaces only counts as missing, since it is stripped first. */
  lemma BlankTokenMeansNoClient(sid: string, from: string, to: string)
    ensures !ClientConfigured(BotConfig(sid, "  ", from, to))
  {
    StripSpec("  ");
    assert SpaceRange("  ", 0, 2);
    StripCut("  ", 2, 0);
  }
}
