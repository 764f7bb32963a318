# rb-whatsapp-bot listing pipeline, in Dafny

Two Python scripts watch the Ritchie Bros. search page for Caterpillar D6/D7/D8
dozers in the south-east of the United States. Each new match is reported at most
once. `rb_watch_rbx.py` sends a WhatsApp digest that lists the first six new matches
and counts the rest. `rb_bot.py`'s webhook check marks new matches as seen and lists
the first five in its reply; the check's own send path is never taken by the script,
which calls it with sending turned off.

- `rb_bot.py` is a Flask webhook. It first asks the JSON search API and falls back
  to the HTML page. It answers the commands *cantidad* (count) and *revisar* (check).
- `rb_watch_rbx.py` is a one-shot script. It reads the page only.

Both scripts run the same pipeline:

1. extract `{title, link, location}` records by probing candidate JSON fields in order;
2. collapse the records read off the page by `(title, link)`;
3. keep the records whose title names D6, D7 or D8 as a whole word and whose location
   is empty or in the south-east;
4. mark the records that are new in a persistent seen-store, committing the marks
   before anything is sent;
5. report them: `rb_watch_rbx.py` builds and sends a digest of a header, an entry for
   each of the first six new records and, when there are more, one overflow entry
   "... y N más" (at most seven entries). If that send fails, the records stay marked and
   are not reported again. `rb_bot.py`'s check can build the same digest, but the
   webhook runs it with sending off and replies with at most five new records instead.

The model keeps the two scripts apart wherever they differ:

- `rb_bot.py`'s API route returns its records as the list gives them, with no
  collapse (`Api.ApiKeepsDuplicates`); only the page route collapses;
- where the location comes from (`Extract.WatchPlace`, `Extract.BotPlace`);
- whether an empty url is accepted (`Extract.NodeRecord`);
- the key separator, `"|"` or `"||"` (`Seen.Separator`);
- the digest text (`Digest.ItemLine`, `Digest.MoreLine`, `Digest.Header`);
- when the digest is sent (`Digest.BotSends`, `Digest.WatchSends`).

Modules, one file each:

| file | module | what it holds |
|---|---|---|
| `wrappers.dfy` | `Wrappers` | `Option`, `Result`, `Fetch` (a request's answer or its error message) |
| `json.dfy` | `Json` | parsed JSON values, `x.get(k)`, the ordered string probe, truthiness |
| `text.dfy` | `Text` | `strip()`, `lower()`, substring search, `str(n)`, `"sep".join` |
| `listings.dfy` | `Listings` | the record, the script variant, the `(title, link)` collapse |
| `filter.dfy` | `Filter` | the `\bD[678]\b` keyword test, the south-east test, the filter loop |
| `extract.dfy` | `Extract` | field probing per object node, the recursive `walk` as a class `Walker` |
| `api.dfy` | `Api` | `fetch_results_via_api` after the request |
| `page.dfy` | `Page` | the anchor fallback, the page items, `extract_total_from_page` |
| `seen.dfy` | `Seen` | the key, the seen-store class `SeenStore`, the new-item marking |
| `digest.dfy` | `Digest` | the digest lines and body, and `rb_bot.py`'s send guard |
| `rb_bot.dfy` | `RbBot` | the API-then-page fallback, `check_new_items`, the webhook |
| `rb_watch.dfy` | `RbWatch` | `main` of `rb_watch_rbx.py` |

Methods that run the source's loops are proved equal to specification functions:

- `Json.ProbeFirstStr` and `Extract.ProbeWatchPlace`;
- the `Walker` methods, `Listings.CollapseByPair` and `Filter.FilterItems`;
- `Api.FetchResultsViaApi`, `Page.FallbackAnchors` and `Page.TotalFromPage`;
- `Seen.SeenStore.MarkNew`.

Lemmas then state what those functions promise.

## Model

| member | source | states |
|---|---|---|
| `Json.GetSpec` | rb_bot.py:120 | `x.get(k)` is None exactly when no member has key `k`, and otherwise the value of a member with key `k` |
| `Json.FirstStrSpec` | rb_bot.py:119-124 | the ordered probe finds nothing iff no candidate key holds a string; otherwise it gives the string of a candidate, with every earlier candidate holding none |
| `Json.ProbeFirstStr` | rb_watch_rbx.py:81-88 | the probe loop with its `break` returns the first candidate's string (`FirstStr`) |
| `Text.StripSpec` | rb_bot.py:134 | `strip()` gives a contiguous piece of the input, only whitespace is cut, and the result neither starts nor ends with whitespace |
| `Text.StripCut` | rb_bot.py:134 | `strip()` is determined by that contract: whitespace, then a piece without outer whitespace, then whitespace strips to that piece |
| `Text.Lower` | rb_bot.py:94 | `lower()` keeps the length and lower-cases each character |
| `Text.StripLowerCommute` | rb_bot.py:273 | `strip().lower()` equals `lower().strip()` |
| `Text.LowerIdempotent` | rb_bot.py:273 | lower-casing twice is lower-casing once |
| `Text.StripSurrounding` | rb_bot.py:273 | whitespace added around a string does not change its `strip()` |
| `Text.Contains` | rb_bot.py:95 | `needle in hay` holds iff the needle occurs at some position |
| `Text.JoinHasPart` | rb_bot.py:256 | every part of `sep.join(parts)` occurs in the joined text |
| `Text.LowerKeepsOccurrence` | rb_bot.py:94-95 | an all-lower-case needle found in a text is found in the lower-cased text at the same place |
| `Text.NatToString` | rb_bot.py:255 | `str(n)` is a non-empty string of decimal digits |
| `Text.NatToStringRoundTrip` | rb_bot.py:255 | reading the digits of `str(n)` back gives `n` |
| `Listings.UniqKeys` | rb_bot.py:216-219 | the dictionary's key order holds each pair of the input once, and only those pairs |
| `Listings.Latest` | rb_bot.py:216-218 | the dictionary's values are keyed by their own `(title, link)` |
| `Listings.CollapseByPair` | rb_watch_rbx.py:139-143 | the dictionary loop returns `Collapse(items)` |
| `Listings.UniqKeysFirstOrder` | rb_bot.py:216-219 | keys come in the order of their first occurrence |
| `Listings.LatestIsLast` | rb_bot.py:216-218 | the value kept for a pair is the last record with that pair |
| `Listings.CollapseSpec` | rb_bot.py:216-219 | the collapse has distinct pairs, exactly the input's pairs, in first-occurrence order, each carrying the last record with that pair |
| `Filter.HasKeywordsSpec` | rb_bot.py:65-67 | the title matches iff `D`/`d` followed by 6, 7 or 8 occurs with no word character on either side; a missing title is "" |
| `Filter.StateCodeAt` | rb_bot.py:72 | a `,\s*([A-Z]{2})\b` match yields two ASCII capitals |
| `Filter.FirstStateCode` | rb_bot.py:72-73 | `re.search` yields the leftmost match: none iff no position matches, else the first matching position's code |
| `Filter.IsSoutheast` | rb_watch_rbx.py:41-54 | an empty location is never in the region |
| `Filter.FilterItems` | rb_bot.py:234-240 | the filter loop with its `continue`s returns `Kept(items)` |
| `Filter.KeptSubsequence` | rb_watch_rbx.py:158-169 | the filter keeps an order-preserving subsequence; a record is kept iff its title matches and its location is empty or south-east |
| `Filter.KeywordRejectsSuffixedCode` | rb_bot.py:15 | "CAT D8T TRACK TYPE" does not match, because `\b` is needed after the digit |
| `Filter.KeywordRejectsLongerNumber` | rb_bot.py:15 | "D60 LOADER" does not match |
| `Filter.KeywordAcceptsWholeWord` | rb_bot.py:65-67 | "CAT D8 DOZER" and lower-case "2015 cat d7" match |
| `Filter.KeywordMissingTitle` | rb_bot.py:66 | a missing title matches nothing |
| `Filter.NoCommaNoCode` | rb_bot.py:72 | a location without a comma has no state-code match |
| `Filter.FirstCommaCode` | rb_bot.py:72 | when the first comma starts a match, that match is the one used |
| `Filter.NoStateName` | rb_bot.py:75-79 | a text with no `i`, `e` or `b` in either case names no state |
| `Filter.OutsideByCode` | rb_bot.py:69-79 | a first code outside the eight states, with no state name, is outside the region |
| `Filter.InsideByName` | rb_bot.py:75-79 | a state name in the lower-cased text puts the location in the region |
| `Filter.RegionEmpty` | rb_bot.py:70-71 | "" is not in the region |
| `Filter.RegionCodeInSet` | rb_bot.py:72-74 | "Tampa, FL" is in the region |
| `Filter.RegionCodeOutsideSet` | rb_bot.py:72-79 | "Tampa, CA" is not |
| `Filter.RegionFullName` | rb_bot.py:75-79 | "Somewhere in Georgia" is in the region |
| `Filter.RegionFirstMatchOnly` | rb_bot.py:72-73 | only the first code counts: "Waco, TX, Ocala, FL" is not in the region |
| `Extract.WatchPlaceSpec` | rb_watch_rbx.py:91-99 | the location is "" iff no outer key's probe gives a non-empty string; otherwise it is the probe of an outer key before which every probe gave nothing or "" |
| `Extract.ProbeWatchPlace` | rb_watch_rbx.py:91-99 | the outer-key loop with its carried `loc` ends, up to `loc or ""`, with `WatchPlace` |
| `Extract.NodeRecordSpec` | rb_watch_rbx.py:101-107 | rb_bot.py accepts a node iff title and url are non-empty; rb_watch_rbx.py iff the title is non-empty and some url candidate holds a string; the record is the stripped title, `urljoin(BASE, url)` and the stripped location |
| `Extract.ProbeNode` | rb_bot.py:169-188 | the node step as run returns `NodeRecord` |
| `Extract.Walker.constructor` | rb_bot.py:160 | the walk starts with an empty `items` list |
| `Extract.Walker.Walk` | rb_bot.py:167-193 | `walk(x)` appends exactly `Records(x)` to `items` |
| `Extract.Walker.WalkObject` | rb_bot.py:169-190 | on an object, `walk` appends the node's own record, if accepted, ahead of everything its values append |
| `Extract.Walker.WalkValues` | rb_bot.py:189-190 | walking the values in key order appends their records in that order |
| `Extract.Walker.WalkElems` | rb_watch_rbx.py:113-115 | walking a list appends its elements' records in element order |
| `Extract.RecordsArePreorder` | rb_bot.py:167-193 | `walk`'s records are the records of the object nodes in pre-order, the parent before its children |
| `Extract.MemberRecordsArePreorder` | rb_bot.py:189-190 | the same for the values of an object |
| `Extract.ElemRecordsArePreorder` | rb_bot.py:191-193 | the same for the elements of a list |
| `Extract.RootRecordFirst` | rb_bot.py:183-190 | an accepted object's record precedes every record from its children |
| `Extract.FalsyYieldsNothing` | rb_bot.py:195-196 | a document that `if data:` rejects would yield no record anyway |
| `Extract.SchemaDrift` | rb_bot.py:170-175 | `productTitle`/`seoUrl` give the same record as `title`/`url` |
| `Extract.EmptyUrlVariants` | rb_watch_rbx.py:101-102 | an empty url is kept by rb_watch_rbx.py (link `join("")`) and dropped by rb_bot.py, even with a later non-empty candidate |
| `Extract.PlaceVariants` | rb_watch_rbx.py:91-99 | rb_watch_rbx.py moves past a location object that gives "" to the next outer key; rb_bot.py gets "" |
| `Api.ApiOutcomeSpec` | rb_bot.py:94-142 | the route raises "not JSON" iff the content type lacks "application/json", and fails to parse iff it has it but the body does not parse; otherwise the records are, in order, the accepted records of the raw list's object elements, one per chosen element, and the total is the stated one or else the number of elements that gave a record |
| `Api.FirstIntSpec` | rb_bot.py:100-104 | `StatedTotal`'s probe finds nothing iff no total key holds an integer; otherwise it gives the integer of some key, with no integer under any earlier key |
| `Api.RawListChoice` | rb_bot.py:106-113 | `RawList` is the list under "results" when that is a list, else the list under "items" when that is a list, else empty |
| `Api.ProbeTotal` | rb_bot.py:100-104 | the total loop returns the first total key's integer, trying the keys in order |
| `Api.FetchResultsViaApi` | rb_bot.py:94-142 | the function as run, with both loops, returns `ApiOutcome` |
| `Api.ApiRecordsFromElements` | rb_bot.py:116-137 | the records are an order-preserving subsequence of the raw list: the k-th record is the node record of the k-th chosen element, positions increase, and an element is chosen iff it is an object whose node record is accepted |
| `Api.ApiKeepsDuplicates` | rb_bot.py:116-142 | the API route does not collapse: a repeated object yields two records |
| `Api.ResultsPreferred` | rb_bot.py:109-113 | "results" wins over "items" when both are lists |
| `Api.ItemsWhenResultsNotList` | rb_bot.py:110-113 | "items" is used when "results" is not a list |
| `Api.NonObjectBody` | rb_bot.py:102-113 | a top-level list yields no records and a total of 0 |
| `Api.BooleanTotal` | rb_bot.py:103-104 | a boolean total counts as 1 or 0, as Python's `isinstance(True, int)` holds |
| `Api.RealTotalSkipped` | rb_bot.py:101-104 | a real-valued total is skipped and a later integer key is used |
| `Api.JsonContentFromLowerCase` | rb_bot.py:94-95 | a content type that contains "application/json" passes |
| `Api.NoLetterJIsNotJson` | rb_bot.py:94-96 | a content type with no `j` or `J`, such as "text/html", makes the route raise |
| `Api.MissingTypeIsNotJson` | rb_bot.py:94 | a missing Content-Type makes the route raise |
| `Page.FallbackAnchors` | rb_bot.py:198-214 | the anchor loop with its `continue`s returns `AnchorRecords` |
| `Page.AnchorRecordsSpec` | rb_watch_rbx.py:121-137 | the fallback yields the records of the anchors at strictly increasing positions, one per kept anchor, and an anchor is kept iff its href and text are non-empty and its href is an item path |
| `Page.WalkDocument` | rb_bot.py:195-196 | `if data: walk(data)` yields `Walked` |
| `Page.ExtractPageItems` | rb_bot.py:157-219 | the extraction as run returns `PageItems` |
| `Page.PageItemsSpec` | rb_bot.py:198-219 | the anchors are used only when the walk yields nothing; the result has pairwise distinct `(title, link)` pairs |
| `Page.WalkedIsPreorder` | rb_watch_rbx.py:72-118 | the page's walked records are the pre-order node records |
| `Page.NoDocumentMeansAnchors` | rb_bot.py:161-198 | without a usable `__NEXT_DATA__` the anchors decide |
| `Page.TotalFromPage` | rb_bot.py:144-155 | the total as run returns `PageTotal` |
| `Page.ItemLinksSpec` | rb_bot.py:150-155 | the link set is exactly the anchors' item-path hrefs, so the count is at most the anchor count |
| `Page.ItemPathAt` | rb_bot.py:153 | an href holding a path fragment matches the case-insensitive path regex |
| `Page.CategoryPageIsItemPath` | rb_bot.py:153 | "/cp/..." hrefs count as item links |
| `Page.RepeatedHrefCountedOnce` | rb_bot.py:150-155 | two anchors with the same item href count once |
| `Page.TextlessAnchorCountsButYieldsNothing` | rb_bot.py:151-154 | an item anchor without text counts toward the total but gives no record |
| `Page.PageTotalSpec` | rb_bot.py:144-155 | `PageTotal` takes the "Mostrando" number, else the "Próximos" number, else the count of distinct item hrefs, which is at most the anchor count and is 0 iff no href is an item path |
| `Page.ShowingWins` | rb_bot.py:145-146 | the "Mostrando" total wins over everything else |
| `Seen.SeenStore.constructor` | rb_bot.py:56-63 | the store starts with the keys on disk |
| `Seen.SeenStore.Insert` | rb_bot.py:248 | an insert adds the key |
| `Seen.SeenStore.MarkNew` | rb_bot.py:243-250 | the marking loop reports `NewItems` and leaves the store holding the old keys plus the batch's keys |
| `Seen.KeySetSpec` | rb_bot.py:244-245 | a key is in the batch's key set iff some record has it |
| `Seen.NewItemsInOrder` | rb_bot.py:243-249 | the loop reports in batch order: the reported records sit at increasing batch positions, and a record is reported iff its key was not stored and no earlier record of the batch has it |
| `Seen.NewItemsSpec` | rb_watch_rbx.py:178-184 | reported records come from the batch with keys not stored before, no key reported twice, and together they carry every unstored key of the batch |
| `Seen.SecondRunEmpty` | rb_bot.py:244-249 | a second run over the same batch reports nothing |
| `Seen.AtMostOnceAcrossRuns` | rb_bot.py:244-249 | nothing reported by a second run has the key of something the first run reported |
| `Seen.SeparatorCollision` | rb_bot.py:245 | with "|", ("a|b", "c") and ("a", "b|c") hash the same text; with "||" they do not |
| `Seen.CollisionHidesSecond` | rb_bot.py:245-249 | so rb_bot.py reports only the first of them, even on an empty store |
| `Digest.LinesSpec` | rb_bot.py:253-255 | the first six records get a line each, in order; there is an overflow line naming the rest iff there are more than six |
| `Digest.BodyShowsRecords` | rb_watch_rbx.py:145-146 | `Body`, the message, opens with the script's `Header` and contains the line of each of the first six records, and the overflow line when there are more; the two scripts' headers differ |
| `Digest.ItemLineShowsRecord` | rb_bot.py:253 | a record's line starts with the bullet and title and ends with a newline and the link |
| `Digest.LineVariants` | rb_watch_rbx.py:189 | rb_watch_rbx.py's line differs from rb_bot.py's by one space before the bracket |
| `Digest.EmptyLocationShownAsMissing` | rb_bot.py:253 | an empty location is shown as "Ubicación N/D" |
| `Digest.NineRecords` | rb_bot.py:253-255 | nine records give six lines and "… y 3 más" (rb_watch_rbx.py: "... y 3 más") |
| `Digest.SixRecordsNoOverflow` | rb_bot.py:254 | six records give no overflow line |
| `Digest.BotMessage` | rb_bot.py:252-258 | a message exists iff the send guard holds |
| `Digest.BotGuardNeedsAll` | rb_bot.py:252 | the guard fails when the flag, the new records, the token or the destination is missing |
| `Digest.BlankTokenMeansNoClient` | rb_bot.py:49-53 | a token of spaces counts as missing, since it is stripped |
| `RbBot.GatherItems` | rb_bot.py:225-231 | the API route, else the page route, as run, returns `Gather` |
| `RbBot.CheckNewItems` | rb_bot.py:221-262 | a check run returns `CheckOutcome`; on error the store is untouched, otherwise it holds the run's keys |
| `RbBot.ApiFirst` | rb_bot.py:225-226 | when the API route works the page is never consulted |
| `RbBot.FallbackToPage` | rb_bot.py:227-231 | when the API route raises, the page decides, and a page fetch error is the run's error |
| `RbBot.CountAgreesWithCheck` | rb_bot.py:277-283 | the count command and a check run report the same total |
| `RbBot.CheckReportsNewFilteredRecords` | rb_bot.py:233-249 | the report is `NewItems` of the filtered records; every reported record was gathered, passes the filter and was not stored; keys are distinct; every gathered record that passes the filter with an unstored key has its key reported; the store becomes the old keys plus every filtered record's key |
| `RbBot.CheckTwiceIsQuiet` | rb_bot.py:242-262 | a second check on the same answers reports and sends nothing |
| `RbBot.CommandIgnoresCase` | rb_bot.py:273 | `ParseCommand` does not depend on letter case |
| `RbBot.CommandIgnoresPadding` | rb_bot.py:273 | `ParseCommand` does not depend on surrounding whitespace |
| `RbBot.MissingBodyIsHelp` | rb_bot.py:273-301 | a request without a body gets the help text |
| `RbBot.CommandExample` | rb_bot.py:273-276 | "Cantidad" with any whitespace around it, such as " Cantidad\n", is the count command |
| `RbBot.CountReplyShows` | rb_bot.py:284-286 | `CountReply` ends with the total's digits, or with the message of the error that prevented the count |
| `RbBot.CheckReplyShows` | rb_bot.py:292-298 | `CheckReply` ends with the total, or with the error; with new records it contains the short line of each of the first five, and for more than six records it lists five where the digest shows six |
| `RbBot.WebhookCheckStoresFiltered` | rb_bot.py:289-291 | in `WebhookOutcome`, a check stores every filtered record's key when the records could be gathered and nothing when they could not |
| `RbBot.Webhook` | rb_bot.py:271-302 | the webhook's reply and store effect are `WebhookOutcome` |
| `RbBot.WebhookCheckSendsNothing` | rb_bot.py:291 | a check from the webhook produces no message |
| `RbBot.OnlyCheckTouchesStore` | rb_bot.py:276-287 | in `WebhookOutcome`, the count and help commands leave the store alone |
| `RbBot.StoreOnlyGrows` | rb_bot.py:271-302 | in `WebhookOutcome`, no command removes a stored key |
| `RbWatch.Run` | rb_watch_rbx.py:149-195 | `main` as run gives `MainOutcome`: its ending and the keys stored afterwards |
| `RbWatch.CommitBeforeSend` | rb_watch_rbx.py:185-192 | the store is committed before sending, so a failed delivery leaves the same keys |
| `RbWatch.SendsExactlyTheNew` | rb_watch_rbx.py:171-192 | a digest is sent iff some filtered record is new, and it lists those records; with no filtered record the store is untouched |
| `RbWatch.WatchTwiceIsQuiet` | rb_watch_rbx.py:178-188 | a second run on the same page sends nothing |
| `RbWatch.FetchFailureKeepsStore` | rb_watch_rbx.py:151-152 | a failed page request leaves the store untouched |

## Left out

- **HTTP.** Requests, headers, timeouts and `raise_for_status` are not modelled. Each request is a `Fetch` value: the answer, or the message of the exception.
- **HTML parsing.**
  - BeautifulSoup is not modelled. A page is its parsed `__NEXT_DATA__` document, its anchors and the two phrase totals.
  - Each anchor's `get_text(" ", strip=True)` is given as a field.
  - So is the `\b[A-Za-z .]+,\s*[A-Z]{2}\b` match in its parent's text ("" when there is none). That regex is not modelled.
- **Page totals.** The "Mostrando … resultados" and "Próximos (N)" regexes are not modelled. Their captured numbers are fields of `Page.Page`.
- **JSON parsing.** `json.loads` is not modelled.
  - A document is a `Json.Json` value.
  - A parse failure, a missing script tag and an empty script are all `None`.
  - Object keys are taken as distinct, as `json.loads` leaves them; `Get` returns the first binding.
- **Joining and hashing.** `urljoin(BASE, ·)` and `sha256(...).hexdigest()` are the function parameters `join` and `hash`. No property of either is assumed.
- **SQLite.** The seen-store is a set of keys. Directory creation, the connection, commit and close are not modelled, and neither are database errors.
- **Messaging and web stack.** Twilio, Flask, dotenv, the `/health` route, the TwiML wrapping of replies, `print`, the `__main__` blocks and `send_test.py` are not modelled.
- **Digest delivery.** Only the message is modelled.
  - For `rb_bot.py`, the attempted message is returned.
  - For `rb_watch_rbx.py`, `delivered` says whether the send raised.
  - `rb_watch_rbx.py` builds its client at import, even without credentials. This is not modelled, and neither are its sender and recipient addresses.
- **Unicode.** `IsSpace`, `IsWordChar` and `LowerChar` cover ASCII and Latin-1 only. The case-insensitive path regex is modelled as a substring test on the lower-cased href.
- **Exceptions.** Only request failures and the API route's two `raise` points are modelled. Other exceptions inside `check_new_items` are left out.
- **Recursion depth.** Python's recursion limit on `walk` is not modelled.
- **Title and keyword behaviour.**
  - The code strips titles but only tests them before stripping. A title of spaces only is truthy, so it yields a record with an empty title. The model does the same.
  - A title such as "CAT D8T TRACK TYPE" is not a match: the `\b` after the digit rejects it (`Filter.KeywordRejectsSuffixedCode`). The model follows the code here, although a D8T is a D8 model.
