/**
  rb_watch_rbx.py's `main`: fetch the search page, extract and filter its records, mark
  the new ones in the seen-store and send them as one digest.
 */
module RbWatch {
  import opened Wrappers
  import opened Text
  import opened Listings
  import opened Filter
  import opened Page
  import opened Seen
  import opened Digest

  /**
    How a run ends: the page request raised; no record passed the filter; nothing was
    new; or a digest with this body was handed over, and `delivered` says whether
    sending it went through (when it did not, the exception ends the run).
   */
  datatype WatchEnd = FetchFailed(message: string) | NoMatches | NothingNew | Sent(body: string, delivered: bool)

  /**
    The run as a function of the stored keys: how it ends and the keys stored afterwards.
    The store is opened only when some record passed the filter, and its new keys are
    committed before the digest is sent.
   */
  function MainOutcome(stored: set<string>, page: Fetch<Page>, delivered: bool,
                       join: string -> string, hash: string -> string): (WatchEnd, set<string>)
  {
    match page
    case Failed(e) => (FetchFailed(e), stored)
    case Fetched(p) =>
      var filtered := Kept(PageItems(Watch, p, join));
      if filtered == [] then (NoMatches, stored)
      else
        var added := NewItems(Watch, stored, filtered, hash);
        var after := stored + KeySet(Watch, filtered, hash);
        if WatchSends(added) then (Sent(Body(Watch, added), delivered), after) else (NothingNew, after)
  }

  /** `main`, step by step: the run of the script. */
  method Run(store: SeenStore, page: Fetch<Page>, delivered: bool,
              join: string -> string, hash: string -> string) returns (end: WatchEnd)
    modifies store
    ensures (end, store.keys) == MainOutcome(old(store.keys), page, delivered, join, hash)
  {
    if page.Failed? {
      return FetchFailed(page.message);
    }
    var items := ExtractPageItems(Watch, page.answer, join);
    var filtered := FilterItems(items);
    if filtered == [] {
      return NoMatches;
    }
    var added := store.MarkNew(Watch, filtered, hash);
    if added != [] {
      var lines := Lines(Watch, added);
      end := Sent(Header(Watch) + Join(lines, "\n\n"), delivered);
    } else {
      end := NothingNew;
    }
  }

  /** The store is committed before sending: a failed delivery leaves the same keys as a good one. */
  lemma CommitBeforeSend(stored: set<string>, page: Fetch<Page>, join: string -> string, hash: string -> string)
    ensures MainOutcome(stored, page, false, join, hash).1 == MainOutcome(stored, page, true, join, hash).1
  {
  }

  /**
    A digest is sent exactly when some filtered record is new, and it carries those
    records; the store changes only when some record passed the filter.
   */
  lemma SendsExactlyTheNew(stored: set<string>, p: Page, delivered: bool, join: string -> string, hash: string -> string)
    ensures MainOutcome(stored, Fetched(p), delivered, join, hash).0.Sent? <==>
              WatchSends(NewItems(Watch, stored, Kept(PageItems(Watch, p, join)), hash))
    ensures MainOutcome(stored, Fetched(p), delivered, join, hash).0.Sent? ==>
              MainOutcome(stored, Fetched(p), delivered, join, hash).0.body == Body(Watch, NewItems(Watch, stored, Kept(PageItems(Watch, p, join)), hash))
    ensures Kept(PageItems(Watch, p, join)) == [] ==> MainOutcome(stored, Fetched(p), delivered, join, hash).1 == stored
  {
    if Kept(PageItems(Watch, p, join)) == [] {
      assert NewItems(Watch, stored, [], hash) == [];
    }
  }

  /** Running again on the same page sends nothing. */
  lemma WatchTwiceIsQuiet(stored: set<string>, page: Fetch<Page>, delivered: bool, join: string -> string, hash: string -> string)
    ensures !MainOutcome(MainOutcome(stored, page, delivered, join, hash).1, page, delivered, join, hash).0.Sent?
  {
    if page.Fetched? {
      var filtered := Kept(PageItems(Watch, page.answer, join));
      SecondRunEmpty(Watch, stored, filtered, hash);
    }
  }

  /** A page that cannot be fetched leaves the store untouched. */
  lemma FetchFailureKeepsStore(stored: set<string>, e: string, delivered: bool, join: string -> string, hash: string -> string)
    ensures MainOutcome(stored, Failed(e), delivered, join, hash) == (FetchFailed(e), stored)
  {
  }
}
