/**
  The model-code and region filter shared by both scripts: keep a record when its
  title contains D6, D7 or D8 as a whole word (case-insensitively) and its location
  is empty or in the south-east of the United States.
 */
module Filter {
  import opened Wrappers
  import opened Text
  import opened Listings

  /**
    The pattern `\bD<d>\b` under IGNORECASE matches at `i`: a `D` or `d`, then the digit,
    with a word boundary before and after. Both characters of the code are word
    characters, so the boundaries mean: no word character just before, none just after.
   */
  predicate CodeMatchAt(t: string, i: nat, d: char)
  {
    i + 2 <= |t| && (t[i] == 'D' || t[i] == 'd') && t[i + 1] == d &&
    (i == 0 || !IsWordChar(t[i - 1])) && (i + 2 == |t| || !IsWordChar(t[i + 2]))
  }

  /** `re.search(r"\bD<d>\b", t[i:], re.I)` scanning start positions from `i` on. */
  function SearchCodeFrom(t: string, d: char, i: nat): (r: bool)
    ensures r <==> exists j :: i <= j && CodeMatchAt(t, j, d)
    decreases |t| - i
  {
    if i + 2 > |t| then false
    else CodeMatchAt(t, i, d) || SearchCodeFrom(t, d, i + 1)
  }

  /** `_has_keywords` / `has_keywords`: a missing title counts as "". */
  function HasKeywords(text: Option<string>): bool
  {
    var t := text.GetOr("");
    SearchCodeFrom(t, '6', 0) || SearchCodeFrom(t, '7', 0) || SearchCodeFrom(t, '8', 0)
  }

  /** A title matches exactly when `D` or `d` and one of 6, 7, 8 stand as a whole word somewhere in it. */
  lemma HasKeywordsSpec(text: Option<string>)
    ensures HasKeywords(text) <==> exists j, d :: d in "678" && CodeMatchAt(text.GetOr(""), j, d)
  {
  }

  const SoutheastStates: set<string> := {"FL", "GA", "AL", "MS", "LA", "SC", "NC", "TN"}
  const SoutheastNames: seq<string> :=
    ["florida", "georgia", "alabama", "mississippi", "louisiana", "south carolina", "north carolina", "tennessee"]

  /**
    The regex `,\s*([A-Z]{2})\b` tried at `i`: a comma, the longest run of whitespace,
    two ASCII capitals and a boundary after them. Backing off the whitespace run can
    never help, since the character after a shorter run is whitespace, not a capital.
   */
  function StateCodeAt(loc: string, i: nat): (r: Option<string>)
    ensures r.Some? ==> |r.value| == 2 && IsAsciiUpper(r.value[0]) && IsAsciiUpper(r.value[1])
  {
    if i >= |loc| || loc[i] != ',' then None
    else
      var j := LeadEnd(loc, i + 1);
      if j + 2 <= |loc| && IsAsciiUpper(loc[j]) && IsAsciiUpper(loc[j + 1]) &&
         (j + 2 == |loc| || !IsWordChar(loc[j + 2]))
      then Some(loc[j..j + 2])
      else None
  }

  /** `re.search(r",\s*([A-Z]{2})\b", loc[i:])`: group 1 of the leftmost match. */
  function FirstStateCode(loc: string, i: nat): (r: Option<string>)
    ensures r.None? <==> forall k :: i <= k ==> StateCodeAt(loc, k).None?
    ensures r.Some? ==> exists k :: i <= k < |loc| && StateCodeAt(loc, k) == r &&
                                   forall m :: i <= m < k ==> StateCodeAt(loc, m).None?
    decreases |loc| - i
  {
    if i >= |loc| then None
    else if StateCodeAt(loc, i).Some? then StateCodeAt(loc, i)
    else FirstStateCode(loc, i + 1)
  }

  /** Some full state name occurs in the lower-cased text. */
  predicate NamesSoutheast(loc: string)
  {
    exists n :: n in SoutheastNames && Contains(Lower(loc), n)
  }

  /**
    `_is_southeast` / `is_southeast`: false on an empty location; otherwise true iff the
    first ", XX" match names one of the eight states, or a full state name occurs.
   */
  function IsSoutheast(loc: string): (r: bool)
    ensures loc == "" ==> !r
  {
    if loc == "" then false
    else
      var m := FirstStateCode(loc, 0);
      (m.Some? && m.value in SoutheastStates) || NamesSoutheast(loc)
  }

  /** The body of the filter loop: skip a title without a code, skip a known location outside the region. */
  predicate Keep(l: Listing)
  {
    HasKeywords(Some(l.title)) && (l.location == "" || IsSoutheast(l.location))
  }

  /** The list `filtered` once the loop is done. */
  function Kept(items: seq<Listing>): seq<Listing>
  {
    if items == [] then []
    else
      var last := items[|items| - 1];
      Kept(items[..|items| - 1]) + (if Keep(last) then [last] else [])
  }

  /** The positions of `items` that the loop appends, in order. */
  function KeptIdx(items: seq<Listing>): seq<int>
  {
    if items == [] then []
    else KeptIdx(items[..|items| - 1]) + (if Keep(items[|items| - 1]) then [|items| - 1] else [])
  }

  /** The filter loop. */
  method FilterItems(items: seq<Listing>) returns (filtered: seq<Listing>)
    ensures filtered == Kept(items)
  {
    filtered := [];
    for i := 0 to |items|
      invariant filtered == Kept(items[..i])
    {
      assert items[..i + 1][..i] == items[..i];
      var it := items[i];
      if !HasKeywords(Some(it.title)) {
        continue;
      }
      if it.location != "" && !IsSoutheast(it.location) {
        continue;
      }
      filtered := filtered + [it];
    }
    assert items[..|items|] == items;
  }

  /**
    The filter keeps an order-preserving subsequence: the kept records are the input's
    records at strictly increasing positions, and a position is among them exactly when
    its record passes the keyword and region test.
   */
  lemma KeptSubsequence(items: seq<Listing>)
    ensures |KeptIdx(items)| == |Kept(items)|
    ensures forall k :: 0 <= k < |Kept(items)| ==> 0 <= KeptIdx(items)[k] < |items| && Kept(items)[k] == items[KeptIdx(items)[k]]
    ensures forall a, b :: 0 <= a < b < |KeptIdx(items)| ==> KeptIdx(items)[a] < KeptIdx(items)[b]
    ensures forall i :: 0 <= i < |items| ==> (i in KeptIdx(items) <==> Keep(items[i]))
  {
    KeptPositions(items);
    KeptChosen(items);
  }

  /** The kept records sit at strictly increasing positions of the input. */
  lemma {:induction false} KeptPositions(items: seq<Listing>)
    ensures |KeptIdx(items)| == |Kept(items)|
    ensures forall k :: 0 <= k < |Kept(items)| ==> 0 <= KeptIdx(items)[k] < |items| && Kept(items)[k] == items[KeptIdx(items)[k]]
    ensures forall a, b :: 0 <= a < b < |KeptIdx(items)| ==> KeptIdx(items)[a] < KeptIdx(items)[b]
  {
    if items != [] {
      var n := |items| - 1;
      var p, last := items[..n], items[n];
      KeptPositions(p);
      var kept, idx := Kept(items), KeptIdx(items);
      if Keep(last) {
        assert kept == Kept(p) + [last] && idx == KeptIdx(p) + [n];
      } else {
        assert kept == Kept(p) && idx == KeptIdx(p);
      }
      forall k | 0 <= k < |kept| ensures 0 <= idx[k] < |items| && kept[k] == items[idx[k]] {
        if k < |Kept(p)| {
          assert kept[k] == Kept(p)[k] && idx[k] == KeptIdx(p)[k];
          assert p[idx[k]] == items[idx[k]];
        }
      }
    }
  }

  /** A position is kept exactly when its record passes the test. */
  lemma {:induction false} KeptChosen(items: seq<Listing>)
    ensures forall i :: 0 <= i < |items| ==> (i in KeptIdx(items) <==> Keep(items[i]))
  {
    if items != [] {
      var n := |items| - 1;
      var p := items[..n];
      var idx := KeptIdx(items);
      assert idx == KeptIdx(p) + (if Keep(items[n]) then [n] else []);
      assert n !in KeptIdx(p) by {
        KeptIdxBelow(p);
      }
      forall i | 0 <= i < n ensures i in idx <==> Keep(items[i]) {
        assert i in KeptIdx(p) <==> Keep(p[i]) by {
          KeptChosen(p);
        }
        assert p[i] == items[i];
      }
    }
  }

  /** Every kept position is a position of the input. */
  lemma {:induction false} KeptIdxBelow(items: seq<Listing>)
    ensures forall x :: x in KeptIdx(items) ==> 0 <= x < |items|
  {
    if items != [] {
      KeptIdxBelow(items[..|items| - 1]);
    }
  }

  /** No code can start inside a stretch of the title that holds no `D` or `d`. */
  lemma NoCodeIn(t: string, lo: nat, hi: nat)
    requires lo <= hi <= |t| && 'D' !in t[lo..hi] && 'd' !in t[lo..hi]
    ensures forall j, d :: lo <= j < hi ==> !CodeMatchAt(t, j, d)
  {
    forall j, d | lo <= j < hi ensures !CodeMatchAt(t, j, d) {
      assert t[j] == t[lo..hi][j - lo];
    }
  }

  /** Word boundaries are honoured on both sides: "D8T" is a longer token, so it does not match. */
  lemma KeywordRejectsSuffixedCode()
    ensures !HasKeywords(Some("CAT D8T TRACK TYPE"))
  {
    var t := "CAT D8T TRACK TYPE";
    assert t[..4] == "CAT " && t[5..] == "8T TRACK TYPE";
    NoCodeIn(t, 0, 4);
    NoCodeIn(t, 5, |t|);
    assert IsWordChar(t[6]);
  }

  /** "D60" is a longer token too. */
  lemma KeywordRejectsLongerNumber()
    ensures !HasKeywords(Some("D60 LOADER"))
  {
    var t := "D60 LOADER";
    assert t[1..7] == "60 LOA" && t[8..] == "ER";
    NoCodeIn(t, 1, 7);
    NoCodeIn(t, 8, |t|);
    assert IsWordChar(t[2]) && IsWordChar(t[6]);
  }

  /** A code between spaces matches, and so does a lower-case one at the end of the title. */
  lemma KeywordAcceptsWholeWord()
    ensures HasKeywords(Some("CAT D8 DOZER"))
    ensures HasKeywords(Some("2015 cat d7"))
  {
    assert CodeMatchAt("CAT D8 DOZER", 4, '8');
    assert CodeMatchAt("2015 cat d7", 9, '7');
  }

  /** A missing title is the empty title, which matches nothing. */
  lemma KeywordMissingTitle()
    ensures !HasKeywords(None)
  {
  }

  /** A location without a comma has no ", XX" match. */
  lemma {:induction false} NoCommaNoCode(loc: string, i: nat)
    requires ',' !in loc
    ensures FirstStateCode(loc, i).None?
    decreases |loc| - i
  {
    if i < |loc| {
      assert loc[i] in loc;
      NoCommaNoCode(loc, i + 1);
    }
  }

  /** When the first comma of `loc` starts a ", XX" match, that match is the first one. */
  lemma FirstCommaCode(loc: string, k: nat)
    requires k <= |loc| && StateCodeAt(loc, k).Some? && ',' !in loc[..k]
    ensures FirstStateCode(loc, 0) == StateCodeAt(loc, k)
  {
    forall m | 0 <= m < k ensures StateCodeAt(loc, m).None? {
      assert loc[m] == loc[..k][m];
    }
  }

  /** No state name occurs in a text without `i`, `e` and `b` in either case: each name has one of them. */
  lemma NoStateName(loc: string)
    requires 'i' !in loc && 'I' !in loc && 'e' !in loc && 'E' !in loc && 'b' !in loc && 'B' !in loc
    ensures !NamesSoutheast(loc)
  {
    var l := Lower(loc);
    LowerMissing(loc, 'i'); LowerMissing(loc, 'e'); LowerMissing(loc, 'b');
    MissingCharNotContained(l, "florida", 'i');
    MissingCharNotContained(l, "georgia", 'i');
    MissingCharNotContained(l, "alabama", 'b');
    MissingCharNotContained(l, "mississippi", 'i');
    MissingCharNotContained(l, "louisiana", 'i');
    MissingCharNotContained(l, "south carolina", 'i');
    MissingCharNotContained(l, "north carolina", 'i');
    MissingCharNotContained(l, "tennessee", 'e');
  }

  /** A non-empty location whose first ", XX" code is outside the states and which names no state is outside the region. */
  lemma OutsideByCode(loc: string, code: string)
    requires loc != "" && FirstStateCode(loc, 0) == Some(code) && code !in SoutheastStates && !NamesSoutheast(loc)
    ensures !IsSoutheast(loc)
  {
  }

  /** A non-empty location whose lower-cased text holds a state name at `i` is in the region. */
  lemma InsideByName(loc: string, n: string, i: nat)
    requires loc != "" && n in SoutheastNames && OccursAt(Lower(loc), n, i)
    ensures IsSoutheast(loc)
  {
  }

  /** Which of the example codes are among the eight states. */
  lemma ExampleCodes()
    ensures "FL" in SoutheastStates && "CA" !in SoutheastStates && "TX" !in SoutheastStates
  {
  }

  /** An empty location is not in the region (the filter lets it through separately). */
  lemma RegionEmpty()
    ensures !IsSoutheast("")
  {
  }

  /** A south-east code after the comma passes. */
  lemma RegionCodeInSet()
    ensures IsSoutheast("Tampa, FL")
  {
    var a := "Tampa, FL";
    ExampleCodes();
    assert FirstStateCode(a, 0) == Some("FL") by {
      assert a[..5] == "Tampa";
      assert LeadEnd(a, 6) == 7;
      assert a[7..9] == "FL";
      FirstCommaCode(a, 5);
    }
  }

  /** A code outside the eight states, with no state name, fails. */
  lemma RegionCodeOutsideSet()
    ensures !IsSoutheast("Tampa, CA")
  {
    var b := "Tampa, CA";
    ExampleCodes();
    NoStateName(b);
    assert FirstStateCode(b, 0) == Some("CA") by {
      assert b[..5] == "Tampa";
      assert LeadEnd(b, 6) == 7;
      assert b[7..9] == "CA";
      FirstCommaCode(b, 5);
    }
    OutsideByCode(b, "CA");
  }

  lemma LowerGeorgia()
    ensures Lower("Georgia") == "georgia"
  {
    var g := "Georgia";
    assert Lower(g)[0] == LowerChar('G') == 'g';
    forall i | 1 <= i < 7 ensures Lower(g)[i] == g[i] {
      assert g[i] in "eorgia";
    }
  }

  /** Wherever "Georgia" is written, the lower-cased text holds "georgia". */
  lemma GeorgiaAt(c: string, i: nat)
    requires i + 7 <= |c| && c[i..i + 7] == "Georgia"
    ensures OccursAt(Lower(c), "georgia", i)
  {
    LowerGeorgia();
    LowerSlice(c, i, i + 7);
  }

  /** A full state name anywhere, in any case, passes. */
  lemma RegionFullName()
    ensures IsSoutheast("Somewhere in Georgia")
  {
    var c := "Somewhere in Georgia";
    assert c[13..20] == "Georgia";
    GeorgiaAt(c, 13);
    InsideByName("Somewhere in Georgia", "georgia", 13);
  }

  lemma WacoCode()
    ensures FirstStateCode("Waco, TX, Ocala, FL", 0) == Some("TX")
  {
    var d := "Waco, TX, Ocala, FL";
    assert d[..4] == "Waco";
    assert LeadEnd(d, 5) == 6;
    assert d[6..8] == "TX";
    FirstCommaCode(d, 4);
  }

  lemma WacoNoName()
    ensures !NamesSoutheast("Waco, TX, Ocala, FL")
  {
    NoStateName("Waco, TX, Ocala, FL");
  }

  /** Only the first ", XX" match is consulted: a Texas code ahead of a Florida one rejects. */
  lemma RegionFirstMatchOnly()
    ensures !IsSoutheast("Waco, TX, Ocala, FL")
  {
    var d := "Waco, TX, Ocala, FL";
    ExampleCodes();
    WacoNoName();
    WacoCode();
    OutsideByCode(d, "TX");
  }
}
