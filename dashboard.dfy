/** The discovery dashboard: a deck of three facilities cut from a fixed
    sample, a match counter that opens the match screen on every third
    match, and the Continue button that opens the chat and rotates the
    deck. */
module Dashboard {
  import opened Wrappers
  import FacilityCard

  /** The three sample facilities the deck is cut from. */
  const Sample: seq<FacilityCard.Facility> := [
    FacilityCard.Facility("f1", "The SD Mindset, Coaching and Counseling", Some("Coral Springs"), Some("FL"),
      Some(["Therapy", "Counseling", "Coaching", "Adolescent (5-22)"]), None, None, Some(true),
      Some("/images/image.png"), None, None, None),
    FacilityCard.Facility("f2", "Tranduitiy Behavioral Health", Some("Dallas"), Some("TX"),
      Some(["IOP", "Detox"]), None, None, None, None, None, None, None),
    FacilityCard.Facility("f3", "CareBridge Clinic", Some("Houston"), Some("TX"),
      Some(["PHP", "Med Management"]), None, None, None, None, None, None, None)
  ]

  /** The number of matches that opens the match screen. */
  const MatchesPerScreen := 3

  /** Three items of `s` from position `idx` on, wrapping around: the items
      at `idx`, `idx + 1` and `idx + 2`, each taken modulo `|s|`. */
  function Cut<T>(s: seq<T>, idx: int): (r: seq<T>)
    requires |s| > 0 && idx >= 0
    ensures |r| == 3 && r[0] == s[idx % |s|]
  {
    [s[idx % |s|], s[(idx + 1) % |s|], s[(idx + 2) % |s|]]
  }

  /** A cut depends only on `idx` modulo 3. */
  lemma CutModulo<T>(s: seq<T>, idx: int)
    requires |s| == 3 && idx >= 0
    ensures Cut(s, idx) == Cut(s, idx % 3)
  {
    var k := idx % 3;
    assert idx == 3 * (idx / 3) + k;
    assert (idx + 1) % 3 == (k + 1) % 3;
    assert (idx + 2) % 3 == (k + 2) % 3;
  }

  /** The cuts of a list of three, one per starting position. */
  lemma CutsOfThree<T>(s: seq<T>)
    requires |s| == 3
    ensures Cut(s, 0) == [s[0], s[1], s[2]]
    ensures Cut(s, 1) == [s[1], s[2], s[0]]
    ensures Cut(s, 2) == [s[2], s[0], s[1]]
  {
  }

  /** Moving the first of three items to the end keeps the same items. */
  lemma RotationKeepsItems<T>(a: T, b: T, c: T)
    ensures multiset([b, c, a]) == multiset([a, b, c])
  {
    assert [b, c, a] == [b, c] + [a];
    assert [a, b, c] == [a] + [b, c];
  }

  /** From a list of three, every cut shows each item once. */
  lemma CutIsPermutation<T>(s: seq<T>, idx: int)
    requires |s| == 3 && idx >= 0
    ensures multiset(Cut(s, idx)) == multiset(s)
  {
    CutModulo(s, idx);
    CutsOfThree(s);
    assert s == [s[0], s[1], s[2]];
    var k := idx % 3;
    if k == 1 {
      RotationKeepsItems(s[0], s[1], s[2]);
    } else if k == 2 {
      RotationKeepsItems(s[2], s[0], s[1]);
      RotationKeepsItems(s[0], s[1], s[2]);
    }
  }

  /** The cut at the next index is this one rotated left by one. */
  lemma CutRotates<T>(s: seq<T>, idx: int)
    requires |s| == 3 && idx >= 0
    ensures Cut(s, (idx + 1) % 3) == Cut(s, idx)[1..] + [Cut(s, idx)[0]]
  {
    CutModulo(s, idx);
    CutModulo(s, (idx + 1) % 3);
    var k := idx % 3;
    assert (idx + 1) % 3 % 3 == (k + 1) % 3;
  }

  /** The deck shown for index `idx`. */
  function DeckAt(idx: int): seq<FacilityCard.Facility>
    requires idx >= 0
  {
    Cut(Sample, idx)
  }

  /** The dashboard's state. */
  class DashboardPage {
    var matchCount: int
    var showMatchScreen: bool
    var currentChat: Option<string>
    var currentFacilityIdx: int
    var deckKey: int
    var pendingMatch: Option<string>

    /** The counter stays below three and the index within the sample. */
    predicate Valid()
      reads this
    {
      0 <= matchCount < MatchesPerScreen && 0 <= currentFacilityIdx < |Sample|
    }

    constructor ()
      ensures Valid()
      ensures matchCount == 0 && !showMatchScreen && currentChat.None?
      ensures currentFacilityIdx == 0 && deckKey == 0 && pendingMatch.None?
    {
      matchCount := 0;
      showMatchScreen := false;
      currentChat := None;
      currentFacilityIdx := 0;
      deckKey := 0;
      pendingMatch := None;
    }

    /** The deck on screen. */
    function Deck(): seq<FacilityCard.Facility>
      reads this
      requires Valid()
    {
      DeckAt(currentFacilityIdx)
    }

    /** A match counts one more; the third resets the counter and opens the
        match screen for this facility. */
    method OnMatch(f: FacilityCard.Facility)
      requires Valid()
      modifies this
      ensures Valid()
      ensures old(matchCount) + 1 >= MatchesPerScreen ==>
        matchCount == 0 && pendingMatch == Some(f.name) && showMatchScreen
      ensures old(matchCount) + 1 < MatchesPerScreen ==>
        matchCount == old(matchCount) + 1 && pendingMatch == old(pendingMatch) && showMatchScreen == old(showMatchScreen)
      ensures currentChat == old(currentChat) && currentFacilityIdx == old(currentFacilityIdx) && deckKey == old(deckKey)
    {
      var next := matchCount + 1;
      if next >= MatchesPerScreen {
        pendingMatch := Some(f.name);
        showMatchScreen := true;
        matchCount := 0;
      } else {
        matchCount := next;
      }
    }

    /** A skip changes nothing. */
    method OnSkip(f: FacilityCard.Facility)
      modifies this
      ensures unchanged(this)
    {
    }

    /** Continue: closes the match screen, opens the chat with the matched
        facility, moves the deck on by one and resets it. */
    method Continue()
      requires Valid()
      modifies this
      ensures Valid()
      ensures !showMatchScreen && currentChat == old(pendingMatch) && pendingMatch.None?
      ensures currentFacilityIdx == (old(currentFacilityIdx) + 1) % |Sample|
      ensures deckKey == old(deckKey) + 1 && matchCount == old(matchCount)
      ensures Deck() == old(Deck())[1..] + [old(Deck())[0]]
    {
      CutRotates(Sample, currentFacilityIdx);
      showMatchScreen := false;
      currentChat := pendingMatch;
      currentFacilityIdx := (currentFacilityIdx + 1) % |Sample|;
      deckKey := deckKey + 1;
      pendingMatch := None;
    }
  }
}
