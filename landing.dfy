/**
 * The expandable "who is it for" cards of the landing page
 * (static/js/landing.js): the data-card slug taken from a card's title,
 * the accordion behaviour of toggleCard, and the click outside the cards.
 */
module Landing {
  import opened Wrappers
  import opened Text

  // ---------------------------------------------------------------------------
  // Slugs
  // ---------------------------------------------------------------------------

  /** The length of the run of whitespace at the start of s. */
  function LeadingSpaceRun(s: string): (n: nat)
    ensures n <= |s|
    ensures forall i :: 0 <= i < n ==> IsSpace(s[i])
    ensures n < |s| ==> !IsSpace(s[n])
  {
    if |s| > 0 && IsSpace(s[0]) then 1 + LeadingSpaceRun(s[1..]) else 0
  }

  /** The replace of /\s+/g by '-': every run of whitespace becomes one hyphen. */
  function HyphenateBlanks(s: string): (r: string)
    ensures forall i :: 0 <= i < |r| ==> !IsSpace(r[i])
    decreases |s|
  {
    if s == [] then []
    else
      var n := LeadingSpaceRun(s);
      if n > 0 then "-" + HyphenateBlanks(s[n..])
      else [s[0]] + HyphenateBlanks(s[1..])
  }

  /** The data-card attribute of a card: its title lower-cased, whitespace runs turned into '-'. */
  function Slug(title: string): (slug: string)
    ensures forall i :: 0 <= i < |slug| ==> !IsSpace(slug[i]) && !('A' <= slug[i] <= 'Z')
  {
    var lower := ToLower(title);
    HyphenateLowerKeepsLower(lower);
    HyphenateBlanks(lower)
  }

  predicate NoUpper(s: string) { forall i :: 0 <= i < |s| ==> !('A' <= s[i] <= 'Z') }

  lemma {:induction false} HyphenateLowerKeepsLower(s: string)
    requires NoUpper(s)
    ensures NoUpper(HyphenateBlanks(s))
    decreases |s|
  {
    if s != [] {
      var n := LeadingSpaceRun(s);
      if n > 0 {
        HyphenateLowerKeepsLower(s[n..]);
      } else {
        HyphenateLowerKeepsLower(s[1..]);
      }
    }
  }

  /** Text without whitespace is left as it is. */
  lemma {:induction false} HyphenateWithoutBlanks(s: string)
    requires forall i :: 0 <= i < |s| ==> !IsSpace(s[i])
    ensures HyphenateBlanks(s) == s
    decreases |s|
  {
    if s != [] {
      HyphenateWithoutBlanks(s[1..]);
      assert [s[0]] + s[1..] == s;
    }
  }

  lemma {:induction false} ToLowerOfLower(s: string)
    requires NoUpper(s)
    ensures ToLower(s) == s
  {}

  /** A slug is its own slug, so slugging the attribute again finds the same card. */
  lemma SlugIdempotent(title: string)
    ensures Slug(Slug(title)) == Slug(title)
  {
    var slug := Slug(title);
    ToLowerOfLower(slug);
    HyphenateWithoutBlanks(slug);
  }

  /** Words separated by any run of blanks are joined by a single hyphen. */
  lemma SlugOfTwoWords(a: string, blanks: string, b: string)
    requires |blanks| > 0 && AllSpace(blanks)
    requires a != [] && b != []
    requires forall i :: 0 <= i < |a| ==> !IsSpace(a[i]) && !('A' <= a[i] <= 'Z')
    requires forall i :: 0 <= i < |b| ==> !IsSpace(b[i]) && !('A' <= b[i] <= 'Z')
    ensures Slug(a + blanks + b) == a + "-" + b
  {
    var rest := blanks + b;
    var s := a + rest;
    assert s == a + blanks + b;
    assert NoUpper(s) by {
      forall i | 0 <= i < |s| ensures !('A' <= s[i] <= 'Z') {
        if i < |a| {
          assert s[i] == a[i];
        } else if i < |a| + |blanks| {
          assert s[i] == blanks[i - |a|];
        } else {
          assert s[i] == b[i - |a| - |blanks|];
        }
      }
    }
    ToLowerOfLower(s);
    HyphenatePrefix(a, rest);
    BlankRunOf(blanks, b);
    HyphenateWithoutBlanks(b);
    assert HyphenateBlanks(s) == a + ("-" + b);
  }

  lemma {:induction false} HyphenatePrefix(a: string, rest: string)
    requires forall i :: 0 <= i < |a| ==> !IsSpace(a[i])
    ensures HyphenateBlanks(a + rest) == a + HyphenateBlanks(rest)
    decreases |a|
  {
    if a != [] {
      var s := a + rest;
      assert s[0] == a[0];
      assert LeadingSpaceRun(s) == 0;
      assert s[1..] == a[1..] + rest;
      HyphenatePrefix(a[1..], rest);
      assert [a[0]] + (a[1..] + HyphenateBlanks(rest)) == a + HyphenateBlanks(rest);
    } else {
      assert a + rest == rest;
    }
  }

  lemma BlankRunOf(blanks: string, b: string)
    requires |blanks| > 0 && AllSpace(blanks)
    requires b != [] && !IsSpace(b[0])
    ensures HyphenateBlanks(blanks + b) == "-" + HyphenateBlanks(b)
  {
    var s := blanks + b;
    LeadingSpaceRunOf(blanks, b);
    assert s[|blanks|..] == b;
  }

  lemma {:induction false} LeadingSpaceRunOf(blanks: string, b: string)
    requires AllSpace(blanks) && (b != [] ==> !IsSpace(b[0]))
    ensures LeadingSpaceRun(blanks + b) == |blanks|
    decreases |blanks|
  {
    if blanks != [] {
      assert (blanks + b)[1..] == blanks[1..] + b;
      LeadingSpaceRunOf(blanks[1..], b);
    } else {
      assert blanks + b == b;
    }
  }

  // ---------------------------------------------------------------------------
  // The cards
  // ---------------------------------------------------------------------------

  const LearnMore := "Learn More"
  const ShowLess := "Show Less"

  /**
   * One card: its data-card slug (None when it has no title), whether it has
   * the button with its label and icon that toggleCard needs, whether it is
   * expanded, whether its extra content is shown, and the button label.
   */
  datatype CardState = CardState(slug: Option<string>, complete: bool, expanded: bool,
                                 contentShown: bool, buttonText: string)

  /** The card is expanded exactly when its content is shown and its button reads "Show Less". */
  predicate Consistent(c: CardState) {
    && (c.expanded <==> c.contentShown)
    && c.buttonText == (if c.expanded then ShowLess else LearnMore)
    && (c.expanded ==> c.complete)
  }

  function Collapsed(c: CardState): (r: CardState)
    ensures !r.expanded && r.slug == c.slug && r.complete == c.complete
  {
    c.(expanded := false, contentShown := false, buttonText := LearnMore)
  }

  function Expanded(c: CardState): (r: CardState)
    ensures r.expanded && r.slug == c.slug && r.complete == c.complete
  {
    c.(expanded := true, contentShown := true, buttonText := ShowLess)
  }

  /** Collapsing a card that is already collapsed changes nothing. */
  lemma CollapseCollapsed(c: CardState)
    requires Consistent(c) && !c.expanded
    ensures Collapsed(c) == c
  {}

  /** document.querySelector('[data-card="id"]'): the first card with that slug. */
  function FindCard(cards: seq<CardState>, cardId: string): (i: Option<nat>)
    ensures i.Some? ==> i.value < |cards| && cards[i.value].slug == Some(cardId)
    ensures i.Some? ==> forall j :: 0 <= j < i.value ==> cards[j].slug != Some(cardId)
    ensures i.None? ==> forall j :: 0 <= j < |cards| ==> cards[j].slug != Some(cardId)
  {
    if cards == [] then None
    else if cards[0].slug == Some(cardId) then Some(0)
    else match FindCard(cards[1..], cardId)
      case None => None
      case Some(k) => Some(k + 1)
  }

  predicate AtMostOneExpanded(cards: seq<CardState>) {
    forall i, j :: 0 <= i < |cards| && 0 <= j < |cards| && cards[i].expanded && cards[j].expanded ==> i == j
  }

  /** The cards after toggleCard: every other card collapsed, the chosen one flipped. */
  function Toggled(cards: seq<CardState>, k: nat): (r: seq<CardState>)
    requires k < |cards|
    ensures |r| == |cards|
    ensures AtMostOneExpanded(r)
    ensures r[k].expanded == !cards[k].expanded
    ensures forall i :: 0 <= i < |r| && i != k ==> !r[i].expanded
    ensures forall i :: 0 <= i < |r| ==> r[i].slug == cards[i].slug && r[i].complete == cards[i].complete
    ensures forall i :: 0 <= i < |r| ==>
              (r[i].expanded <==> r[i].contentShown) && r[i].buttonText == (if r[i].expanded then ShowLess else LearnMore)
  {
    seq(|cards|, j requires 0 <= j < |cards| =>
      if j != k then Collapsed(cards[j])
      else if cards[k].expanded then Collapsed(cards[k]) else Expanded(cards[k]))
  }

  class LandingPage {
    const cards: array<CardState>

    ghost predicate Valid()
      reads this, cards
    {
      && (forall i :: 0 <= i < cards.Length ==> Consistent(cards[i]))
      && AtMostOneExpanded(cards[..])
    }

    /** The page after setup: every card collapsed, reading "Learn More". */
    constructor (titles: seq<Option<string>>, hasButton: seq<bool>)
      requires |titles| == |hasButton|
      ensures Valid() && fresh(cards) && cards.Length == |titles|
      ensures forall i :: 0 <= i < |titles| ==>
                cards[i] == CardState(if titles[i].Some? then Some(Slug(titles[i].value)) else None,
                                      hasButton[i], false, false, LearnMore)
    {
      cards := new CardState[|titles|](i requires 0 <= i < |titles| =>
        CardState(if titles[i].Some? then Some(Slug(titles[i].value)) else None,
                  hasButton[i], false, false, LearnMore));
    }

    /**
     * toggleCard: without the card or one of its parts nothing changes;
     * otherwise every other expanded card is collapsed and this one flips.
     */
    method ToggleCard(cardId: string) returns (result: bool)
      requires Valid()
      modifies cards
      ensures Valid() && !result
      ensures var k := FindCard(old(cards[..]), cardId);
              && (k.None? || !old(cards[k.value]).complete ==> cards[..] == old(cards[..]))
              && (k.Some? && old(cards[k.value]).complete ==> cards[..] == Toggled(old(cards[..]), k.value))
    {
      result := false;
      var found := FindCard(cards[..], cardId);
      if found.None? || !cards[found.value].complete {
        return;
      }
      var k := found.value;
      ghost var before := cards[..];
      for j := 0 to cards.Length
        invariant forall i :: 0 <= i < j && i != k ==> cards[i] == Collapsed(before[i])
        invariant forall i :: j <= i < cards.Length || i == k ==> 0 <= i < cards.Length ==> cards[i] == before[i]
      {
        if j != k && cards[j].expanded {
          cards[j] := Collapsed(cards[j]);
        } else if j != k {
          CollapseCollapsed(cards[j]);
        }
      }
      if cards[k].expanded {
        cards[k] := Collapsed(cards[k]);
      } else {
        cards[k] := Expanded(cards[k]);
      }
      assert cards[..] == Toggled(before, k);
    }

    /** A click outside every card and button collapses all cards; any other click changes nothing. */
    method ClickOutside(insideCard: bool, onButton: bool)
      requires Valid()
      modifies cards
      ensures Valid()
      ensures insideCard || onButton ==> cards[..] == old(cards[..])
      ensures !insideCard && !onButton ==>
                forall i :: 0 <= i < cards.Length ==> cards[i] == Collapsed(old(cards[i]))
    {
      if !insideCard && !onButton {
        for j := 0 to cards.Length
          invariant forall i :: 0 <= i < j ==> cards[i] == Collapsed(old(cards[i]))
          invariant forall i :: j <= i < cards.Length ==> cards[i] == old(cards[i])
        {
          if cards[j].expanded {
            cards[j] := Collapsed(cards[j]);
          } else {
            CollapseCollapsed(cards[j]);
          }
        }
      }
    }
  }

  /** Toggling the same card twice, with nothing else expanded, restores the cards. */
  lemma ToggleTwice(cards: seq<CardState>, k: nat)
    requires k < |cards| && (forall i :: 0 <= i < |cards| ==> Consistent(cards[i]))
    requires forall i :: 0 <= i < |cards| && i != k ==> !cards[i].expanded
    ensures Toggled(Toggled(cards, k), k) == cards
  {
    var once := Toggled(cards, k);
    var twice := Toggled(once, k);
    forall i | 0 <= i < |cards| ensures twice[i] == cards[i] {
      if i != k {
        CollapseCollapsed(cards[i]);
      }
    }
  }
}
