/** The flashcard deck: five cards filtered by the hub's filter, flipped,
    marked learned or for review, and stepped through with a short
    animation during which input is ignored. */
module Flashcards {
  import opened Wrappers
  import opened Js

  datatype Difficulty = Beginner | Intermediate | Advanced

  /** The fields of a card the logic reads. */
  datatype Card = Card(id: nat, difficulty: Difficulty, category: string)

  const Deck: seq<Card> := [
    Card(1, Advanced, "general"),
    Card(2, Intermediate, "academic"),
    Card(3, Advanced, "literature"),
    Card(4, Intermediate, "psychology"),
    Card(5, Intermediate, "communication")
  ]

  function DeckIds(): set<nat> {
    set c | c in Deck :: c.id
  }

  /** The hub's `filter` prop: `'all'`, a level, `'learned'`, `'review'`, or
      any other value, which is compared with the card's category. */
  datatype Filter = All | Level(level: Difficulty) | LearnedOnly | ReviewOnly | Category(name: string)

  predicate Shown(filter: Filter, learned: set<nat>, review: set<nat>, c: Card) {
    match filter
    case All => true
    case Level(d) => c.difficulty == d
    case LearnedOnly => c.id in learned
    case ReviewOnly => c.id in review
    case Category(name) => c.category == name
  }

  function Select(cards: seq<Card>, filter: Filter, learned: set<nat>, review: set<nat>): (r: seq<Card>)
    ensures |r| <= |cards|
    ensures forall k :: 0 <= k < |r| ==> r[k] in cards
  {
    if cards == [] then []
    else if Shown(filter, learned, review, cards[0]) then [cards[0]] + Select(cards[1..], filter, learned, review)
    else Select(cards[1..], filter, learned, review)
  }

  /** The filter keeps exactly the cards it accepts. */
  lemma {:induction false} SelectExactly(cards: seq<Card>, filter: Filter, learned: set<nat>, review: set<nat>, c: Card)
    ensures c in Select(cards, filter, learned, review) <==> c in cards && Shown(filter, learned, review, c)
    decreases |cards|
  {
    if cards != [] {
      SelectExactly(cards[1..], filter, learned, review, c);
      assert cards == [cards[0]] + cards[1..];
    }
  }

  /** `filteredCards`. */
  function FilteredCards(filter: Filter, learned: set<nat>, review: set<nat>): seq<Card> {
    Select(Deck, filter, learned, review)
  }

  /** The index after a forward move over a list of `len` cards. */
  function Forward(i: int, len: int): (j: int)
    ensures 0 <= i < len ==> 0 <= j < len
    ensures 0 <= i < len - 1 ==> j == i + 1
    ensures i == len - 1 ==> j == 0
  {
    if i < len - 1 then i + 1 else 0
  }

  /** The index after a backward move over a list of `len` cards. */
  function Backward(i: int, len: int): (j: int)
    ensures 0 <= i < len ==> 0 <= j < len
    ensures 0 < i ==> j == i - 1
    ensures i == 0 ==> j == len - 1
  {
    if i > 0 then i - 1 else len - 1
  }

  /** Within the list, a backward move undoes a forward one and the
      reverse. */
  lemma ForwardBackwardInverse(i: int, len: int)
    requires 0 <= i < len
    ensures Backward(Forward(i, len), len) == i
    ensures Forward(Backward(i, len), len) == i
  {
  }

  /** `Math.round(learned / totalCards * 100)`, over the whole deck. */
  function Progress(learned: set<nat>): (p: int)
    requires learned <= DeckIds()
    ensures 0 <= p <= 100
    ensures learned == DeckIds() ==> p == 100
    ensures learned == {} ==> p == 0
  {
    DeckIdsCount();
    SubsetCard(learned, DeckIds());
    RoundPercent(|learned|, |Deck|)
  }

  lemma DeckIdsCount()
    ensures |DeckIds()| == |Deck|
  {
    DeckIdsWithin();
    DeckIdsCover();
    assert DeckIds() == {1, 2, 3, 4, 5};
  }

  lemma DeckIdsWithin()
    ensures DeckIds() <= {1, 2, 3, 4, 5}
  {
    forall x | x in DeckIds()
      ensures x in {1, 2, 3, 4, 5}
    {
      var c :| c in Deck && c.id == x;
    }
  }

  lemma DeckIdsCover()
    ensures {1, 2, 3, 4, 5} <= DeckIds()
  {
    forall x | x in {1, 2, 3, 4, 5}
      ensures x in DeckIds()
    {
      assert Deck[x - 1] in Deck;
    }
  }

  lemma {:induction false} SubsetCard(a: set<nat>, b: set<nat>)
    requires a <= b
    ensures |a| <= |b|
    decreases |b|
  {
    if a != {} {
      var x :| x in a;
      SubsetCard(a - {x}, b - {x});
    }
  }

  datatype Direction = Ahead | Back

  /** A move waiting for its timer: the direction, and the index and list
      length the handler saw when it was clicked. */
  datatype Move = Move(dir: Direction, from: int, len: int)

  datatype Action = MarkLearned | MarkReview

  class Flashcards {
    /** The `filter` prop, which the hub can change while the deck is in
        use. */
    var filter: Filter
    var index: int
    var isFlipped: bool
    var learned: set<nat>
    var review: set<nat>
    var isAnimating: bool
    var pending: Option<Move>
    /** The percentages passed to `onProgress`, oldest first. */
    var reported: seq<int>

    function Cards(): seq<Card>
      reads this
    {
      FilteredCards(filter, learned, review)
    }

    /** A card is on screen: the handlers below are reachable only then. */
    predicate HasCard()
      reads this
    {
      0 <= index < |Cards()|
    }

    /** The sets hold deck ids, the index stays on the deck, and an
        animation is running exactly while a move waits for its timer. */
    ghost predicate Valid()
      reads this
    {
      && learned <= DeckIds() && review <= DeckIds()
      && 0 <= index < |Deck|
      && (isAnimating <==> pending.Some?)
      && (pending.Some? ==> pending.value.from == index && 0 <= index < pending.value.len <= |Deck|)
    }

    constructor (filter: Filter)
      ensures Valid() && this.filter == filter
      ensures index == 0 && !isFlipped && learned == {} && review == {}
      ensures !isAnimating && pending == None && reported == []
    {
      this.filter := filter;
      index, isFlipped, learned, review := 0, false, {}, {};
      isAnimating, pending, reported := false, None, [];
    }

    /** `handleFlip`: the card turns over unless an animation runs. */
    method Flip()
      requires Valid() && HasCard()
      modifies this
      ensures Valid() && filter == old(filter)
      ensures isFlipped == if old(isAnimating) then old(isFlipped) else !old(isFlipped)
      ensures index == old(index) && learned == old(learned) && review == old(review)
      ensures isAnimating == old(isAnimating) && pending == old(pending) && reported == old(reported)
    {
      if !isAnimating {
        isFlipped := !isFlipped;
      }
    }

    /** `handleCardAction`: ignored during an animation; otherwise marks the
        current card and schedules a forward move. Marking learned takes
        the card off the review set; marking for review leaves the learned
        set alone, so a card can be in both. */
    method CardAction(action: Action)
      requires Valid() && HasCard()
      modifies this
      ensures Valid() && filter == old(filter)
      ensures old(isAnimating) ==> learned == old(learned) && review == old(review) && pending == old(pending)
      ensures !old(isAnimating) ==> isAnimating && pending == Some(Move(Ahead, old(index), old(|Cards()|)))
      ensures !old(isAnimating) && action == MarkLearned ==>
        && learned == old(learned) + {old(Cards())[index].id}
        && review == old(review) - {old(Cards())[index].id}
      ensures !old(isAnimating) && action == MarkReview ==>
        learned == old(learned) && review == old(review) + {old(Cards())[index].id}
      ensures index == old(index) && isFlipped == old(isFlipped) && reported == old(reported)
    {
      if isAnimating {
        return;
      }
      var cards := Cards();
      var id := cards[index].id;
      assert cards[index] in Deck;
      pending := Some(Move(Ahead, index, |cards|));
      isAnimating := true;
      match action {
        case MarkLearned =>
          learned := learned + {id};
          review := review - {id};
        case MarkReview =>
          review := review + {id};
      }
    }

    /** `handleNext` and `handlePrevious`: ignored during an animation;
        otherwise a move in that direction waits for its timer. */
    method Navigate(dir: Direction)
      requires Valid() && HasCard()
      modifies this
      ensures Valid() && filter == old(filter)
      ensures old(isAnimating) ==> pending == old(pending)
      ensures !old(isAnimating) ==> isAnimating && pending == Some(Move(dir, old(index), old(|Cards()|)))
      ensures index == old(index) && isFlipped == old(isFlipped)
      ensures learned == old(learned) && review == old(review) && reported == old(reported)
    {
      if !isAnimating {
        pending := Some(Move(dir, index, |Cards()|));
        isAnimating := true;
      }
    }

    /** The timer of a pending move fires: the index moves with wrap-around,
        computed from what the handler saw, the card shows its front and
        input is accepted again. */
    method TimerFires()
      requires Valid() && pending.Some?
      modifies this
      ensures Valid() && filter == old(filter)
      ensures var m := old(pending).value;
        index == if m.dir == Ahead then Forward(m.from, m.len) else Backward(m.from, m.len)
      ensures !isFlipped && !isAnimating && pending == None
      ensures learned == old(learned) && review == old(review) && reported == old(reported)
    {
      var m := pending.value;
      index := if m.dir == Ahead then Forward(m.from, m.len) else Backward(m.from, m.len);
      isFlipped := false;
      isAnimating := false;
      pending := None;
    }

    /** The hub's filter changes: the deck is re-filtered but the index is
        kept, so it may now be past the end of the list, which then shows
        no card. */
    method SetFilter(f: Filter)
      requires Valid()
      modifies this
      ensures Valid() && filter == f && Cards() == FilteredCards(f, learned, review)
      ensures HasCard() <==> index < |FilteredCards(f, learned, review)|
      ensures index == old(index) && isFlipped == old(isFlipped) && learned == old(learned)
      ensures review == old(review) && isAnimating == old(isAnimating) && pending == old(pending)
      ensures reported == old(reported)
    {
      filter := f;
    }

    /** The progress effect, run when the learned set changes. */
    method ReportProgress()
      requires Valid()
      modifies this
      ensures Valid() && filter == old(filter)
      ensures reported == old(reported) + [Progress(learned)]
      ensures index == old(index) && isFlipped == old(isFlipped) && learned == old(learned)
      ensures review == old(review) && isAnimating == old(isAnimating) && pending == old(pending)
    {
      reported := reported + [Progress(learned)];
    }
  }

  /** Under the review filter, marking the first of two review cards as
      learned moves the index past the end of the shrunken list, because the
      move uses the length seen at the click: no card is shown although one
      is left to review. */
  lemma StaleLengthLeavesNoCard()
    ensures FilteredCards(ReviewOnly, {}, {1, 2}) == [Deck[0], Deck[1]]
    ensures FilteredCards(ReviewOnly, {1}, {2}) == [Deck[1]]
    ensures Forward(0, 2) == |FilteredCards(ReviewOnly, {1}, {2})|
  {
    ReviewBeforeMarking();
    ReviewAfterMarking();
  }

  /** Cards 1 and 2 under review: the first two cards are shown. */
  lemma ReviewBeforeMarking()
    ensures FilteredCards(ReviewOnly, {}, {1, 2}) == [Deck[0], Deck[1]]
  {
    var rest := Deck[2..];
    assert forall k :: 0 <= k < |rest| ==> rest[k].id == k + 3;
    NoneShown(rest, ReviewOnly, {}, {1, 2});
    assert Deck[1..][1..] == rest;
  }

  /** Card 1 learned, card 2 still under review: only the second card is shown. */
  lemma ReviewAfterMarking()
    ensures FilteredCards(ReviewOnly, {1}, {2}) == [Deck[1]]
  {
    var rest := Deck[2..];
    assert forall k :: 0 <= k < |rest| ==> rest[k].id == k + 3;
    NoneShown(rest, ReviewOnly, {1}, {2});
    assert Deck[1..][1..] == rest;
  }

  /** A filter that accepts none of the cards selects nothing. */
  lemma {:induction false} NoneShown(cards: seq<Card>, filter: Filter, learned: set<nat>, review: set<nat>)
    requires forall k :: 0 <= k < |cards| ==> !Shown(filter, learned, review, cards[k])
    ensures Select(cards, filter, learned, review) == []
    decreases |cards|
  {
    if cards != [] {
      NoneShown(cards[1..], filter, learned, review);
    }
  }
}
