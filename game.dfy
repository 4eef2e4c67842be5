/**
 * The game as index.js runs it: module-level variables updated in place by event
 * handlers, and a board of cards whose classes the handlers change. `Game` holds
 * those variables as fields and the board as an array; each handler is a method
 * proved to take the board from `State()` to the matching `Engine` transition of
 * it, so the properties proved of the transitions hold of the game.
 */
module MemoryGame {
  import opened Wrappers
  import opened Engine
  import opened SessionInvariant
  import Sprites
  import Deck

  class Game {
    var cards: array<Card>
    var firstCard: Option<nat>
    var secondCard: Option<nat>
    var lockBoard: bool
    var clickCount: nat
    var matchedPairs: nat
    var totalPairs: int
    var remainingTime: int
    var timerRunning: bool
    var frozen: bool
    var usedPowerup: bool
    var mismatchPending: bool
    var powerupPending: bool
    var powerupCards: set<nat>

    ghost function State(): Session
      reads this, cards
    {
      Session(cards[..], firstCard, secondCard, lockBoard, clickCount, matchedPairs, totalPairs,
              remainingTime, timerRunning, frozen, usedPowerup, mismatchPending, powerupPending, powerupCards)
    }

    /**
     * The session invariant, and a board of at most two cards per pair to find:
     * `setup` deals each sprite twice and finds at most `numPairs` of them.
     */
    ghost predicate Valid()
      reads this, cards
    {
      Inv(State()) && cards.Length <= 2 * totalPairs
    }

    /** In a valid game no more pairs are counted than there are to find. */
    lemma PairsWithinTotal()
      requires Valid()
      ensures matchedPairs <= totalPairs
    {
      MatchedPairsBound(State());
    }

    /** The variables as the page loads: no cards, nothing selected, every counter zero. */
    constructor ()
      ensures Valid() && State() == NewSession(0, [])
    {
      cards := new Card[0];
      firstCard, secondCard, lockBoard := None, None, false;
      clickCount, matchedPairs, totalPairs := 0, 0, 0;
      remainingTime, timerRunning, frozen := 0, false, false;
      usedPowerup, mismatchPending, powerupPending, powerupCards := false, false, false, {};
      new;
      assert cards[..] == [];
      NewSessionInv(0, []);
    }

    /** index.js `resetSelection`. */
    method ResetSelection()
      modifies this
      ensures cards == old(cards)
      ensures State() == Engine.ResetSelection(old(State()))
    {
      firstCard, secondCard := None, None;
      lockBoard := false;
    }

    /** index.js `checkWin`: the interval is cleared once every pair is found. */
    method CheckWin()
      modifies this
      ensures cards == old(cards)
      ensures State() == Engine.CheckWin(old(State()))
    {
      if matchedPairs == totalPairs {
        timerRunning := false;
      }
    }

    /** index.js `disableMatched`. */
    method DisableMatched()
      requires WellFormed(State()) && firstCard.Some? && secondCard.Some?
      modifies this, cards
      ensures cards == old(cards)
      ensures State() == Engine.DisableMatched(old(State()))
    {
      ghost var s := State();
      var f, g := firstCard.value, secondCard.value;
      cards[f] := cards[f].(matched := true);
      assert cards[..] == MarkMatched(s.cards, f);
      cards[g] := cards[g].(matched := true);
      assert cards[..] == MarkMatched(MarkMatched(s.cards, f), g);
      matchedPairs := matchedPairs + 1;
      CheckWin();
      ResetSelection();
    }

    /**
     * index.js `onCardClick` on card `i`. The three accepted cases are written as
     * the methods below; the second card's image is the same before and after it
     * turns face up, so the comparison can be made first.
     */
    method Click(i: nat)
      requires Valid() && i < cards.Length
      modifies this, cards
      ensures Valid() && cards == old(cards)
      ensures State() == Engine.Click(old(State()), i)
    {
      if frozen || cards[i].matched || lockBoard || cards[i].flipped {
        ClickIgnored(State(), i);
      } else if firstCard.None? {
        SelectFirst(i);
      } else if cards[firstCard.value].src == cards[i].src {
        SelectMatching(i);
      } else {
        SelectMismatching(i);
      }
    }

    /** An accepted click with nothing selected: count it, turn the card up, remember it. */
    method SelectFirst(i: nat)
      requires Valid() && i < cards.Length && !Ignored(State(), i) && firstCard.None?
      modifies this, cards
      ensures Valid() && cards == old(cards)
      ensures State() == Engine.Click(old(State()), i)
    {
      ghost var s := State();
      FirstCardInv(s, i);
      clickCount := clickCount + 1;
      cards[i] := cards[i].(flipped := true);
      firstCard := Some(i);
      assert State() == s.(clickCount := s.clickCount + 1, cards := s.cards[i := s.cards[i].(flipped := true)],
                           firstCard := Some(i));
    }

    /** An accepted second card with the first card's image: count it, turn it up, match both. */
    method SelectMatching(i: nat)
      requires Valid() && i < cards.Length && !Ignored(State(), i)
      requires firstCard.Some? && cards[firstCard.value].src == cards[i].src
      modifies this, cards
      ensures Valid() && cards == old(cards)
      ensures State() == Engine.Click(old(State()), i)
    {
      ghost var s := State();
      MatchInv(s, i);
      clickCount := clickCount + 1;
      cards[i] := cards[i].(flipped := true);
      secondCard := Some(i);
      ghost var s2 := s.(clickCount := s.clickCount + 1, cards := s.cards[i := s.cards[i].(flipped := true)],
                         secondCard := Some(i));
      ClickMatchSteps(s, i);
      assert State() == s2;
      DisableMatched();
    }

    /** An accepted second card with another image: count it, turn it up, lock the board. */
    method SelectMismatching(i: nat)
      requires Valid() && i < cards.Length && !Ignored(State(), i)
      requires firstCard.Some? && cards[firstCard.value].src != cards[i].src
      modifies this, cards
      ensures Valid() && cards == old(cards)
      ensures State() == Engine.Click(old(State()), i)
    {
      ghost var s := State();
      MismatchInv(s, i);
      clickCount := clickCount + 1;
      cards[i] := cards[i].(flipped := true);
      secondCard := Some(i);
      lockBoard := true;
      mismatchPending := true;
      assert State() == s.(clickCount := s.clickCount + 1, cards := s.cards[i := s.cards[i].(flipped := true)],
                           secondCard := Some(i), lockBoard := true, mismatchPending := true);
    }

    /** The one-second timeout scheduled by a mismatch. */
    method MismatchTimeout()
      requires Valid() && mismatchPending
      modifies this, cards
      ensures Valid() && cards == old(cards)
      ensures State() == Engine.MismatchTimeout(old(State()))
    {
      MismatchTimeoutInv(State());
      if firstCard.Some? {
        var f := firstCard.value;
        cards[f] := cards[f].(flipped := false);
      }
      if secondCard.Some? {
        var g := secondCard.value;
        cards[g] := cards[g].(flipped := false);
      }
      mismatchPending := false;
      ResetSelection();
    }

    /** index.js `startTimer(limit)`: any running countdown is replaced by one from `limit`. */
    method StartTimer(limit: int)
      requires Valid()
      modifies this
      ensures Valid() && cards == old(cards)
      ensures State() == Engine.StartTimer(old(State()), limit)
    {
      StartTimerInv(State(), limit);
      remainingTime := limit;
      timerRunning := true;
    }

    /** One run of the countdown interval's callback. */
    method Tick()
      requires Valid() && timerRunning
      modifies this
      ensures Valid() && cards == old(cards)
      ensures State() == Engine.Tick(old(State()))
    {
      TickInv(State());
      remainingTime := remainingTime - 1;
      if remainingTime < 0 {
        timerRunning := false;
        frozen := true;
      }
    }

    /** The power-up button's handler. */
    method PowerUp()
      requires Valid()
      modifies this, cards
      ensures Valid() && cards == old(cards)
      ensures State() == Engine.PowerUp(old(State()))
    {
      PowerUpInv(State());
      if !usedPowerup {
        usedPowerup := true;
        var revealed := RevealUnmatched();
        powerupCards := revealed;
        powerupPending := true;
      }
    }

    /** Every card without the `matched` class gets `flip`; returns the positions touched. */
    method RevealUnmatched() returns (revealed: set<nat>)
      modifies cards
      ensures cards[..] == Reveal(old(cards[..]))
      ensures revealed == Unmatched(old(cards[..]))
    {
      ghost var before := cards[..];
      revealed := {};
      var k := 0;
      while k < cards.Length
        invariant 0 <= k <= cards.Length == |before|
        invariant forall j: nat :: j in revealed <==> j < k && !before[j].matched
        invariant forall j :: 0 <= j < k ==> cards[j] == Reveal(before)[j]
        invariant forall j :: k <= j < cards.Length ==> cards[j] == before[j]
      {
        if !cards[k].matched {
          cards[k] := cards[k].(flipped := true);
          revealed := revealed + {k};
        }
        k := k + 1;
      }
      assert cards[..] == Reveal(before);
    }

    /** The three-second timeout scheduled by the power-up. */
    method PowerUpTimeout()
      requires Valid() && powerupPending
      modifies this, cards
      ensures Valid() && cards == old(cards)
      ensures State() == Engine.PowerUpTimeout(old(State()))
    {
      PowerUpTimeoutInv(State());
      HideCards(powerupCards);
      powerupPending := false;
      powerupCards := {};
    }

    /** The cards at the positions in `ks` lose `flip`. */
    method HideCards(ks: set<nat>)
      modifies cards
      ensures cards[..] == Hide(old(cards[..]), ks)
    {
      ghost var before := cards[..];
      var k := 0;
      while k < cards.Length
        invariant 0 <= k <= cards.Length == |before|
        invariant forall j :: 0 <= j < k ==> cards[j] == Hide(before, ks)[j]
        invariant forall j :: k <= j < cards.Length ==> cards[j] == before[j]
      {
        if k in ks {
          cards[k] := cards[k].(flipped := false);
        }
        k := k + 1;
      }
      assert cards[..] == Hide(before, ks);
    }

    /**
     * index.js `setup` with `numPairs` pairs: fetch the sprites, deal the deck
     * built from them, reset every variable. The number of pairs to find is
     * `numPairs` whatever number of sprites was found.
     */
    method Setup(numPairs: int, catalog: seq<Sprites.Candidate>, catalogSwaps: seq<nat>, deckSwaps: seq<nat>)
      returns (ghost sprites: seq<string>, ghost order: seq<Sprites.Candidate>)
      modifies this
      ensures Inv(State()) && fresh(cards)
      ensures numPairs >= 0 ==> Valid()
      ensures multiset(order) == multiset(catalog)
      ensures sprites == Sprites.Urls(Sprites.Accepted(order, numPairs, {}))
      ensures cards.Length == 2 * |sprites|
      ensures multiset(Srcs(cards[..])) == multiset(sprites + sprites)
      ensures State() == NewSession(numPairs, Srcs(cards[..]))
    {
      var urls;
      urls, order := Sprites.GetPokemonSprites(catalog, numPairs, catalogSwaps);
      sprites := urls;
      var deck := Deck.BuildDeck(urls, deckSwaps);
      Deal(numPairs, deck);
    }

    /** A fresh array holding the deck face down, in order. */
    static method DealCards(deck: seq<string>) returns (a: array<Card>)
      ensures fresh(a) && a[..] == Engine.Deal(deck)
    {
      a := new Card[|deck|](k requires 0 <= k < |deck| => Card(deck[k], false, false));
    }

    /** `setup` zeroes the counters, sets the pairs to find and makes the power-up available again. */
    method ResetCounters(numPairs: int)
      modifies this`clickCount, this`matchedPairs, this`totalPairs, this`usedPowerup
      ensures clickCount == 0 && matchedPairs == 0 && totalPairs == numPairs && !usedPowerup
    {
      clickCount, matchedPairs, totalPairs, usedPowerup := 0, 0, numPairs, false;
    }

    /** `setup` clears the interval and zeroes the remaining time. */
    method StopTimer()
      modifies this`timerRunning, this`remainingTime
      ensures !timerRunning && remainingTime == 0
    {
      timerRunning, remainingTime := false, 0;
    }

    /** `setup` unlocks the board and forgets both selected cards. */
    method ClearSelection()
      modifies this`lockBoard, this`firstCard, this`secondCard
      ensures !lockBoard && firstCard == None && secondCard == None
    {
      lockBoard, firstCard, secondCard := false, None, None;
    }

    /**
     * The newly rendered cards carry fresh click handlers, so the board is no
     * longer frozen, and no timeout of an earlier session is modelled as pending.
     */
    method RebindCards()
      modifies this`frozen, this`mismatchPending, this`powerupPending, this`powerupCards
      ensures !frozen && !mismatchPending && !powerupPending && powerupCards == {}
    {
      frozen, mismatchPending, powerupPending, powerupCards := false, false, false, {};
    }

    /** The variables as `Deal` leaves them make up the session `NewSession` describes. */
    lemma FreshState(numPairs: int, deck: seq<string>)
      requires cards[..] == Engine.Deal(deck)
      requires firstCard == None && secondCard == None && !lockBoard
      requires clickCount == 0 && matchedPairs == 0 && totalPairs == numPairs
      requires remainingTime == 0 && !timerRunning && !frozen && !usedPowerup
      requires !mismatchPending && !powerupPending && powerupCards == {}
      ensures State() == NewSession(numPairs, deck) && Inv(State())
    {
      NewSessionInv(numPairs, deck);
    }

    /**
     * The part of index.js `setup` after the deck is built: deal the cards face
     * down and reset every variable for a session of `numPairs` pairs.
     */
    method Deal(numPairs: int, deck: seq<string>)
      modifies this
      ensures Inv(State()) && fresh(cards)
      ensures State() == NewSession(numPairs, deck)
    {
      ResetCounters(numPairs);
      StopTimer();
      ClearSelection();
      RebindCards();
      cards := DealCards(deck);
      FreshState(numPairs, deck);
    }

    /**
     * The start and reset buttons: set up a game of `numPairs` pairs, then start
     * the countdown with that difficulty's limit.
     */
    method Start(numPairs: int, catalog: seq<Sprites.Candidate>, catalogSwaps: seq<nat>, deckSwaps: seq<nat>)
      returns (ghost sprites: seq<string>, ghost order: seq<Sprites.Candidate>)
      requires numPairs in TimeLimits
      modifies this
      ensures Valid() && fresh(cards)
      ensures multiset(order) == multiset(catalog)
      ensures sprites == Sprites.Urls(Sprites.Accepted(order, numPairs, {}))
      ensures cards.Length == 2 * |sprites|
      ensures multiset(Srcs(cards[..])) == multiset(sprites + sprites)
      ensures State() == Engine.StartTimer(NewSession(numPairs, Srcs(cards[..])), TimeLimits[numPairs])
    {
      sprites, order := Setup(numPairs, catalog, catalogSwaps, deckSwaps);
      StartTimer(TimeLimits[numPairs]);
    }
  }
}
