/**
 * The game's state machine as values. A `Session` holds what index.js keeps in
 * module-level variables (the selection, the lock, the counters, the countdown,
 * the power-up flag) together with the cards on the board, each with its image
 * source and its `flip` and `matched` classes. Every event of the game is a
 * function from session to session; the class in `MemoryGame` performs the same
 * steps in place and is proved against these functions.
 */
module Engine {
  import opened Wrappers

  /** Seconds allowed per difficulty, keyed by the number of pairs. */
  const TimeLimits: map<int, int> := map[3 := 60, 6 := 45, 9 := 30]

  /** The three difficulties, and the harder the difficulty the less time it gets. */
  lemma LimitsShrinkWithPairs()
    ensures TimeLimits.Keys == {3, 6, 9}
    ensures TimeLimits[3] == 60 && TimeLimits[6] == 45 && TimeLimits[9] == 30
    ensures forall p, q :: p in TimeLimits && q in TimeLimits && p < q ==> TimeLimits[q] < TimeLimits[p]
  {
  }

  datatype Card = Card(src: string, flipped: bool, matched: bool)

  datatype Session = Session(
    cards: seq<Card>,
    firstCard: Option<nat>,
    secondCard: Option<nat>,
    lockBoard: bool,
    clickCount: nat,
    matchedPairs: nat,
    totalPairs: int,
    remainingTime: int,
    timerRunning: bool,      // the countdown interval is active
    frozen: bool,            // every card's click handler was removed when time ran out
    usedPowerup: bool,
    mismatchPending: bool,   // the one-second reset after a mismatch is scheduled
    powerupPending: bool,    // the three-second end of the power-up is scheduled
    powerupCards: set<nat>)  // the cards the pending power-up revealed

  predicate InRange(o: Option<nat>, n: nat) {
    o.Some? ==> o.value < n
  }

  /** The selection and the power-up's cards name cards that exist. */
  predicate WellFormed(s: Session) {
    && InRange(s.firstCard, |s.cards|)
    && InRange(s.secondCard, |s.cards|)
    && forall k | k in s.powerupCards :: k < |s.cards|
  }

  /** The image sources of the cards, in board order. */
  function Srcs(cards: seq<Card>): (r: seq<string>)
    ensures |r| == |cards| && forall k :: 0 <= k < |cards| ==> r[k] == cards[k].src
  {
    seq(|cards|, k requires 0 <= k < |cards| => cards[k].src)
  }

  /** The number of matched cards on the board. */
  function CountMatched(cards: seq<Card>): (n: nat)
    ensures n <= |cards|
  {
    if cards == [] then 0 else (if cards[0].matched then 1 else 0) + CountMatched(cards[1..])
  }

  /** Face-down, unmatched cards showing `deck` in order. */
  function Deal(deck: seq<string>): (cards: seq<Card>)
    ensures |cards| == |deck|
    ensures forall k :: 0 <= k < |deck| ==> cards[k] == Card(deck[k], false, false)
  {
    seq(|deck|, k requires 0 <= k < |deck| => Card(deck[k], false, false))
  }

  /**
   * The state `setup` leaves: the dealt deck, nothing selected, counters at zero,
   * `numPairs` pairs to find, no countdown running, the power-up available.
   * Timeouts from an earlier session are not carried over.
   */
  function NewSession(numPairs: int, deck: seq<string>): (s: Session)
    ensures Srcs(s.cards) == deck && CountMatched(s.cards) == 0
    ensures forall k :: 0 <= k < |s.cards| ==> !s.cards[k].flipped && !s.cards[k].matched
    ensures s.firstCard.None? && s.secondCard.None? && !s.lockBoard
    ensures s.clickCount == 0 && s.matchedPairs == 0 && s.totalPairs == numPairs
    ensures s.remainingTime == 0 && !s.timerRunning && !s.frozen && !s.usedPowerup
    ensures !s.mismatchPending && !s.powerupPending && s.powerupCards == {}
  {
    var cards := Deal(deck);
    NoneMatched(cards);
    Session(cards, None, None, false, 0, 0, numPairs, 0, false, false, false, false, false, {})
  }

  lemma {:induction false} NoneMatched(cards: seq<Card>)
    requires forall k :: 0 <= k < |cards| ==> !cards[k].matched
    ensures CountMatched(cards) == 0
  {
    if cards != [] {
      NoneMatched(cards[1..]);
    }
  }

  /** index.js `resetSelection`: forget both selected cards and unlock the board. */
  function ResetSelection(s: Session): (r: Session)
    ensures r.firstCard.None? && r.secondCard.None? && !r.lockBoard
    ensures r.(firstCard := s.firstCard, secondCard := s.secondCard, lockBoard := s.lockBoard) == s
  {
    s.(firstCard := None, secondCard := None, lockBoard := false)
  }

  /** index.js `checkWin`: once every pair is found the countdown stops. */
  function CheckWin(s: Session): (r: Session)
    ensures r.timerRunning <==> s.timerRunning && s.matchedPairs != s.totalPairs
    ensures r.(timerRunning := s.timerRunning) == s
  {
    if s.matchedPairs == s.totalPairs then s.(timerRunning := false) else s
  }

  function MarkMatched(cards: seq<Card>, k: nat): seq<Card>
    requires k < |cards|
  {
    cards[k := cards[k].(matched := true)]
  }

  /**
   * index.js `disableMatched`: both selected cards become matched, one more pair
   * is counted, the win check runs, and the selection is cleared.
   */
  function DisableMatched(s: Session): (r: Session)
    requires WellFormed(s) && s.firstCard.Some? && s.secondCard.Some?
    ensures |r.cards| == |s.cards|
    ensures r.cards[s.firstCard.value].matched && r.cards[s.secondCard.value].matched
    ensures forall k :: 0 <= k < |s.cards| && k != s.firstCard.value && k != s.secondCard.value ==>
              r.cards[k] == s.cards[k]
    ensures forall k :: 0 <= k < |s.cards| ==>
              r.cards[k].src == s.cards[k].src && r.cards[k].flipped == s.cards[k].flipped
    ensures r.matchedPairs == s.matchedPairs + 1
    ensures r.firstCard.None? && r.secondCard.None? && !r.lockBoard
    ensures r.timerRunning <==> s.timerRunning && s.matchedPairs + 1 != s.totalPairs
    ensures r.clickCount == s.clickCount && r.frozen == s.frozen && r.usedPowerup == s.usedPowerup
    ensures r.remainingTime == s.remainingTime && r.totalPairs == s.totalPairs
    ensures r.mismatchPending == s.mismatchPending && r.powerupPending == s.powerupPending
    ensures r.powerupCards == s.powerupCards
  {
    var cards := MarkMatched(MarkMatched(s.cards, s.firstCard.value), s.secondCard.value);
    ResetSelection(CheckWin(s.(cards := cards, matchedPairs := s.matchedPairs + 1)))
  }

  /** A click is ignored when the board is frozen or locked, or the card is matched or face up. */
  predicate Ignored(s: Session, i: nat)
    requires i < |s.cards|
  {
    s.frozen || s.cards[i].matched || s.lockBoard || s.cards[i].flipped
  }

  /**
   * index.js `onCardClick` on card `i`. An accepted click counts and turns the card
   * face up; the first card of a pair is remembered; the second is compared with it
   * by image source: equal sources are matched at once, different ones lock the
   * board until the mismatch timeout. The lemmas below state each case.
   */
  function Click(s: Session, i: nat): (r: Session)
    requires WellFormed(s) && i < |s.cards|
    ensures WellFormed(r) && |r.cards| == |s.cards|
  {
    if Ignored(s, i) then s
    else
      var s1 := s.(clickCount := s.clickCount + 1, cards := s.cards[i := s.cards[i].(flipped := true)]);
      if s.firstCard.None? then s1.(firstCard := Some(i))
      else
        var s2 := s1.(secondCard := Some(i));
        if s2.cards[s.firstCard.value].src == s2.cards[i].src then DisableMatched(s2)
        else s2.(lockBoard := true, mismatchPending := true)
  }

  /** An ignored click changes nothing. */
  lemma ClickIgnored(s: Session, i: nat)
    requires WellFormed(s) && i < |s.cards| && Ignored(s, i)
    ensures Click(s, i) == s
  {
  }

  /**
   * A click is counted exactly when it is not ignored: `Ignored` is precisely the
   * set of clicks the handler turns away, whether by its own guard or because the
   * card's handler was removed (a matched card, or the whole board once time ran out).
   */
  lemma ClickCountedIffNotIgnored(s: Session, i: nat)
    requires WellFormed(s) && i < |s.cards|
    ensures Click(s, i).clickCount == s.clickCount + 1 <==> !Ignored(s, i)
    ensures Click(s, i) == s <==> Ignored(s, i)
  {
    if !Ignored(s, i) {
      ClickAccepted(s, i);
    }
  }

  /** An accepted click counts and turns the card face up. */
  lemma ClickAccepted(s: Session, i: nat)
    requires WellFormed(s) && i < |s.cards| && !Ignored(s, i)
    ensures var r := Click(s, i);
            r.clickCount == s.clickCount + 1 && r.cards[i].flipped
  {
    if s.firstCard.None? {
    } else if s.cards[s.firstCard.value].src == s.cards[i].src {
    } else {
    }
  }

  /** No click moves an image: every card keeps its source. */
  lemma ClickKeepsImages(s: Session, i: nat)
    requires WellFormed(s) && i < |s.cards|
    ensures forall k :: 0 <= k < |s.cards| ==> Click(s, i).cards[k].src == s.cards[k].src
  {
    if !Ignored(s, i) {
      forall k | 0 <= k < |s.cards|
        ensures Click(s, i).cards[k].src == s.cards[k].src
      {
        if s.firstCard.None? {
        } else if s.cards[s.firstCard.value].src == s.cards[i].src {
        } else {
        }
      }
    }
  }

  /** No click changes the number of pairs, the time left or the freeze, or touches the power-up. */
  lemma ClickKeeps(s: Session, i: nat)
    requires WellFormed(s) && i < |s.cards|
    ensures var r := Click(s, i);
            && r.totalPairs == s.totalPairs && r.remainingTime == s.remainingTime
            && r.frozen == s.frozen && r.usedPowerup == s.usedPowerup
            && r.powerupPending == s.powerupPending && r.powerupCards == s.powerupCards
  {
    if Ignored(s, i) {
    } else if s.firstCard.None? {
    } else if s.cards[s.firstCard.value].src == s.cards[i].src {
    } else {
    }
  }

  /** The first card of a pair is remembered, face up; nothing is compared yet. */
  lemma ClickFirstCard(s: Session, i: nat)
    requires WellFormed(s) && i < |s.cards| && !Ignored(s, i) && s.firstCard.None?
    ensures var r := Click(s, i);
            && r.firstCard == Some(i) && r.secondCard == s.secondCard && r.lockBoard == s.lockBoard
            && r.mismatchPending == s.mismatchPending
            && r.matchedPairs == s.matchedPairs && r.timerRunning == s.timerRunning
            && r.cards == s.cards[i := s.cards[i].(flipped := true)]
  {
  }

  /**
   * A second card with the first card's image: both become matched, one more pair
   * is counted, the selection is cleared, and the countdown stops on the last pair.
   */
  lemma ClickMatch(s: Session, i: nat)
    requires WellFormed(s) && i < |s.cards| && !Ignored(s, i)
    requires s.firstCard.Some? && s.cards[s.firstCard.value].src == s.cards[i].src
    ensures var r := Click(s, i);
            && r.matchedPairs == s.matchedPairs + 1
            && r.cards[i].matched && r.cards[s.firstCard.value].matched
            && (forall k :: 0 <= k < |s.cards| && k != i && k != s.firstCard.value ==> r.cards[k] == s.cards[k])
            && r.firstCard.None? && r.secondCard.None? && !r.lockBoard
            && r.mismatchPending == s.mismatchPending
            && (r.timerRunning <==> s.timerRunning && s.matchedPairs + 1 != s.totalPairs)
  {
  }

  /**
   * A second card with another image: both stay face up and selected, the board
   * locks and the mismatch timeout is scheduled.
   */
  lemma ClickMismatch(s: Session, i: nat)
    requires WellFormed(s) && i < |s.cards| && !Ignored(s, i)
    requires s.firstCard.Some? && s.cards[s.firstCard.value].src != s.cards[i].src
    ensures var r := Click(s, i);
            && r.matchedPairs == s.matchedPairs
            && r.firstCard == s.firstCard && r.secondCard == Some(i)
            && r.lockBoard && r.mismatchPending && r.timerRunning == s.timerRunning
            && r.cards == s.cards[i := s.cards[i].(flipped := true)]
  {
  }

  /** The matching case as the steps the handler takes: count, flip, select, then `disableMatched`. */
  lemma ClickMatchSteps(s: Session, i: nat)
    requires WellFormed(s) && i < |s.cards| && !Ignored(s, i)
    requires s.firstCard.Some? && s.cards[s.firstCard.value].src == s.cards[i].src
    ensures var s2 := s.(clickCount := s.clickCount + 1, cards := s.cards[i := s.cards[i].(flipped := true)],
                         secondCard := Some(i));
            WellFormed(s2) && Click(s, i) == DisableMatched(s2)
  {
  }

  /** The pair count moves exactly when an accepted second card shows the first card's image. */
  lemma ClickCountsOnlyMatches(s: Session, i: nat)
    requires WellFormed(s) && i < |s.cards|
    ensures Click(s, i).matchedPairs != s.matchedPairs <==>
              !Ignored(s, i) && s.firstCard.Some? && s.cards[s.firstCard.value].src == s.cards[i].src
  {
    if Ignored(s, i) {
    } else if s.firstCard.None? {
    } else if s.cards[s.firstCard.value].src == s.cards[i].src {
    } else {
    }
  }

  function Unflip(cards: seq<Card>, o: Option<nat>): (r: seq<Card>)
    requires InRange(o, |cards|)
  {
    if o.Some? then cards[o.value := cards[o.value].(flipped := false)] else cards
  }

  /**
   * The one-second timeout after a mismatch: both selected cards turn face down,
   * the selection is cleared and the board unlocks. Nothing else changes.
   */
  function MismatchTimeout(s: Session): (r: Session)
    requires WellFormed(s) && s.mismatchPending
    ensures r.cards == Unflip(Unflip(s.cards, s.firstCard), s.secondCard)
    ensures r.firstCard.None? && r.secondCard.None? && !r.lockBoard && !r.mismatchPending
    ensures r.clickCount == s.clickCount && r.matchedPairs == s.matchedPairs
    ensures r.(cards := s.cards, firstCard := s.firstCard, secondCard := s.secondCard,
               lockBoard := s.lockBoard, mismatchPending := true) == s
  {
    var cards := Unflip(Unflip(s.cards, s.firstCard), s.secondCard);
    ResetSelection(s.(cards := cards, mismatchPending := false))
  }

  /** index.js `startTimer(limit)`: (re)start the countdown from `limit` seconds. */
  function StartTimer(s: Session, limit: int): (r: Session)
    ensures r.remainingTime == limit && r.timerRunning
    ensures r.(remainingTime := s.remainingTime, timerRunning := s.timerRunning) == s
  {
    s.(remainingTime := limit, timerRunning := true)
  }

  /**
   * One run of the countdown interval: one second less; below zero the interval
   * stops and the board freezes.
   */
  function Tick(s: Session): (r: Session)
    requires s.timerRunning
    ensures r.remainingTime == s.remainingTime - 1
    ensures r.timerRunning <==> r.remainingTime >= 0
    ensures r.frozen <==> s.frozen || r.remainingTime < 0
    ensures r.(remainingTime := s.remainingTime, timerRunning := true, frozen := s.frozen) == s
  {
    var t := s.remainingTime - 1;
    if t < 0 then s.(remainingTime := t, timerRunning := false, frozen := true)
    else s.(remainingTime := t)
  }

  /**
   * `k` more seconds of the countdown; no tick fires once the interval is stopped.
   * Only the countdown and the freeze change, a frozen board stays frozen, and
   * while the interval still runs exactly `k` seconds have gone.
   */
  function Ticks(s: Session, k: nat): (r: Session)
    ensures r.(remainingTime := s.remainingTime, timerRunning := s.timerRunning, frozen := s.frozen) == s
    ensures s.frozen ==> r.frozen
    ensures r.timerRunning ==> r.remainingTime == s.remainingTime - k
    decreases k
  {
    if k == 0 || !s.timerRunning then s else Ticks(Tick(s), k - 1)
  }

  /** Every card that is not matched, face up. */
  function Reveal(cards: seq<Card>): (r: seq<Card>)
    ensures |r| == |cards|
    ensures forall k :: 0 <= k < |cards| ==>
              r[k] == if cards[k].matched then cards[k] else cards[k].(flipped := true)
  {
    seq(|cards|, k requires 0 <= k < |cards| => if cards[k].matched then cards[k] else cards[k].(flipped := true))
  }

  /** The cards at the positions in `ks`, face down. */
  function Hide(cards: seq<Card>, ks: set<nat>): (r: seq<Card>)
    ensures |r| == |cards|
    ensures forall k :: 0 <= k < |cards| ==>
              r[k] == if k in ks then cards[k].(flipped := false) else cards[k]
  {
    seq(|cards|, k requires 0 <= k < |cards| => if k in ks then cards[k].(flipped := false) else cards[k])
  }

  function Unmatched(cards: seq<Card>): (ks: set<nat>)
    ensures forall k: nat :: k in ks <==> k < |cards| && !cards[k].matched
  {
    set k: nat | k < |cards| && !cards[k].matched
  }

  /**
   * The power-up button: usable once; it turns every unmatched card face up and
   * schedules their return three seconds later. The selection, the lock and the
   * counters are untouched.
   */
  function PowerUp(s: Session): (r: Session)
    ensures s.usedPowerup ==> r == s
    ensures !s.usedPowerup ==>
              && r.usedPowerup && r.powerupPending
              && r.cards == Reveal(s.cards) && r.powerupCards == Unmatched(s.cards)
    ensures r.firstCard == s.firstCard && r.secondCard == s.secondCard && r.lockBoard == s.lockBoard
    ensures r.clickCount == s.clickCount && r.matchedPairs == s.matchedPairs
    ensures r.(cards := s.cards, usedPowerup := s.usedPowerup, powerupPending := s.powerupPending,
               powerupCards := s.powerupCards) == s
  {
    if s.usedPowerup then s
    else s.(usedPowerup := true, powerupPending := true, cards := Reveal(s.cards), powerupCards := Unmatched(s.cards))
  }

  /**
   * The end of the power-up: the cards it revealed turn face down again, whatever
   * happened to them since, including a card that is still the first selection.
   */
  function PowerUpTimeout(s: Session): (r: Session)
    requires WellFormed(s) && s.powerupPending
    ensures r.cards == Hide(s.cards, s.powerupCards) && !r.powerupPending && r.powerupCards == {}
    ensures r.firstCard == s.firstCard && r.secondCard == s.secondCard && r.lockBoard == s.lockBoard
    ensures r.clickCount == s.clickCount && r.matchedPairs == s.matchedPairs
    ensures r.(cards := s.cards, powerupPending := true, powerupCards := s.powerupCards) == s
  {
    s.(cards := Hide(s.cards, s.powerupCards), powerupPending := false, powerupCards := {})
  }
}
