/**
 * What every reachable session satisfies, and the proof that each event keeps it.
 *
 * Without the power-up, matched cards come two per counted pair. The power-up's
 * timeout can turn the first selected card face down while it is still selected;
 * clicking it again then compares the card with itself and counts a pair for a
 * single matched card. That can happen at most once per session (the power-up is
 * single-use), which the invariant records: the count of matched cards is twice
 * the pair count, or one less after that one self-match.
 */
module SessionInvariant {
  import opened Engine

  predicate Inv(s: Session) {
    && WellFormed(s)
    && (s.lockBoard <==> s.secondCard.Some?)
    && (s.lockBoard <==> s.mismatchPending)
    && (s.secondCard.Some? ==> s.firstCard.Some?)
    && (s.firstCard.Some? ==> !s.cards[s.firstCard.value].matched)
    && (s.powerupPending ==> s.usedPowerup)
    && CountMatched(s.cards) <= 2 * s.matchedPairs <= CountMatched(s.cards) + 1
    && (2 * s.matchedPairs == CountMatched(s.cards) + 1 ==> s.usedPowerup && !s.powerupPending)
    && (s.firstCard.Some? && !s.cards[s.firstCard.value].flipped ==>
          2 * s.matchedPairs == CountMatched(s.cards) && s.usedPowerup && !s.powerupPending)
  }

  function Weight(c: Card): nat {
    if c.matched then 1 else 0
  }

  lemma {:induction false} CountMatchedUpdate(cards: seq<Card>, k: nat, c: Card)
    requires k < |cards|
    ensures CountMatched(cards[k := c]) == CountMatched(cards) - Weight(cards[k]) + Weight(c)
  {
    if k > 0 {
      assert cards[k := c][1..] == cards[1..][k - 1 := c];
      CountMatchedUpdate(cards[1..], k - 1, c);
    } else {
      assert cards[k := c][1..] == cards[1..];
    }
  }

  lemma {:induction false} CountMatchedSameFlags(a: seq<Card>, b: seq<Card>)
    requires |a| == |b|
    requires forall k :: 0 <= k < |a| ==> a[k].matched == b[k].matched
    ensures CountMatched(a) == CountMatched(b)
  {
    if a != [] {
      CountMatchedSameFlags(a[1..], b[1..]);
    }
  }

  lemma NewSessionInv(numPairs: int, deck: seq<string>)
    ensures Inv(NewSession(numPairs, deck))
  {
  }

  lemma ClickInv(s: Session, i: nat)
    requires Inv(s) && i < |s.cards|
    ensures Inv(Click(s, i))
  {
    if Ignored(s, i) {
    } else if s.firstCard.None? {
      FirstCardInv(s, i);
    } else if s.cards[s.firstCard.value].src == s.cards[i].src {
      MatchInv(s, i);
    } else {
      MismatchInv(s, i);
    }
  }

  lemma FirstCardInv(s: Session, i: nat)
    requires Inv(s) && i < |s.cards| && !Ignored(s, i) && s.firstCard.None?
    ensures Inv(Click(s, i))
  {
    CountMatchedUpdate(s.cards, i, s.cards[i].(flipped := true));
  }

  lemma MatchInv(s: Session, i: nat)
    requires Inv(s) && i < |s.cards| && !Ignored(s, i)
    requires s.firstCard.Some? && s.cards[s.firstCard.value].src == s.cards[i].src
    ensures Inv(Click(s, i))
  {
    var f := s.firstCard.value;
    var flipped := s.cards[i := s.cards[i].(flipped := true)];
    var once := MarkMatched(flipped, f);
    CountMatchedUpdate(s.cards, i, s.cards[i].(flipped := true));
    CountMatchedUpdate(flipped, f, flipped[f].(matched := true));
    CountMatchedUpdate(once, i, once[i].(matched := true));
    assert Click(s, i).cards == MarkMatched(once, i);
  }

  lemma MismatchInv(s: Session, i: nat)
    requires Inv(s) && i < |s.cards| && !Ignored(s, i)
    requires s.firstCard.Some? && s.cards[s.firstCard.value].src != s.cards[i].src
    ensures Inv(Click(s, i))
  {
    CountMatchedUpdate(s.cards, i, s.cards[i].(flipped := true));
  }

  lemma MismatchTimeoutInv(s: Session)
    requires Inv(s) && s.mismatchPending
    ensures Inv(MismatchTimeout(s))
  {
    var once := Unflip(s.cards, s.firstCard);
    CountMatchedSameFlags(s.cards, once);
    CountMatchedSameFlags(once, Unflip(once, s.secondCard));
  }

  lemma StartTimerInv(s: Session, limit: int)
    requires Inv(s)
    ensures Inv(StartTimer(s, limit))
  {
  }

  lemma TickInv(s: Session)
    requires Inv(s) && s.timerRunning
    ensures Inv(Tick(s))
  {
  }

  lemma PowerUpInv(s: Session)
    requires Inv(s)
    ensures Inv(PowerUp(s))
  {
    CountMatchedSameFlags(s.cards, Reveal(s.cards));
  }

  lemma PowerUpTimeoutInv(s: Session)
    requires Inv(s) && s.powerupPending
    ensures Inv(PowerUpTimeout(s))
  {
    CountMatchedSameFlags(s.cards, Hide(s.cards, s.powerupCards));
  }

  /** With at most two cards per pair on the board, the pair count never passes the total. */
  lemma MatchedPairsBound(s: Session)
    requires Inv(s) && |s.cards| <= 2 * s.totalPairs
    ensures s.matchedPairs <= s.totalPairs
  {
  }

  /**
   * `setup` takes the number of pairs from the difficulty, not from the number of
   * sprites found: with fewer sprites than pairs, the game can never be won.
   */
  lemma ShortDeckNeverWon(s: Session)
    requires Inv(s) && |s.cards| % 2 == 0 && |s.cards| < 2 * s.totalPairs
    ensures s.matchedPairs < s.totalPairs
  {
  }
}
