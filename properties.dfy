/** Properties of sequences of events: a round of two clicks, the countdown, the power-up. */
module SessionProperties {
  import opened Wrappers
  import opened Engine
  import opened SessionInvariant

  /** Clicking the first selected card again does nothing: it is face up. */
  lemma ReclickFirstIsIgnored(s: Session, f: nat)
    requires WellFormed(s) && f < |s.cards| && s.firstCard.None?
    ensures Click(Click(s, f), f) == Click(s, f)
  {
  }

  /** Two clicks on different cards with the same image: one more pair, both cards matched. */
  lemma MatchingRound(s: Session, f: nat, g: nat)
    requires Inv(s) && f < |s.cards| && g < |s.cards| && f != g
    requires s.firstCard.None? && !s.frozen && !s.lockBoard
    requires !s.cards[f].flipped && !s.cards[f].matched && !s.cards[g].flipped && !s.cards[g].matched
    requires s.cards[f].src == s.cards[g].src
    ensures var t := Click(Click(s, f), g);
            && t.matchedPairs == s.matchedPairs + 1 && t.clickCount == s.clickCount + 2
            && t.cards[f].matched && t.cards[g].matched
            && CountMatched(t.cards) == CountMatched(s.cards) + 2
            && t.firstCard.None? && t.secondCard.None? && !t.lockBoard
            && (t.timerRunning <==> s.timerRunning && s.matchedPairs + 1 != s.totalPairs)
  {
    var u := Click(s, f);
    ClickInv(s, f);
    var t := Click(u, g);
    var flipped := u.cards[g := u.cards[g].(flipped := true)];
    var once := MarkMatched(flipped, f);
    CountMatchedUpdate(s.cards, f, u.cards[f]);
    CountMatchedUpdate(u.cards, g, flipped[g]);
    CountMatchedUpdate(flipped, f, once[f]);
    CountMatchedUpdate(once, g, once[g].(matched := true));
    assert t.cards == MarkMatched(once, g);
  }

  /**
   * Two clicks on cards with different images lock the board without counting a
   * pair; the mismatch timeout then puts the board back exactly as it was before
   * the first click, with two more clicks counted.
   */
  lemma MismatchRound(s: Session, f: nat, g: nat)
    requires Inv(s) && f < |s.cards| && g < |s.cards|
    requires s.firstCard.None? && !s.frozen && !s.lockBoard
    requires !s.cards[f].flipped && !s.cards[f].matched && !s.cards[g].flipped && !s.cards[g].matched
    requires s.cards[f].src != s.cards[g].src
    ensures var u := Click(Click(s, f), g);
            u.lockBoard && u.mismatchPending && u.matchedPairs == s.matchedPairs
    ensures var t := MismatchTimeout(Click(Click(s, f), g));
            && t.cards == s.cards
            && t.clickCount == s.clickCount + 2 && t.matchedPairs == s.matchedPairs
            && t.firstCard.None? && t.secondCard.None? && !t.lockBoard && !t.mismatchPending
  {
    var u := Click(Click(s, f), g);
    assert f != g;
    var t := MismatchTimeout(u);
    assert t.cards == s.cards by {
      assert forall k :: 0 <= k < |s.cards| ==> t.cards[k] == s.cards[k];
    }
  }

  /**
   * The power-up's timeout turns the selected first card face down; clicking it
   * then pairs it with itself: one more pair is counted while a single card
   * becomes matched.
   */
  lemma SelfMatchAfterPowerUp(s: Session)
    requires Inv(s) && s.firstCard.Some? && !s.lockBoard && !s.frozen && !s.usedPowerup
    ensures var f := s.firstCard.value;
            var t := Click(PowerUpTimeout(PowerUp(s)), f);
            && t.matchedPairs == s.matchedPairs + 1
            && t.cards[f].matched
            && CountMatched(t.cards) == CountMatched(s.cards) + 1
  {
    var f := s.firstCard.value;
    var p := PowerUp(s);
    PowerUpInv(s);
    var q := PowerUpTimeout(p);
    CountMatchedSameFlags(s.cards, p.cards);
    CountMatchedSameFlags(p.cards, q.cards);
    assert !q.cards[f].flipped && !q.cards[f].matched;
    var flipped := q.cards[f := q.cards[f].(flipped := true)];
    CountMatchedUpdate(q.cards, f, flipped[f]);
    CountMatchedUpdate(flipped, f, flipped[f].(matched := true));
    assert Click(q, f).cards == MarkMatched(flipped, f);
  }

  /**
   * A two-pair game won with a card left unmatched: select card 0, use the
   * power-up and let it end, click card 0 again (it matches itself), then match
   * cards 1 and 3. Both pairs are counted, the countdown stops, card 2 was never
   * matched.
   */
  lemma WonWithUnmatchedCard()
    ensures var s0 := StartTimer(NewSession(2, ["a", "b", "a", "b"]), 60);
            var s1 := Click(s0, 0);
            var s2 := PowerUpTimeout(PowerUp(s1));
            var s3 := Click(Click(Click(s2, 0), 1), 3);
            && s3.matchedPairs == s3.totalPairs == 2
            && !s3.timerRunning
            && !s3.cards[2].matched
  {
    var s0 := StartTimer(NewSession(2, ["a", "b", "a", "b"]), 60);
    assert Srcs(s0.cards) == ["a", "b", "a", "b"];
    assert s0.cards[1].src == "b" && s0.cards[3].src == "b";
    var s1 := Click(s0, 0);
    assert s1.firstCard == Some(0);
    assert s1.cards[1].src == "b" && s1.cards[3].src == "b";
    var p := PowerUp(s1);
    assert p.powerupCards == {0, 1, 2, 3} by {
      assert forall k: nat :: k in p.powerupCards <==> k < 4;
    }
    var s2 := PowerUpTimeout(p);
    assert !s2.cards[0].flipped && !s2.cards[1].flipped && !s2.cards[3].flipped;
    var a := Click(s2, 0);
    assert a.matchedPairs == 1 && a.firstCard.None? && !a.cards[2].matched;
    assert !a.cards[1].flipped && !a.cards[3].flipped && !a.cards[1].matched && !a.cards[3].matched;
    assert a.cards[1].src == a.cards[3].src == "b";
    var b := Click(a, 1);
    assert b.firstCard == Some(1) && !b.cards[3].flipped && !b.cards[3].matched && !b.lockBoard;
    var c := Click(b, 3);
    assert c.matchedPairs == 2;
  }

  /** For `k` seconds up to the limit, the countdown only counts down. */
  lemma {:induction false} CountdownRuns(s: Session, k: nat)
    requires s.timerRunning && k <= s.remainingTime
    ensures Ticks(s, k) == s.(remainingTime := s.remainingTime - k)
    decreases k
  {
    if k > 0 {
      CountdownRuns(Tick(s), k - 1);
    }
  }

  /**
   * The tick after the limit takes the countdown to -1: the interval stops and
   * the board freezes, and no tick fires after that.
   */
  lemma CountdownExpires(s: Session, extra: nat)
    requires s.timerRunning && s.remainingTime >= 0
    ensures Ticks(s, s.remainingTime + 1 + extra) ==
            s.(remainingTime := -1, timerRunning := false, frozen := true)
  {
    var L := s.remainingTime;
    CountdownRuns(s, L);
    var t := Ticks(s, L);
    TicksSplit(s, L, 1 + extra);
    var u := Tick(t);
    assert !u.timerRunning && u == s.(remainingTime := -1, timerRunning := false, frozen := true);
    assert Ticks(t, 1 + extra) == Ticks(u, extra) == u;
  }

  /** Ticks compose: `a + b` ticks are `a` ticks followed by `b` more. */
  lemma {:induction false} TicksSplit(s: Session, a: nat, b: nat)
    ensures Ticks(s, a + b) == Ticks(Ticks(s, a), b)
    decreases a
  {
    if a > 0 && s.timerRunning {
      TicksSplit(Tick(s), a - 1, b);
    }
  }

  /**
   * At every difficulty, starting the countdown with its limit leaves the board
   * playable through the limit's last second and frozen on the tick after it.
   */
  lemma DifficultyExpiry(s: Session, pairs: int)
    requires pairs in TimeLimits && !s.frozen
    ensures var limit := TimeLimits[pairs];
            var t := StartTimer(s, limit);
            && limit in {30, 45, 60}
            && (forall k: nat :: k <= limit ==>
                  Ticks(t, k).remainingTime == limit - k && Ticks(t, k).timerRunning && !Ticks(t, k).frozen)
            && Ticks(t, limit + 1).frozen && !Ticks(t, limit + 1).timerRunning
  {
    var limit := TimeLimits[pairs];
    var t := StartTimer(s, limit);
    forall k: nat | k <= limit
      ensures Ticks(t, k).remainingTime == limit - k && Ticks(t, k).timerRunning && !Ticks(t, k).frozen
    {
      CountdownRuns(t, k);
    }
    CountdownExpires(t, 0);
  }

  /** With six pairs the limit is 45 seconds: the 45th tick shows 0, the 46th freezes the board. */
  lemma SixPairsExpireOnTick46(s: Session)
    requires !s.frozen
    ensures TimeLimits[6] == 45
    ensures var t := StartTimer(s, 45);
            && Ticks(t, 45).remainingTime == 0 && !Ticks(t, 45).frozen
            && Ticks(t, 46).frozen
  {
    DifficultyExpiry(s, 6);
  }
}
