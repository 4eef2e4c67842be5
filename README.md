# Pokémon memory game: a verified model of its game engine

`index.js` is a jQuery memory-matching game. It fetches Pokémon artwork, deals
every picture twice face down and counts the clicks and the pairs found. It
also runs a countdown that freezes the board when time runs out, and it offers
a single-use power-up that shows every unmatched card for three seconds. This
project models the engine under the page's DOM calls and proves its
properties.

- `Engine` (engine.dfy) models the game as values. A `Session` holds what
  `index.js` keeps in module-level variables (`firstCard`, `secondCard`,
  `lockBoard`, `clickCount`, `matchedPairs`, `totalPairs`, `remainingTime`,
  `usedPowerup`). It also holds the board: each card's image source and its
  `flip` and `matched` classes. A few flags record things the page expresses
  otherwise:
  - `timerRunning`: the interval is set.
  - `frozen`: every card's click handler was removed.
  - `mismatchPending` and `powerupPending`: a `setTimeout` is due.
  - `powerupCards`: the cards the power-up revealed.

  Every event of the game is a function from session to session, and the
  lemmas next to them state each case of a click.
- `SessionInvariant` (invariant.dfy) defines the invariant every reachable
  session satisfies and proves that every event keeps it.
- `SessionProperties` (properties.dfy) proves properties of event sequences:
  a matching round and a mismatching round, the countdown at each difficulty,
  and what the power-up does to a selected card.
- `MemoryGame` (game.dfy) is the game as the page runs it. Class `Game` has one
  field per variable and an `array` of cards, and each handler updates them in
  place. Each event method (`Click`, `MismatchTimeout`, `StartTimer`, `Tick`,
  `PowerUp`, `PowerUpTimeout`, `Setup` and `Start`) is proved to take `State()`
  to the matching `Engine` transition and to keep `Valid()`. The helpers they
  call (`ResetSelection`, `CheckWin`, `DisableMatched`, the loops of the
  power-up, the dealing and resetting steps of `setup`) are proved against the
  `Engine` function or the field values of the step they implement.
- `Sprites` (sprites.dfy) models `getPokemonSprites`: the loop over the
  shuffled catalog, with the network outcomes given as data.
- `Shuffle` (shuffle.dfy) models `shuffle` as a permutation. The random choice
  is an input `swaps` that drives a Fisher–Yates pass.
- `Deck` (deck.dfy) builds the deck from the sprites. `TimeFormat`
  (time_format.dfy) models `formatTime` together with a parser that reads its
  output back.

The power-up's timeout removes `flip` from every card it revealed. That
includes a card that is still the first selection (index.js:268). Clicking that
card again then compares it with itself: one pair is counted and one card is
matched. `SelfMatchAfterPowerUp` proves this, and `WonWithUnmatchedCard` plays a
two-pair game that is won with a card never matched. The invariant accounts for
this. The number of matched cards is twice the pair count, or one less after
the single self-match the one-shot power-up allows. With at most two cards per
pair on the board, that proves `matchedPairs <= totalPairs`
(`MatchedPairsBound`). `setup` deals every sprite twice and finds at most
`numPairs` sprites, so the running game keeps that size bound. `Game.Valid()`
includes it, and `Game.PairsWithinTotal` gives the bound on the page's own
variables.

`setup` never checks that `getPokemonSprites` found `numPairs` sprites. It
deals whatever came back and still sets `totalPairs` to `numPairs`
(index.js:176-193). The model keeps that: there is no error for a short deck,
and `ShortDeckNeverWon` proves that such a game can never be won. Every deck
`setup` deals has an even number of cards, which the lemma needs: after the
power-up's self-match a single card can count as a pair.

## Model

| member | source | states |
|---|---|---|
| Engine.Deal | index.js:180-188 | the board shows the deck in order, every card face down and unmatched |
| Engine.NewSession | index.js:176-198 | the dealt board has the deck's images and no matched card; nothing is selected, the board is unlocked, the counters are zero, `totalPairs` is `numPairs`, no countdown runs, the power-up is available and no card is recorded as revealed by it |
| Engine.ResetSelection | index.js:130-133 | both selections are cleared and the board unlocks; nothing else changes |
| Engine.CheckWin | index.js:91-99 | the countdown keeps running exactly when it ran and not every pair is found; nothing else changes |
| Engine.DisableMatched | index.js:120-127 | both selected cards become matched and every other card is unchanged; images and `flip` are unchanged; one more pair is counted; the selection is cleared and the board unlocks; the countdown stops on the last pair; clicks, time, freeze and power-up are untouched |
| Engine.LimitsShrinkWithPairs | index.js:4 | the difficulties are 3, 6 and 9 pairs with 60, 45 and 30 seconds: more pairs, less time |
| Engine.Click | index.js:136-162 | the session stays well formed and the board keeps its size; the cases are stated by the lemmas below |
| Engine.ClickIgnored | index.js:137 | a click on a locked or frozen board, or on a face-up or matched card, changes nothing |
| Engine.ClickCountedIffNotIgnored | index.js:137 | a click is counted if and only if it is not ignored (locked or frozen board, face-up or matched card), and it changes the session if and only if it is not ignored |
| Engine.ClickAccepted | index.js:139-142 | an accepted click adds exactly one to the click count and turns that card face up |
| Engine.ClickKeepsImages | index.js:136-162 | no click changes any card's image |
| Engine.ClickKeeps | index.js:136-162 | no click changes the number of pairs, the time left, the freeze or the power-up state |
| Engine.ClickFirstCard | index.js:144-147 | with nothing selected, the card is only flipped and remembered as the first card: no comparison, no lock, no pair, countdown untouched |
| Engine.ClickMatch | index.js:149-153 | a second card with the first card's image: both become matched, every other card is unchanged, one more pair is counted, the selection is cleared at once and the board unlocks, and the countdown stops exactly when this was the last pair |
| Engine.ClickMismatch | index.js:154-161 | a second card with another image: no pair is counted, both cards stay selected, the board locks and the reset is scheduled; only the clicked card changes |
| Engine.ClickMatchSteps | index.js:149-153 | the matching case is: count, flip, record the second card, then `disableMatched` |
| Engine.ClickCountsOnlyMatches | index.js:150-153 | the pair count changes if and only if an accepted second card has the first card's image |
| Engine.MismatchTimeout | index.js:156-160 | only the two selected cards turn face down; the selection is cleared, the board unlocks and nothing else changes |
| Engine.StartTimer | index.js:102-106 | the time left becomes `limit` and the countdown runs; nothing else changes |
| Engine.Tick | index.js:106-116 | one second less; the countdown keeps running if and only if the time left is not negative, and the board is frozen once it is; nothing else changes |
| Engine.Ticks | index.js:106-116 | `k` seconds of the countdown change only the time left, the interval and the freeze; a frozen board stays frozen; while the interval runs, exactly `k` seconds were subtracted |
| Engine.Reveal | index.js:261-264 | every unmatched card turns face up; matched cards are unchanged |
| Engine.Hide | index.js:267-269 | exactly the cards at the given positions turn face down |
| Engine.Unmatched | index.js:261 | the positions of the cards without `matched` |
| Engine.PowerUp | index.js:255-270 | a second activation changes nothing; the first one turns every unmatched card face up, records those cards and schedules their return; selection, lock and counters are untouched |
| Engine.PowerUpTimeout | index.js:267-269 | the cards the power-up revealed turn face down, whatever happened to them since, and none stays recorded; selection, lock and counters are untouched |
| SessionInvariant.NewSessionInv | index.js:190-198 | a freshly set-up session satisfies the invariant |
| SessionInvariant.ClickInv | index.js:136-162 | every click keeps the invariant |
| SessionInvariant.FirstCardInv | index.js:144-147 | selecting a first card keeps the invariant |
| SessionInvariant.MatchInv | index.js:149-153 | a matching second card keeps the invariant |
| SessionInvariant.MismatchInv | index.js:154-161 | a mismatching second card keeps the invariant |
| SessionInvariant.MismatchTimeoutInv | index.js:156-160 | the mismatch reset keeps the invariant |
| SessionInvariant.StartTimerInv | index.js:102-106 | starting the countdown keeps the invariant |
| SessionInvariant.TickInv | index.js:106-116 | a countdown tick keeps the invariant |
| SessionInvariant.PowerUpInv | index.js:255-264 | the power-up keeps the invariant |
| SessionInvariant.PowerUpTimeoutInv | index.js:267-269 | the power-up's timeout keeps the invariant |
| SessionInvariant.MatchedPairsBound | index.js:123 | with at most two cards per pair, the pair count never exceeds `totalPairs` |
| SessionInvariant.ShortDeckNeverWon | index.js:176-193 | with an even number of cards (every deck `setup` deals is even) and fewer than `2 * totalPairs` of them, `matchedPairs` never reaches `totalPairs` |
| SessionProperties.ReclickFirstIsIgnored | index.js:137 | clicking the first selected card again changes nothing |
| SessionProperties.MatchingRound | index.js:136-153 | two clicks on different cards with the same image count two clicks and one pair, match both cards, clear the selection, and stop the countdown exactly on the last pair |
| SessionProperties.MismatchRound | index.js:154-161 | two clicks on cards with different images lock the board without counting a pair; the timeout restores the board exactly, with two more clicks counted |
| SessionProperties.SelfMatchAfterPowerUp | index.js:267-269 | after the power-up ends, clicking the still-selected first card counts a pair while only one more card becomes matched |
| SessionProperties.WonWithUnmatchedCard | index.js:92 | a concrete two-pair game reaches `matchedPairs == totalPairs`, with the countdown stopped, while one card was never matched |
| SessionProperties.CountdownRuns | index.js:106-107 | for `k` ticks up to the time left, the countdown only subtracts `k` |
| SessionProperties.CountdownExpires | index.js:106-113 | the tick after the limit leaves -1, stops the interval and freezes the board, and later ticks do nothing |
| SessionProperties.TicksSplit | index.js:106-116 | `a + b` ticks are `a` ticks followed by `b` ticks, from any session |
| SessionProperties.DifficultyExpiry | index.js:4 | every difficulty's limit is 60, 45 or 30; ticks 0 to L leave L down to 0 with the board playable; tick L+1 freezes it |
| SessionProperties.SixPairsExpireOnTick46 | index.js:4 | with six pairs the limit is 45: the 45th tick shows 0, the 46th freezes the board |
| MemoryGame.Game.constructor | index.js:7-18 | the variables as the page loads form a valid session with no cards |
| MemoryGame.Game.PairsWithinTotal | index.js:120-127 | in a valid game `matchedPairs` never exceeds `totalPairs` |
| MemoryGame.Game.ResetSelection | index.js:130-133 | the fields change as `Engine.ResetSelection` says |
| MemoryGame.Game.CheckWin | index.js:91-99 | the fields change as `Engine.CheckWin` says |
| MemoryGame.Game.DisableMatched | index.js:120-127 | the board and fields change as `Engine.DisableMatched` says |
| MemoryGame.Game.Click | index.js:136-162 | the board and fields change as `Engine.Click` says, and the invariant is kept |
| MemoryGame.Game.SelectFirst | index.js:139-147 | the first-card case of `Engine.Click`, keeping the invariant |
| MemoryGame.Game.SelectMatching | index.js:149-153 | the matching case of `Engine.Click`, keeping the invariant |
| MemoryGame.Game.SelectMismatching | index.js:154-155 | the mismatching case of `Engine.Click`, keeping the invariant |
| MemoryGame.Game.MismatchTimeout | index.js:156-160 | the board and fields change as `Engine.MismatchTimeout` says, keeping the invariant |
| MemoryGame.Game.StartTimer | index.js:102-106 | the fields change as `Engine.StartTimer` says, keeping the invariant |
| MemoryGame.Game.Tick | index.js:106-116 | the fields change as `Engine.Tick` says, keeping the invariant |
| MemoryGame.Game.PowerUp | index.js:255-270 | the board and fields change as `Engine.PowerUp` says, keeping the invariant |
| MemoryGame.Game.RevealUnmatched | index.js:261-264 | the board becomes `Reveal` of the old board, and the result is the set of positions of its unmatched cards |
| MemoryGame.Game.PowerUpTimeout | index.js:267-269 | the board and fields change as `Engine.PowerUpTimeout` says, keeping the invariant |
| MemoryGame.Game.HideCards | index.js:268 | the board becomes `Hide` of the old board |
| MemoryGame.Game.DealCards | index.js:180-188 | a fresh array holding `Engine.Deal` of the deck |
| MemoryGame.Game.ResetCounters | index.js:191-194 | clicks and pairs are zero, `totalPairs` is `numPairs`, the power-up is available; no other field changes |
| MemoryGame.Game.StopTimer | index.js:195-196 | the countdown stops and the time left is zero; no other field changes |
| MemoryGame.Game.ClearSelection | index.js:197-198 | the board unlocks and both selections are cleared; no other field changes |
| MemoryGame.Game.RebindCards | index.js:205 | the new cards take clicks again, and nothing is pending |
| MemoryGame.Game.FreshState | index.js:190-198 | the fields as `setup` leaves them are `Engine.NewSession` of the deck, which satisfies the invariant `Inv` |
| MemoryGame.Game.Deal | index.js:176-198 | a fresh board and the reset fields form `Engine.NewSession(numPairs, deck)`, which satisfies the invariant `Inv` |
| MemoryGame.Game.Setup | index.js:164-210 | the sprites are those `getPokemonSprites` accepts from some order of the catalog; the board holds each sprite exactly twice; the state is a new session with `totalPairs == numPairs`, keeping the invariant, and valid with its size bound for any non-negative `numPairs` |
| MemoryGame.Game.Start | index.js:227-249 | the sprites and the board are those of `Setup` (each accepted sprite exactly twice), the game is valid, and the countdown runs from the difficulty's limit |
| Sprites.Accepted | index.js:43-72 | at most `n` candidates are accepted, each usable and with a name not tried before |
| Sprites.Eligible | index.js:43-72 | every candidate the walk would accept with no cut-off is usable and has a name not tried before |
| Sprites.Urls | index.js:67 | one URL per accepted candidate, in order: its artwork URL |
| Sprites.AcceptedIsPrefixOfEligible | index.js:44 | stopping at `n` URLs keeps exactly the first `n` eligible candidates |
| Sprites.EligibleIsFirstOfItsName | index.js:46-48 | every accepted candidate is the first candidate of its name in the shuffled catalog |
| Sprites.FirstOfNameIsEligible | index.js:46-67 | the first candidate of an untried name, when it is usable, is in the walk without the cut-off (`Eligible`), so it is accepted unless `n` URLs were collected before it |
| Sprites.EligibleNamesDistinct | index.js:46-48 | no two accepted candidates share a name |
| Sprites.GetPokemonSprites | index.js:34-75 | the loop returns the URLs of `Accepted` for a permutation of the catalog: at most `n` URLs, each the present, loadable artwork URL of a catalog entry |
| Sprites.AcceptedFromCandidates | index.js:43-67 | every accepted candidate is one of the candidates walked |
| Sprites.AcceptedUrlsFromCatalog | index.js:43-74 | whatever the order of the catalog, at most `n` URLs are returned, and each is the present, loadable artwork URL of a catalog entry |
| Sprites.SelectUrlsIsUrlsOfAccepted | index.js:43-74 | the URLs the walk collects are those of the accepted candidates, in order |
| Shuffle.ShuffleInPlace | index.js:29-31 | the array's contents are permuted in place |
| Shuffle.Shuffled | index.js:29-31 | the result is a permutation of the input |
| Deck.BuildDeck | index.js:177 | the deck has twice as many cards as there are sprites and is a permutation of `sprites ++ sprites`: each image occurs twice as often as among the sprites, and no other image occurs |
| TimeFormat.Show | index.js:79-80 | `String(n)` is a non-empty string of digits |
| TimeFormat.ShowLength | index.js:79-80 | `String(n)` has one digit exactly below 10, at most two exactly below 100, and no leading zero |
| TimeFormat.PadStart | index.js:79-80 | `padStart` gives the larger of `width` and the length of `s`, ends with `s` and is filled in front |
| TimeFormat.Field | index.js:79-80 | a field is at least two digits long |
| TimeFormat.FieldIsPadStart | index.js:79-80 | a field is `String(n).padStart(2, '0')`, exactly two characters when `n < 100` |
| TimeFormat.ValueOfField | index.js:79-80 | a field denotes `n` |
| TimeFormat.DivMod60 | index.js:79-80 | `sec == 60 * m + s` with `s < 60`, and `m < 100` exactly when `sec < 6000` |
| TimeFormat.ParseJoin | index.js:81 | reading `MM:SS` back gives the minutes and the seconds it was made from |
| TimeFormat.Join | index.js:81 | `${m}:${s}` of two fields reads back as exactly `m` and `s`; with seconds below 60, ':' is three from the end and the string has five characters exactly when `m < 100` |
| TimeFormat.JoinShape | index.js:81 | ':' is the third character from the end, and the string has five characters exactly when the minutes are below 100 |
| TimeFormat.FormatTime | index.js:78-82 | `formatTime(sec)` reads back as the minutes `sec / 60` and the seconds `sec % 60`, which are below 60 and give back `sec`; it is `MM:SS`, with ':' three from the end and five characters exactly when `sec < 6000` |

## Left out

- DOM rendering is not modelled: `updateStatus`, the timer text, the card HTML, the grid classes, the modal, `endGame`, the theme toggle, `fadeIn` and button enabling. The model keeps the variables and classes they display.
- The network and the image preload are not modelled. Each catalog entry is given as a `Candidate` whose `Outcome` says whether its detail fetch fails, and otherwise gives its artwork URL (empty when missing) and whether the image loads.
- A failed catalog fetch only rejects `setup` and has no error path in the code, so it is not modelled.
- Randomness is not modelled: `shuffle` sorts with a `Math.random` comparator, and the model draws the permutation from a `swaps` input instead.
- Shuffle.ShuffleInPlace: states only that the result is a permutation, not the distribution of the comparator sort, which nothing in the game relies on.
- Timer scheduling is not modelled. The interval callback and the two timeouts are event methods, and the delays of 100 ms, 1 s and 3 s are not represented.
- The 100 ms delay before the winning modal does not affect the engine.
- Timeouts that cross sessions are not modelled. `setup` starts a session with nothing pending, so a mismatch or power-up timeout from a previous game that fires after a reset is outside the model.
- `parseInt` of the difficulty is not modelled; `numPairs` is an integer input.
- MemoryGame.Game.Setup: promises the size bound of `Valid()` only for a non-negative `numPairs`. The difficulty options give 3, 6 or 9, and a negative count would make `totalPairs` negative with an empty board.
- MemoryGame.Game.Start: requires `numPairs` to be a key of `TIME_LIMITS`. For any other value the page passes `undefined` to `startTimer`.
- The `powerup` glow class is not modelled. It is added and removed together with `flip` and has no effect on the game.
- Two different names whose artwork URLs coincide give duplicate images; nothing in the model depends on URLs being distinct.
- TimeFormat.FormatTime: takes a natural number. The display is updated only with the limit or with a time left that is not negative (index.js:105, 108-115), so negative seconds never reach it.
