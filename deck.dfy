/** The deck `setup` deals: every sprite twice, shuffled. */
module Deck {
  import Shuffle

  /**
   * index.js `setup`, `shuffle([...sprites, ...sprites])`: a permutation of the
   * sprites followed by the sprites again, so each image occurs twice as often as
   * among the sprites, and no image that is not a sprite occurs.
   */
  method BuildDeck(sprites: seq<string>, swaps: seq<nat>) returns (deck: seq<string>)
    ensures |deck| == 2 * |sprites|
    ensures multiset(deck) == multiset(sprites + sprites)
    ensures forall u :: multiset(deck)[u] == 2 * multiset(sprites)[u]
    ensures forall u :: u in deck <==> u in sprites
  {
    deck := Shuffle.Shuffled(sprites + sprites, swaps);
    assert forall u :: u in deck <==> u in multiset(sprites + sprites);
  }
}
