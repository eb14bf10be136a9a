/**
  The card components: plain copyable values attached to card entities.
  `Card` is immutable identity data; `CardSlot`, `CardFront` and `CardBack` are markers
  that carry no data; `CurrentCard` is a single cursor index.
 */
module CardComponents {

  datatype CardSuit = Hearts | Spades | Diamonds | Clubs

  datatype CardColor = Red | Black

  /** `index` and `number` are machine-sized unsigned integers in the program. */
  datatype Card = Card(index: nat, number: nat, suit: CardSuit, color: CardColor)

  /** Marks a slot entity; a slot is identified only by its entity and its transform. */
  datatype CardSlot = CardSlot

  /** Marks the front-face child of a card. */
  datatype CardFront = CardFront

  /** Marks the back-face child of a card. */
  datatype CardBack = CardBack

  /** The deck resource; the program inserts it empty and never fills it. */
  datatype Cards = Cards(cards: seq<Card>)

  /** The debug cursor resource. */
  datatype CurrentCard = CurrentCard(cursor: nat)
}
