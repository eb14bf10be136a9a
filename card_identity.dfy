/**
  Card identity: the `match i` of the deal loop in `setup`, which turns a deal index into a
  `Card` value, and what that mapping does to the deck as a whole.
 */
module CardIdentity {

  import opened CardComponents

  /** Number of cards the deal loop creates (`for i in 0..52`). */
  const DeckSize: nat := 52

  /**
    The card dealt at index `i`, exactly as the match in `setup` computes it: four inclusive
    ranges pick suit and color (the third one, `26..=39`, is one index too wide and the fourth,
    `40..=52`, shifted one up), any other index falls to the fallback arm (Hearts, Black),
    and the index and number are `i + 1` and `i % 13 + 1` in every case.
   */
  function CardFor(i: nat): (c: Card)
    ensures c.index >= 1 && 1 <= c.number <= 13
    ensures c.number - 1 == (c.index - 1) % 13
  {
    var suitColor :=
      if i <= 12 then (Hearts, Red)
      else if i <= 25 then (Spades, Black)
      else if i <= 39 then (Diamonds, Red)
      else if i <= 52 then (Clubs, Black)
      else (Hearts, Black);
    Card(i + 1, i % 13 + 1, suitColor.0, suitColor.1)
  }

  /** Red exactly for the red suits. */
  predicate ColorFollowsSuit(c: Card)
  {
    c.color == Red <==> (c.suit == Hearts || c.suit == Diamonds)
  }

  /** Card `c` is the rank-`n` card of suit `s`. */
  predicate IsCard(c: Card, s: CardSuit, n: nat)
  {
    c.suit == s && c.number == n
  }

  /** Every index the deal loop visits gets ordinal i + 1 in 1..52 and rank i % 13 + 1 in 1..13. */
  lemma DealtCardNumbering(i: nat)
    requires i < DeckSize
    ensures CardFor(i).index == i + 1 && 1 <= CardFor(i).index <= 52
    ensures CardFor(i).number == i % 13 + 1 && 1 <= CardFor(i).number <= 13
  {
  }

  /**
    The color agrees with the suit exactly on the indices some range arm matches; the fallback
    arm (Hearts with Black) is the only one that breaks it, and no index of the deal loop
    reaches it.
   */
  lemma ColorFollowsSuitExactlyInArms(i: nat)
    ensures ColorFollowsSuit(CardFor(i)) <==> i <= 52
  {
  }

  /** Suit by range of the deal index, as the deal loop sees it. */
  lemma SuitByRange(i: nat)
    requires i < DeckSize
    ensures CardFor(i).suit == Hearts <==> i <= 12
    ensures CardFor(i).suit == Spades <==> 13 <= i <= 25
    ensures CardFor(i).suit == Diamonds <==> 26 <= i <= 39
    ensures CardFor(i).suit == Clubs <==> 40 <= i
  {
  }

  /** How many of the indices lo..hi-1 a deal function gives suit `s`. */
  function CountSuit(deal: nat -> Card, lo: nat, hi: nat, s: CardSuit): (n: nat)
    requires lo <= hi
    ensures n <= hi - lo
    decreases hi - lo
  {
    if lo == hi then 0
    else (if deal(lo).suit == s then 1 else 0) + CountSuit(deal, lo + 1, hi, s)
  }

  lemma {:induction false} CountUniform(deal: nat -> Card, lo: nat, hi: nat, s: CardSuit)
    requires lo <= hi
    requires forall i :: lo <= i < hi ==> deal(i).suit == s
    ensures CountSuit(deal, lo, hi, s) == hi - lo
    decreases hi - lo
  {
    if lo < hi {
      CountUniform(deal, lo + 1, hi, s);
    }
  }

  lemma {:induction false} CountAbsent(deal: nat -> Card, lo: nat, hi: nat, s: CardSuit)
    requires lo <= hi
    requires forall i :: lo <= i < hi ==> deal(i).suit != s
    ensures CountSuit(deal, lo, hi, s) == 0
    decreases hi - lo
  {
    if lo < hi {
      CountAbsent(deal, lo + 1, hi, s);
    }
  }

  lemma {:induction false} CountSplit(deal: nat -> Card, lo: nat, mid: nat, hi: nat, s: CardSuit)
    requires lo <= mid <= hi
    ensures CountSuit(deal, lo, hi, s) == CountSuit(deal, lo, mid, s) + CountSuit(deal, mid, hi, s)
    decreases mid - lo
  {
    if lo < mid {
      CountSplit(deal, lo + 1, mid, hi, s);
    }
  }

  /**
    The count of `s` over the whole deck, when indices 0..a-1, a..b-1, b..c-1 and c..51 each
    have a single suit and exactly one of those blocks, [from, to), has suit `s`.
   */
  lemma CountOneBlock(deal: nat -> Card, a: nat, b: nat, c: nat, from: nat, to: nat, s: CardSuit)
    requires 0 <= a <= b <= c <= DeckSize
    requires (from, to) in {(0, a), (a, b), (b, c), (c, DeckSize)}
    requires forall i :: from <= i < to ==> deal(i).suit == s
    requires forall i :: 0 <= i < DeckSize && !(from <= i < to) ==> deal(i).suit != s
    ensures CountSuit(deal, 0, DeckSize, s) == to - from
  {
    CountSplit(deal, 0, from, DeckSize, s);
    CountSplit(deal, from, to, DeckSize, s);
    CountAbsent(deal, 0, from, s);
    CountUniform(deal, from, to, s);
    CountAbsent(deal, to, DeckSize, s);
  }

  /** The deck as dealt has 13 Hearts, 13 Spades, 14 Diamonds and only 12 Clubs. */
  lemma DeckSuitCounts()
    ensures CountSuit(CardFor, 0, DeckSize, Hearts) == 13
    ensures CountSuit(CardFor, 0, DeckSize, Spades) == 13
    ensures CountSuit(CardFor, 0, DeckSize, Diamonds) == 14
    ensures CountSuit(CardFor, 0, DeckSize, Clubs) == 12
  {
    CountOneBlock(CardFor, 13, 26, 40, 0, 13, Hearts);
    CountOneBlock(CardFor, 13, 26, 40, 13, 26, Spades);
    CountOneBlock(CardFor, 13, 26, 40, 26, 40, Diamonds);
    CountOneBlock(CardFor, 13, 26, 40, 40, 52, Clubs);
  }

  /** Index 39 becomes a Diamonds ace, a second one beside index 26, and no Clubs ace is dealt. */
  lemma DiamondsArmTakesIndex39()
    ensures CardFor(26).suit == Diamonds && CardFor(26).number == 1
    ensures CardFor(39).suit == Diamonds && CardFor(39).number == 1
    ensures forall i :: 0 <= i < DeckSize ==> !IsCard(CardFor(i), Clubs, 1)
  {
    forall i | 0 <= i < DeckSize && CardFor(i).suit == Clubs
      ensures CardFor(i).number != 1
    {
      assert 40 <= i < 52;
      assert i % 13 == i - 39;
    }
  }

  /** The deal as evidently intended: four blocks of thirteen, Diamonds on 26..=38 and Clubs on 39..=51. */
  function IntendedCardFor(i: nat): Card
  {
    var suitColor :=
      if i <= 12 then (Hearts, Red)
      else if i <= 25 then (Spades, Black)
      else if i <= 38 then (Diamonds, Red)
      else if i <= 51 then (Clubs, Black)
      else (Hearts, Black);
    Card(i + 1, i % 13 + 1, suitColor.0, suitColor.1)
  }

  /** The deck as written and the intended deck differ at index 39 and nowhere else. */
  lemma AsWrittenDiffersOnlyAt39(i: nat)
    requires i < DeckSize
    ensures CardFor(i) == IntendedCardFor(i) <==> i != 39
  {
  }

  /** The first index of a suit's block in the intended deal. */
  function IntendedBlockStart(s: CardSuit): (start: nat)
    ensures start % 13 == 0 && start + 13 <= DeckSize
  {
    match s
    case Hearts => 0
    case Spades => 13
    case Diamonds => 26
    case Clubs => 39
  }

  /** In the intended deal every suit has thirteen cards. */
  lemma IntendedSuitCounts(s: CardSuit)
    ensures CountSuit(IntendedCardFor, 0, DeckSize, s) == 13
  {
    var start := IntendedBlockStart(s);
    CountOneBlock(IntendedCardFor, 13, 26, 39, start, start + 13, s);
  }

  /** The intended deal is a complete deck: every (suit, rank) pair is dealt, with its color following its suit. */
  lemma IntendedDeckIsComplete(s: CardSuit, n: nat)
    requires 1 <= n <= 13
    ensures exists i :: 0 <= i < DeckSize && IsCard(IntendedCardFor(i), s, n) && ColorFollowsSuit(IntendedCardFor(i))
  {
    var i := IntendedBlockStart(s) + n - 1;
    assert i % 13 == n - 1;
    assert IsCard(IntendedCardFor(i), s, n);
  }

  /** In the intended deal no (suit, rank) pair is dealt twice. */
  lemma IntendedDealsEachCardOnce(i: nat, j: nat)
    requires i < DeckSize && j < DeckSize
    requires IntendedCardFor(i).suit == IntendedCardFor(j).suit
    requires IntendedCardFor(i).number == IntendedCardFor(j).number
    ensures i == j
  {
    var start := IntendedBlockStart(IntendedCardFor(i).suit);
    assert start <= i < start + 13 && start <= j < start + 13;
    assert i == start + i % 13 && j == start + j % 13;
  }
}
