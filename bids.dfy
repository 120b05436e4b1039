/** The bid range chosen from the number of decks, and the signed score
    change a bid produces. */
module Bids {

  /** The bid input moves in steps of this many points. */
  const BidStep := 5

  /** Lowest and highest bid for a deck count. The deck input only offers
      1, 2 or 3; any other count falls to the last branch. */
  function BidRange(decks: int): (r: (int, int))
    ensures 1 <= decks <= 3 ==> r.0 == 75 * decks
    ensures r.1 == 2 * r.0 && r.0 % BidStep == 0
  {
    if decks == 1 then (75, 150)
    else if decks == 2 then (150, 300)
    else (225, 450)
  }

  /** A bid the bid input can produce for `decks`: inside the range and on a
      step. Every such bid is a multiple of 5 between 75 and 450. */
  function ValidBid(decks: int, bid: int): (ok: bool)
    ensures ok ==> 75 <= bid <= 450 && bid % BidStep == 0
  {
    var (lo, hi) := BidRange(decks);
    lo <= bid <= hi && (bid - lo) % BidStep == 0
  }

  /** What every involved player receives: the bid if the bidder won, its negation if not. */
  function Change(bid: int, won: bool): int
  {
    if won then bid else -bid
  }

  /** The change has the bid's magnitude, and for a positive bid its sign says who won. */
  lemma ChangeSign(bid: int, won: bool)
    ensures Change(bid, won) == bid || Change(bid, won) == -bid
    ensures bid > 0 ==> (Change(bid, won) > 0 <==> won)
  {
  }

  /** The change an accepted bid produces, won or lost, is a multiple of 5
      of magnitude between 75 and 450. */
  lemma ChangeStepped(decks: int, bid: int, won: bool)
    requires ValidBid(decks, bid)
    ensures Change(bid, won) % BidStep == 0
    ensures 75 <= (if won then Change(bid, won) else -Change(bid, won)) <= 450
  {
  }

  /** Both ends of each range are accepted, one step outside either end is not. */
  lemma BidRangeEnds(decks: int)
    requires 1 <= decks <= 3
    ensures ValidBid(decks, 75 * decks) && ValidBid(decks, 150 * decks)
    ensures !ValidBid(decks, 75 * decks - BidStep) && !ValidBid(decks, 150 * decks + BidStep)
  {
  }
}
