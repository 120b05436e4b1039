/** The round record exactly as the page builds it: one dictionary that
    holds the "Round" entry and the player entries side by side. */
module RoundData {
  import opened Bids
  import opened Table

  /** Writes v under every key of `keys`, in order. */
  function AssignAll(m: map<string, int>, keys: seq<string>, v: int): (r: map<string, int>)
    ensures r.Keys == m.Keys + RosterSet(keys)
    ensures forall k :: k in r ==> r[k] == if k in keys then v else m[k]
    decreases |keys|
  {
    if keys == [] then m
    else
      var r := AssignAll(m[keys[0] := v], keys[1..], v);
      assert RosterSet(keys) == {keys[0]} + RosterSet(keys[1..]);
      r
  }

  /** The record as written: start from {"Round": round}, zero every roster
      player, then give every involved player the signed bid. Its keys are
      "Round", the roster and the involved players; the round number survives
      only when no player is called "Round". */
  function RoundDataAsWritten(round: int, players: seq<string>, bidder: string,
                              teammates: seq<string>, bid: int, won: bool): (r: map<string, int>)
    ensures r.Keys == {"Round"} + RosterSet(players) + {bidder} + RosterSet(teammates)
    ensures forall p :: p in r && p != bidder && p !in teammates ==>
              r[p] == if p in players then 0 else round
    ensures bidder in r && r[bidder] == Change(bid, won)
    ensures forall t :: t in teammates ==> t in r && r[t] == Change(bid, won)
  {
    var zeroed := AssignAll(map["Round" := round], players, 0);
    assert RosterSet([bidder] + teammates) == {bidder} + RosterSet(teammates);
    AssignAll(zeroed, [bidder] + teammates, Change(bid, won))
  }

  /** When no player is called "Round", the record as written is the
      round number next to the deltas of the new row. */
  lemma AsWrittenWithoutRoundName(round: int, players: seq<string>, bidder: string,
                                  teammates: seq<string>, bid: int, won: bool)
    requires "Round" !in players
    requires bidder in players
    requires forall t :: t in teammates ==> t in players
    ensures RoundDataAsWritten(round, players, bidder, teammates, bid, won)
            == NewRow(round, players, bidder, teammates, bid, won).deltas["Round" := round]
  {
  }

  /** With a player called "Round" that is not involved, the record's
      "Round" entry is that player's 0 instead of the round number. */
  lemma RoundNameOverwritesRound()
    ensures RoundDataAsWritten(1, ["Round", "B", "C"], "B", [], 100, true)["Round"] == 0
  {
  }
}
