/** The game session: the roster and the score table that the page keeps
    between interactions, and the three actions that change them. */
module Game {
  import opened Names
  import opened Bids
  import opened Table

  class Session {
    /** The roster; empty while the game is being set up. */
    var players: seq<string>
    /** The score table, one row per submitted round. */
    var scores: seq<Row>
    /** The table's column headers: "Round" followed by the roster once a game is started. */
    var columns: seq<string>

    ghost predicate Valid()
      reads this
    {
      && Distinct(players)
      && columns == (if players == [] then [] else ["Round"] + players)
      && (players == [] ==> scores == [])
      && Numbered(scores)
      && HasRoster(scores, players)
      && Stepped(scores)
    }

    /** The setup phase: no roster yet. */
    predicate InSetup()
      reads this
    {
      players == []
    }

    /** A fresh session starts in setup with an empty table. */
    constructor ()
      ensures Valid() && InSetup()
      ensures scores == [] && columns == []
    {
      players := [];
      scores := [];
      columns := [];
    }

    /** Start a game from the typed names: keep the names with text, in
        order and untrimmed. With none left the session stays in setup and
        the table is untouched; otherwise the table is emptied and gets the
        columns "Round" and the roster. */
    method StartGame(names: seq<string>) returns (started: bool)
      requires Valid() && InSetup()
      requires Distinct(KeepNamed(names))
      modifies this
      ensures Valid()
      ensures players == KeepNamed(names)
      ensures started <==> !InSetup()
      ensures started ==> scores == [] && columns == ["Round"] + players
      ensures !started ==> scores == old(scores) && columns == old(columns)
    {
      var kept: seq<string> := [];
      for i := 0 to |names|
        invariant kept == KeepNamed(names[..i])
        invariant unchanged(this)
      {
        assert names[..i + 1] == names[..i] + [names[i]];
        KeepNamedAppend(names[..i], [names[i]]);
        KeepNamedSingle(names[i]);
        if HasText(names[i]) {
          kept := kept + [names[i]];
        }
      }
      assert names[..|names|] == names;
      players := kept;
      if kept == [] {
        started := false;
      } else {
        scores := [];
        columns := ["Round"] + kept;
        started := true;
      }
    }

    /** Submit a round: build the row that gives the bidder and every
        teammate the signed bid and everyone else 0, and append it as round
        number (old table length + 1). The deck count only fixes which bids
        the bid input allows. */
    method SubmitRound(decks: int, bidder: string, teammates: seq<string>, bid: int, won: bool)
      requires Valid() && !InSetup()
      requires 1 <= decks <= 3 && ValidBid(decks, bid)
      requires bidder in players
      requires forall t :: t in teammates ==> t in players && t != bidder
      modifies this
      ensures Valid()
      ensures players == old(players) && columns == old(columns)
      ensures scores == old(scores) + [NewRow(|old(scores)| + 1, players, bidder, teammates, bid, won)]
      ensures forall p :: p in players ==>
                HasColumn(old(scores), p) && HasColumn(scores, p) &&
                Total(scores, p) == Total(old(scores), p) + scores[|scores| - 1].deltas[p]
    {
      var roundData := BuildRoundData(bidder, teammates, bid, won);
      var row := Row(|scores| + 1, roundData);
      assert row == NewRow(|scores| + 1, players, bidder, teammates, bid, won);
      ChangeStepped(decks, bid, won);
      AppendKeepsTable(scores, players, row);
      forall p | p in players
        ensures HasColumn(scores, p) && HasColumn(scores + [row], p)
        ensures Total(scores + [row], p) == Total(scores, p) + row.deltas[p]
      {
        TotalAppend(scores, row, p);
      }
      scores := scores + [row];
    }

    /** The changes of the current round as the page computes them: first
        every roster player is set to 0, then each involved player (the
        bidder, then the teammates) is set to the signed bid. */
    method BuildRoundData(bidder: string, teammates: seq<string>, bid: int, won: bool)
      returns (roundData: map<string, int>)
      requires bidder in players
      requires forall t :: t in teammates ==> t in players
      ensures roundData == NewRow(|scores| + 1, players, bidder, teammates, bid, won).deltas
    {
      roundData := map[];
      for i := 0 to |players|
        invariant roundData.Keys == RosterSet(players[..i])
        invariant forall p :: p in roundData ==> roundData[p] == 0
      {
        assert players[..i + 1] == players[..i] + [players[i]];
        roundData := roundData[players[i] := 0];
      }
      assert players[..|players|] == players;

      var scoreChange := if won then bid else -bid;
      var involved := [bidder] + teammates;
      for j := 0 to |involved|
        invariant roundData.Keys == RosterSet(players)
        invariant forall p :: p in roundData ==>
                    roundData[p] == if p in involved[..j] then scoreChange else 0
      {
        assert involved[..j + 1] == involved[..j] + [involved[j]];
        roundData := roundData[involved[j] := scoreChange];
      }
      assert involved[..|involved|] == involved;
    }

    /** Reset: clear the roster and the table, back to setup. */
    method Reset()
      requires Valid()
      modifies this
      ensures Valid() && InSetup()
      ensures scores == [] && columns == []
    {
      players := [];
      scores := [];
      columns := [];
    }
  }
}
