# Black Queen bid calculator — game-state model

A Dafny model of the scorekeeping core of the Black Queen bid calculator, a
single-page app for the trick-taking game Black Queen. The page keeps two session values: a roster of player names
and a score table with one row per round. It offers three actions:

- **start a game**: the names that are not blank are kept, in the order typed;
- **submit a round**: the bidder and the teammates get plus or minus the bid, everyone
  else gets 0, and the row is appended as round N + 1;
- **reset**: the roster and the table are cleared.

It shows three views of the table: each player's total, the current leader and
each player's cumulative score history. The bid range comes from the number of decks.

Modules:

- `Names` (`names.dfy`): which typed names are kept at game start.
- `Bids` (`bids.dfy`): the bid range per deck count, the bid step and the signed change a bid produces.
- `Table` (`table.dfy`): the `Row` value (round number plus a map from player to change), the row a submission
  appends (`NewRow`), the table invariants (`Numbered`, `HasRoster`, `Stepped`), and the derived views
  `Total`, `History`, `Totals` and `Leader`, with lemmas relating them.
- `Game` (`game.dfy`): class `Session` with fields `players`, `scores` and `columns`. `StartGame`, `SubmitRound` and
  `Reset` are methods that update them in place. Each one keeps `Valid()`. `StartGame` filters the names with a loop.
  `SubmitRound` gets the round's map from `BuildRoundData`, which runs the source's two loops: one zeroes every
  player, the other overwrites the involved players.
- `RoundData` (`round_data.dfy`): the round dictionary exactly as the page builds it, with the `"Round"`
  entry in the same dictionary as the player entries (see Findings).

Assumptions that appear as preconditions:

- The filtered names must be distinct. The page never checks this, and a repeated name would give the table
  a repeated column.
- `SubmitRound` requires a deck count of 1 to 3, and a bid that is in range and on the 5-point step. The page
  never re-checks the bid when a round is submitted; only its input controls limit these values.
- The bidder must be on the roster. Teammates must be roster players other than the bidder. These are the
  options the page's selection inputs offer.

Two behaviours of the code worth stating:

- Names are not trimmed. A name is kept when `name.strip()` is non-empty, and it is stored exactly as typed.
- There is no bid-out-of-range error. The bid range is a precondition, not an error result.

## Model

| member | source | states |
|---|---|---|
| `Names.HasTextStrip` | main.py:20 | a name passes the page's `name.strip()` test exactly when it has a character outside Python's whitespace set |
| `Names.KeepNamed` | main.py:20 | the roster is never longer than the list of typed names |
| `Names.KeepNamedMembers` | main.py:20 | a name is in the roster iff it is one of the typed names and has a non-whitespace character |
| `Names.KeepNamedAppend` | main.py:20 | filtering distributes over concatenation, so the kept names appear in their typed order |
| `Names.KeepNamedAllNamed` | main.py:20 | when every name has text the roster is the input unchanged: no name is trimmed or dropped |
| `Names.KeepNamedSingle` | main.py:20 | a single name is kept exactly when it has text |
| `Bids.BidRange` | main.py:35-40 | for 1 to 3 decks the minimum bid is 75 times the deck count, and for every count the maximum is twice the minimum and the minimum is on the 5-point step |
| `Bids.ValidBid` | main.py:48-53 | a bid the bid input allows for a deck count is a multiple of 5 between 75 and 450 |
| `Bids.ChangeSign` | main.py:62 | the score change is the bid or its negation, and for a positive bid it is positive exactly when the bidder won |
| `Bids.ChangeStepped` | main.py:48-53 | the signed change of an allowed bid, won or lost, is a multiple of 5 with magnitude between 75 and 450 |
| `Bids.BidRangeEnds` | main.py:35-53 | for each deck count, the minimum and maximum bids are accepted and one step below or above is rejected |
| `Table.NewRow` | main.py:58-66 | the appended row carries the given round number, has exactly the roster as keys, gives the bidder and every teammate the signed bid and every other player 0 |
| `Table.AppendKeepsTable` | main.py:68-71 | appending a row numbered one past the table, keyed by the roster, with stepped changes keeps the table numbered 1..N, keyed by the roster and stepped |
| `Table.TotalBounded` | main.py:79 | when no change in a player's column exceeds the largest bid of 450, the column sum lies between -450 and 450 times the number of rounds |
| `Table.Totals` | main.py:79 | one total per roster player, in roster order, entry i being player i's column sum, and every total a multiple of 5 in a stepped table |
| `Table.TotalAppend` | main.py:79 | after one more row each player's column sum grows by exactly that player's change in the new row |
| `Table.TotalStepped` | main.py:79 | every player's total is a multiple of 5 |
| `Table.History` | main.py:95 | the cumulative history has one entry per round |
| `Table.HistoryAt` | main.py:95 | entry k of a player's history is the sum of that player's first k + 1 changes |
| `Table.HistoryLast` | main.py:95 | the last history entry equals the player's total |
| `Table.FirstMaxIndex` | main.py:80-86 | the index holds a value no smaller than any other, and every earlier value is strictly smaller |
| `Table.Leader` | main.py:79-86 | the leader is a roster player whose total is at least every player's total, and no earlier roster player reaches that total |
| `Table.LeaderUnique` | main.py:80-86 | any roster position with a maximal total and only smaller totals before it holds the leader, so the two properties fix the leader |
| `Table.NewRowSum` | main.py:58-66 | the new row's changes sum to the signed bid times the number of distinct involved players |
| `Table.ScenarioTotals` | main.py:35-79 | 100 is a legal bid with one deck and 150 with two; for any four distinct names a, b, c, d: after a wins 100 with b and then c loses 150 alone, the totals are 100, 100, -150, 0 |
| `Table.ScenarioLeader` | main.py:79-86 | in that game a is the leader, ahead of b on the tie |
| `Game.Session.constructor` | main.py:8-11 | a new session is in setup with an empty table and no columns |
| `Game.Session.StartGame` | main.py:19-26 | the roster becomes the filtered names; the game starts iff some name remains; on start the table is emptied with columns "Round" followed by the roster; otherwise the table is untouched and the session stays in setup |
| `Game.Session.SubmitRound` | main.py:57-71 | roster and columns are unchanged; the table becomes the old table plus exactly the new row numbered old length + 1; every player's total moves by that player's change in the row; the table invariants are kept |
| `Game.Session.BuildRoundData` | main.py:58-66 | the two loops (zero every roster player, then give every involved player the signed bid) produce exactly the changes of the new row for the current round |
| `Game.Session.Reset` | main.py:106-109 | roster, table and columns are cleared and the session is back in setup |
| `RoundData.AssignAll` | main.py:59-66 | assigning one value to a list of keys adds exactly those keys, gives them the value and leaves the other entries alone |
| `RoundData.RoundDataAsWritten` | main.py:58-66 | the page's dictionary has the keys "Round", the roster and the involved players; involved players get the signed bid, other roster players 0, and "Round" keeps the round number only when no player is called "Round" |
| `RoundData.AsWrittenWithoutRoundName` | main.py:58-66 | when no player is called "Round", the dictionary the page builds is the new row's changes plus the "Round" entry holding the round number |
| `RoundData.RoundNameOverwritesRound` | main.py:58-60 | with roster Round, B, C and B winning 100 alone, the page's dictionary holds 0 under "Round" instead of round number 1 |

## Left out

- Widgets, page layout, messages, the page re-run and session persistence are not modelled. The session values are the fields of an explicit `Session` object.
- The bar chart and the line chart are not modelled. Only the data they plot is kept: totals and cumulative histories.
- The full descending order of the totals table is not modelled. Only its first row, the leader, is.
- The number-of-players input (3 to 10 slots) is not a precondition of `Game.Session.StartGame`. The filtering does not depend on it.
- Table library details are not modelled: column dtypes and missing values.
- `Game.Session.StartGame`: a player called "Round" passes the distinct-names precondition, and the columns then hold "Round" twice, as main.py:24 builds them. How the table library handles that duplicate label when the first round is appended (most likely an error) is not modelled; see Findings.
- The summary appears only when the table is non-empty. The model's views are also defined on an empty table.
- `Table.Leader`: ties go to the first maximal player in roster order. The source takes the first row of a descending sort whose stability is not documented, so this tie-break is an assumption.
- `Game.Session.SubmitRound`: the bid range and the 5-point step are preconditions, on the assumption that the bid input delivers only values on its step.

## Findings

| source | as written | input that shows it | evidently intended | confidence | as-written member | corrected member |
|---|---|---|---|---|---|---|
| main.py:58-60 | the round dictionary starts as {"Round": round number}, and then every roster name is written into that same dictionary | roster Round, B, C; B bids 100 alone and wins; the "Round" entry becomes 0 instead of 1 | the Round column always holds the round number, whatever the players are called; such a player also duplicates the "Round" column label at main.py:24, and what the table library then does is not modelled | medium; not executed | `RoundData.RoundNameOverwritesRound` | `Table.NewRow` |
