/** The score table: one row per round, and the views derived from it
    (per-player totals, the leader and the cumulative history). */
module Table {
  import opened Bids

  /** One round: its 1-based number and the point change of every roster player. */
  datatype Row = Row(round: int, deltas: map<string, int>)

  function RosterSet(players: seq<string>): set<string>
  {
    set p | p in players
  }

  predicate Distinct(s: seq<string>)
  {
    forall i, j :: 0 <= i < j < |s| ==> s[i] != s[j]
  }

  /** The row appended for a round: the bidder and each teammate get the
      signed bid, every other roster player gets 0, and the round number
      is kept apart from the player keys. */
  function NewRow(round: int, players: seq<string>, bidder: string, teammates: seq<string>,
                  bid: int, won: bool): (r: Row)
    ensures r.round == round
    ensures r.deltas.Keys == RosterSet(players)
    ensures bidder in players ==> r.deltas[bidder] == Change(bid, won)
    ensures forall t :: t in teammates && t in players ==> r.deltas[t] == Change(bid, won)
    ensures forall p :: p in r.deltas && p != bidder && p !in teammates ==> r.deltas[p] == 0
  {
    Row(round, map p | p in players :: if p == bidder || p in teammates then Change(bid, won) else 0)
  }

  /** Row i holds round i + 1: the rounds are exactly 1..N. */
  predicate Numbered(rows: seq<Row>)
  {
    forall i :: 0 <= i < |rows| ==> rows[i].round == i + 1
  }

  /** Every row has exactly the roster as its player keys. */
  predicate HasRoster(rows: seq<Row>, players: seq<string>)
  {
    forall i :: 0 <= i < |rows| ==> rows[i].deltas.Keys == RosterSet(players)
  }

  /** Every change in the table is a multiple of the bid step and at most the largest bid. */
  predicate Stepped(rows: seq<Row>)
  {
    forall i, p :: 0 <= i < |rows| && p in rows[i].deltas ==>
      rows[i].deltas[p] % BidStep == 0 && -450 <= rows[i].deltas[p] <= 450
  }

  /** Appending a row numbered one past the table, keyed by the roster and
      with stepped changes, keeps the table numbered, keyed and stepped. */
  lemma AppendKeepsTable(rows: seq<Row>, players: seq<string>, r: Row)
    requires Numbered(rows) && HasRoster(rows, players) && Stepped(rows)
    requires r.round == |rows| + 1 && r.deltas.Keys == RosterSet(players)
    requires forall p :: p in r.deltas ==> r.deltas[p] % BidStep == 0 && -450 <= r.deltas[p] <= 450
    ensures Numbered(rows + [r]) && HasRoster(rows + [r], players) && Stepped(rows + [r])
  {
  }

  predicate HasColumn(rows: seq<Row>, p: string)
  {
    forall i :: 0 <= i < |rows| ==> p in rows[i].deltas
  }

  /** The column sum of player p. */
  function Total(rows: seq<Row>, p: string): int
    requires HasColumn(rows, p)
  {
    if rows == [] then 0 else rows[0].deltas[p] + Total(rows[1..], p)
  }

  /** When no change in the column exceeds the largest bid, the total stays
      within that bid times the number of rounds. */
  lemma {:induction false} TotalBounded(rows: seq<Row>, p: string)
    requires HasColumn(rows, p)
    requires forall i :: 0 <= i < |rows| ==> -450 <= rows[i].deltas[p] <= 450
    ensures -450 * |rows| <= Total(rows, p) <= 450 * |rows|
  {
    if rows != [] {
      assert forall i :: 0 <= i < |rows[1..]| ==> rows[1..][i] == rows[i + 1];
      TotalBounded(rows[1..], p);
    }
  }

  /** Appending a row adds exactly that row's change to the player's total. */
  lemma {:induction false} TotalAppend(rows: seq<Row>, r: Row, p: string)
    requires HasColumn(rows, p) && p in r.deltas
    ensures HasColumn(rows + [r], p)
    ensures Total(rows + [r], p) == Total(rows, p) + r.deltas[p]
  {
    if rows != [] {
      assert (rows + [r])[1..] == rows[1..] + [r];
      TotalAppend(rows[1..], r, p);
    }
  }

  /** Totals of a stepped table are multiples of the bid step. */
  lemma {:induction false} TotalStepped(rows: seq<Row>, p: string)
    requires HasColumn(rows, p) && Stepped(rows)
    ensures Total(rows, p) % BidStep == 0
  {
    if rows != [] {
      assert Stepped(rows[1..]) by {
        forall i, q | 0 <= i < |rows[1..]| && q in rows[1..][i].deltas
          ensures rows[1..][i].deltas[q] % BidStep == 0 && -450 <= rows[1..][i].deltas[q] <= 450
        {
          assert rows[1..][i] == rows[i + 1];
        }
      }
      TotalStepped(rows[1..], p);
    }
  }

  /** The cumulative sum of player p's column, one entry per round. */
  function History(rows: seq<Row>, p: string): (h: seq<int>)
    requires HasColumn(rows, p)
    ensures |h| == |rows|
  {
    if rows == [] then []
    else
      var h := History(rows[..|rows| - 1], p);
      h + [(if h == [] then 0 else h[|h| - 1]) + rows[|rows| - 1].deltas[p]]
  }

  /** Entry k of the history is the total over the first k + 1 rounds. */
  lemma {:induction false} HistoryAt(rows: seq<Row>, p: string, k: nat)
    requires HasColumn(rows, p) && k < |rows|
    ensures History(rows, p)[k] == Total(rows[..k + 1], p)
  {
    var n := |rows|;
    var init := rows[..n - 1];
    if k < n - 1 {
      HistoryAt(init, p, k);
      assert init[..k + 1] == rows[..k + 1];
    } else {
      TotalAppend(init, rows[n - 1], p);
      assert init + [rows[n - 1]] == rows[..k + 1];
      if n > 1 {
        HistoryAt(init, p, n - 2);
        assert init[..n - 1] == init;
      }
    }
  }

  /** The last entry of the history is the player's total. */
  lemma HistoryLast(rows: seq<Row>, p: string)
    requires HasColumn(rows, p) && rows != []
    ensures History(rows, p)[|rows| - 1] == Total(rows, p)
  {
    HistoryAt(rows, p, |rows| - 1);
    assert rows[..|rows|] == rows;
  }

  /** Every roster player has a column in the table. */
  predicate HasColumns(rows: seq<Row>, players: seq<string>)
  {
    forall i :: 0 <= i < |players| ==> HasColumn(rows, players[i])
  }

  /** The totals in roster order: one column sum per roster player, each a
      multiple of the bid step when the table is stepped. */
  function Totals(rows: seq<Row>, players: seq<string>): (t: seq<int>)
    requires HasColumns(rows, players)
    ensures |t| == |players|
    ensures forall i :: 0 <= i < |players| ==> t[i] == Total(rows, players[i])
    ensures Stepped(rows) ==> forall i :: 0 <= i < |t| ==> t[i] % BidStep == 0
  {
    var t := seq(|players|, i requires 0 <= i < |players| => Total(rows, players[i]));
    assert Stepped(rows) ==> forall i :: 0 <= i < |t| ==> t[i] % BidStep == 0 by {
      if Stepped(rows) {
        forall i | 0 <= i < |t|
          ensures t[i] % BidStep == 0
        {
          TotalStepped(rows, players[i]);
        }
      }
    }
    t
  }

  /** The first position holding the largest value: what a stable descending
      sort puts in front. */
  function FirstMaxIndex(t: seq<int>): (k: nat)
    requires |t| > 0
    ensures k < |t|
    ensures forall j :: 0 <= j < |t| ==> t[j] <= t[k]
    ensures forall j :: 0 <= j < k ==> t[j] < t[k]
  {
    if |t| == 1 then 0
    else
      var k := FirstMaxIndex(t[..|t| - 1]);
      if t[|t| - 1] > t[k] then |t| - 1 else k
  }

  /** The reported leader: a roster player whose total is at least every
      player's total, and the first such player in roster order. */
  function Leader(rows: seq<Row>, players: seq<string>): (name: string)
    requires players != [] && HasColumns(rows, players)
    ensures name in players && HasColumn(rows, name)
    ensures forall i :: 0 <= i < |players| ==> Total(rows, players[i]) <= Total(rows, name)
    ensures exists k :: 0 <= k < |players| && players[k] == name &&
              forall j :: 0 <= j < k ==> Total(rows, players[j]) < Total(rows, name)
  {
    var t := Totals(rows, players);
    var k := FirstMaxIndex(t);
    assert forall i :: 0 <= i < |players| ==> t[i] == Total(rows, players[i]);
    assert forall j :: 0 <= j < k ==> Total(rows, players[j]) < Total(rows, players[k]);
    players[k]
  }

  /** The two properties of the leader pin it down: any roster position
      holding a maximal total with only smaller totals before it holds the leader. */
  lemma LeaderUnique(rows: seq<Row>, players: seq<string>, k: nat)
    requires players != [] && HasColumns(rows, players) && k < |players|
    requires forall i :: 0 <= i < |players| ==> Total(rows, players[i]) <= Total(rows, players[k])
    requires forall j :: 0 <= j < k ==> Total(rows, players[j]) < Total(rows, players[k])
    ensures Leader(rows, players) == players[k]
  {
  }

  /** Sum of the row's changes over the roster. */
  function RowSum(players: seq<string>, deltas: map<string, int>): int
    requires forall p :: p in players ==> p in deltas
  {
    if players == [] then 0 else deltas[players[0]] + RowSum(players[1..], deltas)
  }

  /** Adding a player outside the rest of the roster adds one to the count
      of roster players in S exactly when that player is in S. */
  lemma CountCons(s: set<string>, x: string, rest: seq<string>)
    requires x !in RosterSet(rest)
    ensures |s * RosterSet([x] + rest)| == |s * RosterSet(rest)| + (if x in s then 1 else 0)
  {
    var a := s * RosterSet(rest);
    assert RosterSet([x] + rest) == RosterSet(rest) + {x};
    if x in s {
      assert s * RosterSet([x] + rest) == a + {x};
    } else {
      assert s * RosterSet([x] + rest) == a;
    }
  }

  /** The tail of a distinct roster is distinct and does not hold its head. */
  lemma DistinctTail(players: seq<string>)
    requires Distinct(players) && players != []
    ensures Distinct(players[1..]) && players[0] !in RosterSet(players[1..])
  {
  }

  /** One more counted player adds one more c to the sum. */
  lemma MulSucc(c: int, n: int)
    ensures c * (n + 1) == c * n + c
  {
  }

  /** Over distinct players, a row giving c to the players in S and 0 to the
      rest sums to c times the number of roster players in S. */
  lemma {:induction false} RowSumCounts(players: seq<string>, deltas: map<string, int>,
                                        s: set<string>, c: int)
    requires Distinct(players)
    requires forall p :: p in players ==> p in deltas && deltas[p] == if p in s then c else 0
    ensures RowSum(players, deltas) == c * |s * RosterSet(players)|
  {
    if players != [] {
      var rest := players[1..];
      var x := players[0];
      DistinctTail(players);
      RowSumCounts(rest, deltas, s, c);
      CountCons(s, x, rest);
      assert [x] + rest == players;
      var n := |s * RosterSet(rest)|;
      if x in s {
        MulSucc(c, n);
      }
    }
  }

  /** A new row changes the sum of all scores by the signed bid times the
      number of distinct involved players (the bidder and the teammates). */
  lemma NewRowSum(round: int, players: seq<string>, bidder: string, teammates: seq<string>,
                  bid: int, won: bool)
    requires Distinct(players) && bidder in players
    requires forall t :: t in teammates ==> t in players
    ensures var r := NewRow(round, players, bidder, teammates, bid, won);
            RowSum(players, r.deltas) == Change(bid, won) * |{bidder} + RosterSet(teammates)|
  {
    var r := NewRow(round, players, bidder, teammates, bid, won);
    var s := {bidder} + RosterSet(teammates);
    RowSumCounts(players, r.deltas, s, Change(bid, won));
    assert s * RosterSet(players) == s;
  }

  /** The rows of a two-round game over the roster a, b, c, d: a wins a
      100 bid with b as teammate, then c loses a 150 bid alone. */
  function ScenarioRows(a: string, b: string, c: string, d: string): seq<Row>
  {
    var players := [a, b, c, d];
    [NewRow(1, players, a, [b], 100, true), NewRow(2, players, c, [], 150, false)]
  }

  /** Both bids are legal for the deck counts 1 and 2, and for any four
      distinct names the totals after those two rounds are 100, 100, -150 and 0. */
  lemma ScenarioTotals(a: string, b: string, c: string, d: string)
    requires Distinct([a, b, c, d])
    ensures ValidBid(1, 100) && ValidBid(2, 150)
    ensures HasColumns(ScenarioRows(a, b, c, d), [a, b, c, d])
    ensures Totals(ScenarioRows(a, b, c, d), [a, b, c, d]) == [100, 100, -150, 0]
  {
    var players := [a, b, c, d];
    assert players[0] != players[1] && players[0] != players[2] && players[0] != players[3];
    assert players[1] != players[2] && players[1] != players[3] && players[2] != players[3];
    var r1 := NewRow(1, players, a, [b], 100, true);
    var r2 := NewRow(2, players, c, [], 150, false);
    assert r1.deltas[a] == 100 && r1.deltas[b] == 100 && r1.deltas[c] == 0 && r1.deltas[d] == 0;
    assert r2.deltas[a] == 0 && r2.deltas[b] == 0 && r2.deltas[c] == -150 && r2.deltas[d] == 0;
    assert ScenarioRows(a, b, c, d) == [r1] + [r2];
    forall p | p in players
      ensures HasColumn([r1] + [r2], p)
      ensures Total([r1] + [r2], p) == r1.deltas[p] + r2.deltas[p]
    {
      assert Total([r1], p) == r1.deltas[p] + Total([], p);
      TotalAppend([r1], r2, p);
    }
  }

  /** In that game a leads, ahead of b on the tie. */
  lemma ScenarioLeader(a: string, b: string, c: string, d: string)
    requires Distinct([a, b, c, d])
    ensures HasColumns(ScenarioRows(a, b, c, d), [a, b, c, d])
    ensures Leader(ScenarioRows(a, b, c, d), [a, b, c, d]) == a
  {
    var players := [a, b, c, d];
    var rows := ScenarioRows(a, b, c, d);
    ScenarioTotals(a, b, c, d);
    var t := Totals(rows, players);
    assert forall i :: 0 <= i < 4 ==> Total(rows, players[i]) == t[i];
    LeaderUnique(rows, players, 0);
  }
}
