// The filter that holds a dirty forward back until a second poll sees it too, and
// the counter of those that get through: filterStableDirtyForwards in
// utils/internal_status.go with RecordStableDirtyForwardTypes in utils/state.go.

module StableDirty {
  import opened Options
  import HR = HostRequest

  datatype Issue = Issue(kind: string, name: string, issue: string)

  const THRESHOLD := 2

  function Key(row: Issue): string {
    row.kind + "|" + row.name + "|" + row.issue
  }

  /** Rows of different issues have different keys, as long as no kind and no name has the bar that separates them. */
  lemma KeyIdentifiesRow(a: Issue, b: Issue)
    requires '|' !in a.kind && '|' !in b.kind && '|' !in a.name && '|' !in b.name
    ensures Key(a) == Key(b) <==> a == b
  {
    if Key(a) == Key(b) {
      KeyParts(a);
      KeyParts(b);
    }
  }

  lemma KeyParts(row: Issue)
    requires '|' !in row.kind && '|' !in row.name
    ensures HR.Cut(Key(row), '|') == (row.kind, Some(row.name + "|" + row.issue))
    ensures HR.Cut(row.name + "|" + row.issue, '|') == (row.name, Some(row.issue))
  {
    hide HR.Cut;
    var rest := row.name + "|" + row.issue;
    assert Key(row) == row.kind + ['|'] + rest;
    HR.CutAt(row.kind, rest, '|');
    HR.CutAt(row.name, row.issue, '|');
  }

  /** With a bar in a name two rows may be taken for one. */
  lemma BarsCollide()
    ensures Key(Issue("a", "b|c", "d")) == Key(Issue("a|b", "c", "d"))
  {
    assert "a" + "|" + "b|c" + "|" + "d" == "a|b" + "|" + "c" + "|" + "d";
  }

  function Keys(rows: seq<Issue>): set<string> {
    set row <- rows :: Key(row)
  }

  predicate Seen(rows: seq<Issue>, key: string) {
    key in Keys(rows)
  }

  predicate DistinctRows(rows: seq<Issue>) {
    forall i, j :: 0 <= i < j < |rows| ==> Key(rows[i]) != Key(rows[j])
  }

  /** How many polls in a row, up to the last, have seen the key. */
  function Streak(polls: seq<seq<Issue>>, key: string): nat {
    if polls == [] || !Seen(polls[|polls| - 1], key) then 0 else 1 + Streak(polls[..|polls| - 1], key)
  }

  predicate SeenBefore(polls: seq<seq<Issue>>, key: string) {
    polls != [] && Seen(polls[|polls| - 1], key)
  }

  /** The rows of a poll that the poll before it had too. */
  function Repeated(polls: seq<seq<Issue>>, rows: seq<Issue>): seq<Issue> {
    if rows == [] then []
    else
      var row := rows[|rows| - 1];
      Repeated(polls, rows[..|rows| - 1]) + if SeenBefore(polls, Key(row)) then [row] else []
  }

  /** A row is reported exactly when this poll has it and the poll before had its key. */
  lemma {:induction false} ReportedIff(polls: seq<seq<Issue>>, rows: seq<Issue>, row: Issue)
    ensures row in Repeated(polls, rows) <==> row in rows && SeenBefore(polls, Key(row))
  {
    if rows != [] {
      var front := rows[..|rows| - 1];
      ReportedIff(polls, front, row);
      assert rows == front + [rows[|rows| - 1]];
    }
  }

  /** The rows stay in order, and each is kept or not by itself. */
  lemma {:induction false} RepeatedInOrder(polls: seq<seq<Issue>>, a: seq<Issue>, b: seq<Issue>)
    ensures Repeated(polls, a + b) == Repeated(polls, a) + Repeated(polls, b)
    ensures |a| == 1 ==> Repeated(polls, a) == if SeenBefore(polls, Key(a[0])) then a else []
    decreases |b|
  {
    if b == [] {
      assert a + b == a;
    } else {
      assert (a + b)[..|a + b| - 1] == a + b[..|b| - 1];
      RepeatedInOrder(polls, a, b[..|b| - 1]);
    }
    if |a| == 1 {
      assert a == [a[0]] && a[..0] == [];
    }
  }

  // ----- maximal runs -----

  /** A maximal run of polls with the key that begins at poll i and gets to length two. */
  predicate RunAt(polls: seq<seq<Issue>>, i: nat, key: string) {
    && i + 1 < |polls| && Seen(polls[i], key) && Seen(polls[i + 1], key)
    && (i > 0 ==> !Seen(polls[i - 1], key))
  }

  function Pairs(i: int, keys: set<string>): set<(int, string)> {
    set key <- keys :: (i, key)
  }

  function Runs(polls: seq<seq<Issue>>): set<(int, string)> {
    set i, key | 1 <= i < |polls| && key in Keys(polls[i]) && RunAt(polls, i - 1, key) :: (i - 1, key)
  }

  /** The rows that cross the threshold when this poll follows the others. */
  function Crossing(polls: seq<seq<Issue>>, rows: seq<Issue>): set<string> {
    set row | row in rows && Streak(polls, Key(row)) == THRESHOLD - 1 :: Key(row)
  }

  lemma StreakOne(polls: seq<seq<Issue>>, key: string)
    ensures Streak(polls, key) >= 1 <==> SeenBefore(polls, key)
    ensures Streak(polls, key) == 1 <==>
      SeenBefore(polls, key) && (|polls| >= 2 ==> !Seen(polls[|polls| - 2], key))
  {
    if SeenBefore(polls, key) {
      assert Streak(polls, key) == 1 + Streak(polls[..|polls| - 1], key);
    }
  }

  lemma RunsMember(polls: seq<seq<Issue>>, i: int, key: string)
    ensures (i, key) in Runs(polls) <==> i >= 0 && RunAt(polls, i, key)
  {
    if i >= 0 && RunAt(polls, i, key) {
      var j := i + 1;
      assert 1 <= j < |polls| && key in Keys(polls[j]) && RunAt(polls, j - 1, key);
    }
  }

  lemma RunAtSnoc(polls: seq<seq<Issue>>, rows: seq<Issue>, i: nat, key: string)
    ensures RunAt(polls + [rows], i, key) <==>
      RunAt(polls, i, key) || (i == |polls| - 1 && key in Crossing(polls, rows))
  {
    StreakOne(polls, key);
  }

  /** One more poll adds the runs that get to length two in it. */
  lemma RunsSnoc(polls: seq<seq<Issue>>, rows: seq<Issue>)
    ensures Runs(polls + [rows]) == Runs(polls) + Pairs(|polls| - 1, Crossing(polls, rows))
    ensures Runs(polls) !! Pairs(|polls| - 1, Crossing(polls, rows))
  {
    forall i: int, key
      ensures (i, key) in Runs(polls + [rows]) <==> (i, key) in Runs(polls) || (i, key) in Pairs(|polls| - 1, Crossing(polls, rows))
    {
      RunsMember(polls + [rows], i, key);
      RunsMember(polls, i, key);
      if i >= 0 {
        RunAtSnoc(polls, rows, i, key);
      } else if polls == [] {
        assert Crossing(polls, rows) == {};
      }
    }
  }

  lemma {:induction false} PairsCount(i: int, keys: set<string>)
    ensures |Pairs(i, keys)| == |keys|
  {
    if keys != {} {
      var k :| k in keys;
      PairsCount(i, keys - {k});
      assert Pairs(i, keys) == Pairs(i, keys - {k}) + {(i, k)};
    }
  }

  class DirtyState {
    var seenCount: map<string, int>
    var stableTotal: nat
    /** Every poll so far. */
    ghost var polls: seq<seq<Issue>>

    /** Counts are streaks, and the counter is the number of runs that were ever long enough. */
    ghost predicate Valid()
      reads this
    {
      && (forall key :: Count(key) == Streak(polls, key))
      && ((forall rows <- polls :: DistinctRows(rows)) ==> stableTotal == |Runs(polls)|)
    }

    constructor ()
      ensures Valid() && polls == []
    {
      seenCount, stableTotal, polls := map[], 0, [];
    }

    function Count(key: string): int
      reads this`seenCount
    {
      if key in seenCount then seenCount[key] else 0
    }

    /**
     * A row is reported exactly when the poll before had it too; while no poll repeats
     * a row, the total is the number of maximal runs that got to length two, however
     * long they then went on.
     */
    method Filter(rows: seq<Issue>) returns (filtered: seq<Issue>)
      requires Valid()
      modifies this
      ensures Valid() && polls == old(polls) + [rows]
      ensures filtered == Repeated(old(polls), rows)
    {
      hide Runs, Streak, Keys;
      var nextSeen: map<string, int> := map[];
      var newlyStable: seq<Issue> := [];
      filtered := [];
      KeysNone();
      for i := 0 to |rows|
        invariant seenCount == old(seenCount) && polls == old(polls) && stableTotal == old(stableTotal)
        invariant nextSeen.Keys == Keys(rows[..i])
        invariant forall key <- nextSeen :: nextSeen[key] == Streak(polls, key) + 1
        invariant filtered == Repeated(polls, rows[..i])
        invariant newlyStable == Crossers(polls, rows[..i])
      {
        assert rows[..i + 1] == rows[..i] + [rows[i]];
        assert rows[..i + 1][..i] == rows[..i];
        KeysSnoc(rows[..i], rows[i]);
        var key := Key(rows[i]);
        StreakOne(polls, key);
        assert Count(key) == Streak(polls, key);
        var count := Count(key) + 1;
        nextSeen := nextSeen[key := count];
        if count >= THRESHOLD {
          filtered := filtered + [rows[i]];
          if count == THRESHOLD {
            newlyStable := newlyStable + [rows[i]];
          }
        }
      }
      assert rows[..|rows|] == rows;
      if DistinctRows(rows) {
        RunsGrow(polls, rows);
      }
      StreakSnoc(polls, rows);
      seenCount, polls := nextSeen, polls + [rows];
      stableTotal := stableTotal + |newlyStable|;
    }
  }

  lemma KeysNone()
    ensures Keys([]) == {}
  {}

  lemma KeysSnoc(rows: seq<Issue>, row: Issue)
    ensures Keys(rows + [row]) == Keys(rows) + {Key(row)}
  {}

  lemma StreakSnoc(polls: seq<seq<Issue>>, rows: seq<Issue>)
    ensures forall key :: Streak(polls + [rows], key) == if Seen(rows, key) then Streak(polls, key) + 1 else 0
  {
    assert (polls + [rows])[..|polls|] == polls;
  }

  /** The rows that cross the threshold, in order. */
  function Crossers(polls: seq<seq<Issue>>, rows: seq<Issue>): seq<Issue> {
    if rows == [] then []
    else
      var row := rows[|rows| - 1];
      Crossers(polls, rows[..|rows| - 1]) + if Streak(polls, Key(row)) == THRESHOLD - 1 then [row] else []
  }

  lemma {:induction false} CrossersCount(polls: seq<seq<Issue>>, rows: seq<Issue>)
    requires DistinctRows(rows)
    ensures |Crossers(polls, rows)| == |Crossing(polls, rows)|
  {
    if rows != [] {
      var front, row := rows[..|rows| - 1], rows[|rows| - 1];
      CrossersCount(polls, front);
      assert rows == front + [row];
      assert Crossing(polls, rows) == Crossing(polls, front) + if Streak(polls, Key(row)) == 1 then {Key(row)} else {};
      assert Key(row) !in Crossing(polls, front);
    }
  }

  lemma RunsGrow(polls: seq<seq<Issue>>, rows: seq<Issue>)
    requires DistinctRows(rows)
    ensures |Runs(polls + [rows])| == |Runs(polls)| + |Crossers(polls, rows)|
  {
    hide Runs, Crossing;
    RunsSnoc(polls, rows);
    CrossersCount(polls, rows);
    PairsCount(|polls| - 1, Crossing(polls, rows));
  }
}
