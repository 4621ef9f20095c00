/** The voting aggregation of sub-task results: the most frequent result, the earliest on a tie. */
module Voting {
  import opened Wrappers

  /** `results[i]` is the serialized result of sub-task i, or None where it failed. */
  type Results = seq<Option<string>>

  /** How many of the first `n` results are `key`. */
  function VotesUpTo(results: Results, n: nat, key: string): nat
    requires n <= |results|
  {
    if n == 0 then 0
    else VotesUpTo(results, n - 1, key) + (if results[n - 1] == Some(key) then 1 else 0)
  }

  function Votes(results: Results, key: string): nat {
    VotesUpTo(results, |results|, key)
  }

  /** `key` occurs at `i` and not before. */
  ghost predicate FirstAt(results: Results, key: string, i: nat) {
    i < |results| && results[i] == Some(key) && forall j :: 0 <= j < i ==> results[j] != Some(key)
  }

  lemma {:induction false} VotesBound(results: Results, n: nat, a: string, b: string)
    requires n <= |results|
    ensures VotesUpTo(results, n, a) <= n
    ensures a != b ==> VotesUpTo(results, n, a) + VotesUpTo(results, n, b) <= n
  {
    if n > 0 {
      VotesBound(results, n - 1, a, b);
    }
  }

  lemma {:induction false} NoVotesNotSeen(results: Results, n: nat, key: string)
    requires n <= |results| && VotesUpTo(results, n, key) == 0
    ensures forall j :: 0 <= j < n ==> results[j] != Some(key)
  {
    if n > 0 {
      NoVotesNotSeen(results, n - 1, key);
    }
  }

  /** The counts of a `Map` filled from the first `n` results. */
  ghost predicate Counted(results: Results, n: nat, votes: map<string, nat>)
    requires n <= |results|
  {
    && (forall k :: k in votes <==> VotesUpTo(results, n, k) > 0)
    && (forall k :: k in votes ==> votes[k] == VotesUpTo(results, n, k))
  }

  /** `order` lists the keys of the map as they were inserted; `firsts` says where. */
  ghost predicate Inserted(results: Results, n: nat, order: seq<string>, firsts: seq<nat>) {
    && |firsts| == |order|
    && (forall i :: 0 <= i < |order| ==> firsts[i] < n && FirstAt(results, order[i], firsts[i]))
    && (forall i, j :: 0 <= i < j < |order| ==> firsts[i] < firsts[j])
  }

  /** First loop: count each result. */
  method CountVotes(results: Results) returns (order: seq<string>, votes: map<string, nat>, ghost firsts: seq<nat>)
    ensures Counted(results, |results|, votes)
    ensures forall k :: k in votes <==> k in order
    ensures Inserted(results, |results|, order, firsts)
  {
    order, votes, firsts := [], map[], [];
    for n := 0 to |results|
      invariant Counted(results, n, votes)
      invariant forall k :: k in votes <==> k in order
      invariant Inserted(results, n, order, firsts)
    {
      if results[n].Some? {
        var key := results[n].value;
        if key in votes {
          votes := votes[key := votes[key] + 1];
        } else {
          NoVotesNotSeen(results, n, key);
          votes := votes[key := 1];
          order := order + [key];
          firsts := firsts + [n];
        }
      }
    }
  }

  /** Second loop: a strictly larger count takes the lead, so the earliest key keeps a tie. */
  method AggregateByVote(results: Results) returns (consensus: bool, winningVotes: nat, winner: Option<string>)
    ensures winner == None <==> forall k :: Votes(results, k) == 0
    ensures winningVotes == if winner == None then 0 else Votes(results, winner.value)
    ensures forall k :: Votes(results, k) <= winningVotes
    ensures winner.Some? ==> forall k, i, j ::
      (k != winner.value && Votes(results, k) == winningVotes
       && FirstAt(results, winner.value, i) && FirstAt(results, k, j)) ==> i < j
    ensures consensus <==> exists k :: 2 * Votes(results, k) > |results|
  {
    var order, votes, firsts := CountVotes(results);
    winner, winningVotes := None, 0;
    ghost var w := 0;
    for i := 0 to |order|
      invariant winner == None <==> i == 0
      invariant winner == None ==> winningVotes == 0
      invariant winner.Some? ==> w < i && winner.value == order[w] && winningVotes == votes[order[w]] > 0
      invariant winner.Some? ==> forall j :: 0 <= j < w ==> votes[order[j]] < winningVotes
      invariant forall j :: 0 <= j < i ==> order[j] in votes && votes[order[j]] <= winningVotes
    {
      assert order[i] in order;
      if votes[order[i]] > winningVotes {
        winner, winningVotes, w := Some(order[i]), votes[order[i]], i;
      }
    }
    forall k ensures Votes(results, k) <= winningVotes {
      if k in votes {
        assert k in order;
      }
    }
    assert winner == None ==> forall k :: k !in votes;
    assert winner.Some? ==> Votes(results, winner.value) > 0;
    consensus := 2 * winningVotes > |results|;
    if winner.Some? {
      forall k, i, j | k != winner.value && Votes(results, k) == winningVotes
          && FirstAt(results, winner.value, i) && FirstAt(results, k, j)
        ensures i < j
      {
        assert k in votes && k in order;
        var at :| 0 <= at < |order| && order[at] == k;
        assert FirstAt(results, order[at], firsts[at]) && FirstAt(results, order[w], firsts[w]);
        FirstAtUnique(results, k, j, firsts[at]);
        FirstAtUnique(results, winner.value, i, firsts[w]);
      }
    }
  }

  lemma FirstAtUnique(results: Results, key: string, i: nat, j: nat)
    requires FirstAt(results, key, i) && FirstAt(results, key, j)
    ensures i == j
  {
  }

  /** A result with a strict majority of all sub-tasks is the only one, so it is the winner. */
  lemma MajorityIsUnique(results: Results, a: string, b: string)
    requires 2 * Votes(results, a) > |results| && Votes(results, b) >= Votes(results, a)
    ensures a == b
  {
    VotesBound(results, |results|, a, b);
  }
}
