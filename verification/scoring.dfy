/**
 Scores, turn rotation and the choice of the winner.

 Scores are held as a sequence: `scores[p - 1]` is the score of player `p`,
 for the players 1..|scores|, in the order in which the score table lists
 its integer keys.
 */
module Scoring {

  /** One entry of the score table: a player and that player's score. */
  datatype Entry = Entry(player: nat, score: nat)

  /** Total of all scores. */
  function Sum(s: seq<nat>): (total: nat)
  {
    if s == [] then 0 else s[0] + Sum(s[1..])
  }

  /** A fresh score table for players 1..n: everyone at 0. */
  function Zeros(n: nat): (r: seq<nat>)
    ensures |r| == n
    ensures forall p :: 0 <= p < n ==> r[p] == 0
    ensures Sum(r) == 0
  {
    if n == 0 then [] else [0] + Zeros(n - 1)
  }

  /** Adding `d` to one player's score adds `d` to the total. */
  lemma {:induction false} SumAdd(s: seq<nat>, i: nat, d: nat)
    requires i < |s|
    ensures Sum(s[i := s[i] + d]) == Sum(s) + d
  {
    if i == 0 {
      assert s[i := s[i] + d][1..] == s[1..];
    } else {
      assert s[i := s[i] + d][1..] == s[1..][i - 1 := s[i] + d];
      SumAdd(s[1..], i - 1, d);
    }
  }

  /** The player after `current` in the cyclic order 1, 2, ..., n, 1, ...
      computed as the game computes it, `current % n + 1`. */
  function NextPlayer(current: nat, n: nat): (r: nat)
    requires 1 <= current <= n
    ensures 1 <= r <= n
    ensures current < n ==> r == current + 1
    ensures current == n ==> r == 1
  {
    current % n + 1
  }

  /** The player whose turn it is after `k` turn changes from `current`. */
  function Rotate(current: nat, n: nat, k: nat): (r: nat)
    requires 1 <= current <= n
    ensures 1 <= r <= n
  {
    if k == 0 then current else NextPlayer(Rotate(current, n, k - 1), n)
  }

  /** Within one cycle, `k` turn changes move `current` forward by `k`
      places, wrapping from n back to 1. */
  lemma {:induction false} RotateForward(current: nat, n: nat, k: nat)
    requires 1 <= current <= n
    requires k <= n
    ensures Rotate(current, n, k) == if current + k <= n then current + k else current + k - n
  {
    if k > 0 {
      RotateForward(current, n, k - 1);
    }
  }

  /** How many turn changes lead from `current` to `p`. */
  function TurnsUntil(current: nat, n: nat, p: nat): (k: nat)
    requires 1 <= current <= n && 1 <= p <= n
  {
    if p >= current then p - current else p + n - current
  }

  /** The turn passes through every player and comes back after exactly n
      turn changes: no player is ever skipped. */
  lemma RotationIsFair(current: nat, n: nat)
    requires 1 <= current <= n
    ensures Rotate(current, n, n) == current
    ensures forall p :: 1 <= p <= n ==>
      TurnsUntil(current, n, p) < n && Rotate(current, n, TurnsUntil(current, n, p)) == p
  {
    RotateForward(current, n, n);
    forall p | 1 <= p <= n
      ensures TurnsUntil(current, n, p) < n && Rotate(current, n, TurnsUntil(current, n, p)) == p
    {
      RotateForward(current, n, TurnsUntil(current, n, p));
    }
  }

  /** `e` is the first player among 1..k with the highest score among them. */
  ghost predicate FirstMax(scores: seq<nat>, k: nat, e: Entry)
    requires k <= |scores|
  {
    && 1 <= e.player <= k
    && e.score == scores[e.player - 1]
    && (forall j :: 0 <= j < k ==> scores[j] <= e.score)
    && (forall j :: 0 <= j < e.player - 1 ==> scores[j] < e.score)
  }

  /** The reducer of the winner fold: the later entry wins only with a
      strictly higher score. */
  function Keep(a: Entry, b: Entry): (kept: Entry)
  {
    if b.score > a.score then b else a
  }

  /** The fold over the entries of players i+1..n, carrying `acc`. */
  function FoldFrom(scores: seq<nat>, i: nat, acc: Entry): (w: Entry)
    requires i <= |scores|
    decreases |scores| - i
  {
    if i == |scores| then acc else FoldFrom(scores, i + 1, Keep(acc, Entry(i + 1, scores[i])))
  }

  /** Carrying the first maximum of players 1..i, the fold ends with the
      first maximum of all players. */
  lemma {:induction false} FoldFindsFirstMax(scores: seq<nat>, i: nat, acc: Entry)
    requires 1 <= i <= |scores|
    requires FirstMax(scores, i, acc)
    ensures FirstMax(scores, |scores|, FoldFrom(scores, i, acc))
    decreases |scores| - i
  {
    if i < |scores| {
      FoldFindsFirstMax(scores, i + 1, Keep(acc, Entry(i + 1, scores[i])));
    }
  }

  /** The winner: the fold over the score table started from its first
      entry (there is no initial value, so at least one player is needed). */
  function Winner(scores: seq<nat>): (w: Entry)
    requires |scores| >= 1
    ensures FirstMax(scores, |scores|, w)
  {
    FoldFindsFirstMax(scores, 1, Entry(1, scores[0]));
    FoldFrom(scores, 1, Entry(1, scores[0]))
  }

  /** The first maximum is unique, so the winner is exactly the entry of
      the lowest-numbered player holding the highest score. */
  lemma WinnerIsFirstMax(scores: seq<nat>, e: Entry)
    requires |scores| >= 1
    ensures Winner(scores) == e <==> FirstMax(scores, |scores|, e)
  {
  }

  /** Ties go to the lowest-numbered player: with scores 30, 30, 20 the
      winner is player 1 with 30 points. */
  lemma TieGoesToFirstPlayer()
    ensures Winner([30, 30, 20]) == Entry(1, 30)
  {
    WinnerIsFirstMax([30, 30, 20], Entry(1, 30));
  }
}
