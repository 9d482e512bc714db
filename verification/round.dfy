/**
 Whole rounds: a started round followed by any sequence of events.

 An event is a click on a card, the delayed comparison of the pending pair,
 or a tick of the countdown. An event that cannot fire in a state (a click
 on a position with no card, a comparison with no pair pending, a tick with
 no countdown registered) leaves the state as it is.
 */
module Round {
  import opened Board
  import opened Scoring
  import opened MemeGame

  /** The events that drive a round. */
  datatype Event = ClickCard(index: nat) | ResolvePair | TimerTick

  /** Whether the event can fire in state `s`. The comparison is scheduled
      by the second click; the countdown is registered while the round runs. */
  predicate CanFire(s: State, e: Event)
  {
    match e
    case ClickCard(i) => i < |s.cards|
    case ResolvePair => |s.flipped| == 2
    case TimerTick => s.playing
  }

  /** The state after one event. */
  function Step(s: State, e: Event): (r: State)
    requires Inv(s)
    ensures Inv(r)
    ensures Memes(r.cards) == Memes(s.cards)
    ensures |r.scores| == |s.scores|
    ensures !s.playing ==> !r.playing
  {
    if !CanFire(s, e) then s
    else match e
      case ClickCard(i) =>
        FlipPreservesInv(s, i);
        assert Memes(Flip(s, i).cards) == Memes(s.cards);
        Flip(s, i)
      case ResolvePair =>
        CheckMatchPreservesInv(s);
        CheckMatch(s).state
      case TimerTick =>
        TickPreservesInv(s);
        Tick(s).state
  }

  /** The state after a sequence of events. */
  function Play(s: State, events: seq<Event>): (r: State)
    requires Inv(s)
    ensures Inv(r)
    ensures Memes(r.cards) == Memes(s.cards)
    ensures |r.scores| == |s.scores|
    ensures !s.playing ==> !r.playing
    decreases |events|
  {
    if events == [] then s else Play(Step(s, events[0]), events[1..])
  }

  /** In every round, after any events: at most two cards are pending, the
      current player is one of the players, the scores add up to ten points
      per matched pair, the matched pairs never exceed half the board, and
      the board still holds every meme id exactly twice. */
  lemma RoundInvariants(s: State, totalCards: nat, playerCount: nat,
                        exchanges: seq<Exchange>, events: seq<Event>)
    requires totalCards % 2 == 0
    requires playerCount >= 1
    ensures var r := Play(Start(s, totalCards, playerCount, exchanges), events);
      && |r.flipped| <= 2
      && 1 <= r.currentPlayer <= playerCount
      && Sum(r.scores) == MatchPoints * r.matchedPairs
      && 2 * r.matchedPairs <= totalCards
      && PairedBoard(Memes(r.cards), totalCards / 2)
  {
  }

  /** A finished round stays finished, and every click in it is ignored. */
  lemma StoppedRoundIgnoresClicks(s: State, events: seq<Event>, i: nat)
    requires Inv(s)
    requires !s.playing
    ensures !Play(s, events).playing
    ensures i < |s.cards| ==> Step(Play(s, events), ClickCard(i)) == Play(s, events)
  {
  }

  /** The four-card board with the given face-up flags, two players,
      scores `a` and `b`, player `p` to move, `m` matched pairs and nothing
      pending. */
  function FourCards(u0: bool, u1: bool, u2: bool, u3: bool, p: nat, a: nat, b: nat, m: nat): State
  {
    State([Card(1, u0), Card(2, u1), Card(1, u2), Card(2, u3)], [], m, true, p, [a, b], 60)
  }

  /** Four cards for two players, dealt without exchanges: 1, 2, 1, 2 face down. */
  lemma FourCardDeal(s: State)
    ensures Start(s, 4, 2, []) == FourCards(false, false, false, false, 1, 0, 0, 0)
  {
  }

  /** Player 1 turns up 1 and 2: both go face down again and the turn passes to player 2. */
  lemma ExampleMiss()
    ensures CheckMatch(Flip(Flip(FourCards(false, false, false, false, 1, 0, 0, 0), 0), 1))
         == Outcome(FourCards(false, false, false, false, 2, 0, 0, 0), Silent)
  {
  }

  /** Player 2 turns up the two 1s: a match, ten points, and player 2 moves again. */
  lemma ExampleFirstMatch()
    ensures CheckMatch(Flip(Flip(FourCards(false, false, false, false, 2, 0, 0, 0), 0), 2))
         == Outcome(FourCards(true, false, true, false, 2, 0, 10, 1), Silent)
  {
  }

  /** Player 2 turns up the two 2s: the last pair ends the round, and
      player 2 wins with 20 points. */
  lemma ExampleLastMatch()
    ensures CheckMatch(Flip(Flip(FourCards(true, false, true, false, 2, 0, 10, 1), 1), 3))
         == Outcome(FourCards(true, true, true, true, 2, 0, 20, 2).(playing := false), GameOver(Entry(2, 20)))
  {
  }

  /** The comparison does not look at whether the round is still running:
      when the countdown has ended the round (and announced a winner) while
      the last pair is pending, that pair still scores and the winner is
      announced a second time. */
  lemma PendingPairScoresAfterTimeout()
    ensures var s := FourCards(true, true, true, true, 1, 10, 0, 1).(playing := false, flipped := [1, 3], timeLeft := 0);
      && Inv(s)
      && CheckMatch(s).state.scores == [20, 0]
      && CheckMatch(s).report == GameOver(Entry(1, 20))
  {
    var s := FourCards(true, true, true, true, 1, 10, 0, 1).(playing := false, flipped := [1, 3], timeLeft := 0);
    assert Ids(2) == [1, 2];
    assert GenerateMemePairs(2) == [1, 2, 1, 2];
    assert Memes(s.cards) == [1, 2, 1, 2];
  }
}
