/**
 The state machine of one round of the meme memory game.

 The state is an immutable record. Every card shows its meme while it
 carries the `show` class; a card that is shown and not among the pending
 `flipped` cards is a matched card, since a match never hides its cards.
 The two timer callbacks of the game are separate transitions: `CheckMatch`
 (the one-second delay after the second card) and `Tick` (the countdown).
 */
module MemeGame {
  import opened Board
  import opened Scoring

  /** Length of a round in seconds. */
  const RoundSeconds: int := 60

  /** Points for one matched pair. */
  const MatchPoints: nat := 10

  /** A card on the board: its meme id and whether it is face up. */
  datatype Card = Card(meme: nat, shown: bool)

  /** The state of the game controller. `scores[p - 1]` is player p's score;
      `flipped` holds the board positions of the pending cards. */
  datatype State = State(
    cards: seq<Card>,
    flipped: seq<nat>,
    matchedPairs: nat,
    playing: bool,
    currentPlayer: nat,
    scores: seq<nat>,
    timeLeft: int)

  /** What a transition announces: nothing, or the end of the round with its winner. */
  datatype Report = Silent | GameOver(winner: Entry)

  /** A state together with what the transition into it announced. */
  datatype Outcome = Outcome(state: State, report: Report)

  /** The meme ids of the board, position by position. */
  function Memes(cards: seq<Card>): (r: seq<nat>)
    ensures |r| == |cards|
    ensures forall i :: 0 <= i < |cards| ==> r[i] == cards[i].meme
  {
    seq(|cards|, i requires 0 <= i < |cards| => cards[i].meme)
  }

  /** The board dealt face down. */
  function FaceDown(memes: seq<nat>): (r: seq<Card>)
    ensures Memes(r) == memes
    ensures forall i :: 0 <= i < |r| ==> !r[i].shown
  {
    seq(|memes|, i requires 0 <= i < |memes| => Card(memes[i], false))
  }

  /** Number of face-up cards. */
  function ShownCount(cards: seq<Card>): (n: nat)
    ensures n <= |cards|
  {
    if cards == [] then 0 else (if cards[0].shown then 1 else 0) + ShownCount(cards[1..])
  }

  /** A board with every card face down has no face-up card. */
  lemma {:induction false} NoneShown(cards: seq<Card>)
    requires forall i :: 0 <= i < |cards| ==> !cards[i].shown
    ensures ShownCount(cards) == 0
  {
    if cards != [] {
      NoneShown(cards[1..]);
    }
  }

  /** Turning one card changes the face-up count by the change of that card. */
  lemma {:induction false} ShownCountSet(cards: seq<Card>, i: nat, shown: bool)
    requires i < |cards|
    ensures ShownCount(cards[i := cards[i].(shown := shown)]) + (if cards[i].shown then 1 else 0)
         == ShownCount(cards) + (if shown then 1 else 0)
  {
    var c := cards[i := cards[i].(shown := shown)];
    if i == 0 {
      assert c[1..] == cards[1..];
    } else {
      assert c[1..] == cards[1..][i - 1 := cards[1..][i - 1].(shown := shown)];
      ShownCountSet(cards[1..], i - 1, shown);
    }
  }

  /** The invariant every state of a started round keeps. */
  ghost predicate Inv(s: State)
  {
    && |s.scores| >= 1
    && 1 <= s.currentPlayer <= |s.scores|
    && |s.cards| % 2 == 0
    && PairedBoard(Memes(s.cards), |s.cards| / 2)
    && |s.flipped| <= 2
    && (forall k :: 0 <= k < |s.flipped| ==> s.flipped[k] < |s.cards| && s.cards[s.flipped[k]].shown)
    && (|s.flipped| == 2 ==> s.flipped[0] != s.flipped[1])
    && ShownCount(s.cards) == 2 * s.matchedPairs + |s.flipped|
    && Sum(s.scores) == MatchPoints * s.matchedPairs
    && 0 <= s.timeLeft <= RoundSeconds
    && (s.playing ==> s.timeLeft >= 1)
  }

  /** What the invariant promises: at most two pending cards, a current
      player among 1..n, scores summing to ten points per matched pair, and
      never more matched pairs than half the board. */
  lemma InvBounds(s: State)
    requires Inv(s)
    ensures |s.flipped| <= 2
    ensures 1 <= s.currentPlayer <= |s.scores|
    ensures Sum(s.scores) == MatchPoints * s.matchedPairs
    ensures s.matchedPairs <= |s.cards| / 2
  {
  }

  // ---------------------------------------------------------------------
  // Starting a round

  /** Clears the round: no pending cards, no matches, a full clock, an empty
      score table and player 1 to move. The board array is replaced later. */
  function Reset(s: State): (r: State)
    ensures r.flipped == [] && r.matchedPairs == 0
    ensures r.timeLeft == RoundSeconds && r.currentPlayer == 1
    ensures r.scores == []
    ensures r.cards == s.cards && r.playing == s.playing
  {
    s.(flipped := [], matchedPairs := 0, timeLeft := RoundSeconds, scores := [], currentPlayer := 1)
  }

  /** Enters players 1..playerCount into the (just emptied) score table at 0. */
  function InitializePlayers(s: State, playerCount: nat): (r: State)
    ensures |r.scores| == playerCount
    ensures forall p :: 0 <= p < playerCount ==> r.scores[p] == 0
    ensures Sum(r.scores) == 0
    ensures r.(scores := s.scores) == s
  {
    s.(scores := Zeros(playerCount))
  }

  /** Deals `totalCards` cards: the generated pairs, shuffled, face down. */
  function CreateCards(s: State, totalCards: nat, exchanges: seq<Exchange>): (r: State)
    ensures |r.cards| == 2 * (totalCards / 2)
    ensures PairedBoard(Memes(r.cards), totalCards / 2)
    ensures forall i :: 0 <= i < |r.cards| ==> !r.cards[i].shown
    ensures r.(cards := s.cards) == s
  {
    ShuffleKeepsPairs(GenerateMemePairs(totalCards / 2), totalCards / 2, exchanges);
    s.(cards := FaceDown(Shuffle(GenerateMemePairs(totalCards / 2), exchanges)))
  }

  /** Starts (or restarts) a round. `exchanges` stands for the random
      choices of the shuffle. Nothing of the previous state survives. */
  function Start(s: State, totalCards: nat, playerCount: nat, exchanges: seq<Exchange>): (r: State)
    requires totalCards % 2 == 0
    requires playerCount >= 1
    ensures Inv(r)
    ensures r.playing
    ensures r.flipped == [] && r.matchedPairs == 0
    ensures r.timeLeft == RoundSeconds && r.currentPlayer == 1
    ensures |r.scores| == playerCount
    ensures forall p :: 0 <= p < playerCount ==> r.scores[p] == 0
    ensures |r.cards| == totalCards
    ensures forall i :: 0 <= i < |r.cards| ==> !r.cards[i].shown
    ensures multiset(Memes(r.cards)) == multiset(GenerateMemePairs(totalCards / 2))
    ensures PairedBoard(Memes(r.cards), totalCards / 2)
  {
    var r := CreateCards(InitializePlayers(Reset(s).(playing := true), playerCount), totalCards, exchanges);
    ShuffleKeepsPairs(GenerateMemePairs(totalCards / 2), totalCards / 2, exchanges);
    NoneShown(r.cards);
    r
  }

  // ---------------------------------------------------------------------
  // Selecting a card

  /** A click on card `i` is ignored: the round is over, two cards are
      already pending, or the card is face up (pending or matched). */
  predicate Ignored(s: State, i: nat)
    requires i < |s.cards|
  {
    !s.playing || |s.flipped| >= 2 || s.cards[i].shown
  }

  /** A click on card `i`. */
  function Flip(s: State, i: nat): (r: State)
    requires i < |s.cards|
    ensures r == s <==> Ignored(s, i)
    ensures !Ignored(s, i) ==>
      && |r.cards| == |s.cards|
      && r.cards[i].shown
      && r.flipped == s.flipped + [i]
      && r.cards[i].meme == s.cards[i].meme
      && (forall j :: 0 <= j < |s.cards| && j != i ==> r.cards[j] == s.cards[j])
      && r.(cards := s.cards, flipped := s.flipped) == s
  {
    if Ignored(s, i) then s
    else s.(cards := s.cards[i := s.cards[i].(shown := true)], flipped := s.flipped + [i])
  }

  /** A click keeps the invariant; in particular at most two cards are ever pending. */
  lemma FlipPreservesInv(s: State, i: nat)
    requires Inv(s)
    requires i < |s.cards|
    ensures Inv(Flip(s, i))
  {
    if !Ignored(s, i) {
      var r := Flip(s, i);
      ShownCountSet(s.cards, i, true);
      assert Memes(r.cards) == Memes(s.cards);
      forall k | 0 <= k < |r.flipped|
        ensures r.flipped[k] < |r.cards| && r.cards[r.flipped[k]].shown
      {
        if k < |s.flipped| {
          assert s.cards[s.flipped[k]].shown;
        }
      }
      if |r.flipped| == 2 {
        assert s.cards[s.flipped[0]].shown;
      }
    }
  }

  // ---------------------------------------------------------------------
  // Resolving the pending pair

  /** The delayed comparison can run: two pending cards on the board and a
      current player present in the score table. */
  predicate Resolvable(s: State)
  {
    && |s.flipped| == 2
    && s.flipped[0] < |s.cards|
    && s.flipped[1] < |s.cards|
    && 1 <= s.currentPlayer <= |s.scores|
  }

  /** The two pending cards show the same meme (the same image source). */
  predicate IsMatch(s: State)
    requires Resolvable(s)
  {
    s.cards[s.flipped[0]].meme == s.cards[s.flipped[1]].meme
  }

  /** One more matched pair and ten points for the current player. */
  function HandleMatch(s: State): (r: State)
    requires 1 <= s.currentPlayer <= |s.scores|
    ensures r.matchedPairs == s.matchedPairs + 1
    ensures |r.scores| == |s.scores|
    ensures r.scores[s.currentPlayer - 1] == s.scores[s.currentPlayer - 1] + MatchPoints
    ensures forall p :: 0 <= p < |s.scores| && p != s.currentPlayer - 1 ==> r.scores[p] == s.scores[p]
    ensures Sum(r.scores) == Sum(s.scores) + MatchPoints
    ensures r.(matchedPairs := s.matchedPairs, scores := s.scores) == s
  {
    SumAdd(s.scores, s.currentPlayer - 1, MatchPoints);
    s.(matchedPairs := s.matchedPairs + 1,
       scores := s.scores[s.currentPlayer - 1 := s.scores[s.currentPlayer - 1] + MatchPoints])
  }

  /** Turns the cards at the positions `idx` face down, one after the other. */
  function Hide(cards: seq<Card>, idx: seq<nat>): (r: seq<Card>)
    requires forall k :: 0 <= k < |idx| ==> idx[k] < |cards|
    ensures |r| == |cards|
    ensures forall j :: 0 <= j < |cards| ==>
      r[j] == if j in idx then cards[j].(shown := false) else cards[j]
    decreases |idx|
  {
    if idx == [] then cards
    else Hide(cards[idx[0] := cards[idx[0]].(shown := false)], idx[1..])
  }

  /** Turning two distinct face-up cards face down removes two from the count. */
  lemma HideTwo(cards: seq<Card>, a: nat, b: nat)
    requires a < |cards| && b < |cards| && a != b
    requires cards[a].shown && cards[b].shown
    ensures ShownCount(Hide(cards, [a, b])) + 2 == ShownCount(cards)
  {
    var c1 := cards[a := cards[a].(shown := false)];
    var c2 := c1[b := c1[b].(shown := false)];
    ShownCountSet(cards, a, false);
    ShownCountSet(c1, b, false);
    assert Hide(cards, [a, b]) == c2;
  }

  /** Hides both pending cards and passes the turn to the next player. */
  function HandleMismatch(s: State): (r: State)
    requires Resolvable(s)
    ensures |r.cards| == |s.cards|
    ensures Memes(r.cards) == Memes(s.cards)
    ensures forall j :: 0 <= j < |s.cards| ==>
      r.cards[j].shown == (s.cards[j].shown && j != s.flipped[0] && j != s.flipped[1])
    ensures 1 <= r.currentPlayer <= |s.scores|
    ensures r.currentPlayer == (if s.currentPlayer < |s.scores| then s.currentPlayer + 1 else 1)
    ensures r.(cards := s.cards, currentPlayer := s.currentPlayer) == s
  {
    assert s.flipped == [s.flipped[0], s.flipped[1]];
    assert Memes(Hide(s.cards, s.flipped)) == Memes(s.cards);
    s.(cards := Hide(s.cards, s.flipped),
       currentPlayer := NextPlayer(s.currentPlayer, |s.scores|))
  }

  /** Ends the round once every pair is matched and announces the winner. */
  function CheckGameEnd(s: State): (r: Outcome)
    requires |s.scores| >= 1
    ensures r.report.GameOver? <==> 2 * s.matchedPairs == |s.cards|
    ensures r.report.GameOver? ==> r.report.winner == Winner(s.scores)
    ensures r.state == (if r.report.GameOver? then s.(playing := false) else s)
  {
    if 2 * s.matchedPairs == |s.cards| then Outcome(s.(playing := false), GameOver(Winner(s.scores)))
    else Outcome(s, Silent)
  }

  /** The delayed comparison of the two pending cards. */
  function CheckMatch(s: State): (r: Outcome)
    requires Resolvable(s)
    ensures r.state.flipped == []
    ensures Memes(r.state.cards) == Memes(s.cards)
    ensures r.state.timeLeft == s.timeLeft
    ensures |r.state.scores| == |s.scores|
    ensures IsMatch(s) ==>
      && r.state.matchedPairs == s.matchedPairs + 1
      && r.state.scores[s.currentPlayer - 1] == s.scores[s.currentPlayer - 1] + MatchPoints
      && (forall p :: 0 <= p < |s.scores| && p != s.currentPlayer - 1 ==> r.state.scores[p] == s.scores[p])
      && r.state.currentPlayer == s.currentPlayer
      && r.state.cards == s.cards
    ensures !IsMatch(s) ==>
      && r.state.matchedPairs == s.matchedPairs
      && r.state.scores == s.scores
      && r.state.currentPlayer == (if s.currentPlayer < |s.scores| then s.currentPlayer + 1 else 1)
      && (forall j :: 0 <= j < |s.cards| ==>
            r.state.cards[j].shown == (s.cards[j].shown && j != s.flipped[0] && j != s.flipped[1]))
    ensures r.report.GameOver? <==> 2 * r.state.matchedPairs == |s.cards|
    ensures r.report.GameOver? ==> !r.state.playing && r.report.winner == Winner(r.state.scores)
    ensures r.report.Silent? ==> r.state.playing == s.playing
  {
    var t := if IsMatch(s) then HandleMatch(s) else HandleMismatch(s);
    assert Memes(t.cards) == Memes(s.cards);
    CheckGameEnd(t.(flipped := []))
  }

  /** The comparison keeps the invariant: in particular the scores still
      sum to ten points per matched pair and the matched pairs never
      outnumber half the board. */
  lemma CheckMatchPreservesInv(s: State)
    requires Inv(s)
    requires |s.flipped| == 2
    ensures Inv(CheckMatch(s).state)
  {
    var t := if IsMatch(s) then HandleMatch(s) else HandleMismatch(s);
    if IsMatch(s) {
      MatchKeepsInv(s);
    } else {
      MismatchKeepsInv(s);
    }
    assert CheckMatch(s) == CheckGameEnd(t.(flipped := []));
    GameEndKeepsInv(t.(flipped := []));
  }

  /** After a match and the clearing of the pending cards the invariant holds. */
  lemma MatchKeepsInv(s: State)
    requires Inv(s) && |s.flipped| == 2 && IsMatch(s)
    ensures Inv(HandleMatch(s).(flipped := []))
  {
    SumAdd(s.scores, s.currentPlayer - 1, MatchPoints);
  }

  /** After a mismatch and the clearing of the pending cards the invariant holds. */
  lemma MismatchKeepsInv(s: State)
    requires Inv(s) && |s.flipped| == 2 && !IsMatch(s)
    ensures Inv(HandleMismatch(s).(flipped := []))
  {
    var r := HandleMismatch(s).(flipped := []);
    assert s.cards[s.flipped[0]].shown && s.cards[s.flipped[1]].shown;
    assert s.flipped == [s.flipped[0], s.flipped[1]];
    HideTwo(s.cards, s.flipped[0], s.flipped[1]);
    assert Memes(r.cards) == Memes(s.cards);
  }

  /** The end-of-round check only ever stops the round, which the invariant allows. */
  lemma GameEndKeepsInv(s: State)
    requires Inv(s)
    ensures Inv(CheckGameEnd(s).state)
    ensures CheckGameEnd(s).state == s.(playing := CheckGameEnd(s).state.playing)
  {
  }

  // ---------------------------------------------------------------------
  // The countdown

  /** Stops the countdown and announces the winner. */
  function EndGame(s: State): (r: Outcome)
    requires |s.scores| >= 1
    ensures r.state == s.(playing := false)
    ensures r.report == GameOver(Winner(s.scores))
    ensures FirstMax(s.scores, |s.scores|, r.report.winner)
  {
    Outcome(s.(playing := false), GameOver(Winner(s.scores)))
  }

  /** One tick of the countdown. The countdown is only registered while a
      round is being played. */
  function Tick(s: State): (r: Outcome)
    requires s.playing
    requires |s.scores| >= 1
    ensures r.state.timeLeft == s.timeLeft - 1
    ensures r.state.playing <==> r.state.timeLeft > 0
    ensures r.report.GameOver? <==> !r.state.playing
    ensures r.report.GameOver? ==> r.report.winner == Winner(s.scores)
    ensures r.state.(timeLeft := s.timeLeft, playing := s.playing) == s
  {
    var t := s.(timeLeft := s.timeLeft - 1);
    if t.timeLeft <= 0 then EndGame(t) else Outcome(t, Silent)
  }

  /** A tick keeps the invariant. */
  lemma TickPreservesInv(s: State)
    requires Inv(s)
    requires s.playing
    ensures Inv(Tick(s).state)
  {
  }

  /** Once a round is over, every click is ignored. */
  lemma FlipWhenStopped(s: State, i: nat)
    requires i < |s.cards|
    requires !s.playing
    ensures Flip(s, i) == s
  {
  }
}
