# Meme memory game — a Dafny model of the game state machine

The repository is a browser memory-matching game: one class, `MemeGame` in
`script.js`. Under its page wiring sits a small state machine. A round deals
a board on which every meme occurs twice, shuffled. Players then click cards.
At most two cards are turned up at a time. After a one-second delay the two
cards are compared. A match scores 10 points for the current player, who
keeps the turn. A mismatch turns both cards down again and passes the turn
to the next player, cyclically over players 1..n. The round ends when every
pair is matched or when the 60-second countdown runs out. The winner is the
first player holding the highest score.

This project models that state machine as pure functions over an immutable
state record and proves its invariants.

- `board.dfy` (module `Board`): the pair list `generateMemePairs` builds,
  and the shuffle. The shuffle is a list of position exchanges. It is proved
  to keep the multiset of ids and to be able to produce every rearrangement.
- `scoring.dfy` (module `Scoring`): score totals, the turn rotation
  `current % n + 1`, and the `reduce` that picks the winner.
- `memegame.dfy` (module `MemeGame`): the state, start/restart, the card
  click, the delayed comparison with its match, mismatch and end-of-round
  steps, and the countdown tick. `Inv` is the invariant each transition keeps.
- `round.dfy` (module `Round`): events (click, comparison, tick), runs of any
  event sequence from a fresh round, and a worked four-card example.

State as modelled:
- A card is its meme id and whether it carries the `show` class. Two cards
  match exactly when their ids are equal, since the image source is built
  from the id alone (`script.js:78`, `script.js:99`).
- A matched card keeps `show` because `handleMatch` never removes it. So
  "matched" is not stored. It means: shown and not pending. The invariant
  counts it: face-up cards = 2 × matched pairs + pending cards.
- The score table `{1: s1, …, n: sn}` is a sequence; `scores[p - 1]` is
  player `p`'s score. Integer keys enumerate in ascending order, and the
  winner fold visits them in that order.
- The two timer callbacks are explicit transitions. `CheckMatch` is the
  delayed comparison, and it can fire when two cards are pending. `Tick` is
  the countdown, and it fires only while a round is running: the interval is
  cleared exactly when `isPlaying` becomes false.
- Randomness of the shuffle is a parameter: the list of exchanges.

## Model

| member | source | states |
|---|---|---|
| `Board.IdsOccurOnce` | script.js:176 | the ids 1..k built by `Array.from` each occur exactly once, and no other value occurs |
| `Board.GenerateMemePairs` | script.js:175-178 | the result has length 2k, each id 1..k occurs exactly twice and nothing else occurs; the first half is 1..k ascending and the second half repeats it |
| `Board.PairedBoardIds` | script.js:176-177 | every card of a paired board carries an id in 1..k |
| `Board.Swap` | script.js:181 | one exchange of two positions keeps length and multiset, exchanges exactly those two cards and leaves every other position alone |
| `Board.Shuffle` | script.js:180-182 | the shuffled board has the same length and the same multiset of ids as its input |
| `Board.ShuffleKeepsPairs` | script.js:64-65 | the shuffled board still holds every id 1..k exactly twice |
| `Board.ShuffleReachesEveryArrangement` | script.js:180-182 | every sequence with the same multiset of ids is the result of some list of exchanges, so the shuffle is an arbitrary permutation |
| `Board.PlaceNext` | script.js:181 | exchanging the wanted id into position p extends the agreeing prefix and keeps the suffixes equal as multisets |
| `Scoring.Zeros` | script.js:54-58 | players 1..n enter the score table with 0 points each, so the scores sum to 0 |
| `Scoring.SumAdd` | script.js:113 | adding points to one player's score adds exactly that much to the sum of scores |
| `Scoring.NextPlayer` | script.js:120 | `current % n + 1` stays in 1..n; it is `current + 1` below n and wraps n back to 1 (with one player the turn stays with player 1) |
| `Scoring.RotateForward` | script.js:120 | k turn changes within one cycle move the turn k places forward, wrapping past n |
| `Scoring.RotationIsFair` | script.js:120 | after exactly n turn changes the turn is back with the same player, and every player 1..n gets the turn within fewer than n changes |
| `Scoring.FoldFindsFirstMax` | script.js:150 | a fold carrying the first maximum of players 1..i ends with the first maximum of all players |
| `Scoring.Winner` | script.js:150 | the winner is a player in 1..n whose score is at least every score and strictly above the scores of all lower-numbered players |
| `Scoring.WinnerIsFirstMax` | script.js:150 | an entry is the winner if and only if it is the first player holding the highest score |
| `Scoring.TieGoesToFirstPlayer` | script.js:150 | with scores 30, 30, 20 the winner is player 1 with 30 points |
| `MemeGame.FaceDown` | script.js:69-72 | the dealt cards carry the board's ids in order and none is face up |
| `MemeGame.ShownCountSet` | script.js:89 | turning one card up or down changes the face-up count by exactly that card's change |
| `MemeGame.NoneShown` | script.js:69-72 | a freshly dealt board has no face-up card |
| `MemeGame.InvBounds` | script.js:124-130 | in every state of a round: at most two pending cards, current player in 1..n, scores sum to 10 × matched pairs, matched pairs at most half the board |
| `MemeGame.Reset` | script.js:41-52 | clearing a round empties the pending cards and the score table, sets matched pairs to 0, the clock to 60 and the turn to player 1, and keeps the board and the playing flag |
| `MemeGame.InitializePlayers` | script.js:54-60 | players 1..n enter the score table at 0 points, so the scores sum to 0; nothing else changes |
| `MemeGame.CreateCards` | script.js:62-73 | the dealt board has 2 × (totalCards / 2) cards, holds every id 1..totalCards/2 exactly twice, shows no card face up, and nothing else changes |
| `MemeGame.Start` | script.js:32-73 | after start or restart: nothing pending, 0 matched pairs, 60 seconds, player 1 to move, players 1..n at 0 points, playing, all cards face down, the board a rearrangement of the generated pairs; the invariant holds |
| `MemeGame.Flip` | script.js:84-95 | a click leaves the state unchanged if and only if the round is over, two cards are pending or the card is face up; otherwise it turns up exactly that card, appends it to the pending cards and changes nothing else |
| `MemeGame.FlipPreservesInv` | script.js:84-95 | a click keeps the invariant, so no more than two cards are ever pending and pending cards are distinct and face up |
| `MemeGame.FlipWhenStopped` | script.js:85-87 | once the round is not playing, every click is a no-op |
| `MemeGame.Hide` | script.js:119 | exactly the pending cards are turned face down; every other card is untouched |
| `MemeGame.HandleMatch` | script.js:111-116 | a match adds one matched pair and 10 points to the current player only, so the sum of scores grows by exactly 10; nothing else changes |
| `MemeGame.HandleMismatch` | script.js:118-122 | a mismatch turns exactly the two pending cards face down, passes the turn to the next player cyclically within 1..n, and changes nothing else |
| `MemeGame.CheckGameEnd` | script.js:124-130 | the round ends, with the winner announced, exactly when the matched pairs reach half the board; otherwise the state is unchanged, and ending changes only the playing flag |
| `MemeGame.EndGame` | script.js:143-147 | ending by time stops the round, changes nothing else, and announces the first player with the highest score |
| `MemeGame.HideTwo` | script.js:119 | turning the two distinct face-up pending cards down lowers the face-up count by two |
| `MemeGame.CheckMatch` | script.js:97-130 | the comparison always empties the pending cards; a match adds one matched pair and 10 points to the current player only and keeps the turn; a mismatch turns both cards down, keeps scores and passes the turn cyclically; the round ends, and the winner is announced, exactly when the matched pairs reach half the board |
| `MemeGame.MatchKeepsInv` | script.js:111-116 | after a match the scores still sum to 10 × matched pairs and the face-up count still equals twice the matched pairs |
| `MemeGame.MismatchKeepsInv` | script.js:118-122 | after a mismatch the invariant holds with the next player to move |
| `MemeGame.GameEndKeepsInv` | script.js:124-130 | the end-of-round check changes nothing but the playing flag and keeps the invariant |
| `MemeGame.CheckMatchPreservesInv` | script.js:97-109 | the whole comparison keeps the invariant, so matched pairs never exceed half the board |
| `MemeGame.Tick` | script.js:134-147 | a tick lowers the time left by exactly 1, stops the round exactly when the time left reaches 0 or below, announces the winner then, and changes nothing else |
| `MemeGame.TickPreservesInv` | script.js:134-140 | a tick keeps the invariant; the time left stays within 0..60 |
| `Round.Step` | script.js:84-147 | every event keeps the invariant, never changes the board's ids or the number of players, and never restarts a stopped round |
| `Round.Play` | script.js:84-147 | any sequence of events keeps the invariant and the board |
| `Round.RoundInvariants` | script.js:32-147 | after a start and any events: at most two pending, current player in 1..n, scores sum to 10 × matched pairs, matched pairs at most totalCards/2, every id still occurs exactly twice |
| `Round.StoppedRoundIgnoresClicks` | script.js:85-87 | after the round has stopped, later events never restart it and every click is ignored |
| `Round.FourCardDeal` | script.js:32-73 | four cards for two players without exchanges deal 1, 2, 1, 2 face down with both players at 0 |
| `Round.ExampleMiss` | script.js:118-122 | turning up 1 and 2 turns both down again and passes the turn from player 1 to player 2 |
| `Round.ExampleFirstMatch` | script.js:111-116 | turning up both 1s gives player 2 ten points and player 2 keeps the turn |
| `Round.ExampleLastMatch` | script.js:124-130 | matching the last pair ends the round and announces player 2 as winner with 20 points |
| `Round.PendingPairScoresAfterTimeout` | script.js:97-113 | a comparison pending when the countdown stopped the round still scores the pair, and completing the board announces the winner again |

## Left out

- Page wiring and rendering (`initializeElements`, `addEventListeners`, the
  card HTML, the timer, score and scoreboard displays, `updateGridLayout`)
  and the `alert` text: presentation only. The announcement is the
  `GameOver(winner)` report of a transition.
- Timer scheduling (`setInterval`, `setTimeout`, `clearInterval`): replaced
  by the explicit `CheckMatch` and `Tick` transitions. A cleared interval is
  modelled by `Tick` requiring a running round.
- A restart while a comparison is pending leaves a stale comparison that
  fires up to a second later on whatever the new round has pending. With
  no pending card, or with one, it throws a TypeError when it reads the
  missing card's image, and a single pending card stays pending. With two
  pending cards of the new board it resolves that pair early, and the
  pair's own comparison later runs on an empty list and throws. The model
  lets a comparison fire only with two pending cards. The early resolution
  is covered, because `ResolvePair` may fire whenever two cards are
  pending. The throwing cases are not modelled.
- The comparison is not guarded by `isPlaying`. When the time runs out while
  two cards are pending, the model, like the code, still scores that pair
  and may announce the winner a second time
  (`Round.PendingPairScoresAfterTimeout`). No property is claimed about
  scores after the round has stopped.
- The distribution of the shuffle (a sort with a random comparator, which is
  not uniform): the model takes the exchanges as a parameter and proves only
  that the result is some rearrangement and that every rearrangement can
  occur.
- `parseInt` of the form fields: the card count is taken as an even number
  and the player count as at least 1, as preconditions of `Start`.
- The constructor's state before the first start and the page-load
  bootstrap: before the first start `isPlaying` is false, so every click is
  ignored (as `MemeGame.FlipWhenStopped` states of any stopped state).
- `Scoring.Winner`: requires at least one player, because `reduce` without an
  initial value throws on an empty score table.
- The winner selection prefers the first player on a tie. Listing all tied
  players is not modelled, since the code does not do it.
