# Multithreaded card game: a sequential Dafny model

The game seats `N` players in a ring with `N` decks between them. Player `i`
(id and preferred value `i + 1`) draws from deck `i` on its left and discards
to deck `(i + 1) mod N` on its right. A pack of exactly `8N` integer cards is
read. The first `4N` cards are dealt round-robin to the hands and the rest
round-robin to the decks. A player wins when all four cards in its hand carry
the same value. Every other player is then told the winner's id.

The project models the four core classes:

- `cards.dfy`: module `Cards`, for `Card`. This is an immutable value, so it is a
  datatype.
- `deck.dfy`: module `Decks`. `CardDeck` is a class over a `seq<int>` queue. The
  module also has the text rendering of `getDeckContents`, and client methods
  that state the queue discipline.
- `player.dfy`: module `Players`. `Player` is a class that owns a hand and refers
  to two decks and to the shared win flag.
- `game.dfy`: module `CardGame`. It covers what `main` does:
  - the size check of `readPack`;
  - the ring built from objects (`Ring`);
  - `distributeCards`;
  - one turn of a player, stated against the table model;
  - the winner broadcast.
- `table.dfy`: module `TableModel`. This is a value-level description of the
  whole game. A `Table` is `N` hands and `N` decks. `Deal` produces it from the
  pack, and `Move` is one player's turn. The module proves that any sequence of
  turns keeps the multiset of cards equal to the pack's, and keeps every hand
  at four cards.

Two further modelling choices:

- Hands and decks hold card values (`int`). Every Java `Card` object is distinct
  and its value is final, so removing "that card object" from a hand is
  removing the card at the chosen position.
- The static `volatile gameWon` flag is one shared `GameSignal` object, passed to
  every player.

The repository's tests ask for more checks than the code makes: a negative card
value throws (cardsTest/CardTest.java:16-18), adding a null card throws
(cardsTest/CardDeckTest.java:22-25), and invalid packs are rejected by a
validation step (cardsTest/CardGameTest.java:20-42). The code checks only the
pack size (`readPack`), and the model follows the code:

- With `numPlayers = 0` an empty pack is accepted, and the deal hands out
  nothing.
- In the model's unbounded arithmetic, a negative `numPlayers` makes every pack
  size mismatch (Java's 32-bit `8 * numPlayers` can wrap; see Left out).
- Negative card values are listed under Findings.

## Model

| member | source | states |
|---|---|---|
| Cards.NewCard | Card.java:8-16 | `getValue` of a card built from `v` is exactly `v` |
| Cards.NegativeCardAccepted | Card.java:8-11 | the constructor as written yields a card of value -1 |
| Cards.CheckedCard | cardsTest/CardTest.java:16-18 | the intended constructor yields a card exactly when the value is non-negative, and that card has the value given |
| Decks.JoinedUnpadded | CardDeck.java:37-44 | the deck report is empty only for an empty deck and never starts or ends with a blank |
| Decks.TrimPadded | CardDeck.java:40-44 | trimming the text built by appending each value and a space gives the values separated by single spaces |
| Decks.CardDeck.constructor | CardDeck.java:7 | a new deck is empty |
| Decks.CardDeck.AddCard | CardDeck.java:10-17 | the card joins the tail: new queue = old queue + [card], one longer |
| Decks.CardDeck.DrawCard | CardDeck.java:19-26 | on an empty deck: no card, deck stays empty; otherwise: returns the head, leaves exactly the tail, one shorter |
| Decks.CardDeck.AddCardToBottom | CardDeck.java:28-35 | the same effect as `addCard`: new queue = old queue + [card] |
| Decks.CardDeck.GetDeckContents | CardDeck.java:37-48 | changes nothing and returns the values in queue order, separated by single spaces, with no trailing space |
| Decks.AddTwoDrawThree | cardsTest/CardDeckTest.java:9-31 | after adding 1 then 2 to an empty deck, draws return 1, then 2, then nothing |
| Decks.ReportTwo | cardsTest/CardDeckTest.java:35-41 | after adding 5 then 7 the report is exactly "5 7" |
| Decks.Drain | CardDeck.java:19-26 | drawing until the deck is empty returns its cards in queue order |
| Decks.FillAndDrain | CardDeck.java:10-26 | first in, first out: cards added to an empty deck are drawn back in the order added |
| Players.RemoveAt | Player.java:99 | removing the discard leaves one card fewer; the cards left plus the discard are the multiset of the hand; the order of the others is kept |
| Players.SingleCardUniform | Player.java:46-59 | a one-card hand passes the win test |
| Players.AllEqualIsUniform | Player.java:49-55 | a hand whose cards all carry one value passes the win test |
| Players.MixedHandCanDiscard | Player.java:92-97 | a hand that fails the win test, with any card drawn, holds a card of a value other than the preferred one, so the random pick never has an empty range |
| Players.GameSignal.constructor | Player.java:18 | the shared win flag starts false |
| Players.Player.constructor | Player.java:21-27 | id, preferred value and both decks as given; empty hand, not won, nothing logged |
| Players.Player.ReceiveCard | Player.java:37-44 | the card joins the end of the hand; decks and flags unchanged |
| Players.Player.CheckWinningCondition | Player.java:46-59 | changes nothing; true exactly when every card equals the first; needs a non-empty hand |
| Players.Player.PlayTurn | Player.java:83-119 | empty left deck: nothing changes; otherwise the left deck loses its head, which joins the hand, and one card of a value other than the preferred one leaves the hand for the tail of the right deck (hand size kept); if there is none the pick throws with the drawn card kept; the case of one shared deck is covered |
| Players.Player.Begin | Player.java:133-140 | a uniform dealt hand wins at once: `hasWon` and the shared flag are set exactly when the hand is uniform |
| Players.Player.Round | Player.java:142-150 | one loop pass: the effects of `playTurn`; then, unless the pick threw, the win test; `hasWon` and the shared flag are set exactly on a win |
| Players.Player.NotifyWin | Player.java:154-161 | changes neither hand nor `hasWon`; a player that has won records nothing, any other records the winner's id |
| TableModel.NextIsSuccessorMod | CardGame.java:30 | the ring successor `Next(i, N)` is `(i + 1) mod N` |
| TableModel.ColumnAppend | CardGame.java:93-99 | dealing one more card appends it to container `position mod N` and to no other |
| TableModel.ColumnsUnion | CardGame.java:88-101 | dealing round-robin to `N` containers distributes the cards: their union is the multiset dealt |
| TableModel.ColumnOfFourRounds | CardGame.java:93-99 | four rounds of `N` cards give container `j` the cards at positions `j`, `N+j`, `2N+j`, `3N+j` |
| TableModel.DealPositions | CardGame.java:88-101 | hand `j` gets pack cards `j, N+j, 2N+j, 3N+j`; deck `j` gets pack cards `4N+j, …, 7N+j` |
| TableModel.DealSettled | CardGame.java:88-101 | after the deal every hand holds four cards |
| TableModel.DealConserves | CardGame.java:88-101 | every pack card is dealt exactly once: the table's cards are the pack's multiset, `8N` of them |
| TableModel.MoveConserves | Player.java:86-100 | a turn never creates, loses or duplicates a card, including when left and right deck coincide (`N = 1`) |
| TableModel.MoveShape | Player.java:86-100 | a turn keeps every hand's size and touches only the mover's hand and its left and right decks |
| TableModel.MixedHandCanMove | Player.java:92-97 | a player whose hand is not uniform has a legal discard whenever its left deck is non-empty |
| TableModel.PlayInvariant | Player.java:142-150 | any sequence of turns keeps all cards and keeps every hand at four |
| TableModel.GameConserves | CardGame.java:34-52 | from the deal, whatever turns are played, the table holds exactly the pack's `8N` cards and four per hand |
| CardGame.ReadPack | CardGame.java:82-85 | the pack is accepted exactly when it holds `8 × numPlayers` values, and then unchanged |
| CardGame.WinnerIdsExact | CardGame.java:55-63 | the ids announced are exactly the ids `k + 1` of the players that have won |
| CardGame.SingleWinner | CardGame.java:55-63 | with one winner, every loser is told that winner's id exactly once |
| CardGame.NoWinner | CardGame.java:55-63 | with no winner, nobody is told anything |
| CardGame.NewDecks | CardGame.java:25-27 | `N` fresh, empty, pairwise distinct decks |
| CardGame.SeatPlayers | CardGame.java:28-32 | player `k` has id and preferred value `k + 1`, left deck `k`, right deck `(k + 1) mod N`, an empty hand, and shares the one win flag |
| CardGame.Ring.constructor | CardGame.java:21-32 | the ring's links hold, every hand and deck is empty, and the win flag is false |
| CardGame.Ring.Distribute | CardGame.java:88-101 | hand `j` gains the pack cards at positions `≡ j (mod N)` below `4N`, deck `j` those from `4N` on, in pack order; flags and logs unchanged |
| CardGame.Ring.DealHands | CardGame.java:92-95 | the first loop: pack card `k < 4N` joins the end of hand `k mod N`; `cardIndex` ends at `4N` |
| CardGame.Ring.DealDecks | CardGame.java:97-100 | the second loop: pack card `4N + k` joins the tail of deck `k mod N` |
| CardGame.Ring.Seat | Player.java:142-150 | one pass of player `i`'s loop touches only its hand and flags, deck `i` and deck `Next(i, N)` (its notices are kept), and the pick never throws |
| CardGame.Ring.Step | Player.java:142-150 | a pass of player `i` (no win signalled, hand not uniform) leaves the table unchanged on an empty left deck and is otherwise exactly one legal `Move`; the pick never throws; cards and hand sizes are conserved; `hasWon` and the shared flag are set exactly when the new hand is uniform; the player's notices are kept |
| CardGame.TurnIsMove | Player.java:86-100 | the objects' effect of a turn, read as a table, is `Move`, which conserves the cards and hand sizes |
| CardGame.Ring.Broadcast | CardGame.java:55-63 | each player that has not won is told the ids of all winners in seating order; winners are told nothing; hands and flags unchanged |
| CardGame.Ring.AnnounceSeat | CardGame.java:56-62 | one outer pass: when seat `a` has won, every loser's log gains `a + 1` |
| CardGame.Ring.TellOthers | CardGame.java:57-61 | every player other than the winner is sent the winner's id, and only players that have not won record it |
| CardGame.DealtTable | CardGame.java:88-101 | hands and decks holding their columns of the pack form `Deal(pack, N)` |
| CardGame.NewGame | CardGame.java:15-35 | a game is built exactly when the pack size is `8 × numPlayers`; it then satisfies the ring invariant, its ring, signal, players and decks are newly allocated, its table is `Deal(pack, N)`, nobody has won and nothing has been announced |

## Left out

- Threads, the `ReentrantLock`s and `Thread.join` are not modelled.
  - Each operation is modelled as one sequential step.
  - Interleaving is modelled as a sequence of `Step`s, or as `Choice`s on the table.
  - The locks only make each operation atomic, and a sequential step already is.
- The busy-wait `while (!gameWon)` loop of `run` is not modelled.
  - It need not terminate, so only single passes are modelled: `Begin`, `Round` and `Step`.
  - A pass is entered only while no win is signalled and after a failed win test, and `Step` requires exactly that.
  - A concurrent win by another thread between the test and the turn is not modelled.
- `java.util.Random` is not modelled. The discard index is chosen nondeterministically among the cards whose value differs from the preferred value, which is the set the stream filter picks from.
- The following I/O is left out:
  - stdin prompts;
  - reading the pack file and `Integer.parseInt`;
  - the player log files;
  - console messages;
  - the final deck printout.
- `readPack` receives the parsed values as a parameter.
- `notifyWin` stores the winner ids a player has been told in a `notices` field instead of writing log text.
- Players.Player.PlayTurn does not model the deck number written in the discard log line (`(id % hand.size()) + 1`). It is output text only.
- Null cards are not modelled, because values are `int`s and cannot be null. So `drawCard` returning null is `None`, and adding a null card cannot be expressed.
- CardGame.ReadPack does not model 32-bit overflow of `8 * numPlayers`. Player counts are taken to be small.
- `Players.Player.CheckWinningCondition` and `Round` require a non-empty hand, because `hand.get(0)` throws on an empty one. Every hand holds four cards after the deal.
- Behaviour asserted by the tests but not implemented by the core classes is not modelled:
  - a pack validation exception;
  - a deck exception on a null card;
  - a player winning on `receiveCard`.
- The lock inside `Card` is not modelled, because it guards a final field and has no effect.
- `getId` and `isHasWon` are not modelled as separate members: they are plain reads of the `id` and `hasWon` fields.

## Findings

| source | as written | input that shows it | evidently intended | confidence | as-written member | corrected member |
|---|---|---|---|---|---|---|
| Card.java:8-11 | the constructor stores any int, so negative card values are accepted | `new Card(-1)` yields a card of value -1 | negative values are rejected, as the tests in cardsTest/CardTest.java:16-18 and the sibling copy source code/Card.java:10-13 do | not executed | Cards.NegativeCardAccepted | Cards.CheckedCard |
