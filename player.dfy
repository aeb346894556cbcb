/** Player.java: a player's hand, its turn, its win test and the win flags. */
module Players {
  import opened Optional
  import opened Decks

  /** A hand is uniform, the win condition, when every card equals the first. */
  predicate Uniform(hand: seq<int>)
  {
    forall k :: 0 <= k < |hand| ==> hand[k] == hand[0]
  }

  /** Card `k` of `hand` may be discarded by a player preferring `preferred`. */
  predicate Discardable(hand: seq<int>, k: int, preferred: int)
  {
    0 <= k < |hand| && hand[k] != preferred
  }

  /** The hand without its card at position `k` (Java `List.remove` of that
      card object; every card object is distinct, so it is that position). */
  function RemoveAt(hand: seq<int>, k: nat): (r: seq<int>)
    requires k < |hand|
    ensures |r| == |hand| - 1
    ensures multiset(r) + multiset{hand[k]} == multiset(hand)
    ensures forall m :: 0 <= m < |r| ==> r[m] == hand[if m < k then m else m + 1]
  {
    assert hand == hand[..k] + [hand[k]] + hand[k + 1..];
    hand[..k] + hand[k + 1..]
  }

  /** A one-card hand passes the win test. */
  lemma SingleCardUniform(c: int)
    ensures Uniform([c])
  {
  }

  /** A hand that fails the win test still holds a discardable card after any
      draw, whatever the preferred value: so the random pick never meets an
      empty candidate list. */
  lemma MixedHandCanDiscard(hand: seq<int>, drawn: int, preferred: int) returns (k: nat)
    requires !Uniform(hand)
    ensures Discardable(hand + [drawn], k, preferred)
  {
    var m :| 0 <= m < |hand| && hand[m] != hand[0];
    k := if hand[0] != preferred then 0 else m;
  }

  /** A hand whose cards all carry one value passes the win test. */
  lemma AllEqualIsUniform(hand: seq<int>, v: int)
    requires forall k :: 0 <= k < |hand| ==> hand[k] == v
    ensures Uniform(hand)
  {
  }

  /** What one turn did.
      Idle:  the left deck was empty.
      Moved: `drawn` was taken from the left deck and the card at `index` of the
             enlarged hand, `discard`, went to the right deck.
      Stuck: `drawn` was taken, but no card differed from the preferred value;
             `Random.nextInt(0)` then throws and the turn stops there. */
  datatype Turn = Idle | Moved(drawn: int, index: nat, discard: int) | Stuck(drawn: int)

  /** The game-wide `static volatile gameWon` flag, one object shared by all
      players. */
  class GameSignal {
    var gameWon: bool

    constructor ()
      ensures !gameWon
    {
      gameWon := false;
    }
  }

  class Player {
    const id: int
    const preferredValue: int
    const leftDeck: CardDeck
    const rightDeck: CardDeck
    const signal: GameSignal
    var hand: seq<int>
    var hasWon: bool
    /** Winner ids this player has been told of, in order: what `notifyWin`
        writes to the player's log. */
    var notices: seq<int>

    constructor (id: int, preferredValue: int, leftDeck: CardDeck, rightDeck: CardDeck, signal: GameSignal)
      ensures this.id == id && this.preferredValue == preferredValue
      ensures this.leftDeck == leftDeck && this.rightDeck == rightDeck && this.signal == signal
      ensures hand == [] && !hasWon && notices == []
    {
      this.id := id;
      this.preferredValue := preferredValue;
      this.leftDeck := leftDeck;
      this.rightDeck := rightDeck;
      this.signal := signal;
      hand := [];
      hasWon := false;
      notices := [];
    }

    /** `receiveCard`: the card joins the end of the hand. */
    method ReceiveCard(card: int)
      modifies this`hand
      ensures hand == old(hand) + [card]
    {
      hand := hand + [card];
    }

    /** `checkWinningCondition`: compare every card with the first. */
    method CheckWinningCondition() returns (won: bool)
      requires |hand| > 0
      ensures won <==> Uniform(hand)
    {
      var first := hand[0];
      var k := 0;
      while k < |hand|
        invariant 0 <= k <= |hand|
        invariant forall m :: 0 <= m < k ==> hand[m] == first
      {
        if hand[k] != first {
          return false;
        }
        k := k + 1;
      }
      return true;
    }

    /** `playTurn`: draw the head of the left deck; if there was one, add it
        to the hand, pick any card not of the preferred value and move it to
        the tail of the right deck. */
    method PlayTurn() returns (t: Turn)
      modifies this`hand, leftDeck, rightDeck
      ensures t.Idle? <==> old(leftDeck.cards) == []
      ensures t.Idle? ==> hand == old(hand) && leftDeck.cards == old(leftDeck.cards)
                          && rightDeck.cards == old(rightDeck.cards)
      ensures t.Moved? || t.Stuck? ==> t.drawn == old(leftDeck.cards)[0]
      ensures t.Stuck? ==> forall k :: 0 <= k < |old(hand)| ==> old(hand)[k] == preferredValue
      ensures t.Stuck? ==> hand == old(hand) + [t.drawn]
                           && (forall k :: 0 <= k < |hand| ==> hand[k] == preferredValue)
                           && leftDeck.cards == old(leftDeck.cards)[1..]
                           && (leftDeck != rightDeck ==> rightDeck.cards == old(rightDeck.cards))
      ensures t.Moved? ==> Discardable(old(hand) + [t.drawn], t.index, preferredValue)
                           && t.discard == (old(hand) + [t.drawn])[t.index]
                           && hand == RemoveAt(old(hand) + [t.drawn], t.index)
      ensures t.Moved? && leftDeck != rightDeck ==>
                leftDeck.cards == old(leftDeck.cards)[1..] && rightDeck.cards == old(rightDeck.cards) + [t.discard]
      ensures t.Moved? && leftDeck == rightDeck ==>
                leftDeck.cards == old(leftDeck.cards)[1..] + [t.discard]
    {
      var drawn := leftDeck.DrawCard();
      if drawn.None? {
        return Idle;
      }
      hand := hand + [drawn.value];
      if forall k :: 0 <= k < |hand| ==> hand[k] == preferredValue {
        assert forall k :: 0 <= k < |old(hand)| ==> old(hand)[k] == hand[k];
        return Stuck(drawn.value);
      }
      var index :| 0 <= index < |hand| && hand[index] != preferredValue;
      var discard := hand[index];
      hand := RemoveAt(hand, index);
      rightDeck.AddCardToBottom(discard);
      t := Moved(drawn.value, index, discard);
    }

    /** The start of `run`: a player whose dealt hand is uniform wins at once,
        without playing a turn. */
    method Begin() returns (won: bool)
      requires |hand| > 0
      modifies this`hasWon, signal
      ensures won <==> Uniform(hand)
      ensures hasWon == (old(hasWon) || won)
      ensures signal.gameWon == (old(signal.gameWon) || won)
    {
      won := CheckWinningCondition();
      if won {
        hasWon := true;
        signal.gameWon := true;
      }
    }

    /** One pass of the loop in `run`, entered while no one has signalled a
        win: play a turn, then test the hand. A Stuck turn ends the player
        (the exception leaves `run`) before the test. */
    method Round() returns (t: Turn, won: bool)
      requires |hand| > 0 && !signal.gameWon
      modifies this`hand, this`hasWon, leftDeck, rightDeck, signal
      ensures t.Idle? <==> old(leftDeck.cards) == []
      ensures t.Idle? ==> hand == old(hand) && leftDeck.cards == old(leftDeck.cards)
                          && rightDeck.cards == old(rightDeck.cards)
      ensures t.Moved? || t.Stuck? ==> t.drawn == old(leftDeck.cards)[0]
      ensures t.Stuck? ==> forall k :: 0 <= k < |old(hand)| ==> old(hand)[k] == preferredValue
      ensures t.Stuck? ==> hand == old(hand) + [t.drawn]
                           && (forall k :: 0 <= k < |hand| ==> hand[k] == preferredValue)
                           && leftDeck.cards == old(leftDeck.cards)[1..]
                           && (leftDeck != rightDeck ==> rightDeck.cards == old(rightDeck.cards))
      ensures t.Moved? ==> Discardable(old(hand) + [t.drawn], t.index, preferredValue)
                           && t.discard == (old(hand) + [t.drawn])[t.index]
                           && hand == RemoveAt(old(hand) + [t.drawn], t.index)
      ensures t.Moved? && leftDeck != rightDeck ==>
                leftDeck.cards == old(leftDeck.cards)[1..] && rightDeck.cards == old(rightDeck.cards) + [t.discard]
      ensures t.Moved? && leftDeck == rightDeck ==>
                leftDeck.cards == old(leftDeck.cards)[1..] + [t.discard]
      ensures won <==> !t.Stuck? && Uniform(hand)
      ensures hasWon == (old(hasWon) || won)
      ensures signal.gameWon == won
    {
      t := PlayTurn();
      won := false;
      if !t.Stuck? {
        won := CheckWinningCondition();
        if won {
          hasWon := true;
          signal.gameWon := true;
        }
      }
    }

    /** `notifyWin`: a player that has not won records the winner; a winner
        ignores the call. Neither the hand nor `hasWon` changes. */
    method NotifyWin(winnerId: int)
      modifies this`notices
      ensures notices == if hasWon then old(notices) else old(notices) + [winnerId]
    {
      if !hasWon {
        notices := notices + [winnerId];
      }
    }
  }
}
