/** CardGame.java: building the ring of players and decks, dealing the pack,
    and telling every other player who won. */
module CardGame {
  import opened Optional
  import opened Decks
  import opened Players
  import opened TableModel

  /** The size check of `readPack`: a pack is accepted exactly when it holds
      eight cards per player. */
  function ReadPack(values: seq<int>, numPlayers: int): (pack: Option<seq<int>>)
    ensures pack.Some? <==> |values| == 8 * numPlayers
    ensures pack.Some? ==> pack.value == values
  {
    if |values| != 8 * numPlayers then None else Some(values)
  }

  /** The ids of the players whose flag is set, in seating order; the player
      at position `k` has id `k + 1`. */
  function WinnerIds(flags: seq<bool>): seq<int>
  {
    if flags == [] then []
    else WinnerIds(flags[..|flags| - 1]) + (if flags[|flags| - 1] then [|flags|] else [])
  }

  /** `WinnerIds` lists exactly the ids of the flagged players. */
  lemma {:induction false} WinnerIdsExact(flags: seq<bool>)
    ensures forall id :: id in WinnerIds(flags) <==> 1 <= id <= |flags| && flags[id - 1]
  {
    if flags != [] {
      WinnerIdsExact(flags[..|flags| - 1]);
    }
  }

  /** Looking at one more seat adds that seat's id when its flag is set. */
  lemma WinnerIdsStep(flags: seq<bool>, a: nat)
    requires a < |flags|
    ensures WinnerIds(flags[..a + 1]) == WinnerIds(flags[..a]) + (if flags[a] then [a + 1] else [])
  {
    assert flags[..a + 1][..a] == flags[..a];
  }

  lemma AppendAssoc(x: seq<int>, y: seq<int>, z: seq<int>)
    ensures (x + y) + z == x + (y + z)
  {
  }

  /** With a single winner, every loser hears of that winner once. */
  lemma {:induction false} SingleWinner(flags: seq<bool>, w: nat)
    requires w < |flags| && flags[w]
    requires forall k :: 0 <= k < |flags| && k != w ==> !flags[k]
    ensures WinnerIds(flags) == [w + 1]
  {
    var n := |flags|;
    if n - 1 == w {
      NoWinner(flags[..n - 1]);
    } else {
      SingleWinner(flags[..n - 1], w);
    }
  }

  /** With no winner, nobody is told anything. */
  lemma {:induction false} NoWinner(flags: seq<bool>)
    requires forall k :: 0 <= k < |flags| ==> !flags[k]
    ensures WinnerIds(flags) == []
  {
    if flags != [] {
      NoWinner(flags[..|flags| - 1]);
    }
  }

  /** The first loop of `main`: `numPlayers` new, empty, distinct decks. */
  method NewDecks(numPlayers: nat) returns (ds: seq<CardDeck>)
    ensures |ds| == numPlayers
    ensures forall k :: 0 <= k < numPlayers ==> fresh(ds[k]) && ds[k].cards == []
    ensures forall a, b :: 0 <= a < b < numPlayers ==> ds[a] != ds[b]
  {
    ds := [];
    var i := 0;
    while i < numPlayers
      invariant 0 <= i <= numPlayers && |ds| == i
      invariant forall k :: 0 <= k < i ==> fresh(ds[k]) && ds[k].cards == []
      invariant forall a, b :: 0 <= a < b < i ==> ds[a] != ds[b]
    {
      var d := new CardDeck();
      ds := ds + [d];
      i := i + 1;
    }
  }

  /** The second loop of `main`: player `i` sits between deck `i` on its left
      and deck `(i + 1) mod N` on its right. */
  method SeatPlayers(ds: seq<CardDeck>, signal: GameSignal) returns (ps: seq<Player>)
    ensures |ps| == |ds|
    ensures forall a, b :: 0 <= a < b < |ps| ==> ps[a] != ps[b]
    ensures forall k {:trigger ps[k]} :: 0 <= k < |ps| ==>
              && fresh(ps[k]) && ps[k].hand == [] && !ps[k].hasWon && ps[k].notices == []
              && ps[k].id == k + 1 && ps[k].preferredValue == k + 1 && ps[k].signal == signal
              && ps[k].leftDeck == ds[k] && ps[k].rightDeck == ds[Next(k, |ds|)]
  {
    var n := |ds|;
    ps := [];
    var i := 0;
    while i < n
      invariant 0 <= i <= n && |ps| == i
      invariant forall a, b :: 0 <= a < b < i ==> ps[a] != ps[b]
      invariant forall k {:trigger ps[k]} :: 0 <= k < i ==>
                  && fresh(ps[k]) && ps[k].hand == [] && !ps[k].hasWon && ps[k].notices == []
                  && ps[k].id == k + 1 && ps[k].preferredValue == k + 1 && ps[k].signal == signal
                  && ps[k].leftDeck == ds[k] && ps[k].rightDeck == ds[Next(k, n)]
    {
      NextIsSuccessorMod(i, n);
      var p := new Player(i + 1, i + 1, ds[i], ds[(i + 1) % n], signal);
      ps := ps + [p];
      i := i + 1;
    }
  }

  /** The running game: deck `k` is the left deck of player `k` and the right
      deck of player `k - 1`, all players share one win signal. */
  class Ring {
    const decks: seq<CardDeck>
    const players: seq<Player>
    const signal: GameSignal

    ghost predicate Valid()
    {
      && |decks| == |players|
      && (forall a, b :: 0 <= a < b < |decks| ==> decks[a] != decks[b])
      && (forall a, b :: 0 <= a < b < |players| ==> players[a] != players[b])
      && forall k {:trigger players[k]} :: 0 <= k < |players| ==>
           && players[k].id == k + 1 && players[k].preferredValue == k + 1
           && players[k].leftDeck == decks[k] && players[k].rightDeck == decks[Next(k, |decks|)]
           && players[k].signal == signal
    }

    ghost function Hands(): (hs: seq<seq<int>>)
      reads players
      ensures |hs| == |players| && forall k :: 0 <= k < |players| ==> hs[k] == players[k].hand
    {
      seq(|players|, k requires 0 <= k < |players| reads players => players[k].hand)
    }

    ghost function DeckContents(): (ds: seq<seq<int>>)
      reads decks
      ensures |ds| == |decks| && forall k :: 0 <= k < |decks| ==> ds[k] == decks[k].cards
    {
      seq(|decks|, k requires 0 <= k < |decks| reads decks => decks[k].cards)
    }

    /** The table the objects currently hold. */
    ghost function State(): Table
      reads players, decks
    {
      Table(Hands(), DeckContents())
    }

    /** The two loops of `main` that create the decks and then the players:
        player `i` gets id and preferred value `i + 1`, left deck `i` and right
        deck `(i + 1) mod numPlayers`. */
    constructor (numPlayers: nat)
      ensures Valid() && |players| == numPlayers
      ensures forall k :: 0 <= k < numPlayers ==> fresh(players[k]) && fresh(decks[k])
      ensures fresh(signal) && !signal.gameWon
      ensures forall k :: 0 <= k < numPlayers ==>
                players[k].hand == [] && decks[k].cards == [] && !players[k].hasWon && players[k].notices == []
    {
      var sig := new GameSignal();
      var ds := NewDecks(numPlayers);
      var ps := SeatPlayers(ds, sig);
      decks, players, signal := ds, ps, sig;
    }

    /** `distributeCards`: pack card `k < 4N` goes to the end of player
        `k mod N`'s hand, pack card `4N + k` to the tail of deck `k mod N`,
        in pack order. */
    method Distribute(pack: seq<int>)
      requires Valid() && |pack| == 8 * |players|
      modifies players, decks
      ensures forall j :: 0 <= j < |players| ==>
                players[j].hand == old(players[j].hand) + Column(pack[..4 * |players|], |players|, j)
      ensures forall j :: 0 <= j < |decks| ==>
                decks[j].cards == old(decks[j].cards) + Column(pack[4 * |players|..], |players|, j)
      ensures forall j :: 0 <= j < |players| ==>
                players[j].hasWon == old(players[j].hasWon) && players[j].notices == old(players[j].notices)
    {
      var cardIndex := DealHands(pack);
      DealDecks(pack, cardIndex);
    }

    /** The first loop of `distributeCards`: the first `4N` cards, one at a
        time, to players `0, 1, ..., N - 1, 0, 1, ...`. */
    method DealHands(pack: seq<int>) returns (cardIndex: nat)
      requires |pack| == 8 * |players|
      requires forall a, b :: 0 <= a < b < |players| ==> players[a] != players[b]
      modifies players`hand
      ensures cardIndex == 4 * |players|
      ensures forall j :: 0 <= j < |players| ==>
                players[j].hand == old(players[j].hand) + Column(pack[..4 * |players|], |players|, j)
    {
      var n := |players|;
      cardIndex := 0;
      var i := 0;
      while i < 4 * n
        invariant 0 <= i <= 4 * n && cardIndex == i
        invariant forall j :: 0 <= j < n ==> players[j].hand == old(players[j].hand) + Column(pack[..i], n, j)
      {
        ColumnPrefixStep(pack, i, n);
        var c := i % n;
        assert forall j :: 0 <= j < n && j != c ==> players[j] != players[c];
        AppendAssoc(old(players[c].hand), Column(pack[..i], n, c), [pack[i]]);
        players[c].ReceiveCard(pack[cardIndex]);
        cardIndex := cardIndex + 1;
        i := i + 1;
      }
    }

    /** The second loop of `distributeCards`: the remaining cards, one at a
        time, to decks `0, 1, ..., N - 1, 0, 1, ...`. */
    method DealDecks(pack: seq<int>, start: nat)
      requires |pack| == 8 * |players| && start == 4 * |players| && |decks| == |players|
      requires forall a, b :: 0 <= a < b < |decks| ==> decks[a] != decks[b]
      modifies decks
      ensures forall j :: 0 <= j < |decks| ==>
                decks[j].cards == old(decks[j].cards) + Column(pack[start..], |players|, j)
    {
      var n := |players|;
      var rest := pack[start..];
      var cardIndex := start;
      var i := 0;
      while i < |pack| - 4 * n
        invariant 0 <= i <= |pack| - 4 * n && cardIndex == start + i
        invariant forall j :: 0 <= j < n ==> decks[j].cards == old(decks[j].cards) + Column(rest[..i], n, j)
      {
        ColumnPrefixStep(rest, i, n);
        var c := i % n;
        assert forall j :: 0 <= j < n && j != c ==> decks[j] != decks[c];
        AppendAssoc(old(decks[c].cards), Column(rest[..i], n, c), [rest[i]]);
        assert pack[cardIndex] == rest[i];
        decks[c].AddCard(pack[cardIndex]);
        cardIndex := cardIndex + 1;
        i := i + 1;
      }
      assert rest[..i] == rest;
    }

    /** One pass of player `i`'s loop in `run`. The player is inside that
        loop only while no win has been signalled and after its own win test
        failed, so its hand is not uniform. On the table the pass is either no
        change (the left deck was empty) or exactly one legal `Move`. */
    method Step(i: nat) returns (t: Turn, won: bool)
      requires Valid() && i < |players|
      requires !signal.gameWon && !Uniform(players[i].hand)
      modifies players[i], decks[i], decks[Next(i, |decks|)], signal
      ensures !t.Stuck?
      ensures t.Idle? <==> old(State()).decks[i] == []
      ensures t.Idle? ==> State() == old(State())
      ensures t.Moved? ==> CanMove(old(State()), i, t.index) && State() == Move(old(State()), i, t.index)
      ensures Cards(State()) == old(Cards(State()))
      ensures forall k :: 0 <= k < |players| ==> |State().hands[k]| == |old(State()).hands[k]|
      ensures won <==> t.Moved? && Uniform(players[i].hand)
      ensures players[i].hasWon == (old(players[i].hasWon) || won) && signal.gameWon == won
      ensures players[i].notices == old(players[i].notices)
      ensures forall k :: 0 <= k < |players| && k != i ==> players[k].hasWon == old(players[k].hasWon)
    {
      ghost var before := State();
      t, won := Seat(i);
      ghost var after := State();
      if t.Idle? {
        assert after.hands == before.hands;
        assert after.decks == before.decks;
      } else {
        TurnIsMove(before, after, i, t.index);
      }
    }

    /** `Step` on the objects: player `i` plays a round, which touches only
        its own hand and flags, its left deck `i` and its right deck
        `Next(i, N)`. */
    method Seat(i: nat) returns (t: Turn, won: bool)
      requires Valid() && i < |players|
      requires !signal.gameWon && !Uniform(players[i].hand)
      modifies players[i], decks[i], decks[Next(i, |decks|)], signal
      ensures !t.Stuck?
      ensures t.Idle? <==> old(decks[i].cards) == []
      ensures forall k :: 0 <= k < |players| && k != i ==>
                players[k].hand == old(players[k].hand) && players[k].hasWon == old(players[k].hasWon)
      ensures forall k :: 0 <= k < |decks| && k != i && k != Next(i, |decks|) ==>
                decks[k].cards == old(decks[k].cards)
      ensures t.Idle? ==> && players[i].hand == old(players[i].hand) && decks[i].cards == old(decks[i].cards)
                          && decks[Next(i, |decks|)].cards == old(decks[Next(i, |decks|)].cards)
      ensures t.Moved? ==>
                && Discardable(old(players[i].hand) + [old(decks[i].cards)[0]], t.index, i + 1)
                && t.discard == (old(players[i].hand) + [old(decks[i].cards)[0]])[t.index]
                && players[i].hand == RemoveAt(old(players[i].hand) + [old(decks[i].cards)[0]], t.index)
      ensures t.Moved? && Next(i, |decks|) != i ==>
                && decks[i].cards == old(decks[i].cards)[1..]
                && decks[Next(i, |decks|)].cards == old(decks[Next(i, |decks|)].cards) + [t.discard]
      ensures t.Moved? && Next(i, |decks|) == i ==> decks[i].cards == old(decks[i].cards)[1..] + [t.discard]
      ensures won <==> t.Moved? && Uniform(players[i].hand)
      ensures players[i].hasWon == (old(players[i].hasWon) || won) && signal.gameWon == won
      ensures players[i].notices == old(players[i].notices)
    {
      var r := Next(i, |decks|);
      assert players[i].leftDeck == decks[i] && players[i].rightDeck == decks[r];
      assert forall k :: 0 <= k < |players| && k != i ==> players[k] != players[i];
      assert forall k :: 0 <= k < |decks| && k != i && k != r ==> decks[k] != decks[i] && decks[k] != decks[r];
      ghost var hand := players[i].hand;
      ghost var m :| 0 <= m < |hand| && hand[m] != hand[0];
      ghost var q := if hand[m] != i + 1 then m else 0;
      assert hand[q] != i + 1;
      t, won := players[i].Round();
    }

    /** The announcement loop of `main`: for every player that has won, every
        other player is told its id. A player that has won ignores the call,
        so each loser hears every winner's id in seating order and nothing
        else changes. */
    method Broadcast()
      requires forall a, b :: 0 <= a < b < |players| ==> players[a] != players[b]
      requires forall k :: 0 <= k < |players| ==> players[k].id == k + 1
      modifies players`notices
      ensures forall k :: 0 <= k < |players| ==>
                players[k].notices == old(players[k].notices)
                  + (if players[k].hasWon then [] else WinnerIds(old(WonFlags())))
    {
      var n := |players|;
      ghost var flags, base := WonFlags(), Notices();
      ghost var told: seq<int> := [];
      var a := 0;
      while a < n
        invariant 0 <= a <= n && told == WinnerIds(flags[..a])
        invariant forall k :: 0 <= k < n ==> players[k].hasWon == flags[k]
        invariant forall k :: 0 <= k < n ==> players[k].notices == base[k] + (if flags[k] then [] else told)
      {
        WinnerIdsStep(flags, a);
        AnnounceSeat(a, flags, base, told);
        told := told + (if flags[a] then [a + 1] else []);
        a := a + 1;
      }
      assert flags[..a] == flags;
    }

    /** One pass of the announcement loop: if the player at seat `a` has won,
        every loser's log gains `a + 1`. */
    method AnnounceSeat(a: nat, ghost flags: seq<bool>, ghost base: seq<seq<int>>, ghost told: seq<int>)
      requires forall i, j :: 0 <= i < j < |players| ==> players[i] != players[j]
      requires forall k :: 0 <= k < |players| ==> players[k].id == k + 1
      requires a < |players| && |flags| == |players| && |base| == |players|
      requires forall k :: 0 <= k < |players| ==> players[k].hasWon == flags[k]
      requires forall k :: 0 <= k < |players| ==> players[k].notices == base[k] + (if flags[k] then [] else told)
      modifies players`notices
      ensures forall k :: 0 <= k < |players| ==>
                players[k].notices == base[k] + (if flags[k] then [] else told + (if flags[a] then [a + 1] else []))
    {
      if players[a].hasWon {
        ghost var mid := Notices();
        TellOthers(a, flags);
        forall k | 0 <= k < |players|
          ensures players[k].notices == base[k] + (if flags[k] then [] else told + [a + 1])
        {
          if !flags[k] {
            assert mid[k] == base[k] + told;
            AppendAssoc(base[k], told, [a + 1]);
          }
        }
      } else {
        forall k | 0 <= k < |players|
          ensures players[k].notices == base[k] + (if flags[k] then [] else told + [])
        {
          assert told + [] == told;
        }
      }
    }

    /** The inner loop: every player other than the winner at seat `w` is
        told `w`'s id; only players that have not won record it. */
    method TellOthers(w: nat, ghost flags: seq<bool>)
      requires w < |players| && |flags| == |players| && flags[w] && players[w].id == w + 1
      requires forall a, b :: 0 <= a < b < |players| ==> players[a] != players[b]
      requires forall k :: 0 <= k < |players| ==> players[k].hasWon == flags[k]
      modifies players`notices
      ensures forall k :: 0 <= k < |players| ==>
                players[k].notices == old(players[k].notices) + (if flags[k] then [] else [w + 1])
    {
      var n := |players|;
      var b := 0;
      while b < n
        invariant 0 <= b <= n
        invariant forall k :: 0 <= k < n ==>
                    players[k].notices == old(players[k].notices) + (if flags[k] || k >= b then [] else [w + 1])
      {
        if players[w] != players[b] {
          players[b].NotifyWin(players[w].id);
        }
        b := b + 1;
      }
    }

    /** What each player has been told so far, in seating order. */
    ghost function Notices(): (ns: seq<seq<int>>)
      reads players
      ensures |ns| == |players| && forall k :: 0 <= k < |players| ==> ns[k] == players[k].notices
    {
      seq(|players|, k requires 0 <= k < |players| reads players => players[k].notices)
    }

    /** Which players have won, in seating order. */
    ghost function WonFlags(): (flags: seq<bool>)
      reads players
      ensures |flags| == |players| && forall k :: 0 <= k < |players| ==> flags[k] == players[k].hasWon
    {
      seq(|players|, k requires 0 <= k < |players| reads players => players[k].hasWon)
    }
  }

  /** The table after player `i` drew the head of deck `i` and discarded card
      `pick` of the enlarged hand onto deck `Next(i, n)`, leaving every other
      hand and deck alone, is `Move(before, i, pick)`. */
  lemma TurnIsMove(before: Table, after: Table, i: nat, pick: nat)
    requires CanMove(before, i, pick)
    requires |after.hands| == |before.hands| && |after.decks| == |before.decks|
    requires after.hands[i] == RemoveAt(before.hands[i] + [before.decks[i][0]], pick)
    requires forall k :: 0 <= k < |before.hands| && k != i ==> after.hands[k] == before.hands[k]
    requires forall k :: 0 <= k < |before.decks| && k != i && k != Next(i, |before.decks|) ==>
               after.decks[k] == before.decks[k]
    requires Next(i, |before.decks|) != i ==>
               && after.decks[i] == before.decks[i][1..]
               && after.decks[Next(i, |before.decks|)] ==
                    before.decks[Next(i, |before.decks|)] + [(before.hands[i] + [before.decks[i][0]])[pick]]
    requires Next(i, |before.decks|) == i ==>
               after.decks[i] == before.decks[i][1..] + [(before.hands[i] + [before.decks[i][0]])[pick]]
    ensures after == Move(before, i, pick)
    ensures Cards(after) == Cards(before)
    ensures forall k :: 0 <= k < |before.hands| ==> |after.hands[k]| == |before.hands[k]|
  {
    var full := before.hands[i] + [before.decks[i][0]];
    var drawn := before.decks[i := before.decks[i][1..]];
    var r := Next(i, |before.decks|);
    assert after.hands == before.hands[i := RemoveAt(full, pick)];
    assert after.decks == drawn[r := drawn[r] + [full[pick]]];
    MoveConserves(before, i, pick);
    MoveShape(before, i, pick);
  }

  /** `main` up to the start of play: the size check, the ring, the deal. A
      rejected pack builds nothing; an accepted one yields exactly the dealt
      table, with nobody having won yet. */
  method NewGame(numPlayers: int, values: seq<int>) returns (game: Option<Ring>)
    ensures game.Some? <==> |values| == 8 * numPlayers
    ensures game.Some? ==> && game.value.Valid() && |game.value.players| == numPlayers
                           && game.value.State() == Deal(values, numPlayers)
                           && !game.value.signal.gameWon
                           && fresh(game.value) && fresh(game.value.signal)
                           && (forall k :: 0 <= k < numPlayers ==>
                                 fresh(game.value.players[k]) && fresh(game.value.decks[k]))
                           && forall k :: 0 <= k < numPlayers ==>
                                !game.value.players[k].hasWon && game.value.players[k].notices == []
  {
    var pack := ReadPack(values, numPlayers);
    if pack.None? {
      return None;
    }
    var ring := new Ring(numPlayers);
    ring.Distribute(pack.value);
    DealtTable(ring.Hands(), ring.DeckContents(), values, numPlayers);
    game := Some(ring);
  }

  /** A table whose every hand and deck holds its column of the pack is the
      dealt table. */
  lemma DealtTable(hs: seq<seq<int>>, ds: seq<seq<int>>, pack: seq<int>, n: nat)
    requires |pack| == 8 * n && |hs| == n && |ds| == n
    requires forall j :: 0 <= j < n ==> hs[j] == [] + Column(pack[..4 * n], n, j)
    requires forall j :: 0 <= j < n ==> ds[j] == [] + Column(pack[4 * n..], n, j)
    ensures Table(hs, ds) == Deal(pack, n)
  {
    var front, back := pack[..4 * n], pack[4 * n..];
    forall j | 0 <= j < n
      ensures hs[j] == Columns(front, n)[j] && ds[j] == Columns(back, n)[j]
    {
      assert [] + Column(front, n, j) == Column(front, n, j);
      assert [] + Column(back, n, j) == Column(back, n, j);
    }
  }
}
