/** The whole game as a value: N hands and N decks arranged in a ring, the
    round-robin deal that fills them, and one player's turn as a move between
    them. CardGame.java and Player.java act on objects; these functions say
    what those actions compute. */
module TableModel {
  import opened Players

  // ---------------------------------------------------------------------
  // Euclidean remainder facts used by the deal
  // ---------------------------------------------------------------------

  lemma MulNonNegative(n: int, k: int)
    requires n > 0 && k >= 0
    ensures n * k >= 0
  {
  }

  lemma MulNonPositive(n: int, k: int)
    requires n > 0 && k <= 0
    ensures n * k <= 0
  {
  }

  /** A multiple of `n` strictly between `-n` and `n` is zero. */
  lemma SmallMultipleIsZero(n: int, k: int)
    requires n > 0 && -n < n * k < n
    ensures k == 0
  {
    if k >= 1 {
      assert n * k == n * (k - 1) + n;
      MulNonNegative(n, k - 1);
    } else if k <= -1 {
      assert n * k == n * (k + 1) - n;
      MulNonPositive(n, k + 1);
    }
  }

  lemma ModUnique(y: int, n: int, q: int, r: int)
    requires n > 0 && 0 <= r < n && y == n * q + r
    ensures y % n == r
  {
    assert n * (y / n - q) == r - y % n;
    SmallMultipleIsZero(n, y / n - q);
  }

  lemma ModAfterMultiple(a: int, b: int, n: int)
    requires n > 0 && a % n == 0
    ensures (a + b) % n == b % n
  {
    ModUnique(a + b, n, a / n + b / n, b % n);
  }

  // ---------------------------------------------------------------------
  // All cards held by a list of containers
  // ---------------------------------------------------------------------

  /** The multiset of every card in every container of `ss`. */
  function Union(ss: seq<seq<int>>): multiset<int>
  {
    if ss == [] then multiset{} else Union(ss[..|ss| - 1]) + multiset(ss[|ss| - 1])
  }

  /** Replacing one container changes the union by exactly that container. */
  lemma {:induction false} UnionUpdate(ss: seq<seq<int>>, j: nat, s: seq<int>)
    requires j < |ss|
    ensures Union(ss[j := s]) + multiset(ss[j]) == Union(ss) + multiset(s)
  {
    var last := |ss| - 1;
    var ss' := ss[j := s];
    assert Union(ss) == Union(ss[..last]) + multiset(ss[last]);
    if j == last {
      assert ss'[..last] == ss[..last];
      assert Union(ss') == Union(ss[..last]) + multiset(s);
    } else {
      assert ss'[..last] == ss[..last][j := s];
      assert ss'[last] == ss[last];
      assert ss[..last][j] == ss[j];
      assert Union(ss') == Union(ss[..last][j := s]) + multiset(ss[last]);
      UnionUpdate(ss[..last], j, s);
      calc {
        Union(ss') + multiset(ss[j]);
        (Union(ss[..last][j := s]) + multiset(ss[..last][j])) + multiset(ss[last]);
        (Union(ss[..last]) + multiset(s)) + multiset(ss[last]);
      }
    }
  }

  /** Multiset union cancels: adding the same cards to both sides. */
  lemma MultisetCancel(a: multiset<int>, b: multiset<int>, c: multiset<int>)
    requires a + c == b + c
    ensures a == b
  {
    forall o
      ensures a[o] == b[o]
    {
      assert (a + c)[o] == (b + c)[o];
    }
  }

  // ---------------------------------------------------------------------
  // Round-robin dealing
  // ---------------------------------------------------------------------

  /** The cards of `s` whose position is `j` modulo `n`, in order: what
      container `j` receives when `s` is dealt round-robin to `n` containers. */
  function Column(s: seq<int>, n: nat, j: int): seq<int>
    requires n > 0
  {
    if s == [] then []
    else Column(s[..|s| - 1], n, j) + (if (|s| - 1) % n == j then [s[|s| - 1]] else [])
  }

  /** The `n` containers after dealing `s` round-robin. */
  function Columns(s: seq<int>, n: nat): seq<seq<int>>
  {
    seq(n, j requires 0 <= j < n => Column(s, n, j))
  }

  /** Dealing one more card appends it to container `|s| mod n` only. */
  lemma ColumnAppend(s: seq<int>, x: int, n: nat, j: int)
    requires n > 0
    ensures Column(s + [x], n, j) == Column(s, n, j) + (if |s| % n == j then [x] else [])
  {
    assert (s + [x])[..|s|] == s;
  }

  /** Dealing card `i` of `s` changes only container `i mod n`. */
  lemma ColumnPrefixStep(s: seq<int>, i: nat, n: nat)
    requires n > 0 && i < |s|
    ensures forall j :: Column(s[..i + 1], n, j) == Column(s[..i], n, j) + (if i % n == j then [s[i]] else [])
  {
    assert s[..i + 1] == s[..i] + [s[i]];
    forall j
      ensures Column(s[..i + 1], n, j) == Column(s[..i], n, j) + (if i % n == j then [s[i]] else [])
    {
      ColumnAppend(s[..i], s[i], n, j);
    }
  }

  lemma {:induction false} ColumnsOfEmpty(n: nat)
    ensures Union(Columns([], n)) == multiset{}
  {
    if n > 0 {
      assert Columns([], n)[..n - 1] == Columns([], n - 1);
      ColumnsOfEmpty(n - 1);
    }
  }

  /** Dealing one more card to the `n` containers. */
  lemma ColumnsAppend(p: seq<int>, x: int, n: nat)
    requires n > 0
    ensures Columns(p + [x], n) == Columns(p, n)[|p| % n := Columns(p, n)[|p| % n] + [x]]
  {
    var m := |p| % n;
    forall j | 0 <= j < n
      ensures Columns(p + [x], n)[j] == Columns(p, n)[m := Columns(p, n)[m] + [x]][j]
    {
      ColumnAppend(p, x, n, j);
    }
  }

  /** Round-robin dealing neither loses nor invents a card. */
  lemma {:induction false} ColumnsUnion(s: seq<int>, n: nat)
    requires n > 0
    ensures Union(Columns(s, n)) == multiset(s)
  {
    if s == [] {
      ColumnsOfEmpty(n);
    } else {
      var p, x := s[..|s| - 1], s[|s| - 1];
      assert s == p + [x];
      var m := |p| % n;
      var before := Columns(p, n);
      var after := before[m := before[m] + [x]];
      ColumnsAppend(p, x, n);
      UnionUpdate(before, m, before[m] + [x]);
      ColumnsUnion(p, n);
      assert Columns(s, n) == after;
      assert multiset(before[m] + [x]) == multiset(before[m]) + multiset{x};
      assert multiset(s) == multiset(p) + multiset{x};
      MultisetCancel(Union(after), multiset(s), multiset(before[m]));
    }
  }

  /** Dealing a run whose length is a multiple of `n`, then another run, is
      dealing each run on its own. */
  lemma {:induction false} ColumnConcat(a: seq<int>, b: seq<int>, n: nat, j: int)
    requires n > 0 && |a| % n == 0
    ensures Column(a + b, n, j) == Column(a, n, j) + Column(b, n, j)
  {
    if b == [] {
      assert a + b == a;
    } else {
      var b', x := b[..|b| - 1], b[|b| - 1];
      assert b == b' + [x];
      assert a + b == (a + b') + [x];
      ColumnConcat(a, b', n, j);
      ColumnAppend(a + b', x, n, j);
      ColumnAppend(b', x, n, j);
      ModAfterMultiple(|a|, |b'|, n);
    }
  }

  /** Within one round (at most `n` cards) container `j` gets card `j`. */
  lemma {:induction false} ColumnOfRound(b: seq<int>, m: nat, n: nat, j: int)
    requires n > 0 && m <= |b| && m <= n && 0 <= j < n
    ensures Column(b[..m], n, j) == if j < m then [b[j]] else []
  {
    if m > 0 {
      var prefix := b[..m - 1];
      assert b[..m] == prefix + [b[m - 1]];
      ModUnique(m - 1, n, 0, m - 1);
      ColumnAppend(prefix, b[m - 1], n, j);
      ColumnOfRound(b, m - 1, n, j);
    }
  }

  lemma MultipleMod(k: int, n: int)
    requires n > 0
    ensures (k * n) % n == 0
  {
    ModUnique(k * n, n, k, 0);
  }

  /** Four rounds of `n` cards give container `j` the cards at positions
      `j`, `n + j`, `2n + j` and `3n + j`. */
  lemma ColumnOfFourRounds(s: seq<int>, n: nat, j: int)
    requires n > 0 && |s| == 4 * n && 0 <= j < n
    ensures Column(s, n, j) == [s[j], s[n + j], s[2 * n + j], s[3 * n + j]]
  {
    var front, back := s[..2 * n], s[2 * n..];
    assert s == front + back;
    ColumnOfTwoRounds(front, n, j);
    ColumnOfTwoRounds(back, n, j);
    MultipleMod(2, n);
    ColumnConcat(front, back, n, j);
  }

  /** Two rounds of `n` cards give container `j` the cards at positions `j`
      and `n + j`. */
  lemma ColumnOfTwoRounds(s: seq<int>, n: nat, j: int)
    requires n > 0 && |s| == 2 * n && 0 <= j < n
    ensures Column(s, n, j) == [s[j], s[n + j]]
  {
    var r0, r1 := s[..n], s[n..];
    assert [] + r0 == r0 && s == r0 + r1;
    assert Column([], n, j) == [];
    MultipleMod(0, n);
    MultipleMod(1, n);
    ColumnNextRound([], r0, n, j);
    ColumnNextRound(r0, r1, n, j);
  }

  /** After whole rounds, one more round of `n` cards gives container `j`
      the `j`-th card of that round. */
  lemma ColumnNextRound(p: seq<int>, r: seq<int>, n: nat, j: int)
    requires n > 0 && |p| % n == 0 && |r| == n && 0 <= j < n
    ensures Column(p + r, n, j) == Column(p, n, j) + [r[j]]
  {
    assert r[..n] == r;
    ColumnOfRound(r, n, n, j);
    ColumnConcat(p, r, n, j);
  }

  // ---------------------------------------------------------------------
  // The table
  // ---------------------------------------------------------------------

  /** Hand `k` belongs to player `k` (id `k + 1`); deck `k` is player `k`'s
      left deck and player `k - 1`'s right deck. */
  datatype Table = Table(hands: seq<seq<int>>, decks: seq<seq<int>>)

  predicate IsRing(t: Table)
  {
    |t.hands| == |t.decks|
  }

  /** Every card on the table. */
  function Cards(t: Table): multiset<int>
  {
    Union(t.hands) + Union(t.decks)
  }

  /** Between turns every player holds exactly four cards. */
  predicate Settled(t: Table)
  {
    IsRing(t) && forall k :: 0 <= k < |t.hands| ==> |t.hands[k]| == 4
  }

  /** The deal: the first `4n` cards of the pack round-robin to the hands,
      the rest round-robin to the decks. */
  function Deal(pack: seq<int>, n: nat): Table
    requires |pack| == 8 * n
  {
    Table(Columns(pack[..4 * n], n), Columns(pack[4 * n..], n))
  }

  /** Who gets which card of the pack, and that every hand and deck gets four. */
  lemma DealPositions(pack: seq<int>, n: nat, j: int)
    requires |pack| == 8 * n && 0 <= j < n
    ensures IsRing(Deal(pack, n)) && |Deal(pack, n).hands| == n
    ensures Deal(pack, n).hands[j] == [pack[j], pack[n + j], pack[2 * n + j], pack[3 * n + j]]
    ensures Deal(pack, n).decks[j]
         == [pack[4 * n + j], pack[5 * n + j], pack[6 * n + j], pack[7 * n + j]]
  {
    ColumnOfFourRounds(pack[..4 * n], n, j);
    ColumnOfFourRounds(pack[4 * n..], n, j);
  }

  /** After the deal every hand holds four cards. */
  lemma DealSettled(pack: seq<int>, n: nat)
    requires |pack| == 8 * n
    ensures Settled(Deal(pack, n))
  {
    forall j | 0 <= j < n
      ensures |Deal(pack, n).hands[j]| == 4
    {
      DealPositions(pack, n, j);
    }
  }

  /** Every card of the pack is dealt exactly once: eight per player. */
  lemma DealConserves(pack: seq<int>, n: nat)
    requires |pack| == 8 * n
    ensures Cards(Deal(pack, n)) == multiset(pack)
    ensures |Cards(Deal(pack, n))| == 8 * n
  {
    if n > 0 {
      ColumnsUnion(pack[..4 * n], n);
      ColumnsUnion(pack[4 * n..], n);
      assert pack == pack[..4 * n] + pack[4 * n..];
    } else {
      assert pack == [];
    }
  }

  // ---------------------------------------------------------------------
  // One turn
  // ---------------------------------------------------------------------

  /** The ring successor: player `i` discards to deck `Next(i, n)`. */
  function Next(i: nat, n: nat): (r: nat)
    requires i < n
    ensures r < n
  {
    if i + 1 == n then 0 else i + 1
  }

  lemma NextIsSuccessorMod(i: nat, n: nat)
    requires i < n
    ensures Next(i, n) == (i + 1) % n
  {
    if i + 1 == n {
      ModUnique(i + 1, n, 1, 0);
    }
  }

  /** Player `i` can draw, and card `pick` of its enlarged hand is not its
      preferred value `i + 1`. */
  predicate CanMove(t: Table, i: int, pick: int)
  {
    && IsRing(t) && 0 <= i < |t.hands| && t.decks[i] != []
    && Discardable(t.hands[i] + [t.decks[i][0]], pick, i + 1)
  }

  /** Player `i` draws the head of deck `i` and discards card `pick` of the
      enlarged hand to the tail of deck `Next(i, n)`, which is deck `i` itself
      when there is one player. */
  function Move(t: Table, i: nat, pick: nat): Table
    requires CanMove(t, i, pick)
  {
    var full := t.hands[i] + [t.decks[i][0]];
    var drawn := t.decks[i := t.decks[i][1..]];
    var r := Next(i, |t.decks|);
    Table(t.hands[i := RemoveAt(full, pick)], drawn[r := drawn[r] + [full[pick]]])
  }

  /** A turn moves cards, it never creates, loses or duplicates one. */
  lemma MoveConserves(t: Table, i: nat, pick: nat)
    requires CanMove(t, i, pick)
    ensures Cards(Move(t, i, pick)) == Cards(t)
  {
    var hand, deck := t.hands[i], t.decks[i];
    var full := hand + [deck[0]];
    var discard := full[pick];
    var drawn := t.decks[i := deck[1..]];
    var r := Next(i, |t.decks|);
    var hands' := t.hands[i := RemoveAt(full, pick)];
    var decks' := drawn[r := drawn[r] + [discard]];
    assert Move(t, i, pick) == Table(hands', decks');
    UnionUpdate(t.hands, i, RemoveAt(full, pick));
    UnionUpdate(t.decks, i, deck[1..]);
    UnionUpdate(drawn, r, drawn[r] + [discard]);
    assert deck == [deck[0]] + deck[1..];
    calc {
      Union(decks') + multiset(drawn[r]);
      Union(drawn) + multiset(drawn[r] + [discard]);
      (Union(drawn) + multiset{discard}) + multiset(drawn[r]);
    }
    MultisetCancel(Union(decks'), Union(drawn) + multiset{discard}, multiset(drawn[r]));
    calc {
      (Union(hands') + Union(decks')) + (multiset(hand) + multiset(deck));
      (Union(hands') + multiset(hand)) + (Union(drawn) + multiset(deck)) + multiset{discard};
      (Union(t.hands) + multiset(RemoveAt(full, pick))) + (Union(t.decks) + multiset(deck[1..]))
        + multiset{discard};
      (Union(t.hands) + Union(t.decks)) + (multiset(RemoveAt(full, pick)) + multiset{discard})
        + multiset(deck[1..]);
      (Union(t.hands) + Union(t.decks)) + multiset(full) + multiset(deck[1..]);
      (Union(t.hands) + Union(t.decks)) + (multiset(hand) + multiset(deck));
    }
    MultisetCancel(Union(hands') + Union(decks'), Union(t.hands) + Union(t.decks),
                   multiset(hand) + multiset(deck));
  }

  /** A turn keeps every hand's size, touches only the mover's hand, and
      touches no deck but the two next to the mover. */
  lemma MoveShape(t: Table, i: nat, pick: nat)
    requires CanMove(t, i, pick)
    ensures IsRing(Move(t, i, pick)) && |Move(t, i, pick).hands| == |t.hands|
    ensures forall k :: 0 <= k < |t.hands| ==> |Move(t, i, pick).hands[k]| == |t.hands[k]|
    ensures forall k :: 0 <= k < |t.hands| && k != i ==> Move(t, i, pick).hands[k] == t.hands[k]
    ensures forall k :: 0 <= k < |t.decks| && k != i && k != Next(i, |t.decks|) ==>
              Move(t, i, pick).decks[k] == t.decks[k]
  {
  }

  /** A player whose hand is not uniform always has a legal move once its
      left deck holds a card. */
  lemma MixedHandCanMove(t: Table, i: nat) returns (pick: nat)
    requires IsRing(t) && i < |t.hands| && t.decks[i] != [] && !Uniform(t.hands[i])
    ensures CanMove(t, i, pick)
  {
    pick := MixedHandCanDiscard(t.hands[i], t.decks[i][0], i + 1);
  }

  /** A sequence of turns, each naming the mover and its discard. */
  datatype Choice = Choice(player: nat, pick: nat)

  predicate Playable(t: Table, moves: seq<Choice>)
    decreases |moves|
  {
    moves == [] || (CanMove(t, moves[0].player, moves[0].pick)
                    && Playable(Move(t, moves[0].player, moves[0].pick), moves[1..]))
  }

  function Play(t: Table, moves: seq<Choice>): Table
    requires Playable(t, moves)
    decreases |moves|
  {
    if moves == [] then t else Play(Move(t, moves[0].player, moves[0].pick), moves[1..])
  }

  /** Any sequence of turns keeps the ring's cards and every hand at size four. */
  lemma {:induction false} PlayInvariant(t: Table, moves: seq<Choice>)
    requires Settled(t) && Playable(t, moves)
    ensures Settled(Play(t, moves)) && Cards(Play(t, moves)) == Cards(t)
    ensures |Play(t, moves).hands| == |t.hands|
    decreases |moves|
  {
    if moves != [] {
      var t' := Move(t, moves[0].player, moves[0].pick);
      MoveConserves(t, moves[0].player, moves[0].pick);
      MoveShape(t, moves[0].player, moves[0].pick);
      PlayInvariant(t', moves[1..]);
    }
  }

  /** From the deal of an `8n`-card pack, whatever turns are played, the table
      holds exactly the pack's cards (so `8n` of them) and every hand four. */
  lemma GameConserves(pack: seq<int>, n: nat, moves: seq<Choice>)
    requires |pack| == 8 * n && Playable(Deal(pack, n), moves)
    ensures Cards(Play(Deal(pack, n), moves)) == multiset(pack)
    ensures |Cards(Play(Deal(pack, n), moves))| == 8 * n
    ensures Settled(Play(Deal(pack, n), moves))
  {
    DealSettled(pack, n);
    DealConserves(pack, n);
    PlayInvariant(Deal(pack, n), moves);
  }
}
