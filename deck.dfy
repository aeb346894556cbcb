/** CardDeck.java: a first-in first-out queue of cards shared by two players. */
module Decks {
  import opened Optional

  // ---------------------------------------------------------------------
  // Rendering of values, as `StringBuilder.append(int)` and `String.trim`
  // produce them.
  // ---------------------------------------------------------------------

  /** `String.trim` strips every character whose code is at most a space. */
  predicate IsBlank(c: char)
  {
    c <= ' '
  }

  function DigitChar(d: nat): (c: char)
    requires d < 10
    ensures '0' <= c <= '9'
  {
    (('0' as int) + d) as char
  }

  /** Decimal digits of a natural number, most significant first. */
  function NatToString(x: nat): (s: string)
    ensures |s| > 0
    ensures forall k :: 0 <= k < |s| ==> '0' <= s[k] <= '9'
  {
    if x < 10 then [DigitChar(x)] else NatToString(x / 10) + [DigitChar(x % 10)]
  }

  /** Decimal form of an int, with a leading minus sign when negative. */
  function IntToString(x: int): (s: string)
    ensures |s| > 0 && !IsBlank(s[0]) && !IsBlank(s[|s| - 1])
  {
    if x < 0 then "-" + NatToString(-x) else NatToString(x)
  }

  function TrimStart(s: string): string
  {
    if |s| > 0 && IsBlank(s[0]) then TrimStart(s[1..]) else s
  }

  function TrimEnd(s: string): string
  {
    if |s| > 0 && IsBlank(s[|s| - 1]) then TrimEnd(s[..|s| - 1]) else s
  }

  /** `String.trim`: no blank character at either end. */
  function Trim(s: string): string
  {
    TrimEnd(TrimStart(s))
  }

  /** What the report loop accumulates: every value followed by one space. */
  function Padded(vs: seq<int>): string
  {
    if vs == [] then "" else Padded(vs[..|vs| - 1]) + IntToString(vs[|vs| - 1]) + " "
  }

  /** The deck report: the values in queue order, separated by single spaces. */
  function Joined(vs: seq<int>): string
  {
    if vs == [] then ""
    else if |vs| == 1 then IntToString(vs[0])
    else Joined(vs[..|vs| - 1]) + " " + IntToString(vs[|vs| - 1])
  }

  /** The report neither starts nor ends with a blank, and is empty only for an
      empty deck. */
  lemma {:induction false} JoinedUnpadded(vs: seq<int>)
    ensures Joined(vs) == [] <==> vs == []
    ensures vs != [] ==> !IsBlank(Joined(vs)[0]) && !IsBlank(Joined(vs)[|Joined(vs)| - 1])
  {
    if |vs| > 1 {
      JoinedUnpadded(vs[..|vs| - 1]);
    }
  }

  /** The accumulated text is the report with exactly one trailing space. */
  lemma {:induction false} PaddedIsJoinedPlusSpace(vs: seq<int>)
    requires vs != []
    ensures Padded(vs) == Joined(vs) + " "
  {
    if |vs| > 1 {
      PaddedIsJoinedPlusSpace(vs[..|vs| - 1]);
    } else {
      assert vs[..0] == [];
    }
  }

  lemma {:induction false} TrimStartKeeps(s: string)
    requires s == [] || !IsBlank(s[0])
    ensures TrimStart(s) == s
  {
  }

  lemma {:induction false} TrimEndDropsSpace(s: string)
    requires s == [] || !IsBlank(s[|s| - 1])
    ensures TrimEnd(s + " ") == s
  {
    var t := s + " ";
    assert t[..|t| - 1] == s;
  }

  /** Trimming the accumulated text yields the report. */
  lemma TrimPadded(vs: seq<int>)
    ensures Trim(Padded(vs)) == Joined(vs)
  {
    if vs != [] {
      PaddedIsJoinedPlusSpace(vs);
      JoinedUnpadded(vs);
      TrimStartKeeps(Joined(vs) + " ");
      TrimEndDropsSpace(Joined(vs));
    }
  }

  /** Two values render as "v w", as in the deck contents test. */
  lemma JoinedTwo(v: int, w: int)
    ensures Joined([v, w]) == IntToString(v) + " " + IntToString(w)
  {
    assert [v, w][..1] == [v];
  }

  // ---------------------------------------------------------------------
  // The deck itself
  // ---------------------------------------------------------------------

  class CardDeck {
    /** The queue: index 0 is the head, the last element the tail. */
    var cards: seq<int>

    constructor ()
      ensures cards == []
    {
      cards := [];
    }

    /** `addCard`: the card joins the tail. */
    method AddCard(card: int)
      modifies this
      ensures cards == old(cards) + [card]
      ensures |cards| == |old(cards)| + 1
    {
      cards := cards + [card];
    }

    /** `drawCard`: remove and return the head, or nothing when the deck is
        empty (the Java `poll` returns null then). */
    method DrawCard() returns (drawn: Option<int>)
      modifies this
      ensures old(cards) == [] ==> drawn == None && cards == []
      ensures old(cards) != [] ==> drawn == Some(old(cards)[0]) && cards == old(cards)[1..]
      ensures old(cards) != [] ==> |cards| == |old(cards)| - 1
    {
      if cards == [] {
        drawn := None;
      } else {
        drawn := Some(cards[0]);
        cards := cards[1..];
      }
    }

    /** `addCardToBottom`: the same effect as `addCard`, the tail of the queue. */
    method AddCardToBottom(card: int)
      modifies this
      ensures cards == old(cards) + [card]
    {
      cards := cards + [card];
    }

    /** `getDeckContents`: the values in queue order, separated by single
        spaces, without changing the deck. */
    method GetDeckContents() returns (s: string)
      ensures s == Joined(cards)
    {
      var acc := "";
      var k := 0;
      while k < |cards|
        invariant 0 <= k <= |cards|
        invariant acc == Padded(cards[..k])
      {
        assert cards[..k + 1][..k] == cards[..k];
        acc := acc + IntToString(cards[k]) + " ";
        k := k + 1;
      }
      assert cards[..k] == cards;
      TrimPadded(cards);
      s := Trim(acc);
    }
  }

  // ---------------------------------------------------------------------
  // Clients: the queue discipline seen from outside
  // ---------------------------------------------------------------------

  /** Cards added as 1 then 2 to an empty deck come out as 1 then 2, and a
      third draw finds the deck empty. */
  method AddTwoDrawThree() returns (first: Option<int>, second: Option<int>, third: Option<int>)
    ensures first == Some(1) && second == Some(2) && third == None
  {
    var deck := new CardDeck();
    deck.AddCard(1);
    deck.AddCard(2);
    first := deck.DrawCard();
    second := deck.DrawCard();
    third := deck.DrawCard();
  }

  /** Adding 5 and 7 to an empty deck reports "5 7". */
  method ReportTwo() returns (s: string)
    ensures s == "5 7"
  {
    var deck := new CardDeck();
    deck.AddCard(5);
    deck.AddCard(7);
    s := deck.GetDeckContents();
    JoinedTwo(5, 7);
  }

  /** Draining a deck by repeated draws returns its cards in queue order. */
  method Drain(deck: CardDeck) returns (out: seq<int>)
    modifies deck
    ensures out == old(deck.cards) && deck.cards == []
  {
    out := [];
    var drawn := deck.DrawCard();
    while drawn.Some?
      invariant out + (if drawn.Some? then [drawn.value] else []) + deck.cards == old(deck.cards)
      invariant drawn.None? ==> deck.cards == []
      decreases |deck.cards| + (if drawn.Some? then 1 else 0)
    {
      out := out + [drawn.value];
      drawn := deck.DrawCard();
    }
  }

  /** FIFO: whatever is added to an empty deck is drawn back in the same order. */
  method FillAndDrain(vs: seq<int>) returns (out: seq<int>)
    ensures out == vs
  {
    var deck := new CardDeck();
    var k := 0;
    while k < |vs|
      invariant 0 <= k <= |vs|
      invariant deck.cards == vs[..k]
    {
      assert vs[..k + 1] == vs[..k] + [vs[k]];
      deck.AddCard(vs[k]);
      k := k + 1;
    }
    assert vs[..k] == vs;
    out := Drain(deck);
  }
}
