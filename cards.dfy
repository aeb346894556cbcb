/** Card.java: an immutable wrapper around one integer value. */
module Cards {
  import opened Optional

  /** A card. A datatype value never changes, as the Java field is `final`. */
  datatype Card = Card(value: int)

  /** `getValue`: reads the card's value and changes nothing. */
  function GetValue(c: Card): int
  {
    c.value
  }

  /** The constructor as Card.java writes it: every int becomes a card. */
  function NewCard(value: int): (c: Card)
    ensures GetValue(c) == value
  {
    Card(value)
  }

  /** The constructor as written accepts a negative value. */
  lemma NegativeCardAccepted()
    ensures GetValue(NewCard(-1)) == -1 < 0
  {
  }

  /** The constructor with the non-negativity check that card values are meant
      to satisfy: a negative value yields no card. */
  function CheckedCard(value: int): (r: Option<Card>)
    ensures r.Some? <==> value >= 0
    ensures r.Some? ==> GetValue(r.value) == value
  {
    if value < 0 then None else Some(NewCard(value))
  }
}
