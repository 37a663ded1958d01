/**
 * The static translation table for a character's status and species, and the
 * lookup used when a card is built: the table's entry when there is a (truthy)
 * one, the raw value otherwise.
 */
module Translation {

  datatype Category = Status | Species

  /** The two-level table: category, then API value, to the Portuguese display string. */
  function Table(c: Category): (t: map<string, string>)
    ensures |t| == 3
    ensures forall k | k in t :: t[k] != ""
  {
    match c
    case Status => map["Alive" := "Vivo", "Dead" := "Morto", "unknown" := "Desconhecido"]
    case Species => map["Human" := "Humano", "Alien" := "Alienígena", "Robot" := "Robô"]
  }

  /** `translations[category][value] || value`: the `||` also falls back when an entry is the
      empty string (falsy), but every entry of the table is non-empty. */
  function Translate(c: Category, value: string): (r: string)
    ensures value in Table(c) ==> r == Table(c)[value]
    ensures value !in Table(c) ==> r == value
  {
    var t := Table(c);
    if value in t && t[value] != "" then t[value] else value
  }

  /** A display string is never itself a key of its category, so translating twice changes nothing. */
  lemma TranslateIdempotent(c: Category, value: string)
    ensures Translate(c, Translate(c, value)) == Translate(c, value)
  {
    var t := Table(c);
    assert forall k | k in t :: t[k] !in t;
  }

  /** Distinct known values get distinct display strings; a raw value is displayed as itself. */
  lemma TranslateInjectiveOnTable(c: Category, a: string, b: string)
    requires a in Table(c) && b in Table(c) && a != b
    ensures Translate(c, a) != Translate(c, b)
  {
  }

  /** Known values translate to their entries; an unknown value is passed through. */
  lemma TranslateExamples()
    ensures Translate(Status, "Alive") == "Vivo"
    ensures Translate(Status, "unknown") == "Desconhecido"
    ensures Translate(Species, "Robot") == "Robô"
    ensures Translate(Status, "Zorp") == "Zorp"
    ensures Translate(Species, "Alive") == "Alive"
  {
  }
}
