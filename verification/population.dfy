/**
  The population: one record per person, in input-file order. Parents are
  referred to by name only; a parent name need not belong to anyone in the
  population, and nothing checks that both parents are given together.
 */
module Population {
  import opened Wrappers
  import opened Lists

  datatype Person = Person(name: string, mother: Option<string>, father: Option<string>, evidence: Option<bool>)
  {
    /** Someone with neither parent listed: their gene count follows the prior. */
    predicate IsFounder() {
      mother.None? && father.None?
    }
  }

  type People = seq<Person>

  function Names(people: People): (r: seq<string>)
    ensures |r| == |people|
    ensures forall i :: 0 <= i < |r| ==> r[i] == people[i].name
  {
    seq(|people|, i requires 0 <= i < |people| => people[i].name)
  }

  /** The population is a dictionary keyed by name: no name occurs twice. */
  predicate DistinctNames(people: People)
  {
    Distinct(Names(people))
  }

  /** A trait cell of the input table: "1" is known present, "0" known absent, anything else unknown. */
  function ParseTrait(cell: string): (r: Option<bool>)
    ensures r == Some(true) <==> cell == "1"
    ensures r == Some(false) <==> cell == "0"
  {
    if cell == "1" then Some(true)
    else if cell == "0" then Some(false)
    else None
  }

  /** A parent cell: blank means no parent listed. */
  function ParseParent(cell: string): (r: Option<string>)
    ensures r.None? <==> cell == ""
    ensures r.Some? ==> r.value == cell
  {
    if cell == "" then None else Some(cell)
  }

  /** One row of the input table turned into a record. */
  function FromRow(name: string, mother: string, father: string, traitCell: string): (r: Person)
    ensures r.name == name
    ensures r.IsFounder() <==> mother == "" && father == ""
  {
    Person(name, ParseParent(mother), ParseParent(father), ParseTrait(traitCell))
  }

  /** The cell that writes a known or unknown trait back out. */
  function TraitCell(t: Option<bool>): string
  {
    match t
    case Some(true) => "1"
    case Some(false) => "0"
    case None => ""
  }

  /** Reading back a written trait cell gives the same evidence. */
  lemma TraitCellRoundTrip(t: Option<bool>)
    ensures ParseTrait(TraitCell(t)) == t
  {
  }
}
