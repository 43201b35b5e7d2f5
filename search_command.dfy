/**
 * soconnect's search command: filter the persons with a primary predicate
 * and, when nobody satisfies it, with an alternative predicate instead;
 * report how many persons end up displayed.
 */
module SearchCommand {
  import opened Model

  /** A search with its primary and alternative predicates. */
  datatype SearchCommand<P> = SearchCommand(searchPredicate: P, alternativePredicate: P)

  /**
   * The predicate the displayed list ends up filtered by: the primary one
   * when somebody satisfies it, the alternative one otherwise.
   */
  function ChosenPredicate<P>(cmd: SearchCommand<P>, persons: seq<Person>, holds: (P, Person) -> bool): (chosen: P)
    ensures (exists x :: x in persons && holds(cmd.searchPredicate, x)) ==> chosen == cmd.searchPredicate
    ensures (forall x :: x in persons ==> !holds(cmd.searchPredicate, x)) ==> chosen == cmd.alternativePredicate
  {
    var primary := Filtered(persons, Matching(cmd.searchPredicate), holds);
    if primary == [] then cmd.alternativePredicate
    else assert primary[0] in primary; cmd.searchPredicate
  }

  /**
   * The displayed list after the search: the persons satisfying the chosen
   * predicate. It is the primary view whenever that view is non-empty, and
   * it is empty only when neither predicate holds of anybody.
   */
  function FinalView<P>(cmd: SearchCommand<P>, persons: seq<Person>, holds: (P, Person) -> bool): (view: seq<Person>)
    ensures forall x :: x in view <==> x in persons && holds(ChosenPredicate(cmd, persons, holds), x)
    ensures Filtered(persons, Matching(cmd.searchPredicate), holds) != [] ==>
              view == Filtered(persons, Matching(cmd.searchPredicate), holds)
    ensures Filtered(persons, Matching(cmd.searchPredicate), holds) == [] ==>
              view == Filtered(persons, Matching(cmd.alternativePredicate), holds)
    ensures view == [] <==> forall x :: x in persons ==>
              !holds(cmd.searchPredicate, x) && !holds(cmd.alternativePredicate, x)
  {
    var view := Filtered(persons, Matching(ChosenPredicate(cmd, persons, holds)), holds);
    assert view != [] ==> view[0] in view;
    view
  }

  /**
   * The fallback never shows fewer persons than filtering by the primary
   * predicate alone would.
   */
  lemma FallbackNeverShowsFewer<P>(cmd: SearchCommand<P>, persons: seq<Person>, holds: (P, Person) -> bool)
    ensures |FinalView(cmd, persons, holds)| >= |Filtered(persons, Matching(cmd.searchPredicate), holds)|
  {
  }

  /**
   * execute: the persons and tags are left alone, the displayed list is the
   * final view, and the count reported is its size.
   */
  method Execute<P(==)>(cmd: SearchCommand<P>, model: ModelManager<P>) returns (listed: nat)
    modifies model
    ensures model.persons == old(model.persons) && model.tagList == old(model.tagList)
    ensures model.filter == Matching(ChosenPredicate(cmd, model.persons, model.holds))
    ensures model.FilteredPersonList() == FinalView(cmd, model.persons, model.holds)
    ensures listed == |FinalView(cmd, model.persons, model.holds)|
  {
    model.UpdateFilteredPersonList(Matching(cmd.searchPredicate));
    if model.IsFilteredPersonListEmpty() {
      model.UpdateFilteredPersonList(Matching(cmd.alternativePredicate));
    }
    listed := |model.FilteredPersonList()|;
  }

  /**
   * equals: the identity short cut, then both predicates compared; the two
   * together amount to structural equality.
   */
  function Equals<P(==)>(cmd: SearchCommand<P>, other: SearchCommand<P>): (r: bool)
    ensures r <==> cmd == other
  {
    cmd == other
    || (cmd.searchPredicate == other.searchPredicate && cmd.alternativePredicate == other.alternativePredicate)
  }
}
