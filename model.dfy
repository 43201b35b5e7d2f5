/**
 * The model collaborator the commands run against: the person list, the
 * tag registry and the predicate that decides which persons are displayed.
 * Only the operations the commands call are modelled. Person predicates are
 * values of a type P whose meaning is given by the function `holds`; keyword
 * matching itself is not part of this model.
 */
module Model {

  /** A tag, identified by its name. */
  datatype Tag = Tag(tagName: string)

  /** A contact. Persons are immutable: editing one builds a new Person. */
  datatype Person = Person(name: string, phone: string, email: string, address: string, tags: set<Tag>)

  /** The predicate behind the displayed list: everyone, or those satisfying a predicate. */
  datatype Filter<P> = ShowAll | Matching(condition: P)

  predicate Admits<P>(f: Filter<P>, holds: (P, Person) -> bool, x: Person) {
    match f
    case ShowAll => true
    case Matching(p) => holds(p, x)
  }

  /** The persons f admits, in list order. */
  function Filtered<P>(persons: seq<Person>, f: Filter<P>, holds: (P, Person) -> bool): (view: seq<Person>)
    ensures |view| <= |persons|
    ensures forall x :: x in view <==> x in persons && Admits(f, holds, x)
    ensures f.ShowAll? ==> view == persons
  {
    if persons == [] then []
    else (if Admits(f, holds, persons[0]) then [persons[0]] else []) + Filtered(persons[1..], f, holds)
  }

  /** The first position of x in s. */
  function IndexOf(s: seq<Person>, x: Person): (i: nat)
    requires x in s
    ensures i < |s| && s[i] == x
    ensures forall j :: 0 <= j < i ==> s[j] != x
  {
    if s[0] == x then 0 else 1 + IndexOf(s[1..], x)
  }

  /** The list with the first occurrence of target replaced by edited. */
  function Replaced(s: seq<Person>, target: Person, edited: Person): (r: seq<Person>)
    requires target in s
    ensures |r| == |s|
    ensures r[IndexOf(s, target)] == edited
    ensures forall j :: 0 <= j < |s| && j != IndexOf(s, target) ==> r[j] == s[j]
  {
    s[IndexOf(s, target) := edited]
  }

  /** Referential integrity: every tag a person carries is in the registry. */
  predicate TagsRegistered(persons: seq<Person>, tagList: seq<Tag>) {
    forall p, t :: p in persons && t in p.tags ==> t in tagList
  }

  /**
   * Replacing one person by a person whose tags are all registered keeps
   * every tag of the list registered.
   */
  lemma ReplacedKeepsTagsRegistered(s: seq<Person>, tagList: seq<Tag>, target: Person, edited: Person)
    requires target in s && TagsRegistered(s, tagList)
    requires forall t :: t in edited.tags ==> t in tagList
    ensures TagsRegistered(Replaced(s, target, edited), tagList)
  {
  }

  /** The model manager: the persons and tags of the address book and the displayed-list filter. */
  class ModelManager<P(==)> {
    var persons: seq<Person>
    var tagList: seq<Tag>
    var filter: Filter<P>
    /** What it means for a person to satisfy a predicate. */
    const holds: (P, Person) -> bool

    constructor (persons: seq<Person>, tagList: seq<Tag>, holds: (P, Person) -> bool)
      ensures this.persons == persons && this.tagList == tagList && filter == ShowAll
    {
      this.persons := persons;
      this.tagList := tagList;
      this.holds := holds;
      filter := ShowAll;
    }

    /** getFilteredPersonList: the persons the current filter admits. */
    function FilteredPersonList(): seq<Person>
      reads this
    {
      Filtered(persons, filter, holds)
    }

    predicate IsFilteredPersonListEmpty()
      reads this
    {
      FilteredPersonList() == []
    }

    predicate HasTag(tag: Tag)
      reads this
    {
      tag in tagList
    }

    predicate Valid()
      reads this
    {
      TagsRegistered(persons, tagList)
    }

    method UpdateFilteredPersonList(f: Filter<P>)
      modifies this`filter
      ensures filter == f
    {
      filter := f;
    }

    /** setPerson: target must be in the list. */
    method SetPerson(target: Person, edited: Person)
      requires target in persons
      modifies this`persons
      ensures persons == Replaced(old(persons), target, edited)
    {
      persons := Replaced(persons, target, edited);
    }

    /** setSoConnect: replaces the whole address book, persons and tags. */
    method SetSoConnect(newPersons: seq<Person>, newTags: seq<Tag>)
      modifies this`persons, this`tagList
      ensures persons == newPersons && tagList == newTags
    {
      persons := newPersons;
      tagList := newTags;
    }

    method SetTagList(tags: seq<Tag>)
      modifies this`tagList
      ensures tagList == tags
    {
      tagList := tags;
    }
  }
}
