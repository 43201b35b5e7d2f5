/**
 * The tag-add command: add a registered tag to the person at a position of
 * the displayed list, keeping the person's other details.
 */
module TagAddCommand {
  import opened Results
  import opened Model

  /** Add `tag` to the person at zero-based position `index` of the displayed list. */
  datatype TagAddCommand = TagAddCommand(index: nat, tag: Tag)

  /** The command's failures, in the order they are checked. */
  datatype TagAddError = InvalidPersonDisplayedIndex | NoSuchTag | TagAlreadyAdded

  /**
   * createEditedPerson: the same name, phone, email and address, and the old
   * tags together with the new one.
   */
  function CreateEditedPerson(personToEdit: Person, tag: Tag): (edited: Person)
    ensures edited.name == personToEdit.name && edited.phone == personToEdit.phone
    ensures edited.email == personToEdit.email && edited.address == personToEdit.address
    ensures forall t :: t in edited.tags <==> t in personToEdit.tags || t == tag
  {
    personToEdit.(tags := personToEdit.tags + {tag})
  }

  /** Adding a tag the person does not have grows the tag set by exactly one. */
  lemma EditedPersonHasOneMoreTag(personToEdit: Person, tag: Tag)
    requires tag !in personToEdit.tags
    ensures |CreateEditedPerson(personToEdit, tag).tags| == |personToEdit.tags| + 1
  {
  }

  /**
   * What execute decides, given the displayed list and the tag registry:
   * an out-of-range index first, then an unregistered tag, then a tag the
   * person already has; otherwise the edited person.
   */
  function Outcome(cmd: TagAddCommand, shown: seq<Person>, tagList: seq<Tag>): (r: Result<Person, TagAddError>)
    ensures r == Failure(InvalidPersonDisplayedIndex) <==> cmd.index >= |shown|
    ensures r == Failure(NoSuchTag) <==> cmd.index < |shown| && cmd.tag !in tagList
    ensures r == Failure(TagAlreadyAdded) <==>
              cmd.index < |shown| && cmd.tag in tagList && cmd.tag in shown[cmd.index].tags
    ensures r.Success? ==> cmd.index < |shown| && r.value == CreateEditedPerson(shown[cmd.index], cmd.tag)
  {
    if cmd.index >= |shown| then Failure(InvalidPersonDisplayedIndex)
    else
      var personToEdit := shown[cmd.index];
      if cmd.tag !in tagList then Failure(NoSuchTag)
      else if cmd.tag in personToEdit.tags then Failure(TagAlreadyAdded)
      else Success(CreateEditedPerson(personToEdit, cmd.tag))
  }

  /**
   * On success the edited person carries every tag of the original plus the
   * new one, one tag more than before, and every other detail unchanged.
   */
  lemma SuccessAddsExactlyOneTag(cmd: TagAddCommand, shown: seq<Person>, tagList: seq<Tag>)
    requires Outcome(cmd, shown, tagList).Success?
    ensures var before := shown[cmd.index];
            var after := Outcome(cmd, shown, tagList).value;
            && after.tags == before.tags + {cmd.tag}
            && |after.tags| == |before.tags| + 1
            && after.name == before.name && after.phone == before.phone
            && after.email == before.email && after.address == before.address
  {
    EditedPersonHasOneMoreTag(shown[cmd.index], cmd.tag);
  }

  /**
   * execute: on failure the model is untouched; on success the displayed
   * person is replaced by the edited one in the person list, the filter is
   * reset to show everybody, the tag registry is kept, the applied tag is
   * reported, and tag integrity is preserved.
   */
  method Execute<P(==)>(cmd: TagAddCommand, model: ModelManager<P>) returns (r: Result<Tag, TagAddError>)
    modifies model
    ensures var outcome := Outcome(cmd, old(model.FilteredPersonList()), old(model.tagList));
            && (r.Failure? <==> outcome.Failure?)
            && (r.Failure? ==> r.error == outcome.error)
            && (r.Success? ==> r.value == cmd.tag)
    ensures r.Failure? ==>
              model.persons == old(model.persons) && model.filter == old(model.filter)
    ensures r.Success? ==>
              var personToEdit := old(model.FilteredPersonList())[cmd.index];
              && personToEdit in old(model.persons)
              && model.persons == Replaced(old(model.persons), personToEdit,
                                           CreateEditedPerson(personToEdit, cmd.tag))
              && model.filter == ShowAll
    ensures model.tagList == old(model.tagList)
    ensures old(model.Valid()) ==> model.Valid()
  {
    var lastShownList := model.FilteredPersonList();
    if cmd.index >= |lastShownList| {
      return Failure(InvalidPersonDisplayedIndex);
    }
    var personToEdit := lastShownList[cmd.index];
    if !model.HasTag(cmd.tag) {
      return Failure(NoSuchTag);
    } else if cmd.tag in personToEdit.tags {
      return Failure(TagAlreadyAdded);
    } else {
      var editedPerson := CreateEditedPerson(personToEdit, cmd.tag);
      ghost var before := model.persons;
      assert personToEdit in before;
      model.SetPerson(personToEdit, editedPerson);
      model.UpdateFilteredPersonList(ShowAll);
      if TagsRegistered(before, model.tagList) {
        ReplacedKeepsTagsRegistered(before, model.tagList, personToEdit, editedPerson);
      }
      return Success(cmd.tag);
    }
  }
}
