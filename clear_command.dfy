/**
 * soconnect's clear command: empty the address book but keep the tags.
 */
module ClearCommand {
  import opened Model

  const MESSAGE_SUCCESS := "SoConnect has been cleared!"

  /**
   * execute: the tag list is read first, the address book is replaced by an
   * empty one (which drops its tags as well), and the saved tags are put
   * back. The displayed-list filter is not touched, and tag integrity holds
   * afterwards.
   */
  method Execute<P(==)>(model: ModelManager<P>) returns (message: string)
    modifies model
    ensures model.persons == []
    ensures model.tagList == old(model.tagList)
    ensures model.filter == old(model.filter)
    ensures model.Valid()
    ensures message == MESSAGE_SUCCESS
  {
    var tagList := model.tagList;
    model.SetSoConnect([], []);
    model.SetTagList(tagList);
    message := MESSAGE_SUCCESS;
  }
}
