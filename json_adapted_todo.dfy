/**
 * The storage form of a todo: two strings that may be missing (null in
 * JSON), checked in a fixed order when turned back into a Todo. What makes
 * a description or a priority valid is given by the two validity
 * predicates passed in.
 */
module JsonAdaptedTodo {
  import opened Results

  datatype Description = Description(value: string)
  datatype Priority = Priority(priority: string)
  datatype Todo = Todo(description: Description, priority: Priority)

  /**
   * The stored form; None stands for a JSON null. Its constructor is the
   * Jackson creator, which keeps both fields as they were read.
   */
  datatype JsonAdaptedTodo = JsonAdaptedTodo(description: Option<string>, priority: Option<string>)

  /** Why a stored todo cannot be loaded: a missing field, named by its class, or a broken constraint. */
  datatype IllegalValue = MissingField(fieldName: string) | DescriptionConstraints | PriorityConstraints

  const DESCRIPTION_FIELD := "Description"
  const PRIORITY_FIELD := "Priority"

  /** Adapts a Todo for storage: both fields present, holding its strings. */
  function FromTodo(source: Todo): (r: JsonAdaptedTodo)
    ensures r.description.Some? && r.priority.Some?
  {
    JsonAdaptedTodo(Some(source.description.value), Some(source.priority.priority))
  }

  /**
   * toModelType: a missing description, then an invalid one, then a missing
   * priority, then an invalid one; a todo with both fields present and valid
   * becomes a Todo holding exactly those strings.
   */
  function ToModelType(adapted: JsonAdaptedTodo, isValidDescription: string -> bool, isValidPriority: string -> bool)
    : (r: Result<Todo, IllegalValue>)
    ensures r.Success? <==>
              && adapted.description.Some? && isValidDescription(adapted.description.value)
              && adapted.priority.Some? && isValidPriority(adapted.priority.value)
    ensures r.Success? ==> r.value.description.value == adapted.description.value
                           && r.value.priority.priority == adapted.priority.value
    ensures r == Failure(MissingField(DESCRIPTION_FIELD)) <==> adapted.description.None?
    ensures r == Failure(DescriptionConstraints) <==>
              adapted.description.Some? && !isValidDescription(adapted.description.value)
    ensures r == Failure(MissingField(PRIORITY_FIELD)) <==>
              adapted.description.Some? && isValidDescription(adapted.description.value)
              && adapted.priority.None?
    ensures r == Failure(PriorityConstraints) <==>
              adapted.description.Some? && isValidDescription(adapted.description.value)
              && adapted.priority.Some? && !isValidPriority(adapted.priority.value)
  {
    if adapted.description.None? then Failure(MissingField(DESCRIPTION_FIELD))
    else if !isValidDescription(adapted.description.value) then Failure(DescriptionConstraints)
    else
      var modelDescription := Description(adapted.description.value);
      if adapted.priority.None? then Failure(MissingField(PRIORITY_FIELD))
      else if !isValidPriority(adapted.priority.value) then Failure(PriorityConstraints)
      else Success(Todo(modelDescription, Priority(adapted.priority.value)))
  }

  /** A bad description is reported whatever the priority holds. */
  lemma DescriptionCheckedFirst(description: Option<string>, p1: Option<string>, p2: Option<string>,
                                isValidDescription: string -> bool, isValidPriority: string -> bool)
    requires description.None? || !isValidDescription(description.value)
    ensures ToModelType(JsonAdaptedTodo(description, p1), isValidDescription, isValidPriority)
         == ToModelType(JsonAdaptedTodo(description, p2), isValidDescription, isValidPriority)
    ensures ToModelType(JsonAdaptedTodo(description, p1), isValidDescription, isValidPriority).Failure?
  {
  }

  /** Storing a valid Todo and loading it back gives the same Todo. */
  lemma RoundTrip(todo: Todo, isValidDescription: string -> bool, isValidPriority: string -> bool)
    requires isValidDescription(todo.description.value) && isValidPriority(todo.priority.priority)
    ensures ToModelType(FromTodo(todo), isValidDescription, isValidPriority) == Success(todo)
  {
  }

  /** Loading and storing again gives back the stored fields. */
  lemma LoadThenStore(adapted: JsonAdaptedTodo, isValidDescription: string -> bool, isValidPriority: string -> bool)
    requires ToModelType(adapted, isValidDescription, isValidPriority).Success?
    ensures FromTodo(ToModelType(adapted, isValidDescription, isValidPriority).value) == adapted
  {
  }
}
