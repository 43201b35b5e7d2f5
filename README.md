# SoConnect search, tag-add, clear, names and stored todos — a Dafny model

This project models the core of SoConnect, a desktop contact manager. It covers the
command logic behind searching contacts, adding a registered tag to a contact and
clearing the address book, plus the `Name` value class and the JSON adapter for todos.
All of it is sequential, in-memory logic, and every outcome of it is stated and proved.

The repository holds two versions of the code. The older one lives in the
`seedu.address` package: its search parser builds a command from a single predicate,
and its tag-add command is modelled here too. The newer one lives in the `soconnect`
package: its search command carries a primary and an alternative predicate. The two
are modelled as written and are not connected.

Modules, one per source file plus three shared ones:

- `Results`: `Result` (a value, or the error a Java method would throw) and `Option`
  (a JSON field that may be null).
- `Chars`: the parts of `String`/`Character` the core uses. These are the regex class
  `\p{Alnum}`, lower-casing and `String.trim`.
- `Model`: the model collaborator. It holds a `Person` value type, a `Tag` value type,
  a `Filter` (show everybody, or those a predicate holds of), and the class
  `ModelManager`. That class keeps the person list, the tag registry and the current
  filter, and has the operations the commands call: `getFilteredPersonList`,
  `isFilteredPersonListEmpty`, `hasTag`, `updateFilteredPersonList`, `setPerson`,
  `setSoConnect` and `setTagList`. Person predicates are values of a type parameter
  `P`. The manager's `holds` function says which persons satisfy them. `Valid()` is
  referential integrity: every tag any person carries is in the registry.
- `SearchCommandParser` (`seedu.address` parser): `Parse`, `ParseSearchWithCondition`,
  `ExtractPrefixesAndKeywords` and `PopulatePrefixAndKeywordsList` are methods. Each is
  proved against a pure function: `ParseResult`, `SearchFor` or `Groups`. The argument
  multimap is a preamble plus a map from prefix to values. The predicate kind is a
  tagged value, `ContainsAllKeywords` or `ContainsAnyKeywords`, holding the two aligned
  lists.
- `TagAddCommand`: `Execute` changes the model in place. `Outcome` is the pure decision
  it is proved against. `CreateEditedPerson` builds the edited person.
- `SearchCommand` (`soconnect`): `Execute` sets the filter to the primary predicate and,
  when that shows nobody, to the alternative one. `ChosenPredicate` and `FinalView`
  specify the result. `Equals` is the command's equality.
- `Name`: validity, construction, `toString`, `compareTo` (`compareToIgnoreCase`),
  `equals` and `hashCode`. `Name` is a subset type of the stored record, so every
  `Name` holds a valid string, as the class guarantees.
- `JsonAdaptedTodo`: both constructors and `toModelType`. The validity tests of
  `Description` and `Priority` are passed in as predicates.
- `ClearCommand`: `Execute`.

## Model

| member | source | states |
|---|---|---|
| `SearchCommandParser.Parse` | src/main/java/seedu/address/logic/parser/SearchCommandParser.java:30-57 | parse yields exactly `ParseResult` of the arguments and the tokenizer's output for them |
| `SearchCommandParser.ParseResult` | src/main/java/seedu/address/logic/parser/SearchCommandParser.java:30-57 | blank arguments are a usage error; success happens iff the arguments are not blank, the lower-cased preamble is "and", "" or "or", and some prefix has a value; on success the predicate is all-keywords iff the preamble is "and" or "", any-keyword iff it is "or", it carries the lists of `Groups`, and those lists are equally long and non-empty |
| `SearchCommandParser.ConditionIgnoresCase` | src/main/java/seedu/address/logic/parser/SearchCommandParser.java:41 | two preambles with the same lower-cased form give the same parse |
| `SearchCommandParser.UpperCaseConditions` | src/main/java/seedu/address/logic/parser/SearchCommandParser.java:41-53 | "AND" and "And" parse like "and"; "OR" parses like "or" |
| `SearchCommandParser.ParseSearchWithCondition` | src/main/java/seedu/address/logic/parser/SearchCommandParser.java:59-69 | the result is `SearchFor` of the tokens and the condition |
| `SearchCommandParser.SearchFor` | src/main/java/seedu/address/logic/parser/SearchCommandParser.java:59-69 | it fails iff no search prefix has a value, and then with the usage error; otherwise the predicate is all-keywords iff the condition is joint, and it carries the lists of `Groups`, equally long with at least one entry |
| `SearchCommandParser.ExtractPrefixesAndKeywords` | src/main/java/seedu/address/logic/parser/SearchCommandParser.java:71-84 | it fails with the usage error iff none of n/ p/ e/ a/ t/ has a value; otherwise it returns `Groups` over that order, with at least one prefix |
| `SearchCommandParser.PopulatePrefixAndKeywordsList` | src/main/java/seedu/address/logic/parser/SearchCommandParser.java:86-92 | a prefix with a value appends its string to the prefix list and all its values to the keyword list; a prefix without one leaves both lists unchanged |
| `SearchCommandParser.Groups` | src/main/java/seedu/address/logic/parser/SearchCommandParser.java:71-91 | the prefix list and the keyword list are equally long, and no longer than the prefix order |
| `SearchCommandParser.GroupsAligned` | src/main/java/seedu/address/logic/parser/SearchCommandParser.java:86-91 | entry i of the two lists is a present prefix together with all of its values; every present prefix is listed; the lists are empty iff no prefix is present |
| `SearchCommandParser.PrefixListedIffPresent` | src/main/java/seedu/address/logic/parser/SearchCommandParser.java:86-91 | a prefix is listed iff it has a value, and the keywords beside it are all of its values |
| `SearchCommandParser.GroupsFollowOrder` | src/main/java/seedu/address/logic/parser/SearchCommandParser.java:75-79 | the listed prefixes are a subsequence of the order name, phone, email, address, tag |
| `Chars.Trim` | src/main/java/seedu/address/logic/parser/SearchCommandParser.java:32-33 | the trimmed text is empty iff every character is at or below U+0020; otherwise it starts and ends with a kept character |
| `TagAddCommand.Execute` | src/main/java/seedu/address/logic/commands/TagAddCommand.java:59-79 | fails exactly as `Outcome` does and then leaves persons, filter and registry unchanged; on success it reports the tag, replaces the displayed person with the edited one, resets the filter to show everybody, keeps the registry, and preserves tag integrity |
| `TagAddCommand.Outcome` | src/main/java/seedu/address/logic/commands/TagAddCommand.java:63-78 | invalid index iff the index is at least the displayed size; otherwise no-such-tag iff the tag is not registered; otherwise already-added iff the person has the tag; otherwise success with the edited person |
| `TagAddCommand.CreateEditedPerson` | src/main/java/seedu/address/logic/commands/TagAddCommand.java:84-99 | name, phone, email and address are copied; the tags are exactly the old ones plus the new one |
| `TagAddCommand.EditedPersonHasOneMoreTag` | src/main/java/seedu/address/logic/commands/TagAddCommand.java:93-96 | adding a tag the person lacks grows the tag count by exactly one |
| `TagAddCommand.SuccessAddsExactlyOneTag` | src/main/java/seedu/address/logic/commands/TagAddCommand.java:88-98 | on success the new tags are the old tags with the tag added, one more than before, and the other four fields are unchanged |
| `Model.ReplacedKeepsTagsRegistered` | src/main/java/seedu/address/logic/commands/TagAddCommand.java:69-75 | replacing a person by one whose tags are all registered keeps every tag in the list registered |
| `SearchCommand.Execute` | src/main/java/soconnect/logic/commands/SearchCommand.java:45-53 | persons and tags are untouched; the filter is the chosen predicate; the displayed list is `FinalView`; the count reported is its size |
| `SearchCommand.ChosenPredicate` | src/main/java/soconnect/logic/commands/SearchCommand.java:47-50 | the primary predicate when someone satisfies it, the alternative one when nobody does |
| `SearchCommand.FinalView` | src/main/java/soconnect/logic/commands/SearchCommand.java:47-52 | it holds exactly the persons satisfying the chosen predicate; it is the primary view when that view is non-empty and the alternative view otherwise; it is empty iff neither predicate holds of anybody |
| `SearchCommand.FallbackNeverShowsFewer` | src/main/java/soconnect/logic/commands/SearchCommand.java:47-50 | the final view is never smaller than the primary view |
| `SearchCommand.Equals` | src/main/java/soconnect/logic/commands/SearchCommand.java:55-61 | two commands are equal iff both their primary and their alternative predicates are equal |
| `ClearCommand.Execute` | src/main/java/soconnect/logic/commands/ClearCommand.java:21-27 | afterwards there are no persons, the tag list is what it was before, the filter is unchanged, tag integrity holds, and the message is the fixed success text |
| `Name.IsValidName` | src/main/java/soconnect/model/person/Name.java:38-40 | valid iff non-empty, the first character is an ASCII letter or digit, and every later one is an ASCII letter, digit or space |
| `Name.MatchesAlnumOrSpaces` | src/main/java/soconnect/model/person/Name.java:19 | true iff every character is an ASCII letter, digit or space |
| `Name.BlankIsInvalid` | src/main/java/soconnect/model/person/Name.java:15-19 | the empty string and strings starting with a space are invalid |
| `Name.LongNamesAreValid` | src/main/java/soconnect/model/person/Name.java:38-40 | for every length above CHARACTER_LIMIT there is a valid name of that length |
| `Name.Create` | src/main/java/soconnect/model/person/Name.java:29-33 | it succeeds iff the string is valid, and then stores it verbatim; otherwise it fails with MESSAGE_CONSTRAINTS |
| `Name.ToString` | src/main/java/soconnect/model/person/Name.java:42-45 | the string a name renders to is valid, and constructing a name from it gives back the same name |
| `Name.ToStringGivesStoredName` | src/main/java/soconnect/model/person/Name.java:43-45 | toString of a name built from a valid string is that string |
| `Name.CompareToIgnoreCase` | src/main/java/soconnect/model/person/Name.java:53-55 | zero iff the two strings are equal once lower-cased |
| `Name.CompareToIgnoreCaseOrders` | src/main/java/soconnect/model/person/Name.java:47-55 | the comparison is negative iff the first string, lower-cased, precedes the second, lower-cased, in lexicographic order |
| `Name.CompareTo` | src/main/java/soconnect/model/person/Name.java:47-55 | negative iff this name precedes the other in lexicographic order once both are lower-cased; zero iff they agree once lower-cased; positive iff the other precedes this one |
| `Name.CompareToReturnsDifference` | src/main/java/soconnect/model/person/Name.java:51-54 | comparing "c" with "a" gives 2, not the documented 1 |
| `Name.CompareSign` | src/main/java/soconnect/model/person/Name.java:47-52 | the documented comparison: -1 iff this name is lesser, 0 iff equal ignoring case, 1 iff greater, and no other value |
| `Name.CompareToIgnoreCaseAntisymmetric` | src/main/java/soconnect/model/person/Name.java:53-55 | swapping the two strings negates the comparison |
| `Name.CompareToAntisymmetric` | src/main/java/soconnect/model/person/Name.java:53-55 | swapping the two names negates compareTo |
| `Name.Equals` | src/main/java/soconnect/model/person/Name.java:57-62 | equal iff the stored strings are identical, case included |
| `Name.CaseOnlyDifferenceComparesEqualButNotEquals` | src/main/java/soconnect/model/person/Name.java:53-62 | "alex" and "Alex" compare as 0 but are not equal |
| `Name.HashBits` | src/main/java/soconnect/model/person/Name.java:66 | the hash bits of a string fit in 32 bits |
| `Name.HashCode` | src/main/java/soconnect/model/person/Name.java:64-67 | the hash code is a signed 32-bit value |
| `Name.EqualNamesHashEqually` | src/main/java/soconnect/model/person/Name.java:57-67 | equal names have equal hash codes |
| `JsonAdaptedTodo.FromTodo` | src/main/java/soconnect/storage/JsonAdaptedTodo.java:33-36 | the adapted todo has both fields present |
| `JsonAdaptedTodo.ToModelType` | src/main/java/soconnect/storage/JsonAdaptedTodo.java:43-62 | missing description iff the description is null; description constraints iff it is present but invalid; missing priority iff the description is fine and the priority is null; priority constraints iff the description is fine and the priority is present but invalid; success iff both are present and valid, with a Todo holding exactly those strings |
| `JsonAdaptedTodo.DescriptionCheckedFirst` | src/main/java/soconnect/storage/JsonAdaptedTodo.java:44-57 | a missing or invalid description fails the same way whatever the priority is |
| `JsonAdaptedTodo.RoundTrip` | src/main/java/soconnect/storage/JsonAdaptedTodo.java:33-61 | adapting a valid Todo and converting it back gives the same Todo |
| `JsonAdaptedTodo.LoadThenStore` | src/main/java/soconnect/storage/JsonAdaptedTodo.java:33-61 | a stored todo that loads adapts back to the same stored fields |

## Left out

- Argument tokenizing (`ArgumentTokenizer`) is not part of this model. `Parse` takes it as a function parameter from the argument string to an `ArgumentMultimap`.
- Keyword matching (`ContactContainsAllKeywordsPredicate`, `ContactContainsAnyKeywordsPredicate`) is not part of this model. In the parser the predicates are plain values. In `soconnect` they are values of a type parameter whose meaning comes from the model's `holds` function. No whole-word or whitespace-splitting rule is assumed.
- `Description.isValidDescription` and `Priority.isValidPriority` are not part of this model. They are parameters of `ToModelType`.
- Values are passed on exactly as `getAllValues` returns them. They are not split into whitespace-separated keywords.
- Case mapping is modelled for ASCII letters only. Valid names contain only ASCII, so `Name.CompareTo` is exact on every `Name`. For the condition word, Java's full Unicode `toLowerCase` matters only if a non-ASCII character lower-cases to a letter of "and" or "or", and the model does not cover that case.
- `Name.HashCode` counts one UTF-16 unit per character. Java counts two units for a character outside the Basic Multilingual Plane. Valid names never contain one.
- Message text is reduced to which outcome happened. Left out: the usage text, the invalid-index text, the "persons listed" text (the search reports its count instead) and the tag's `toString` in the tag-add success message (the applied tag is returned instead).
- `ModelManager.SetPerson` replaces the first occurrence of the person. Its duplicate-person check is not modelled, and neither are the uniqueness of the person list, model listeners or undo history.
- `StorageManager` (file storage and logging) and `TodoListPanel` (JavaFX rendering) are I/O and UI and are not part of this model.
- Removing a tag from a contact is not part of this model.
- `ClearCommand.Execute` assumes that `getTagList` returns a snapshot of the registry. If it returned a live view of the address book's tags, replacing the address book would empty the saved list too, and the tags would not be restored. The source of `getTagList` and `setSoConnect` is not part of this model.
- `requireNonNull` checks are dropped, because Dafny values are never null. JSON nulls are modelled as `Option`.

## Findings

| source | as written | input that shows it | evidently intended | confidence | as-written member | corrected member |
|---|---|---|---|---|---|---|
| src/main/java/soconnect/model/person/Name.java:51-54 | `compareTo` returns the result of `compareToIgnoreCase`, the difference of the first differing lower-cased characters or of the lengths | names "c" and "a": the result is 2 | the documented result: -1 if this name is lesser, 0 if equal, 1 otherwise | high, not executed | `Name.CompareToReturnsDifference` | `Name.CompareSign` |
