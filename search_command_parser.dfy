/**
 * The search parser: the arguments of a search command become a condition
 * word and, for each field prefix that was given, the keywords given for it.
 * The condition picks a predicate that needs all keywords or any of them.
 */
module SearchCommandParser {
  import opened Results
  import opened Chars

  /** A field marker such as "n/". */
  datatype Prefix = Prefix(prefix: string)

  const PREFIX_NAME := Prefix("n/")
  const PREFIX_PHONE := Prefix("p/")
  const PREFIX_EMAIL := Prefix("e/")
  const PREFIX_ADDRESS := Prefix("a/")
  const PREFIX_TAG := Prefix("t/")

  /** The prefixes the parser looks at, in the order it looks at them. */
  const SEARCH_PREFIXES: seq<Prefix> := [PREFIX_NAME, PREFIX_PHONE, PREFIX_EMAIL, PREFIX_ADDRESS, PREFIX_TAG]

  const AND_CONDITION := "and"
  const OR_CONDITION := "or"
  const EMPTY_CONDITION := ""

  /**
   * What the argument tokenizer produces: the text before the first prefix
   * and, for each prefix, the values given for it in order.
   */
  datatype ArgumentMultimap = ArgumentMultimap(preamble: string, argMultimap: map<Prefix, seq<string>>)

  /** getAllValues: every value of the prefix, none if it was not given. */
  function GetAllValues(m: ArgumentMultimap, p: Prefix): seq<string> {
    if p in m.argMultimap then m.argMultimap[p] else []
  }

  /** getValue(p).isPresent(): the prefix has at least one value. */
  predicate IsPresent(m: ArgumentMultimap, p: Prefix) {
    GetAllValues(m, p) != []
  }

  /** The two keyword predicates: every keyword must match, or any one of them. */
  datatype ContactPredicate =
    | ContainsAllKeywords(prefixes: seq<string>, keywords: seq<seq<string>>)
    | ContainsAnyKeywords(prefixes: seq<string>, keywords: seq<seq<string>>)

  /** The search command this version of the parser builds: one predicate. */
  datatype SearchCommand = SearchCommand(contactPredicate: ContactPredicate)

  /** The usage error every rejected search raises. */
  datatype ParseError = InvalidCommandFormat

  /** The two lists the parser builds side by side. */
  datatype KeywordGroups = KeywordGroups(prefixes: seq<string>, keywords: seq<seq<string>>)

  /**
   * The lists built by looking at the prefixes of `order` in turn: each
   * present prefix adds its string to `prefixes` and its values to
   * `keywords` at the same position.
   */
  function Groups(m: ArgumentMultimap, order: seq<Prefix>): (g: KeywordGroups)
    ensures |g.prefixes| == |g.keywords| <= |order|
  {
    if order == [] then KeywordGroups([], [])
    else
      var g := Groups(m, order[..|order| - 1]);
      var p := order[|order| - 1];
      if IsPresent(m, p) then KeywordGroups(g.prefixes + [p.prefix], g.keywords + [GetAllValues(m, p)])
      else g
  }

  /**
   * The two lists are aligned: position i holds a present prefix of `order`
   * and all of that prefix's values. Every present prefix is listed, so the
   * lists are empty exactly when no prefix of `order` is present.
   */
  lemma {:induction false} GroupsAligned(m: ArgumentMultimap, order: seq<Prefix>)
    ensures var g := Groups(m, order);
            && (forall i :: 0 <= i < |g.prefixes| ==>
                  exists j :: 0 <= j < |order| && IsPresent(m, order[j])
                              && g.prefixes[i] == order[j].prefix && g.keywords[i] == GetAllValues(m, order[j]))
            && (forall j :: 0 <= j < |order| && IsPresent(m, order[j]) ==> order[j].prefix in g.prefixes)
            && (g.prefixes == [] <==> forall j :: 0 <= j < |order| ==> !IsPresent(m, order[j]))
  {
    if order != [] {
      var init := order[..|order| - 1];
      GroupsAligned(m, init);
      forall j | 0 <= j < |init| ensures order[j] == init[j] { }
    }
  }

  /** The prefix strings of `order`, in order. */
  function PrefixStrings(order: seq<Prefix>): (r: seq<string>)
    ensures |r| == |order|
  {
    if order == [] then [] else PrefixStrings(order[..|order| - 1]) + [order[|order| - 1].prefix]
  }

  /** xs can be obtained from ys by deleting elements. */
  predicate IsSubsequence(xs: seq<string>, ys: seq<string>)
    decreases |ys|
  {
    if xs == [] then true
    else if ys == [] then false
    else (xs[|xs| - 1] == ys[|ys| - 1] && IsSubsequence(xs[..|xs| - 1], ys[..|ys| - 1]))
         || IsSubsequence(xs, ys[..|ys| - 1])
  }

  /** The prefixes come out in the order they are looked at. */
  lemma {:induction false} GroupsFollowOrder(m: ArgumentMultimap, order: seq<Prefix>)
    ensures IsSubsequence(Groups(m, order).prefixes, PrefixStrings(order))
  {
    if order != [] {
      var init := order[..|order| - 1];
      GroupsFollowOrder(m, init);
      var g := Groups(m, init);
      var p := order[|order| - 1];
      var ys := PrefixStrings(order);
      assert ys[..|ys| - 1] == PrefixStrings(init);
      if IsPresent(m, p) {
        var xs := g.prefixes + [p.prefix];
        assert xs[..|xs| - 1] == g.prefixes;
      }
    }
  }

  /**
   * A prefix is listed exactly when it has a value, and the keywords listed
   * beside it are all of its values.
   */
  lemma PrefixListedIffPresent(m: ArgumentMultimap, order: seq<Prefix>, p: Prefix)
    requires p in order
    ensures var g := Groups(m, order);
            && (p.prefix in g.prefixes <==> IsPresent(m, p))
            && forall i :: 0 <= i < |g.prefixes| && g.prefixes[i] == p.prefix ==>
                 g.keywords[i] == GetAllValues(m, p)
  {
    var g := Groups(m, order);
    GroupsAligned(m, order);
    if p.prefix in g.prefixes {
      var i :| 0 <= i < |g.prefixes| && g.prefixes[i] == p.prefix;
      var j :| 0 <= j < |order| && IsPresent(m, order[j])
               && g.prefixes[i] == order[j].prefix && g.keywords[i] == GetAllValues(m, order[j]);
      assert order[j] == p;
    }
  }

  /** The lists depend on the prefix values only, not on the preamble. */
  lemma {:induction false} GroupsIgnorePreamble(m: ArgumentMultimap, m': ArgumentMultimap, order: seq<Prefix>)
    requires m.argMultimap == m'.argMultimap
    ensures Groups(m, order) == Groups(m', order)
  {
    if order != [] {
      GroupsIgnorePreamble(m, m', order[..|order| - 1]);
    }
  }

  /** Looking at one more prefix of `order` extends the lists as populatePrefixAndKeywordsList does. */
  lemma GroupsStep(m: ArgumentMultimap, order: seq<Prefix>, k: nat,
                   prefixes: seq<string>, keywords: seq<seq<string>>)
    requires k < |order|
    requires var g := Groups(m, order[..k]);
             if IsPresent(m, order[k])
             then prefixes == g.prefixes + [order[k].prefix] && keywords == g.keywords + [GetAllValues(m, order[k])]
             else prefixes == g.prefixes && keywords == g.keywords
    ensures KeywordGroups(prefixes, keywords) == Groups(m, order[..k + 1])
  {
    assert order[..k + 1][..k] == order[..k];
  }

  /**
   * populatePrefixAndKeywordsList: a present prefix appends its string and
   * all its values to the two lists; an absent one leaves them alone.
   */
  method PopulatePrefixAndKeywordsList(prefix: Prefix, m: ArgumentMultimap,
                                       prefixes: seq<string>, keywords: seq<seq<string>>)
    returns (prefixes': seq<string>, keywords': seq<seq<string>>)
    ensures IsPresent(m, prefix) ==>
              prefixes' == prefixes + [prefix.prefix] && keywords' == keywords + [GetAllValues(m, prefix)]
    ensures !IsPresent(m, prefix) ==> prefixes' == prefixes && keywords' == keywords
  {
    prefixes', keywords' := prefixes, keywords;
    if IsPresent(m, prefix) {
      prefixes' := prefixes' + [prefix.prefix];
      keywords' := keywords' + [GetAllValues(m, prefix)];
    }
  }

  /**
   * extractPrefixesAndKeywords: the two lists for name, phone, email,
   * address and tag in that order, or the usage error when none is present.
   */
  method ExtractPrefixesAndKeywords(m: ArgumentMultimap) returns (r: Result<KeywordGroups, ParseError>)
    ensures r.Failure? <==> forall j :: 0 <= j < |SEARCH_PREFIXES| ==> !IsPresent(m, SEARCH_PREFIXES[j])
    ensures r.Failure? ==> r.error == InvalidCommandFormat
    ensures r.Success? ==> r.value == Groups(m, SEARCH_PREFIXES) && |r.value.prefixes| >= 1
  {
    var prefixes: seq<string> := [];
    var keywords: seq<seq<string>> := [];
    prefixes, keywords := PopulatePrefixAndKeywordsList(PREFIX_NAME, m, prefixes, keywords);
    GroupsStep(m, SEARCH_PREFIXES, 0, prefixes, keywords);
    prefixes, keywords := PopulatePrefixAndKeywordsList(PREFIX_PHONE, m, prefixes, keywords);
    GroupsStep(m, SEARCH_PREFIXES, 1, prefixes, keywords);
    prefixes, keywords := PopulatePrefixAndKeywordsList(PREFIX_EMAIL, m, prefixes, keywords);
    GroupsStep(m, SEARCH_PREFIXES, 2, prefixes, keywords);
    prefixes, keywords := PopulatePrefixAndKeywordsList(PREFIX_ADDRESS, m, prefixes, keywords);
    GroupsStep(m, SEARCH_PREFIXES, 3, prefixes, keywords);
    prefixes, keywords := PopulatePrefixAndKeywordsList(PREFIX_TAG, m, prefixes, keywords);
    GroupsStep(m, SEARCH_PREFIXES, 4, prefixes, keywords);
    assert SEARCH_PREFIXES[..5] == SEARCH_PREFIXES;
    GroupsAligned(m, SEARCH_PREFIXES);
    if prefixes == [] {
      return Failure(InvalidCommandFormat);
    }
    return Success(KeywordGroups(prefixes, keywords));
  }

  /**
   * The command built once the condition is known: a predicate of the kind
   * the condition asks for over the lists of all present prefixes, or the
   * usage error when no prefix is present.
   */
  function SearchFor(m: ArgumentMultimap, isJointCondition: bool): (r: Result<SearchCommand, ParseError>)
    ensures r.Failure? <==> forall j :: 0 <= j < |SEARCH_PREFIXES| ==> !IsPresent(m, SEARCH_PREFIXES[j])
    ensures r.Failure? ==> r.error == InvalidCommandFormat
    ensures r.Success? ==>
              var q := r.value.contactPredicate;
              && q.ContainsAllKeywords? == isJointCondition
              && q.prefixes == Groups(m, SEARCH_PREFIXES).prefixes
              && q.keywords == Groups(m, SEARCH_PREFIXES).keywords
              && |q.prefixes| == |q.keywords| >= 1
  {
    var g := Groups(m, SEARCH_PREFIXES);
    GroupsAligned(m, SEARCH_PREFIXES);
    if g.prefixes == [] then Failure(InvalidCommandFormat)
    else if isJointCondition then Success(SearchCommand(ContainsAllKeywords(g.prefixes, g.keywords)))
    else Success(SearchCommand(ContainsAnyKeywords(g.prefixes, g.keywords)))
  }

  /** parseSearchWithCondition. */
  method ParseSearchWithCondition(m: ArgumentMultimap, isJointCondition: bool)
    returns (r: Result<SearchCommand, ParseError>)
    ensures r == SearchFor(m, isJointCondition)
  {
    var extracted := ExtractPrefixesAndKeywords(m);
    if extracted.Failure? {
      return Failure(extracted.error);
    }
    var prefixes := extracted.value.prefixes;
    var keywords := extracted.value.keywords;
    if isJointCondition {
      return Success(SearchCommand(ContainsAllKeywords(prefixes, keywords)));
    } else {
      return Success(SearchCommand(ContainsAnyKeywords(prefixes, keywords)));
    }
  }

  /** Whether args is empty once trimmed. */
  predicate IsBlank(args: string) {
    forall i :: 0 <= i < |args| ==> IsTrimmable(args[i])
  }

  /**
   * What parse yields for args that the tokenizer turns into m: the usage
   * error for blank args, for a lower-cased preamble other than "and", ""
   * or "or", and for args naming no prefix; otherwise an all-keywords
   * predicate for "and" or "" and an any-keyword predicate for "or".
   */
  function ParseResult(args: string, m: ArgumentMultimap): (r: Result<SearchCommand, ParseError>)
    ensures IsBlank(args) ==> r == Failure(InvalidCommandFormat)
    ensures r.Success? <==>
              && !IsBlank(args)
              && ToLower(m.preamble) in {AND_CONDITION, EMPTY_CONDITION, OR_CONDITION}
              && exists j :: 0 <= j < |SEARCH_PREFIXES| && IsPresent(m, SEARCH_PREFIXES[j])
    ensures r.Failure? ==> r.error == InvalidCommandFormat
    ensures r.Success? ==>
              var q := r.value.contactPredicate;
              && (q.ContainsAllKeywords? <==> ToLower(m.preamble) in {AND_CONDITION, EMPTY_CONDITION})
              && (q.ContainsAnyKeywords? <==> ToLower(m.preamble) == OR_CONDITION)
              && q.prefixes == Groups(m, SEARCH_PREFIXES).prefixes
              && q.keywords == Groups(m, SEARCH_PREFIXES).keywords
              && |q.prefixes| == |q.keywords| >= 1
  {
    if Trim(args) == [] then Failure(InvalidCommandFormat)
    else
      var condition := ToLower(m.preamble);
      if condition == AND_CONDITION || condition == EMPTY_CONDITION then SearchFor(m, true)
      else if condition == OR_CONDITION then SearchFor(m, false)
      else Failure(InvalidCommandFormat)
  }

  /** The preamble counts only through its lower-cased form. */
  lemma ConditionIgnoresCase(args: string, m: ArgumentMultimap, m': ArgumentMultimap)
    requires m.argMultimap == m'.argMultimap && ToLower(m.preamble) == ToLower(m'.preamble)
    ensures ParseResult(args, m) == ParseResult(args, m')
  {
    GroupsIgnorePreamble(m, m', SEARCH_PREFIXES);
  }

  /** "AND" and "And" select the all-keywords predicate, "OR" the any-keyword one. */
  lemma UpperCaseConditions(args: string, values: map<Prefix, seq<string>>)
    ensures ParseResult(args, ArgumentMultimap("AND", values)) == ParseResult(args, ArgumentMultimap("and", values))
    ensures ParseResult(args, ArgumentMultimap("And", values)) == ParseResult(args, ArgumentMultimap("and", values))
    ensures ParseResult(args, ArgumentMultimap("OR", values)) == ParseResult(args, ArgumentMultimap("or", values))
  {
    assert ToLower("AND") == "and" && ToLower("And") == "and" && ToLower("OR") == "or";
    ConditionIgnoresCase(args, ArgumentMultimap("AND", values), ArgumentMultimap("and", values));
    ConditionIgnoresCase(args, ArgumentMultimap("And", values), ArgumentMultimap("and", values));
    ConditionIgnoresCase(args, ArgumentMultimap("OR", values), ArgumentMultimap("or", values));
  }

  /**
   * parse: args are checked for blankness before they are tokenized; the
   * result is ParseResult of args and their tokens.
   */
  method Parse(args: string, tokenize: string -> ArgumentMultimap) returns (r: Result<SearchCommand, ParseError>)
    ensures r == ParseResult(args, tokenize(args))
  {
    var trimmedArgs := Trim(args);
    if trimmedArgs == [] {
      return Failure(InvalidCommandFormat);
    }
    var argMultimap := tokenize(args);
    var condition := ToLower(argMultimap.preamble);
    if condition == AND_CONDITION || condition == EMPTY_CONDITION {
      r := ParseSearchWithCondition(argMultimap, true);
    } else if condition == OR_CONDITION {
      r := ParseSearchWithCondition(argMultimap, false);
    } else {
      r := Failure(InvalidCommandFormat);
    }
  }
}
