/**
 * `ParserUtil`: trims, case-maps, validates and wraps the strings of a user command.
 * The validity rules of phrases and tags belong to their own classes; here they are the
 * uninterpreted predicates of a `Rules` value, as are the two tag prefixes.
 */
module ParserUtil {
  import opened FlashCards
  import opened JavaString
  import JavaInt

  const MESSAGE_INVALID_INDEX: string := "Index is not a non-zero unsigned integer."
  /** `MESSAGE_INVALID_SORT_PARAM` is `" %s is not a valid sort parameter."`; these are the parts around `%s`. */
  const INVALID_SORT_PARAM_BEFORE: string := " "
  const INVALID_SORT_PARAM_AFTER: string := " is not a valid sort parameter."
  /** `MESSAGE_INVALID_PREFIX_PARAM` is `" %s is not a valid prefix parameter."`. */
  const INVALID_PREFIX_PARAM_AFTER: string := " is not a valid prefix parameter."

  /** A command-line argument prefix such as the one that introduces a difficulty tag. */
  datatype Prefix = Prefix(prefix: string)

  /** A position in a list, stored zero-based. */
  datatype Index = Index(zeroBased: nat) {
    function OneBased(): nat {
      zeroBased + 1
    }
  }

  /** What the parsers take from the classes they wrap. */
  datatype Rules = Rules(
    isValidGermanPhrase: string -> bool,
    isValidEnglishPhrase: string -> bool,
    isValidDifficultyTag: string -> bool,
    isValidGenderTag: string -> bool,
    isValidTagName: string -> bool,
    difficultyPrefix: Prefix,
    genderPrefix: Prefix)

  /** The `ParseException`s the parsers throw, by the message they carry. */
  datatype ParseError =
    | InvalidIndex
    | InvalidSortParam(parameter: string)
    | InvalidGermanPhrase
    | InvalidEnglishPhrase
    | InvalidDifficultyTag
    | InvalidGenderTag
    | InvalidPrefix(prefix: Prefix)
    | InvalidTag

  datatype Result<T> = Ok(value: T) | Err(error: ParseError)

  /** The message text of an error whose message `ParserUtil` itself defines. */
  function Message(e: ParseError): string
    requires e.InvalidIndex? || e.InvalidSortParam? || e.InvalidPrefix?
  {
    match e
    case InvalidIndex => MESSAGE_INVALID_INDEX
    case InvalidSortParam(p) => INVALID_SORT_PARAM_BEFORE + p + INVALID_SORT_PARAM_AFTER
    case InvalidPrefix(p) => " " + p.prefix + INVALID_PREFIX_PARAM_AFTER
  }

  /**
   * `StringUtil.isNonZeroUnsignedInteger`: ASCII decimal digits (leading zeros allowed)
   * denoting an `int` greater than zero.
   */
  predicate IsNonZeroUnsignedInteger(s: string) {
    IsDigits(s) && 0 < DecimalValue(s) <= JavaInt.INT_MAX
  }

  /**
   * `parseIndex`: accepts exactly the inputs whose trim is a non-zero unsigned integer, and
   * returns the index whose one-based value is that integer.
   */
  function ParseIndex(oneBasedIndex: string): (r: Result<Index>)
    ensures r.Ok? <==> IsNonZeroUnsignedInteger(Trim(oneBasedIndex))
    ensures r.Ok? ==> r.value.OneBased() == DecimalValue(Trim(oneBasedIndex)) <= JavaInt.INT_MAX
    ensures r.Err? ==> r.error == InvalidIndex
  {
    var trimmedIndex := Trim(oneBasedIndex);
    if !IsNonZeroUnsignedInteger(trimmedIndex) then Err(InvalidIndex)
    else Ok(Index(DecimalValue(trimmedIndex) - 1))
  }

  /** The decimal form of any positive `int`, with any surrounding blanks, parses back to its index. */
  lemma ParseIndexOfDecimal(n: nat, pre: string, post: string)
    requires 0 < n <= JavaInt.INT_MAX
    requires forall j :: 0 <= j < |pre| ==> IsTrimmable(pre[j])
    requires forall j :: 0 <= j < |post| ==> IsTrimmable(post[j])
    ensures ParseIndex(pre + DecimalString(n) + post) == Ok(Index(n - 1))
  {
    var d := DecimalString(n);
    TrimPadded(pre, d, post);
    DecimalRoundTrip(n);
  }

  /** The eight sort keywords. */
  const SORT_PARAMETERS: set<string> :=
    {"german", "english", "reversegerman", "reverseenglish", "easytohard", "hardtoeasy", "earliest", "latest"}

  /**
   * `parseSortParams`: accepts exactly the inputs whose lower-cased trim is a sort keyword,
   * and returns that normalised keyword; the error names the input as given.
   */
  function ParseSortParams(parameter: string): (r: Result<string>)
    ensures r.Ok? <==> Trim(ToLower(parameter)) in SORT_PARAMETERS
    ensures r.Ok? ==> r.value == Trim(ToLower(parameter)) && r.value in SORT_PARAMETERS
    ensures r.Err? ==> r.error == InvalidSortParam(parameter)
  {
    var trimmedParam := Trim(ToLower(parameter));
    var isLanguage := trimmedParam == "german" || trimmedParam == "english"
                      || trimmedParam == "reversegerman" || trimmedParam == "reverseenglish";
    var isDifficulty := trimmedParam == "easytohard" || trimmedParam == "hardtoeasy";
    var isTime := trimmedParam == "earliest" || trimmedParam == "latest";
    if !isLanguage && !isDifficulty && !isTime then Err(InvalidSortParam(parameter))
    else Ok(trimmedParam)
  }

  /** Parsing the keyword `parseSortParams` returned gives back the same keyword. */
  lemma ParseSortParamsIdempotent(parameter: string)
    requires ParseSortParams(parameter).Ok?
    ensures ParseSortParams(ParseSortParams(parameter).value) == ParseSortParams(parameter)
  {
    var lowered := ToLower(parameter);
    var r := Trim(lowered);
    calc {
      Trim(ToLower(r));
      { TrimToLowerCommute(lowered); }
      Trim(Trim(ToLower(lowered)));
      { ToLowerIdempotent(parameter); }
      Trim(Trim(lowered));
      { TrimIdempotent(lowered); }
      r;
    }
  }

  /** `parseGermanPhrase`: the trimmed input, if the German-phrase rule accepts it. */
  function ParseGermanPhrase(rules: Rules, germanPhrase: string): (r: Result<GermanPhrase>)
    ensures r.Ok? <==> rules.isValidGermanPhrase(Trim(germanPhrase))
    ensures r.Ok? ==> r.value.phrase == Trim(germanPhrase)
    ensures r.Err? ==> r.error == InvalidGermanPhrase
  {
    var trimmedGermanPhrase := Trim(germanPhrase);
    if !rules.isValidGermanPhrase(trimmedGermanPhrase) then Err(InvalidGermanPhrase)
    else Ok(GermanPhrase(trimmedGermanPhrase))
  }

  /** `parseEnglishPhrase`: the trimmed input, if the English-phrase rule accepts it. */
  function ParseEnglishPhrase(rules: Rules, englishPhrase: string): (r: Result<EnglishPhrase>)
    ensures r.Ok? <==> rules.isValidEnglishPhrase(Trim(englishPhrase))
    ensures r.Ok? ==> r.value.phrase == Trim(englishPhrase)
    ensures r.Err? ==> r.error == InvalidEnglishPhrase
  {
    var trimmedEnglishPhrase := Trim(englishPhrase);
    if !rules.isValidEnglishPhrase(trimmedEnglishPhrase) then Err(InvalidEnglishPhrase)
    else Ok(EnglishPhrase(trimmedEnglishPhrase))
  }

  /** `parseTag`: a tag named by the trimmed input, if the tag-name rule accepts it. */
  function ParseTag(rules: Rules, tag: string): (r: Result<Tag>)
    ensures r.Ok? <==> rules.isValidTagName(Trim(tag))
    ensures r.Ok? ==> r.value.tagName == Trim(tag)
    ensures r.Err? ==> r.error == InvalidTag
  {
    var trimmedTag := Trim(tag);
    if !rules.isValidTagName(trimmedTag) then Err(InvalidTag)
    else Ok(Tag(trimmedTag))
  }

  /** What the phrase and tag parsers return is already in normal form: parsing it again returns it unchanged. */
  lemma ParsedTextReparses(rules: Rules, s: string)
    ensures ParseGermanPhrase(rules, s).Ok? ==>
              ParseGermanPhrase(rules, ParseGermanPhrase(rules, s).value.phrase) == ParseGermanPhrase(rules, s)
    ensures ParseEnglishPhrase(rules, s).Ok? ==>
              ParseEnglishPhrase(rules, ParseEnglishPhrase(rules, s).value.phrase) == ParseEnglishPhrase(rules, s)
    ensures ParseTag(rules, s).Ok? ==>
              ParseTag(rules, ParseTag(rules, s).value.tagName) == ParseTag(rules, s)
  {
    TrimIdempotent(s);
  }

  /** The text a predefined tag carries. */
  function PredefinedTagText(t: PredefinedTag): string {
    match t
    case DifficultyTag(d) => d
    case GenderTag(g) => g
  }

  /**
   * `parsePredefinedTag`: with the difficulty prefix, a difficulty tag of the upper-cased
   * trimmed input if the difficulty rule accepts the trimmed input; with the gender prefix
   * the same for gender; any other prefix is an error.
   */
  function ParsePredefinedTag(rules: Rules, prefix: Prefix, predefinedTag: string): (r: Result<PredefinedTag>)
    ensures prefix == rules.difficultyPrefix ==>
              && (r.Ok? <==> rules.isValidDifficultyTag(Trim(predefinedTag)))
              && (r.Ok? ==> r.value == DifficultyTag(ToUpper(Trim(predefinedTag))))
              && (r.Err? ==> r.error == InvalidDifficultyTag)
    ensures prefix != rules.difficultyPrefix && prefix == rules.genderPrefix ==>
              && (r.Ok? <==> rules.isValidGenderTag(Trim(predefinedTag)))
              && (r.Ok? ==> r.value == GenderTag(ToUpper(Trim(predefinedTag))))
              && (r.Err? ==> r.error == InvalidGenderTag)
    ensures prefix != rules.difficultyPrefix && prefix != rules.genderPrefix ==>
              r == Err(InvalidPrefix(prefix))
    ensures r.Ok? ==> forall i :: 0 <= i < |PredefinedTagText(r.value)| ==> !('a' <= PredefinedTagText(r.value)[i] <= 'z')
  {
    var trimmedPredefinedTag := Trim(predefinedTag);
    if prefix == rules.difficultyPrefix then
      if !rules.isValidDifficultyTag(trimmedPredefinedTag) then Err(InvalidDifficultyTag)
      else Ok(DifficultyTag(ToUpper(trimmedPredefinedTag)))
    else if prefix == rules.genderPrefix then
      if !rules.isValidGenderTag(trimmedPredefinedTag) then Err(InvalidGenderTag)
      else Ok(GenderTag(ToUpper(trimmedPredefinedTag)))
    else Err(InvalidPrefix(prefix))
  }

  /** A rejected index reports the fixed invalid-index text. */
  lemma IndexErrorMessage(s: string)
    requires ParseIndex(s).Err?
    ensures Message(ParseIndex(s).error) == "Index is not a non-zero unsigned integer."
  {
    assert ParseIndex(s).error == InvalidIndex;
  }

  /** A rejected sort parameter reports the input as the user gave it, before any trimming. */
  lemma SortErrorMessage(s: string)
    requires ParseSortParams(s).Err?
    ensures Message(ParseSortParams(s).error) == " " + s + " is not a valid sort parameter."
  {
    assert ParseSortParams(s).error == InvalidSortParam(s);
  }

  /** A prefix that is neither tag prefix is reported by its text. */
  lemma PrefixErrorMessage(rules: Rules, prefix: Prefix, s: string)
    requires prefix != rules.difficultyPrefix && prefix != rules.genderPrefix
    ensures Message(ParsePredefinedTag(rules, prefix, s).error)
            == " " + prefix.prefix + " is not a valid prefix parameter."
  {
    assert ParsePredefinedTag(rules, prefix, s).error == InvalidPrefix(prefix);
  }

  /**
   * `parseTags`: fails if any name is not a valid tag name; otherwise the set of tags named
   * by the trimmed names, so names equal after trimming give one tag.
   */
  method ParseTags(rules: Rules, tags: seq<string>) returns (r: Result<set<Tag>>)
    ensures r.Ok? <==> forall i :: 0 <= i < |tags| ==> rules.isValidTagName(Trim(tags[i]))
    ensures r.Ok? ==> r.value == set i | 0 <= i < |tags| :: Tag(Trim(tags[i]))
    ensures r.Err? ==> r.error == InvalidTag
  {
    var tagSet: set<Tag> := {};
    for i := 0 to |tags|
      invariant forall j :: 0 <= j < i ==> rules.isValidTagName(Trim(tags[j]))
      invariant tagSet == set j | 0 <= j < i :: Tag(Trim(tags[j]))
    {
      var tag := ParseTag(rules, tags[i]);
      if tag.Err? {
        return Err(tag.error);
      }
      tagSet := tagSet + {tag.value};
    }
    r := Ok(tagSet);
  }
}
