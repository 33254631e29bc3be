/** Argument validation and normalisation: the raw command-line record `Args`
    becomes a `Terms` value, or one of three error messages. */
module Config {
  import opened Text

  /** The three raw strings the command line supplies. */
  datatype Args = Args(query: string, file: string, caseSensitive: string)

  /** The validated search terms: the case-sensitivity token is now a flag. */
  datatype Terms = Terms(query: string, file: string, caseSensitive: bool)

  datatype Result<T> = Ok(value: T) | Err(error: string)

  const MissingQuery := "missing query argument..."
  const MissingFile := "missing file name..."
  const InvalidCaseSensitive := "invalid case sensitive argument..."

  /** What the command line fills in when `--file` or `--case-sensitive` is absent. */
  const DefaultFile := ""
  const DefaultCaseSensitive := "f"

  /** The token meaning "case-insensitive", in either casing. */
  predicate IsFalseToken(s: string)
  {
    s == "f" || s == "F"
  }

  /** The token meaning "case-sensitive", in either casing. */
  predicate IsTrueToken(s: string)
  {
    s == "t" || s == "T"
  }

  /** `validate_case_sensitive_character`: true when the token is NOT one of
      the accepted ones, i.e. its lowercase form is neither "f" nor "t". */
  function IsInvalidCaseSensitiveCharacter(caseSensitive: string): (invalid: bool)
    ensures invalid <==> !IsFalseToken(caseSensitive) && !IsTrueToken(caseSensitive)
  {
    ToLowerIsLetter(caseSensitive, 'f');
    ToLowerIsLetter(caseSensitive, 't');
    ToLower(caseSensitive) != "f" && ToLower(caseSensitive) != "t"
  }

  /** `parse_true_or_false_argument`: false exactly for the "f" token; every
      other string, valid or not, reads as true. */
  function ParseTrueOrFalseArgument(caseSensitive: string): (isCaseSensitive: bool)
    ensures !isCaseSensitive <==> IsFalseToken(caseSensitive)
  {
    ToLowerIsLetter(caseSensitive, 'f');
    if ToLower(caseSensitive) == "f" then false else true
  }

  /** `validate_args`: the query, then the file name, then the token; the
      first check that fails decides the error, and success is `Ok(true)`. */
  function ValidateArgs(args: Args): (r: Result<bool>)
    ensures r.Ok? <==> (args.query != "" && args.file != ""
                        && (IsFalseToken(args.caseSensitive) || IsTrueToken(args.caseSensitive)))
    ensures r.Ok? ==> r.value
    ensures args.query == "" ==> r == Err(MissingQuery)
    ensures args.query != "" && args.file == "" ==> r == Err(MissingFile)
    ensures args.query != "" && args.file != ""
            && !IsFalseToken(args.caseSensitive) && !IsTrueToken(args.caseSensitive)
            ==> r == Err(InvalidCaseSensitive)
  {
    if args.query == "" then Err(MissingQuery)
    else if args.file == "" then Err(MissingFile)
    else if IsInvalidCaseSensitiveCharacter(args.caseSensitive) then Err(InvalidCaseSensitive)
    else Ok(true)
  }

  /** `extract_terms_properties_from_args`: the query and file unchanged, and
      the token read as a flag. */
  function ExtractTermsProperties(args: Args): (props: (string, string, bool))
    ensures props.0 == args.query && props.1 == args.file
    ensures props.2 <==> !IsFalseToken(args.caseSensitive)
  {
    (args.query, args.file, ParseTrueOrFalseArgument(args.caseSensitive))
  }

  /** `create_terms_struct`: builds `Terms` without validating anything. */
  function CreateTerms(args: Args): (terms: Terms)
    ensures terms.query == args.query && terms.file == args.file
    ensures terms.caseSensitive <==> !IsFalseToken(args.caseSensitive)
  {
    var (query, file, caseSensitive) := ExtractTermsProperties(args);
    Terms(query, file, caseSensitive)
  }

  /** `Terms::new`: validation first; on success the query and file are copied
      unchanged, both are non-empty, and the flag is set exactly for the "t"
      token. */
  function NewTerms(args: Args): (r: Result<Terms>)
    ensures r.Ok? <==> ValidateArgs(args).Ok?
    ensures r.Err? ==> ValidateArgs(args) == Err(r.error)
    ensures r.Ok? ==> r.value.query == args.query && r.value.file == args.file
    ensures r.Ok? ==> r.value.query != "" && r.value.file != ""
    ensures r.Ok? ==> (r.value.caseSensitive <==> IsTrueToken(args.caseSensitive))
  {
    match ValidateArgs(args)
    case Err(e) => Err(e)
    case Ok(_) => Ok(CreateTerms(args))
  }

  // ---------------------------------------------------------------------------
  // Properties
  // ---------------------------------------------------------------------------

  /** The arguments that spell a `Terms` value out, with the lowercase token. */
  function ArgsOf(terms: Terms): Args
  {
    Args(terms.query, terms.file, if terms.caseSensitive then "t" else "f")
  }

  /** Every `Terms` with a non-empty query and file is what `NewTerms` makes
      of its own arguments; so validation loses nothing it keeps. */
  lemma NewTermsOfArgsOf(terms: Terms)
    requires terms.query != "" && terms.file != ""
    ensures NewTerms(ArgsOf(terms)) == Ok(terms)
  {
  }

  /** Conversely, arguments that validate are those of their `Terms`, up to
      the casing of the token. */
  lemma ArgsOfNewTerms(args: Args)
    requires NewTerms(args).Ok?
    ensures ArgsOf(NewTerms(args).value).query == args.query
    ensures ArgsOf(NewTerms(args).value).file == args.file
    ensures ToLower(ArgsOf(NewTerms(args).value).caseSensitive) == ToLower(args.caseSensitive)
  {
  }

  /** A run that names no file never gets past validation: the file name
      defaults to the empty string. */
  lemma DefaultFileRejected(query: string, caseSensitive: string)
    ensures NewTerms(Args(query, DefaultFile, caseSensitive))
         == Err(if query == "" then MissingQuery else MissingFile)
  {
  }

  /** Without `--case-sensitive` the search ignores case. */
  lemma DefaultIsCaseInsensitive(query: string, file: string)
    requires query != "" && file != ""
    ensures NewTerms(Args(query, file, DefaultCaseSensitive)) == Ok(Terms(query, file, false))
  {
  }
}
