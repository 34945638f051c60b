/**
 * The state of the `QRValidator` component and the steps that change it: loading the
 * CSV file, checking a number, searching, and the check that runs when a number was
 * passed in the page's query string.
 */
module QrValidator {
  import opened Wrappers
  import opened Text
  import opened Registry

  /** The `result` record: the number as it was submitted and whether it is valid. */
  datatype QueryResult = QueryResult(number: string, isValid: bool)

  /**
   * What the fetch of the CSV file came back with: the body text of an ok response,
   * or a failure (a response that is not ok, or a thrown error).
   */
  datatype FetchOutcome = Fetched(text: string) | FetchFailed

  /** The message `loadCSVFromGitHub` stores in `error` when loading fails. */
  const LoadErrorMessage: string := "Fehler beim Laden der Datenbank. Bitte sp\U{00E4}ter erneut versuchen."

  class Validator {
    var validNumbers: set<string>
    var searchNumber: string
    var result: Option<QueryResult>
    var loading: bool
    var error: Option<string>

    /**
     * The set only ever holds parsed identifiers; while a load is running no error is
     * shown; the only error is the load failure message.
     */
    ghost predicate Valid()
      reads this
    {
      (forall t :: t in validNumbers ==> IsIdentifier(t))
      && (loading ==> error == None)
      && (error == None || error == Some(LoadErrorMessage))
    }

    /** The initial state of the component's `useState` hooks. */
    constructor ()
      ensures Valid()
      ensures validNumbers == {} && searchNumber == [] && result == None
      ensures loading && error == None
    {
      validNumbers := {};
      searchNumber := [];
      result := None;
      loading := true;
      error := None;
    }

    /** Start of `loadCSVFromGitHub`: the spinner is shown and the error cleared. */
    method BeginLoad()
      requires Valid()
      modifies this
      ensures Valid()
      ensures loading && error == None
      ensures validNumbers == old(validNumbers) && searchNumber == old(searchNumber) && result == old(result)
    {
      loading := true;
      error := None;
    }

    /**
     * The rest of `loadCSVFromGitHub`, once the fetch has an outcome. On success the
     * set is replaced by the parse of the text; on failure the old set is kept and the
     * error message is stored. Either way loading ends.
     */
    method FinishLoad(outcome: FetchOutcome)
      requires Valid()
      modifies this
      ensures Valid()
      ensures !loading
      ensures outcome.Fetched? ==> validNumbers == Parse(outcome.text) && error == old(error)
      ensures outcome.FetchFailed? ==> validNumbers == old(validNumbers) && error == Some(LoadErrorMessage)
      ensures searchNumber == old(searchNumber) && result == old(result)
    {
      match outcome
      case Fetched(text) =>
        var numbers := ParseCsv(text);
        validNumbers := numbers;
        loading := false;
      case FetchFailed =>
        error := Some(LoadErrorMessage);
        loading := false;
    }

    /** `checkNumber`: the trimmed number is looked up, the untrimmed one is recorded. */
    method CheckNumber(number: string)
      requires Valid()
      modifies this`result
      ensures Valid()
      ensures result == Some(QueryResult(number, IsListed(validNumbers, number)))
      ensures Trim(number) == [] ==> !result.value.isValid
    {
      var isValid := Trim(number) in validNumbers;
      result := Some(QueryResult(number, isValid));
    }

    /** `handleSearch`: checks the typed number unless it is blank. */
    method HandleSearch()
      requires Valid()
      modifies this`result
      ensures Valid()
      ensures Trim(searchNumber) == [] ==> result == old(result)
      ensures Trim(searchNumber) != [] ==>
        result == Some(QueryResult(searchNumber, IsListed(validNumbers, searchNumber)))
    {
      if Trim(searchNumber) != [] {
        CheckNumber(searchNumber);
      }
    }

    /** The input field's `onChange`: the typed text becomes `searchNumber`. */
    method EditSearch(text: string)
      requires Valid()
      modifies this`searchNumber
      ensures Valid()
      ensures searchNumber == text
    {
      searchNumber := text;
    }

    /**
     * The effect that runs when `validNumbers` changes: with a non-empty set and a
     * non-empty `number` query parameter, that parameter becomes the search text and
     * is checked; otherwise nothing changes.
     */
    method AutoCheck(numberParam: Option<string>)
      requires Valid()
      modifies this`searchNumber, this`result
      ensures Valid()
      ensures var fires := validNumbers != {} && numberParam.Some? && numberParam.value != [];
        if fires then
          searchNumber == numberParam.value
          && result == Some(QueryResult(numberParam.value, IsListed(validNumbers, numberParam.value)))
        else
          searchNumber == old(searchNumber) && result == old(result)
    {
      if |validNumbers| > 0 {
        if numberParam.Some? && numberParam.value != [] {
          searchNumber := numberParam.value;
          CheckNumber(numberParam.value);
        }
      }
    }

    /**
     * One whole load (on mount, on retry, or on refresh): begin, finish with the fetch
     * outcome, and, since a successful load always installs a new set, run the
     * query-parameter effect.
     */
    method Load(outcome: FetchOutcome, numberParam: Option<string>)
      requires Valid()
      modifies this
      ensures Valid()
      ensures !loading
      ensures outcome.FetchFailed? ==>
        validNumbers == old(validNumbers) && error == Some(LoadErrorMessage)
        && searchNumber == old(searchNumber) && result == old(result)
      ensures outcome.Fetched? ==>
        validNumbers == Parse(outcome.text) && error == None
        && var fires := validNumbers != {} && numberParam.Some? && numberParam.value != [];
        if fires then
          searchNumber == numberParam.value
          && result == Some(QueryResult(numberParam.value, IsListed(validNumbers, numberParam.value)))
        else
          searchNumber == old(searchNumber) && result == old(result)
    {
      BeginLoad();
      FinishLoad(outcome);
      if outcome.Fetched? {
        AutoCheck(numberParam);
      }
    }
  }
}
