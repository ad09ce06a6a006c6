/**
 * The two field rules of POST /events that the handler states itself
 * (src/index.ts, the `validateEvent` chain): availableSeats must be an
 * integer between 0 and 1000, and category must be exactly one of three
 * names.
 */
module EventValidation {
  import opened Wrappers

  /** The three categories an event may have. */
  datatype Category = Concert | Conference | Game

  /** The exact string the request body must carry for a category. */
  function NameOf(c: Category): string
  {
    match c
    case Concert => "Concert"
    case Conference => "Conference"
    case Game => "Game"
  }

  /** The custom category check: an exact, case-sensitive comparison with the three names. */
  function ParseCategory(s: string): (r: Option<Category>)
    ensures r.Some? ==> NameOf(r.value) == s
  {
    if s == "Concert" then Some(Concert)
    else if s == "Conference" then Some(Conference)
    else if s == "Game" then Some(Game)
    else None
  }

  /** Every category's name is accepted, and accepted as that category. */
  lemma ParseNameOf(c: Category)
    ensures ParseCategory(NameOf(c)) == Some(c)
  {
    match c
    case Concert =>
    case Conference =>
      assert NameOf(c) != "Concert" by { assert NameOf(c)[3] != "Concert"[3]; }
    case Game =>
      assert NameOf(c) != "Concert" by { assert NameOf(c)[0] != "Concert"[0]; }
      assert NameOf(c) != "Conference" by { assert NameOf(c)[0] != "Conference"[0]; }
  }

  /** A string is accepted exactly when it is the name of some category. */
  lemma ParseCategoryExact(s: string)
    ensures ParseCategory(s).Some? <==> exists c: Category :: NameOf(c) == s
  {
    if exists c: Category :: NameOf(c) == s {
      var c: Category :| NameOf(c) == s;
      ParseNameOf(c);
    }
  }

  const MinSeats: int := 0
  const MaxSeats: int := 1000

  /** The `isInt({ min: 0, max: 1000 })` rule on availableSeats. */
  predicate SeatsInRange(n: int)
  {
    MinSeats <= n <= MaxSeats
  }

  /** Which of the two rules a request body breaks. */
  datatype FieldError = SeatsOutOfRange | CategoryNotAllowed

  /**
   * The errors the two rules report, in the order of the validation chain
   * (availableSeats is checked before category).
   */
  function EventErrors(category: string, availableSeats: int): (errs: seq<FieldError>)
    ensures errs == [] <==> ParseCategory(category).Some? && SeatsInRange(availableSeats)
    ensures SeatsOutOfRange in errs <==> !SeatsInRange(availableSeats)
    ensures CategoryNotAllowed in errs <==> ParseCategory(category).None?
    ensures |errs| <= 2 && (|errs| == 2 ==> errs == [SeatsOutOfRange, CategoryNotAllowed])
  {
    (if SeatsInRange(availableSeats) then [] else [SeatsOutOfRange]) +
    (if ParseCategory(category).Some? then [] else [CategoryNotAllowed])
  }

  /** The accepted fields of a request body, or every rule it breaks. */
  function ValidateEvent(category: string, availableSeats: int): (r: Result<Category, seq<FieldError>>)
    ensures r.Success? ==> NameOf(r.value) == category && SeatsInRange(availableSeats)
    ensures r.Failure? ==> r.error != [] && r.error == EventErrors(category, availableSeats)
    ensures r.Success? <==> (exists c: Category :: NameOf(c) == category) && SeatsInRange(availableSeats)
  {
    ParseCategoryExact(category);
    var errs := EventErrors(category, availableSeats);
    if errs == [] then Success(ParseCategory(category).value) else Failure(errs)
  }
}
