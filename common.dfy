/** Shared vocabulary of the film catalogue model: optional values, the
    failures the service aborts with (each carrying its HTTP status code), and
    a first-match search over table rows. */
module Common {

  datatype Option<+T> = None | Some(value: T)

  /** Why an operation aborted. Each case is one `abort(...)` (or one uncaught
      exception) of the service; `Status()` is the code the client sees. */
  datatype Failure =
    | FilmNotFound        // first_or_404 on a film id
    | DirectorNotFound    // first_or_404 on a director name
    | NicknameNotFound    // first_or_404 on a nickname at login
    | FilmExists          // same (name, release date) already stored
    | NicknameTaken
    | EmailTaken
    | WrongDateFormat     // strptime failed
    | PasswordTooShort
    | NicknameTooShort
    | NotCreatorOrAdmin   // edit/delete of someone else's film
    | WrongPassword       // login with a password that does not verify
    | PageNotFound        // paginate with a page or page size below 1
    | WrongRateValue
    | NotAdmin            // director deletion by a non-admin
    | MissingArgument     // a required request argument was not supplied
    | IntegrityError      // a unique column refused the commit
    | IndexError          // a release range with a single date
    | NotLoggedIn         // `login_required` with no user in the session
    | DateColumnType      // a `Date` column was given something that is not a date
  {
    /** The HTTP status code the service answers with. */
    function Status(): int {
      match this
      case WrongRateValue | NotAdmin | MissingArgument => 400
      case IntegrityError | IndexError | DateColumnType => 500
      case NotLoggedIn => 401
      case _ => 404
    }
  }

  datatype Result<+T> = Ok(value: T) | Err(failure: Failure)

  /** Index of the first element of `s` satisfying `p`: what
      `query.filter_by(...).first()` returns over a table scanned in
      primary-key order. */
  function FindFirst<T>(s: seq<T>, p: T -> bool): (r: Option<nat>)
    ensures r.Some? ==> r.value < |s| && p(s[r.value])
    ensures r.Some? ==> forall j :: 0 <= j < r.value ==> !p(s[j])
    ensures r.None? ==> forall j :: 0 <= j < |s| ==> !p(s[j])
  {
    if s == [] then None
    else if p(s[0]) then Some(0)
    else match FindFirst(s[1..], p)
      case None => None
      case Some(i) => Some(i + 1)
  }
}
