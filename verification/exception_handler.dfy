/** The booking service's mapping from exceptions to HTTP error responses.
    Spring chooses the handler of the most specific exception class, so a
    subclass of runtime exception with a handler of its own never reaches
    the generic one. */
module GlobalExceptionHandler {
  import opened Wrappers
  import opened Lang
  import opened BookingModel

  /** The status, reason phrase and message of an error body; its timestamp,
      path and trace id are not modelled. */
  datatype ErrorResponse = ErrorResponse(status: int, error: string, message: Option<string>)

  const ConflictMessage := "Room is not available for the requested dates"
  const HotelErrorPrefix := "Error communicating with hotel service: "
  const InternalServerError := "Internal Server Error"
  const BadRequest := "Bad Request"

  /** How Java renders a possibly-null string in a concatenation. */
  function JavaText(s: Option<string>): (r: string)
    ensures s.Some? ==> r == s.value
    ensures s.None? ==> r == "null"
  {
    if s.Some? then s.value else "null"
  }

  /** The text of one field error: field name, colon, message. */
  function FieldErrorText(e: FieldError): string {
    e.field + ": " + JavaText(e.defaultMessage)
  }

  /** All field errors, in order, separated by a comma and a space. */
  function ValidationMessage(errors: seq<FieldError>): string {
    Join(seq(|errors|, i requires 0 <= i < |errors| => FieldErrorText(errors[i])), ", ")
  }

  /** The runtime exception messages the generic handler answers with 400. */
  predicate IsClientMessage(m: Option<string>) {
    m.Some? && (Contains(m.value, "not found") || Contains(m.value, "already exists"))
  }

  /** The response for an exception. `reasons` is the table of status codes
      Spring's `HttpStatus` knows, with their reason phrases. */
  function Handle(f: Failure, reasons: map<int, string>): (r: ErrorResponse)
    // a remote conflict passes through as a conflict
    ensures f.Feign? && f.status == 409 ==> r == ErrorResponse(409, "Conflict", Some(ConflictMessage))
    // any other remote status is kept when known and becomes 500 otherwise
    ensures f.Feign? && f.status != 409 ==>
      && (r.status == if f.status in reasons then f.status else 500)
      && (f.status in reasons ==> r.error == reasons[f.status])
      && r.message == Some(HotelErrorPrefix + JavaText(f.message))
    ensures f.InvalidArguments? ==> r.status == 400 && r.error == "Validation Failed"
    // a plain runtime exception is a client error exactly when its message says so
    ensures f.Runtime? ==> (r.status == 400 <==> IsClientMessage(f.message)) && r.message == f.message
    ensures f.Runtime? && !IsClientMessage(f.message) ==> r.status == 500
    ensures f.IllegalArgument? ==> r == ErrorResponse(400, BadRequest, Some(f.reason))
    ensures f.AccessDenied? ==> r.status == 403
    ensures f.BadCredentials? ==> r.status == 401 && r.message == Some("Invalid credentials")
    ensures r.status in {400, 401, 403, 409, 500} || r.status in reasons
  {
    match f
    case Feign(status, message) =>
      if status == 409 then ErrorResponse(409, "Conflict", Some(ConflictMessage))
      else if status in reasons then ErrorResponse(status, reasons[status], Some(HotelErrorPrefix + JavaText(message)))
      else ErrorResponse(500, InternalServerError, Some(HotelErrorPrefix + JavaText(message)))
    case InvalidArguments(errors) => ErrorResponse(400, "Validation Failed", Some(ValidationMessage(errors)))
    case Runtime(message) =>
      if IsClientMessage(message) then ErrorResponse(400, BadRequest, message)
      else ErrorResponse(500, InternalServerError, message)
    case IllegalArgument(reason) => ErrorResponse(400, BadRequest, Some(reason))
    case AccessDenied => ErrorResponse(403, "Forbidden", Some("You don't have permission to access this resource"))
    case BadCredentials(_) => ErrorResponse(401, "Unauthorized", Some("Invalid credentials"))
  }

  /** The validation message lists the field errors in order: reading it
      back at the commas gives the first entry and then every later entry
      behind its space, provided no field or message contains a comma. */
  lemma ValidationMessageListsErrors(errors: seq<FieldError>)
    requires |errors| > 0
    requires forall i :: 0 <= i < |errors| ==> ',' !in FieldErrorText(errors[i])
    ensures var texts := seq(|errors|, i requires 0 <= i < |errors| => FieldErrorText(errors[i]));
      Split(ValidationMessage(errors), ',') == [texts[0]] + PrefixEach(texts[1..], " ")
  {
    var texts := seq(|errors|, i requires 0 <= i < |errors| => FieldErrorText(errors[i]));
    JoinPaddedSeparator(texts, ',', " ");
    assert ", " == [','] + " ";
    var padded := [texts[0]] + PrefixEach(texts[1..], " ");
    forall i | 0 <= i < |padded| ensures ',' !in padded[i] {
      if i > 0 {
        assert padded[i] == " " + texts[i];
      }
    }
    SplitJoin(padded, ',');
  }

  /** A missing user or booking and a taken username are client errors. */
  lemma LookupFailuresAreClientErrors(reasons: map<int, string>)
    ensures Handle(Fail(UserNotFound), reasons).status == 400
    ensures Handle(Fail(BookingNotFound), reasons).status == 400
    ensures Handle(Fail(UsernameTaken), reasons).status == 400
  {
    UserNotFoundSaysSo();
    BookingNotFoundSaysSo();
    UsernameTakenSaysSo();
  }

  lemma UserNotFoundSaysSo()
    ensures IsClientMessage(Some(UserNotFound))
  {
    SaysClientError("User ", "not found");
    assert "User " + "not found" + "" == UserNotFound;
  }

  lemma BookingNotFoundSaysSo()
    ensures IsClientMessage(Some(BookingNotFound))
  {
    SaysClientError("Booking ", "not found");
    assert "Booking " + "not found" + "" == BookingNotFound;
  }

  lemma UsernameTakenSaysSo()
    ensures IsClientMessage(Some(UsernameTaken))
  {
    SaysClientError("Username ", "already exists");
    assert "Username " + "already exists" + "" == UsernameTaken;
  }

  lemma SaysClientError(before: string, phrase: string)
    requires phrase == "not found" || phrase == "already exists"
    ensures IsClientMessage(Some(before + phrase + ""))
  {
    ContainsInfix(before, phrase, "");
  }

  /** A request for somebody else's booking is refused with a plain runtime
      exception, not an access-denied one, so it is a server error and not
      403; so is a runtime exception without a message. */
  lemma OwnershipViolationIsServerError(reasons: map<int, string>)
    ensures Handle(Fail(NotOwner), reasons).status == 500
    ensures Handle(Runtime(None), reasons).status == 500
  {
    NotOwnerSaysNeither();
  }

  lemma NotOwnerSaysNeither()
    ensures !IsClientMessage(Some(NotOwner))
  {
    LackingLettersInPieces("Access denied: ", "This booking ", "belongs to ", "another user");
  }

  /** A message lacking both an `f` and an `x` says neither "not found" nor
      "already exists". */
  lemma LackingLettersInPieces(p1: string, p2: string, p3: string, p4: string)
    requires 'f' !in p1 && 'f' !in p2 && 'f' !in p3 && 'f' !in p4
    requires 'x' !in p1 && 'x' !in p2 && 'x' !in p3 && 'x' !in p4
    ensures !IsClientMessage(Some(p1 + p2 + p3 + p4))
  {
    var m := p1 + p2 + p3 + p4;
    assert 'f' !in m && 'x' !in m;
    MissingCharNotContained(m, "not found", 'f');
    MissingCharNotContained(m, "already exists", 'x');
  }
}
