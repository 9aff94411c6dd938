/**
 * RegistrationRequestResource: the validation and dispatch that the REST endpoint
 * performs around the workflow service. `authenticate()` and
 * `checkBaseFunction(BaseFunction.ADMIN)` are given as booleans; the JSON body of a
 * review is given already parsed.
 */
module Resource {
  import opened Wrappers
  import opened Text
  import opened Exceptions
  import opened Model
  import opened Dao
  import opened Service

  /** The body of a review call: not a JSON object, or an object whose "status" key may be absent. */
  datatype ReviewBody = MalformedJson | JsonObject(status: Option<string>)

  /** Which service method a review calls. */
  datatype Decision = Accept | Reject

  /** One element of the "requests" array that `list` returns. */
  datatype Row = Row(id: string, email: string, fullname: string, message: string, status: string, createdDate: int)

  /**
   * The guard of `list` and `review`: the caller is authenticated and holds the ADMIN
   * base function; failing either check refuses the call.
   */
  predicate IsAdministrator(authenticated: bool, admin: bool): (allowed: bool)
    ensures !authenticated ==> !allowed
    ensures !admin ==> !allowed
    ensures authenticated && admin ==> allowed
  {
    authenticated && admin
  }

  /**
   * The checks of `submit`: both email and fullname must be present and non-empty once
   * trimmed; what passes on is their trimmed form.
   */
  function ValidateSubmission(email: Option<string>, fullname: Option<string>): (r: Result<(string, string), Error>)
    ensures r.Success? <==> email.Some? && fullname.Some? && Trim(email.value) != "" && Trim(fullname.value) != ""
    ensures r.Success? ==> r.value == (Trim(email.value), Trim(fullname.value))
    ensures r.Failure? ==> r.error == ClientException(ValidationError)
  {
    if email.None? || fullname.None? || Trim(email.value) == "" || Trim(fullname.value) == "" then
      Failure(ClientException(ValidationError))
    else
      Success((Trim(email.value), Trim(fullname.value)))
  }

  /** An email or fullname made only of blanks is refused like a missing one. */
  lemma BlankSubmissionRefused(email: Option<string>, fullname: Option<string>)
    requires email.Some? && fullname.Some?
    requires (forall k :: 0 <= k < |email.value| ==> IsBlank(email.value[k]))
          || (forall k :: 0 <= k < |fullname.value| ==> IsBlank(fullname.value[k]))
    ensures ValidateSubmission(email, fullname) == Failure(ClientException(ValidationError))
  {
  }

  /**
   * The dispatch of `review`: a missing or empty status is refused; otherwise its
   * lower-case form selects accept or reject, and anything else is refused.
   */
  function ReviewDecision(status: Option<string>): (r: Result<Decision, Error>)
    ensures status.None? || status.value == "" ==> r == Failure(ClientException(ValidationError))
    ensures r == Success(Accept) <==> status.Some? && ToLowerCase(status.value) == "accepted"
    ensures r == Success(Reject) <==> status.Some? && ToLowerCase(status.value) == "rejected"
    ensures r.Failure? ==> r.error == ClientException(ValidationError)
  {
    if status.None? || status.value == "" then
      Failure(ClientException(ValidationError))
    else
      var statusLower := ToLowerCase(status.value);
      if statusLower == "accepted" then Success(Accept)
      else if statusLower == "rejected" then Success(Reject)
      else Failure(ClientException(ValidationError))
  }

  /** The requested status is compared without regard to case. */
  lemma ReviewDecisionIgnoresCase(status: string)
    ensures ReviewDecision(Some(status)) == Success(Accept) <==> EqualsIgnoreCase(status, "accepted")
    ensures ReviewDecision(Some(status)) == Success(Reject) <==> EqualsIgnoreCase(status, "rejected")
  {
    EqualsIgnoreCaseIff(status, "accepted");
    EqualsIgnoreCaseIff(status, "rejected");
    assert ToLowerCase("accepted") == "accepted";
    assert ToLowerCase("rejected") == "rejected";
  }

  /**
   * The row `list` builds for a stored request: an absent message becomes "", and the
   * status is shown in upper case.
   */
  function RowOf(request: RegistrationRequest): (row: Row)
    reads request
    requires request.id.Some? && request.createdDate.Some?
    ensures row.id == request.id.value && row.email == request.email && row.fullname == request.fullname
    ensures request.message.None? ==> row.message == ""
    ensures request.message.Some? ==> row.message == request.message.value
    ensures EqualsIgnoreCase(row.status, request.status)
    ensures forall k :: 0 <= k < |row.status| ==> !IsAsciiLower(row.status[k])
    ensures row.createdDate == request.createdDate.value
  {
    Row(id := request.id.value,
        email := request.email,
        fullname := request.fullname,
        message := if request.message.None? then "" else request.message.value,
        status := ToUpperCase(request.status),
        createdDate := request.createdDate.value)
  }

  class RegistrationRequestResource {
    const requestService: RegistrationRequestService

    constructor (requestService: RegistrationRequestService)
      ensures this.requestService == requestService
    {
      this.requestService := requestService;
    }

    /**
     * `submit` (open to guests): refuses a missing or blank email or fullname before
     * the service is called; otherwise submits the trimmed email and fullname with the
     * message as given, and answers with what the service did.
     */
    method Submit(email: Option<string>, fullname: Option<string>, message: Option<string>, now: int)
      returns (result: Outcome<Error>)
      requires requestService.Valid()
      modifies requestService.requestDao
      ensures requestService.Valid()
      ensures ValidateSubmission(email, fullname).Failure? ==>
        result == Fail(ClientException(ValidationError)) && requestService.NothingChanged()
      ensures ValidateSubmission(email, fullname).Success? ==>
        var (trimmedEmail, trimmedFullname) := ValidateSubmission(email, fullname).value;
        exists outcome :: requestService.SubmitOutcome(trimmedEmail, trimmedFullname, message, now, outcome)
                          && result == if outcome.Success? then Pass else Fail(outcome.error)
    {
      var trimmedEmail := if email.Some? then Some(Trim(email.value)) else None;
      var trimmedFullname := if fullname.Some? then Some(Trim(fullname.value)) else None;
      if trimmedEmail.None? || trimmedFullname.None? || trimmedEmail.value == "" || trimmedFullname.value == "" {
        return Fail(ClientException(ValidationError));
      }
      var outcome := requestService.SubmitRequest(trimmedEmail.value, trimmedFullname.value, message, now);
      result := if outcome.Success? then Pass else Fail(outcome.error);
    }

    /**
     * `list` (administrators only): one row per stored request, newest first.
     * `listing` is what `findAll` returned.
     */
    method List(authenticated: bool, admin: bool)
      returns (result: Result<seq<Row>, Error>, ghost listing: seq<RegistrationRequest>)
      requires requestService.Valid()
      ensures !IsAdministrator(authenticated, admin) ==> result == Failure(ForbiddenClientException)
      ensures IsAdministrator(authenticated, admin) ==>
        && result.Success?
        && (forall r :: r in listing <==> r in requestService.requestDao.table.Values)
        && Distinct(listing)
        && NewestFirst(listing)
        && |result.value| == |listing|
        && forall i :: 0 <= i < |listing| ==>
             listing[i].id.Some? && listing[i].createdDate.Some? && result.value[i] == RowOf(listing[i])
    {
      listing := [];
      if !authenticated {
        return Failure(ForbiddenClientException), listing;
      }
      if !admin {
        return Failure(ForbiddenClientException), listing;
      }
      var requests := requestService.requestDao.FindAll();
      listing := requests;
      var rows: seq<Row> := [];
      for i := 0 to |requests|
        invariant |rows| == i
        invariant forall j :: 0 <= j < i ==>
          requests[j].id.Some? && requests[j].createdDate.Some? && rows[j] == RowOf(requests[j])
      {
        rows := rows + [RowOf(requests[i])];
      }
      result := Success(rows);
    }

    /**
     * `review` (administrators only): the authorization check comes before the body
     * is read; then the status is validated and dispatched to `acceptRequest`, whose
     * password is added to the answer, or to `rejectRequest`. `fault` is passed on to
     * account creation.
     */
    method Review(authenticated: bool, admin: bool, id: string, body: ReviewBody, fault: Option<string>, now: int)
      returns (result: Result<Option<string>, Error>)
      requires requestService.Valid()
      modifies requestService.requestDao, requestService.requestDao.table.Values, requestService.userDao
      ensures requestService.Valid()
      ensures !IsAdministrator(authenticated, admin) ==>
        result == Failure(ForbiddenClientException) && requestService.NothingChanged()
      ensures IsAdministrator(authenticated, admin) && body.MalformedJson? ==>
        result == Failure(JsonParsingException) && requestService.NothingChanged()
      ensures IsAdministrator(authenticated, admin) && body.JsonObject? && ReviewDecision(body.status).Failure? ==>
        result == Failure(ClientException(ValidationError)) && requestService.NothingChanged()
      ensures IsAdministrator(authenticated, admin) && body.JsonObject? && ReviewDecision(body.status) == Success(Accept) ==>
        exists outcome :: requestService.AcceptOutcome(id, fault, outcome)
                          && result == if outcome.Success? then Success(Some(outcome.value)) else Failure(outcome.error)
      ensures IsAdministrator(authenticated, admin) && body.JsonObject? && ReviewDecision(body.status) == Success(Reject) ==>
        exists outcome :: requestService.RejectOutcome(id, outcome)
                          && result == if outcome.Pass? then Success(None) else Failure(outcome.error)
    {
      if !authenticated {
        return Failure(ForbiddenClientException);
      }
      if !admin {
        return Failure(ForbiddenClientException);
      }
      if body.MalformedJson? {
        return Failure(JsonParsingException);
      }
      var status := body.status;
      if status.None? || status.value == "" {
        return Failure(ClientException(ValidationError));
      }
      var statusLower := ToLowerCase(status.value);
      if statusLower == "accepted" {
        var password := requestService.AcceptRequest(id, fault, now);
        result := if password.Success? then Success(Some(password.value)) else Failure(password.error);
      } else if statusLower == "rejected" {
        var outcome := requestService.RejectRequest(id, now);
        result := if outcome.Pass? then Success(None) else Failure(outcome.error);
      } else {
        return Failure(ClientException(ValidationError));
      }
    }
  }
}
