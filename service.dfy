/**
 * RegistrationRequestService: the registration workflow. A request is stored with
 * status PENDING and is reviewed once, becoming ACCEPTED (after its account has been
 * created) or REJECTED. Each review changes the status on the stored object and then
 * stores that object again through `create`, which gives it a new id.
 */
module Service {
  import opened Wrappers
  import opened Text
  import opened Exceptions
  import opened Model
  import opened Users
  import opened Dao

  const PENDING: string := "PENDING"
  const ACCEPTED: string := "ACCEPTED"
  const REJECTED: string := "REJECTED"

  /** Storage quota of a provisioned account, in bytes (1 GiB). */
  const DEFAULT_STORAGE_QUOTA: int := 1073741824

  const UPPER_CASE_LETTERS: string := "ABCDEFGHIJKLMNOPQRSTUVWXYZ"
  const LOWER_CASE_LETTERS: string := "abcdefghijklmnopqrstuvwxyz"
  const DIGITS: string := "0123456789"

  /** The characters an initial password is drawn from, in the order of the source's literal. */
  const PASSWORD_CHARS: string := UPPER_CASE_LETTERS + LOWER_CASE_LETTERS + DIGITS

  const PASSWORD_LENGTH: nat := 8

  /**
   * The status test of both reviews, `"PENDING".equalsIgnoreCase(status)`: it holds
   * exactly when the status upper-cases to PENDING.
   */
  predicate IsPending(status: string): (pending: bool)
    ensures pending <==> ToUpperCase(status) == PENDING
  {
    EqualsIgnoreCaseIff(PENDING, status);
    assert ToUpperCase(PENDING) == PENDING;
    EqualsIgnoreCase(PENDING, status)
  }

  /** Of the three statuses the workflow writes, only PENDING can be reviewed. */
  lemma OnlyPendingIsReviewable()
    ensures IsPending(PENDING)
    ensures !IsPending(ACCEPTED) && !IsPending(REJECTED)
  {
    assert ACCEPTED[0] == 'A';
    assert REJECTED[0] == 'R';
  }

  predicate IsAsciiAlphanumeric(c: char) {
    'A' <= c <= 'Z' || 'a' <= c <= 'z' || '0' <= c <= '9'
  }

  /** The character at position `i` of the alphabet. */
  function AlphabetAt(i: int): char
    requires 0 <= i < 62
  {
    if i < 26 then ('A' as int + i) as char
    else if i < 52 then ('a' as int + i - 26) as char
    else ('0' as int + i - 52) as char
  }

  lemma PasswordCharAt(i: int)
    requires 0 <= i < 62
    ensures |PASSWORD_CHARS| == 62 && PASSWORD_CHARS[i] == AlphabetAt(i)
  {
    if i < 26 {
      assert PASSWORD_CHARS[i] == UPPER_CASE_LETTERS[i];
    } else if i < 52 {
      assert PASSWORD_CHARS[i] == LOWER_CASE_LETTERS[i - 26];
    } else {
      assert PASSWORD_CHARS[i] == DIGITS[i - 52];
    }
  }

  /** The password alphabet is exactly the 62 ASCII letters and digits, each once. */
  lemma PasswordCharsAreAlphanumerics()
    ensures |PASSWORD_CHARS| == 62
    ensures forall i, j :: 0 <= i < j < |PASSWORD_CHARS| ==> PASSWORD_CHARS[i] != PASSWORD_CHARS[j]
    ensures forall c :: c in PASSWORD_CHARS <==> IsAsciiAlphanumeric(c)
  {
    forall i | 0 <= i < |PASSWORD_CHARS| ensures IsAsciiAlphanumeric(PASSWORD_CHARS[i]) {
      PasswordCharAt(i);
    }
    forall c | IsAsciiAlphanumeric(c) ensures c in PASSWORD_CHARS {
      var i := if 'A' <= c <= 'Z' then c as int - 'A' as int
               else if 'a' <= c <= 'z' then 26 + c as int - 'a' as int
               else 52 + c as int - '0' as int;
      PasswordCharAt(i);
    }
    forall i, j | 0 <= i < j < |PASSWORD_CHARS| ensures PASSWORD_CHARS[i] != PASSWORD_CHARS[j] {
      PasswordCharAt(i);
      PasswordCharAt(j);
    }
  }

  /** What `generateRandomPassword` returns: 8 characters of the alphabet. */
  predicate IsPassword(password: string) {
    |password| == PASSWORD_LENGTH && forall k :: 0 <= k < |password| ==> password[k] in PASSWORD_CHARS
  }

  /**
   * The account `acceptRequest` asks for: named after the email, default role,
   * 1 GiB quota, onboarding on.
   */
  function NewAccount(email: string, password: string): (account: User)
    ensures account.username == email && account.email == email && account.password == password
    ensures account.roleId == DEFAULT_USER_ROLE
    ensures account.storageQuota == DEFAULT_STORAGE_QUOTA && account.onboarding
  {
    User(username := email, password := password, email := email,
         roleId := DEFAULT_USER_ROLE, storageQuota := DEFAULT_STORAGE_QUOTA, onboarding := true)
  }

  /** The exception `acceptRequest` raises when account creation fails with `message`. */
  function ProvisioningError(message: string): (e: Error)
    ensures e == ClientException(AlreadyExistingUsername) <==> message == "AlreadyExistingUsername"
    ensures e != ClientException(AlreadyExistingUsername) ==> e == ServerException(UnknownError)
  {
    if message == "AlreadyExistingUsername" then ClientException(AlreadyExistingUsername)
    else ServerException(UnknownError)
  }

  class RegistrationRequestService {
    const requestDao: RegistrationRequestDao
    const userDao: UserDao

    constructor (requestDao: RegistrationRequestDao, userDao: UserDao)
      ensures this.requestDao == requestDao && this.userDao == userDao
    {
      this.requestDao := requestDao;
      this.userDao := userDao;
    }

    ghost predicate Valid()
      reads requestDao, requestDao.table.Values
    {
      requestDao.Valid()
    }

    /** Every stored status is one of the three upper-case literals. */
    ghost predicate StatusesKnown()
      reads requestDao, requestDao.table.Values
    {
      forall k :: k in requestDao.table ==> requestDao.table[k].status in {PENDING, ACCEPTED, REJECTED}
    }

    /** No request is ACCEPTED without an active account named after its email. */
    ghost predicate AcceptedHaveAccounts()
      reads requestDao, requestDao.table.Values, userDao
    {
      forall k :: k in requestDao.table && requestDao.table[k].status == ACCEPTED ==>
        requestDao.table[k].email in userDao.active
    }

    /** Neither a stored record nor an account changed. */
    twostate predicate NothingChanged()
      reads requestDao, requestDao.table.Values, userDao
    {
      && requestDao.table == old(requestDao.table)
      && unchanged(requestDao.table.Values)
      && userDao.active == old(userDao.active)
    }

    /**
     * The record stored under `requestId` now has `status`, and `create` has stored it
     * again under a fresh id, which its id field now holds; its other fields and every
     * other record are as they were.
     */
    twostate predicate StoredAgainWith(requestId: string, status: string)
      reads requestDao, requestDao.table.Values
    {
      && requestId in old(requestDao.table)
      && var r := old(requestDao.table[requestId]);
      && requestId in requestDao.table && requestDao.table[requestId] == r
      && r.id.Some? && r.id.value !in old(requestDao.table)
      && requestDao.table == old(requestDao.table)[r.id.value := r]
      && r.status == status
      && r.email == old(r.email) && r.fullname == old(r.fullname)
      && r.message == old(r.message) && r.createdDate == old(r.createdDate)
      && forall o :: o in requestDao.table.Values && o != r ==> unchanged(o)
    }

    /** What `submitRequest(email, fullname, message)` at time `now` does. */
    twostate predicate SubmitOutcome(email: string, fullname: string, message: Option<string>, now: int,
                                     new result: Result<string, Error>)
      reads requestDao, requestDao.table.Values, userDao
    {
      if email in old(userDao.active) then
        result == Failure(ClientException(AlreadyExistingUsername)) && NothingChanged()
      else
        && result.Success?
        && var id := result.value;
        && id !in old(requestDao.table)
        && id in requestDao.table
        && var r := requestDao.table[id];
        && fresh(r)
        && requestDao.table == old(requestDao.table)[id := r]
        && r.id == Some(id) && r.email == email && r.fullname == fullname && r.message == message
        && r.status == PENDING && r.createdDate == Some(now)
        && (forall o :: o in requestDao.table.Values && o != r ==> unchanged(o))
        && userDao.active == old(userDao.active)
    }

    /** What `acceptRequest(requestId)` does when account creation would otherwise fail with `fault`. */
    twostate predicate AcceptOutcome(requestId: string, fault: Option<string>, new result: Result<string, Error>)
      reads requestDao, requestDao.table.Values, userDao
    {
      if requestId !in old(requestDao.table) then
        result == Failure(ClientException(UnknownRequest)) && NothingChanged()
      else if !IsPending(old(requestDao.table[requestId].status)) then
        result == Failure(ClientException(AlreadyProcessed)) && NothingChanged()
      else
        var email := old(requestDao.table[requestId].email);
        var failure := if email in old(userDao.active) then Some("AlreadyExistingUsername") else fault;
        if failure.Some? then
          result == Failure(ProvisioningError(failure.value)) && NothingChanged()
        else
          && result.Success?
          && IsPassword(result.value)
          && userDao.active == old(userDao.active)[email := NewAccount(email, result.value)]
          && StoredAgainWith(requestId, ACCEPTED)
    }

    /** What `rejectRequest(requestId)` does. */
    twostate predicate RejectOutcome(requestId: string, new result: Outcome<Error>)
      reads requestDao, requestDao.table.Values, userDao
    {
      if requestId !in old(requestDao.table) then
        result == Fail(ClientException(UnknownRequest)) && NothingChanged()
      else if !IsPending(old(requestDao.table[requestId].status)) then
        result == Fail(ClientException(AlreadyProcessed)) && NothingChanged()
      else
        && result == Pass
        && userDao.active == old(userDao.active)
        && StoredAgainWith(requestId, REJECTED)
    }

    /** The request `submitRequest` builds with the fluent setters, before it is stored. */
    static method NewPendingRequest(email: string, fullname: string, message: Option<string>, now: int)
      returns (request: RegistrationRequest)
      ensures fresh(request)
      ensures request.id == None && request.email == email && request.fullname == fullname
      ensures request.message == message && request.status == PENDING && request.createdDate == Some(now)
    {
      request := new RegistrationRequest();
      var self := request.SetEmail(email);
      self := self.SetFullname(fullname);
      self := self.SetMessage(message);
      self := self.SetStatus(PENDING);
      self := self.SetCreatedDate(Some(now));
    }

    /**
     * `submitRequest`: refuses an email that already names an active account;
     * otherwise stores a new PENDING request created at `now` and returns its id.
     */
    method SubmitRequest(email: string, fullname: string, message: Option<string>, now: int)
      returns (result: Result<string, Error>)
      requires Valid()
      modifies requestDao
      ensures Valid()
      ensures SubmitOutcome(email, fullname, message, now, result)
      ensures old(StatusesKnown()) ==> StatusesKnown()
      ensures old(AcceptedHaveAccounts()) ==> AcceptedHaveAccounts()
    {
      var existingUser := userDao.GetActiveByUsername(email);
      if existingUser.Some? {
        return Failure(ClientException(AlreadyExistingUsername));
      }
      var request := NewPendingRequest(email, fullname, message, now);
      var id := requestDao.Create(request, now);
      return Success(request.id.value);
    }

    /**
     * `acceptRequest`: for a stored, pending request, creates its account with a new
     * password and only then marks it ACCEPTED and stores it again; returns the password.
     * `fault` is the failure account creation meets when the username is free.
     */
    method AcceptRequest(requestId: string, fault: Option<string>, now: int)
      returns (result: Result<string, Error>)
      requires Valid()
      modifies requestDao, requestDao.table.Values, userDao
      ensures Valid()
      ensures AcceptOutcome(requestId, fault, result)
      ensures old(StatusesKnown()) ==> StatusesKnown()
      ensures old(AcceptedHaveAccounts()) ==> AcceptedHaveAccounts()
    {
      var request := requestDao.GetById(requestId);
      if request == null {
        return Failure(ClientException(UnknownRequest));
      }
      if !IsPending(request.status) {
        return Failure(ClientException(AlreadyProcessed));
      }
      var password := GenerateRandomPassword();
      var user := NewAccount(request.email, password);
      var failure := userDao.Create(user, fault);
      if failure.Some? {
        return Failure(ProvisioningError(failure.value));
      }
      var self := request.SetStatus(ACCEPTED);
      var newId := requestDao.Create(request, now);
      return Success(password);
    }

    /** `rejectRequest`: marks a stored, pending request REJECTED and stores it again. */
    method RejectRequest(requestId: string, now: int) returns (result: Outcome<Error>)
      requires Valid()
      modifies requestDao, requestDao.table.Values
      ensures Valid()
      ensures RejectOutcome(requestId, result)
      ensures old(StatusesKnown()) ==> StatusesKnown()
      ensures old(AcceptedHaveAccounts()) ==> AcceptedHaveAccounts()
    {
      var request := requestDao.GetById(requestId);
      if request == null {
        return Fail(ClientException(UnknownRequest));
      }
      if !IsPending(request.status) {
        return Fail(ClientException(AlreadyProcessed));
      }
      var self := request.SetStatus(REJECTED);
      var newId := requestDao.Create(request, now);
      return Pass;
    }

    /** `generateRandomPassword`: eight independent draws from the alphabet. */
    method GenerateRandomPassword() returns (password: string)
      ensures IsPassword(password)
    {
      var sb := "";
      for i := 0 to PASSWORD_LENGTH
        invariant |sb| == i
        invariant forall k :: 0 <= k < |sb| ==> sb[k] in PASSWORD_CHARS
      {
        var draw :| 0 <= draw < |PASSWORD_CHARS|;  // rnd.nextInt(chars.length())
        sb := sb + [PASSWORD_CHARS[draw]];
      }
      password := sb;
    }
  }

  /**
   * Once a request has been accepted, reviewing it again fails with AlreadyProcessed,
   * whether the review accepts or rejects and whether it names the id the request was
   * submitted under or the id it now carries.
   */
  method ReviewAfterAccept(service: RegistrationRequestService, requestId: string, fault: Option<string>, now: int)
    returns (accepted: Result<string, Error>,
             acceptedAgain: Result<string, Error>, acceptedByNewId: Result<string, Error>,
             rejectedAgain: Outcome<Error>, rejectedByNewId: Outcome<Error>)
    requires service.Valid()
    modifies service.requestDao, service.requestDao.table.Values, service.userDao
    ensures accepted.Success? ==>
      && acceptedAgain == Failure(ClientException(AlreadyProcessed))
      && acceptedByNewId == Failure(ClientException(AlreadyProcessed))
      && rejectedAgain == Fail(ClientException(AlreadyProcessed))
      && rejectedByNewId == Fail(ClientException(AlreadyProcessed))
  {
    accepted := service.AcceptRequest(requestId, fault, now);
    var newId := if accepted.Success? then service.requestDao.table[requestId].id.value else requestId;
    OnlyPendingIsReviewable();
    acceptedAgain := service.AcceptRequest(requestId, fault, now);
    acceptedByNewId := service.AcceptRequest(newId, fault, now);
    rejectedAgain := service.RejectRequest(requestId, now);
    rejectedByNewId := service.RejectRequest(newId, now);
  }

  /**
   * Once a request has been rejected, reviewing it again fails with AlreadyProcessed
   * and creates no account, whether the review accepts or rejects and under either
   * of its ids.
   */
  method ReviewAfterReject(service: RegistrationRequestService, requestId: string, fault: Option<string>, now: int)
    returns (rejected: Outcome<Error>,
             acceptedAgain: Result<string, Error>, acceptedByNewId: Result<string, Error>,
             rejectedAgain: Outcome<Error>, rejectedByNewId: Outcome<Error>)
    requires service.Valid()
    modifies service.requestDao, service.requestDao.table.Values, service.userDao
    ensures rejected.Pass? ==>
      && acceptedAgain == Failure(ClientException(AlreadyProcessed))
      && acceptedByNewId == Failure(ClientException(AlreadyProcessed))
      && rejectedAgain == Fail(ClientException(AlreadyProcessed))
      && rejectedByNewId == Fail(ClientException(AlreadyProcessed))
    ensures rejected.Pass? ==> service.userDao.active == old(service.userDao.active)
  {
    rejected := service.RejectRequest(requestId, now);
    var newId := if rejected.Pass? then service.requestDao.table[requestId].id.value else requestId;
    OnlyPendingIsReviewable();
    acceptedAgain := service.AcceptRequest(requestId, fault, now);
    acceptedByNewId := service.AcceptRequest(newId, fault, now);
    rejectedAgain := service.RejectRequest(requestId, now);
    rejectedByNewId := service.RejectRequest(newId, now);
  }
}
