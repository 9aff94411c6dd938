# Guest registration workflow — a Dafny model

This project models how a guest registers for an account in the Teedy document manager.
A visitor submits a registration request with an email, a full name and an optional message.
The request is stored with status `PENDING`. Later an administrator reviews it:

- **Accept** creates an account named after the email, with a generated 8-character password. Only then does the request become `ACCEPTED`.
- **Reject** marks the request `REJECTED`.

A request that is no longer pending cannot be reviewed again.

The model has one module per source file. Two support modules model collaborators the core calls.

| module (file) | models |
|---|---|
| `Model` (model.dfy) | the `RegistrationRequest` entity. It is a class whose fluent setters assign one field and return the object. |
| `Dao` (dao.dfy) | `RegistrationRequestDao`. It is a table from id to the stored entity object, with `Create`, `GetById`, `FindAll` and `GetLatestByEmail`. |
| `Service` (service.dfy) | `RegistrationRequestService`: submission, acceptance, rejection, password generation and the mapping of provisioning errors. |
| `Resource` (resource.dfy) | the checks in `RegistrationRequestResource`: submit validation, review dispatch, list rows, and the administrator guard. |
| `Users` (users.dfy) | the account store that the service calls, as active accounts keyed by username. |
| `Text` (text.dfy) | `String.trim`, `toUpperCase`, `toLowerCase` and `equalsIgnoreCase`. |
| `Wrappers`, `Exceptions` (wrappers.dfy) | null values, results, and the exceptions the workflow throws. |

Key modelling choices:

- **The store holds object references.** The persistence layer returns the managed object itself. So a review's `setStatus` changes the stored record directly.
- **A review gives the record a new id.** The review then calls `create` on the same object, and `create` always overwrites the id with a fresh one. Afterwards the object is reachable under both its first id and its new id, and its `id` field holds the new one. The model states this (`StoredAgainWith`). It does not claim that the id is preserved.
- **A second review always fails.** Both ids lead to the same object, whose status is no longer pending. `ReviewAfterAccept` and `ReviewAfterReject` make all four later reviews of a reviewed request: accept and reject, each under the first id and under the new one. All four fail with `AlreadyProcessed`.
- **The store invariant.** `RegistrationRequestDao.Valid` says every stored record has an id and a creation date, and its own id leads back to it.
- **Two preserved invariants.** The workflow operations keep `StatusesKnown`: only `PENDING`, `ACCEPTED` and `REJECTED` are stored. They also keep `AcceptedHaveAccounts`: no request is `ACCEPTED` without an active account for its email.
- **External inputs become parameters.**
  - The clock (`new Date()`) is the parameter `now`.
  - `UUID.randomUUID` is a choice of any id not in the table.
  - `Random.nextInt(62)` is a choice of any index into the alphabet.
  - A provisioning failure other than a taken username is the parameter `fault`.
  - `authenticate()` and `checkBaseFunction(ADMIN)` are two booleans.
  - The review body is a value that is either malformed JSON or an object with an optional `status`.

Three facts about the code that a reader might not expect:

- `create` overwrites the id even when the record already has one.
- Only the REST resource trims the email and fullname and rejects empty values. `submitRequest` itself accepts any strings.
- Status is a free string compared with `equalsIgnoreCase`, not a closed enumeration.

## Model

| member | source | states |
|---|---|---|
| `Model.RegistrationRequest.constructor` | docs-core/src/main/java/com/sismics/docs/core/model/jpa/RegistrationRequest.java:15-51 | a new entity has no id, no message and no creation date |
| `Model.RegistrationRequest.SetId` | docs-core/src/main/java/com/sismics/docs/core/model/jpa/RegistrationRequest.java:59-62 | sets `id` to the argument and returns the object itself; the other five fields are unchanged |
| `Model.RegistrationRequest.SetEmail` | docs-core/src/main/java/com/sismics/docs/core/model/jpa/RegistrationRequest.java:68-71 | sets `email` and returns the object itself; the other fields are unchanged |
| `Model.RegistrationRequest.SetFullname` | docs-core/src/main/java/com/sismics/docs/core/model/jpa/RegistrationRequest.java:77-80 | sets `fullname` and returns the object itself; the other fields are unchanged |
| `Model.RegistrationRequest.SetMessage` | docs-core/src/main/java/com/sismics/docs/core/model/jpa/RegistrationRequest.java:86-89 | sets `message` (null allowed) and returns the object itself; the other fields are unchanged |
| `Model.RegistrationRequest.SetStatus` | docs-core/src/main/java/com/sismics/docs/core/model/jpa/RegistrationRequest.java:95-98 | sets `status` and returns the object itself; id, email, fullname, message and createdDate are unchanged |
| `Model.RegistrationRequest.SetCreatedDate` | docs-core/src/main/java/com/sismics/docs/core/model/jpa/RegistrationRequest.java:104-107 | sets `createdDate` and returns the object itself; the other fields are unchanged |
| `Dao.RegistrationRequestDao.Create` | docs-core/src/main/java/com/sismics/docs/core/dao/RegistrationRequestDao.java:23-31 | overwrites the record's id with one not yet in the store; keeps an existing createdDate and sets `now` only when it is missing; stores the record under the new id and returns that id, which `GetById` then maps to the record; keeps the store invariant |
| `Dao.RegistrationRequestDao.GetById` | docs-core/src/main/java/com/sismics/docs/core/dao/RegistrationRequestDao.java:39-42 | gives null exactly when no record is stored under the id, otherwise the stored record; reads only |
| `Dao.RegistrationRequestDao.FindAll` | docs-core/src/main/java/com/sismics/docs/core/dao/RegistrationRequestDao.java:50-54 | returns every stored record, each exactly once, ordered by createdDate newest first |
| `Dao.RegistrationRequestDao.GetLatestByEmail` | docs-core/src/main/java/com/sismics/docs/core/dao/RegistrationRequestDao.java:62-72 | gives null exactly when no stored record has the email; otherwise a stored record with that email whose createdDate is at least that of every other record with that email |
| `Dao.NewestExists` | docs-core/src/main/java/com/sismics/docs/core/dao/RegistrationRequestDao.java:64-68 | a non-empty set of records has a newest one, which is what the DESC ordering with one result selects |
| `Dao.FreshIdExists` | docs-core/src/main/java/com/sismics/docs/core/dao/RegistrationRequestDao.java:25 | an id that no stored record uses always exists, so the fresh UUID can be modelled |
| `Users.UserDao.GetActiveByUsername` | docs-core/src/main/java/com/sismics/docs/core/service/RegistrationRequestService.java:31 | finds an account exactly when an active account has that username, and then returns that account |
| `Users.UserDao.Create` | docs-core/src/main/java/com/sismics/docs/core/service/RegistrationRequestService.java:76-78 | a taken username fails with the message "AlreadyExistingUsername"; otherwise the outcome is the injected `fault`, and without one the account is added |
| `Service.RegistrationRequestService.NewPendingRequest` | docs-core/src/main/java/com/sismics/docs/core/service/RegistrationRequestService.java:37-42 | the setter chain builds a new object with no id, the given email, fullname and message, status `PENDING` and createdDate `now` |
| `Service.RegistrationRequestService.SubmitRequest` | docs-core/src/main/java/com/sismics/docs/core/service/RegistrationRequestService.java:29-45 | an email that names an active account fails with `AlreadyExistingUsername` and changes nothing. Otherwise exactly one new record is added under a fresh id: a new object with the given email, fullname and message, status `PENDING` and createdDate `now`. Its id is returned, and existing records and accounts are untouched |
| `Service.NewAccount` | docs-core/src/main/java/com/sismics/docs/core/service/RegistrationRequestService.java:68-75 | the requested account is named after the email, carries that email and the generated password, and has `DEFAULT_USER_ROLE`, quota 1073741824 and onboarding on |
| `Service.RegistrationRequestService.AcceptRequest` | docs-core/src/main/java/com/sismics/docs/core/service/RegistrationRequestService.java:54-90 | an unknown id fails with `UnknownRequest`, and a status other than PENDING (ignoring case) fails with `AlreadyProcessed`; both change nothing. If account creation fails, "AlreadyExistingUsername" maps to that client error and any other message to the server error `UnknownError`, with nothing changed and the status left as it was. On success the password is returned; it is 8 alphabet characters. Exactly one account is added: username and email equal to the request's email, that password, `DEFAULT_USER_ROLE`, quota 1073741824, onboarding on. The request is then `ACCEPTED` and stored again under a new id that its id field holds; its other fields are kept |
| `Service.RegistrationRequestService.RejectRequest` | docs-core/src/main/java/com/sismics/docs/core/service/RegistrationRequestService.java:98-109 | the same `UnknownRequest` and `AlreadyProcessed` guards, changing nothing. Otherwise the request becomes `REJECTED` and is stored again under a new id, and no account is created |
| `Service.RegistrationRequestService.GenerateRandomPassword` | docs-core/src/main/java/com/sismics/docs/core/service/RegistrationRequestService.java:114-122 | returns exactly 8 characters, each taken from the alphabet |
| `Service.PasswordCharsAreAlphanumerics` | docs-core/src/main/java/com/sismics/docs/core/service/RegistrationRequestService.java:115 | the alphabet has 62 characters, all different, and a character is in it exactly when it is an ASCII letter or digit |
| `Service.IsPending` | docs-core/src/main/java/com/sismics/docs/core/service/RegistrationRequestService.java:60 | the `"PENDING".equalsIgnoreCase(status)` guard of both reviews (also line 103) holds exactly when the status upper-cases to `PENDING` |
| `Service.OnlyPendingIsReviewable` | docs-core/src/main/java/com/sismics/docs/core/service/RegistrationRequestService.java:60-62 | of the three statuses the workflow writes, `ACCEPTED` and `REJECTED` fail the guard and `PENDING` passes it |
| `Service.ProvisioningError` | docs-core/src/main/java/com/sismics/docs/core/service/RegistrationRequestService.java:78-84 | the failure becomes the client error `AlreadyExistingUsername` exactly when its message is "AlreadyExistingUsername", and the server error `UnknownError` otherwise |
| `Service.ReviewAfterAccept` | docs-core/src/main/java/com/sismics/docs/core/service/RegistrationRequestService.java:60-62 | after a successful accept, accepting or rejecting again, under the first id or the new one, fails with `AlreadyProcessed` |
| `Service.ReviewAfterReject` | docs-core/src/main/java/com/sismics/docs/core/service/RegistrationRequestService.java:103-108 | after a successful reject, accepting or rejecting again, under the first id or the new one, fails with `AlreadyProcessed`, and no account is created |
| `Resource.IsAdministrator` | docs-web/src/main/java/com/sismics/docs/rest/resource/RegistrationRequestResource.java:84-87 | the guard of `list`, and of `review` at lines 126-129: the call is allowed exactly when the caller is authenticated and holds ADMIN; failing either check refuses it |
| `Resource.ValidateSubmission` | docs-web/src/main/java/com/sismics/docs/rest/resource/RegistrationRequestResource.java:51-56 | a submission passes exactly when email and fullname are present and non-empty after trimming, and what passes are the trimmed values; anything else is a `ValidationError` |
| `Resource.BlankSubmissionRefused` | docs-web/src/main/java/com/sismics/docs/rest/resource/RegistrationRequestResource.java:51-56 | an email or fullname made only of blanks is refused with `ValidationError` |
| `Resource.RegistrationRequestResource.Submit` | docs-web/src/main/java/com/sismics/docs/rest/resource/RegistrationRequestResource.java:47-61 | an invalid submission fails with `ValidationError` before any service call, and nothing changes. Otherwise the trimmed email and fullname and the untrimmed message go to `SubmitRequest`, and its outcome is the answer |
| `Resource.ReviewDecision` | docs-web/src/main/java/com/sismics/docs/rest/resource/RegistrationRequestResource.java:135-151 | a missing or empty status is a `ValidationError`. Otherwise a lower-cased status of "accepted" selects accept and "rejected" selects reject, and each holds exactly then; anything else is a `ValidationError` |
| `Resource.ReviewDecisionIgnoresCase` | docs-web/src/main/java/com/sismics/docs/rest/resource/RegistrationRequestResource.java:139-148 | accept is chosen exactly when the status equals "accepted" ignoring case, and reject exactly when it equals "rejected" ignoring case |
| `Resource.RegistrationRequestResource.Review` | docs-web/src/main/java/com/sismics/docs/rest/resource/RegistrationRequestResource.java:125-153 | a caller who is not an administrator gets `Forbidden` whatever the body, and nothing changes. A malformed body, then an invalid status, fail that way and call no service method. "accepted" answers with the outcome of `AcceptRequest` and its password; "rejected" answers with that of `RejectRequest` and no password |
| `Resource.RegistrationRequestResource.List` | docs-web/src/main/java/com/sismics/docs/rest/resource/RegistrationRequestResource.java:83-101 | a caller who is not an administrator gets `Forbidden`. Otherwise there is one row per stored record, in `FindAll` order: newest first, each record once |
| `Resource.RowOf` | docs-web/src/main/java/com/sismics/docs/rest/resource/RegistrationRequestResource.java:91-97 | a row copies id, email, fullname and the creation time; a null message becomes ""; the status is the stored one up to case, with no lower-case letter |
| `Text.Trim` | docs-web/src/main/java/com/sismics/docs/rest/resource/RegistrationRequestResource.java:51-52 | the result is the input without its longest prefix and suffix of characters at or below U+0020; it starts and ends with a non-blank character, and it is empty exactly when the input is all blanks |
| `Text.LeadingBlanks` | docs-web/src/main/java/com/sismics/docs/rest/resource/RegistrationRequestResource.java:51-52 | counts the blank prefix: every counted character is blank, and the next one is not |
| `Text.TrailingBlanks` | docs-web/src/main/java/com/sismics/docs/rest/resource/RegistrationRequestResource.java:51-52 | counts the blank suffix: every counted character is blank, and the one before it is not |
| `Text.ToUpperCase` | docs-web/src/main/java/com/sismics/docs/rest/resource/RegistrationRequestResource.java:96 | the result equals the input ignoring case and has no lower-case letter |
| `Text.ToLowerCase` | docs-web/src/main/java/com/sismics/docs/rest/resource/RegistrationRequestResource.java:139 | the result equals the input ignoring case and has no upper-case letter |
| `Text.CharEqualsIgnoreCase` | docs-core/src/main/java/com/sismics/docs/core/service/RegistrationRequestService.java:60 | one position of `regionMatches(true, ...)` as `equalsIgnoreCase` uses it: the characters match exactly when their upper-case forms are equal, and exactly when their lower-case forms are |
| `Text.EqualsIgnoreCase` | docs-core/src/main/java/com/sismics/docs/core/service/RegistrationRequestService.java:60 | `equalsIgnoreCase` with a non-null argument: equal lengths and equal upper-case forms at every position; equal strings always match |
| `Text.EqualsIgnoreCaseIff` | docs-core/src/main/java/com/sismics/docs/core/service/RegistrationRequestService.java:60 | `equalsIgnoreCase` holds exactly when the upper-case forms are equal, and exactly when the lower-case forms are equal |

## Left out

- JPA, the `EntityManager`, transactions and JPQL are replaced by the in-memory table. The model does not capture how JPA reacts when a managed entity's id changes, or what a later transaction would read back.
- Concurrency is left out; the model is sequential. Two submissions racing past the username check, or two reviews racing on one request, are not modelled.
- `UserDao` and the `User` entity are not part of this model. Only the account fields this workflow sets are kept. Password hashing, the account's own id, dates and keys, and audit logging are left out. A provisioning failure other than a taken username is an input.
- `Constants` is not part of this model. `DEFAULT_USER_ROLE` is the literal "user".
- `UUID.randomUUID` is modelled as any string not yet used as a key. UUID format and its 36-character length are not modelled.
- `java.util.Random` is modelled as any index in range. Uniformity and independence cannot be stated.
- `java.util.Date` is an integer number of milliseconds.
- Text.ToUpperCase, Text.ToLowerCase and Text.EqualsIgnoreCase: these map ASCII letters only. Java's case mapping is Unicode- and locale-aware and can change a string's length (for example "ß"), and `equalsIgnoreCase` also matches some non-ASCII letters. The workflow only stores the three upper-case literals, so the guard never sees such a status inside the model.
- `email`, `fullname` and `status` are plain strings, and their null state is the empty string. For `status` this changes nothing: `equalsIgnoreCase(null)` and `equalsIgnoreCase("")` are both false. The `NullPointerException` that `list` would throw for a null status is not modelled.
- Resource.RegistrationRequestResource.Review: a JSON `status` value that is not a string makes `getString` throw. That case is not modelled. Only a malformed or non-object body is, as `JsonParsingException`.
- JAX-RS annotations, JSON building and `Response` construction are left out. So are the 36/100/200/1000/20 column length limits.
- `authenticate` and `checkBaseFunction` live in `BaseResource`, which is not part of this model. They are two boolean inputs, and either one failing gives `ForbiddenClientException`.
- The resource reads the service's private `requestDao` field. The model lets `List` call the store directly.
- `getLatestByEmail` has no caller in the workflow. It is modelled and specified on its own.
