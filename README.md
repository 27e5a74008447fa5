# Virtual event management API — a Dafny model of its business rules

The API lets people open accounts and log in, lets organizers create,
update and delete events, and lets any signed-in user register for an
event. All state lives in process memory: a list of users, a list of
events and two identifier counters. This project models that state and
every rule the request handlers apply to it, and proves the invariants
the handlers keep:

- user and event identifiers are positive, unique and below their counters;
- e-mails are unique among users;
- a participant list never holds the same user twice;
- a registration never takes an event past a set limit;
- every participant of an event is a stored user whose registered events
  include that event.

Each handler is one atomic step.

Modules: two shared ones, then one per source file:

- `Common` (`common.dfy`): optional fields, HTTP replies, check outcomes,
  token claims and JavaScript truthiness of string fields.
- `Seqs` (`seqs.dfy`): first-index search (`find`, `findIndex`) and
  `split`/join on sequences. `includes` is Dafny's `in`.
- `Validators` (`validators.dfy`, `utils/validators.js`): the e-mail,
  password, date and time predicates.
- `Database` (`database.dfy`, `utils/database.js`): the user and event
  records and the class `Store`, which holds the lists and the counters.
- `Middleware` (`middleware.dfy`, `middleware/auth.js`): bearer-token
  extraction, token verification and the organizer role check.
- `AuthRoutes` (`auth_routes.dfy`, `routes/auth.js`): `/register` and `/login`.
- `EventRoutes` (`event_routes.dfy`, `routes/events.js`): list, get,
  create, update, delete and register-for-event.

The handlers that change the store are module-level methods that take a
`Store` (`modifies db`). Each one states its whole new state in terms of the old one. It does
so through a pure check function that returns either the error reply or
what the check found. Read-only handlers (`ListEvents`, `GetEvent`,
`Login`) are functions.

Three external services are parameters:

- Password hashing is an injective `Hashed` credential, and comparison is
  equality with it.
- Token verification is an oracle `string -> Option<Claims>`.
- The date parser is an oracle `string -> Option<int>`, and the clock is a
  `now: int` argument.

The code is looser than those invariants might suggest, and the model
follows the code:

- An update may set the limit below the current participant count, so
  "count never exceeds the limit" is kept by registration but not by
  update (`UpdateMayBreakCapacity`).
- A limit of 0 means no limit. A negative limit makes an event that is
  always full.
- An update checks a date or time only when the field is truthy.
- Identifiers stay unique only as long as the counters are not reset while
  records exist (`Store.ResetCounters`).
- Deleting an event does not touch the users' `registeredEvents`. The
  agreement between the two lists therefore holds in one direction only:
  from participants to registered events.

## Model

| member | source | states |
|---|---|---|
| `Seqs.JoinSplit` | middleware/auth.js:6 | splitting a string on a one-character separator loses nothing: joining the pieces gives the string back |
| `Seqs.SplitJoin` | middleware/auth.js:6 | splitting is the inverse of joining pieces that do not contain the separator |
| `Validators.ValidEmailHasShape` | utils/validators.js:2-5 | every accepted e-mail has the shape `L@D.T` with L, D, T non-empty and free of white space and `@` |
| `Validators.ShapeIsValidEmail` | utils/validators.js:2-5 | every string of the shape `L@D.T` is accepted (with the lemma above: accepted exactly when the pattern matches) |
| `Validators.IsValidPassword` | utils/validators.js:8-10 | true exactly when the password has at least 6 characters |
| `Validators.IsValidDate` | utils/validators.js:13-16 | false when the string does not parse; otherwise true exactly when the parsed instant is strictly after `now` |
| `Validators.ClockIsValidTime` | utils/validators.js:19-22 | every time 0:00–23:59 is accepted, with a two-digit hour and, below 10, with a one-digit hour |
| `Validators.ValidTimeIsClock` | utils/validators.js:19-22 | every accepted string is `H:MM` or `HH:MM` with hour 0–23 and minute 0–59 |
| `Validators.TimeExamples` | utils/validators.js:20 | "23:59", "09:05", "9:05" are accepted; "24:00" and "9:5" are not |
| `Database.UserIndex` | routes/events.js:185 | the first user with the identifier, or -1 exactly when no user has it |
| `Database.EmailIndex` | routes/auth.js:28 | the first user whose e-mail equals the given one exactly, or -1 exactly when there is none |
| `Database.EventIndex` | routes/events.js:102 | the first event with the parsed identifier, or -1 when the parameter is not a number or no event has it |
| `Database.LinkedAfterNewUser` | routes/auth.js:47 | appending a user keeps every participant enrolled in the events it joined |
| `Database.Store.constructor` | utils/database.js:2-7 | both lists start empty and both counters at 1; the store invariant holds |
| `Database.Store.GetNextUserId` | utils/database.js:10-12 | returns the counter and advances it by exactly one; the returned values since the last reset are strictly increasing; the event counter and the lists are unchanged; the store invariant is kept |
| `Database.Store.GetNextEventId` | utils/database.js:15-17 | the same for the event counter, leaving the user counter unchanged |
| `Database.Store.ResetCounters` | utils/database.js:20-23 | both counters become 1 and the lists are unchanged; afterwards the invariant holds exactly when both lists are empty |
| `Middleware.BearerOfScheme` | middleware/auth.js:6 | a header `<scheme> <token>` (section 2.1 of RFC 6750) yields exactly the token |
| `Middleware.BearerTokenShape` | middleware/auth.js:6-10 | a header yields a token exactly when it holds a space, and the token holds no space |
| `Middleware.Authenticate` | middleware/auth.js:6-16 | 401 "Access token required" exactly when there is no non-empty second piece; 401 "Invalid or expired token" exactly when the oracle refuses it; otherwise acceptance with exactly the decoded claims |
| `Middleware.VerifyToken` | middleware/auth.js:4-18 | answers as `Authenticate`; on acceptance sets `req.user` to the decoded claims, and on rejection leaves it unchanged |
| `Middleware.VerifyOrganizer` | middleware/auth.js:21-26 | passes exactly when the role claim is `organizer`, handing the identity on unchanged; otherwise 403 |
| `Middleware.Guard` | routes/events.js:50 | the guard chain of a protected route: token failures pass through unchanged, organizer-only routes accept only the `organizer` role, and a request is admitted exactly when its token verifies and, on an organizer-only route, carries that role |
| `AuthRoutes.RoleFor` | routes/auth.js:42 | the role is `organizer` exactly when `organizer` was requested, and `attendee` otherwise |
| `AuthRoutes.RegistrationCheck` | routes/auth.js:15-34 | the order of the checks: missing field (400), then e-mail format (400), then password length (400), then an e-mail already present by exact equality (409); a body with all three fields, a valid e-mail, a long enough password and an unused e-mail is accepted |
| `AuthRoutes.AppendUserKeepsValid` | routes/auth.js:28-47 | appending a user with the counter's identifier and an unused e-mail keeps identifiers and e-mails unique |
| `AuthRoutes.Register` | routes/auth.js:10-65 | a rejected body changes nothing; otherwise one user is appended: the counter's identifier, a hashed password, the derived role, no joined events. The reply is its profile without the password, and the store invariant is kept |
| `AuthRoutes.Login` | routes/auth.js:68-115 | 400 exactly when a field is missing; an unknown e-mail gives 401; success means a user with that e-mail and password, and the token claims and profile are exactly that user's |
| `AuthRoutes.LoginFailureIsUniform` | routes/auth.js:78-87 | an unknown e-mail and a wrong password give the identical reply |
| `AuthRoutes.StoredUserLogsIn` | routes/auth.js:78-99 | with unique e-mails, a stored user logging in with their own e-mail and password gets a token over exactly their claims |
| `EventRoutes.ListEvents` | routes/events.js:9-25 | every stored event in store order with `participantCount` equal to its number of participants; the total is the number of events |
| `EventRoutes.GetEvent` | routes/events.js:28-47 | 404 exactly when no event has the identifier; otherwise a stored event with that identifier and its participant count |
| `EventRoutes.CreationCheck` | routes/events.js:55-67 | missing name, date or time (400) before a non-future date (400), before a malformed time (400); a body passing all three is accepted |
| `EventRoutes.NewEventDefaults` | routes/events.js:68-81 | a new event has no participants and belongs to the caller; description and location default to empty; a falsy limit becomes null |
| `EventRoutes.CreateEvent` | routes/events.js:50-96 | a rejected body changes nothing; otherwise exactly one event is appended with the next event identifier, and the invariant is kept |
| `EventRoutes.UpdateCheck` | routes/events.js:101-124 | 404 when no event has the identifier, then 403 when the caller is not its organizer, then 400 for a supplied invalid date or time; the owning organizer with valid (or absent) date and time is accepted |
| `EventRoutes.UpdateKeepsIdentity` | routes/events.js:124-131 | an update never changes the identifier, owner, organizer name, participants or creation time; an empty body changes only the update time |
| `EventRoutes.UpdateMayBreakCapacity` | routes/events.js:130 | an update can set the limit below the current participant count |
| `EventRoutes.ReplaceKeepsValid` | routes/events.js:125-131 | replacing an event in place by one with the same identifier and a duplicate-free participant list keeps the event list valid |
| `EventRoutes.UpdateEvent` | routes/events.js:99-144 | a rejected request changes nothing; otherwise only the found event is rewritten by the field rules, and the reply carries it with its count |
| `EventRoutes.DeletionCheck` | routes/events.js:149-163 | 404 when no event has the identifier, then 403 when the caller is not its organizer; the owning organizer is accepted |
| `EventRoutes.RemoveAtKeepsValid` | routes/events.js:163 | removing one event keeps the others in order and the list valid, and no event with the removed identifier remains |
| `EventRoutes.DeleteEvent` | routes/events.js:147-173 | a rejected request changes nothing; otherwise exactly the found event is removed and returned |
| `EventRoutes.JoinCheck` | routes/events.js:178-201 | event missing (404), then user missing (404), then already a participant (400), then a truthy limit reached (400); an existing user not yet a participant of an event that is not full is accepted |
| `EventRoutes.JoinKeepsInvariants` | routes/events.js:190-201 | the admitted participant appears exactly once, the list stays free of duplicates, and a set limit is not exceeded |
| `EventRoutes.JoinKeepsLinked` | routes/events.js:200-204 | the two appends of a registration keep participants and registered events in agreement: the newcomer is enrolled and nobody loses an enrolment |
| `EventRoutes.OneSeatExample` | routes/events.js:196-201 | with a limit of 1, the first user is admitted and a second, different user is turned away as the event is full |
| `EventRoutes.RegisterForEvent` | routes/events.js:176-220 | a rejected request changes nothing. Otherwise two records change: the caller's id is appended to the event's participants, and the event id to the user's registered events. The counters and the invariant are kept |

## Left out

- `server.js` (Express bootstrap, body parsing, logging, the 404/500 fallbacks) is not part of this model.
- Outgoing e-mail (`utils/emailService.js`): the sends are fire-and-forget and their errors are only logged, so they cannot change the store or a reply. The model omits them.
- Password hashing: the salt and the cost factor are not modelled. A hash is the injective `Hashed(password)`.
- Database.Matches: compares whole passwords, whereas bcrypt reads only the first 72 bytes of the UTF-8 encoding, so `/login` in the program also accepts a different password sharing those 72 bytes with the stored one; the model answers 401 there, because strings are sequences of characters and UTF-8 encoding is not modelled.
- Token signing, signature checking and the 24-hour expiry are not modelled. A successful login returns the claims the token would be signed over. Verification is an oracle.
- The wall clock and `new Date(...)` parsing are parameters. One `now` serves a whole request, and timestamps are integers rather than ISO strings.
- `parseInt` of the path parameter is not modelled. The handlers take `Option<int>`, where None stands for NaN.
- Body fields that are JSON values of another type are not modelled: a `null` or a number in a string field, and a string or fractional value for `maxParticipants`.
- String lengths count Dafny characters (Unicode scalar values). JavaScript counts UTF-16 code units, so a character outside the Basic Multilingual Plane counts once here and twice in the source.
- The 500 "Internal server error" path is not modelled: nothing in the modelled handlers throws.
- Concurrency is not modelled, including the `await bcrypt.hash` gap between the uniqueness check and the insertion. Each handler runs as one atomic step.
- Aliasing is not modelled. Records are values held in the store's sequences, so an in-place field update is a replacement of the record at its index. Object identity of the returned records is not captured.
- The event handlers take the identity the guard chain established (`req.user`); the chain itself is `Middleware.Guard` and `Middleware.VerifyToken`.
