/**
 * Account registration and login (`POST /register`, `POST /login`).
 * Password hashing is the injective `Hashed` of the store; the access token
 * is represented by the claims it is signed over.
 */
module AuthRoutes {
  import opened Common
  import opened Validators
  import opened Database

  const FIELDS_REQUIRED: string := "Email, password, and name are required"
  const BAD_EMAIL: string := "Invalid email format"
  const WEAK_PASSWORD: string := "Password must be at least 6 characters long"
  const EMAIL_TAKEN: string := "Email already registered"
  const REGISTERED: string := "User registered successfully. Check your email for confirmation."
  const LOGIN_FIELDS_REQUIRED: string := "Email and password are required"
  const BAD_CREDENTIALS: string := "Invalid email or password"
  const LOGGED_IN: string := "Login successful"

  /** The JSON body of `/register`; None is an absent field. */
  datatype RegisterBody = RegisterBody(email: Option<string>, password: Option<string>, name: Option<string>, role: Option<string>)

  /** The JSON body of `/login`. */
  datatype LoginBody = LoginBody(email: Option<string>, password: Option<string>)

  /** A user as the API shows it: no password and no event list. */
  datatype Profile = Profile(id: int, email: string, name: string, role: string)

  /** A successful login: the claims the 24-hour token is signed over, and the profile. */
  datatype Session = Session(claims: Claims, user: Profile)

  function ProfileOf(u: User): Profile {
    Profile(u.id, u.email, u.name, u.role)
  }

  function ClaimsOf(u: User): Claims {
    Claims(u.id, u.email, u.role, u.name)
  }

  /** Whether some stored user has exactly this e-mail. */
  predicate EmailTaken(users: seq<User>, email: string) {
    exists k :: 0 <= k < |users| && users[k].email == email
  }

  /** The role a new account gets: organizer only when that was asked for
      verbatim, attendee otherwise. */
  function RoleFor(requested: Option<string>): (role: string)
    ensures role == ORGANIZER <==> requested == Some(ORGANIZER)
    ensures role == ORGANIZER || role == ATTENDEE
  {
    if requested == Some(ORGANIZER) then ORGANIZER else ATTENDEE
  }

  /** The checks of `/register`, in the order they are made: presence of the
      three required fields, e-mail format, password length, then uniqueness. */
  function RegistrationCheck(users: seq<User>, body: RegisterBody): (r: Outcome<()>)
    ensures r.Reject? ==> r.status == 400 || r == Reject(409, EMAIL_TAKEN)
    ensures r == Reject(400, FIELDS_REQUIRED)
            <==> !Truthy(body.email) || !Truthy(body.password) || !Truthy(body.name)
    ensures r == Reject(400, BAD_EMAIL)
            <==> Truthy(body.email) && Truthy(body.password) && Truthy(body.name)
                 && !IsValidEmail(body.email.value)
    ensures r == Reject(400, WEAK_PASSWORD)
            <==> Truthy(body.email) && Truthy(body.password) && Truthy(body.name)
                 && IsValidEmail(body.email.value) && |body.password.value| < MIN_PASSWORD_LENGTH
    ensures r == Reject(409, EMAIL_TAKEN)
            <==> Truthy(body.email) && Truthy(body.password) && Truthy(body.name)
                 && IsValidEmail(body.email.value) && IsValidPassword(body.password.value)
                 && EmailTaken(users, body.email.value)
    ensures r.Accept? ==> !EmailTaken(users, body.email.value)
    ensures r.Accept?
            <==> Truthy(body.email) && Truthy(body.password) && Truthy(body.name)
                 && IsValidEmail(body.email.value) && IsValidPassword(body.password.value)
                 && !EmailTaken(users, body.email.value)
  {
    if !Truthy(body.email) || !Truthy(body.password) || !Truthy(body.name) then
      Reject(400, FIELDS_REQUIRED)
    else if !IsValidEmail(body.email.value) then
      Reject(400, BAD_EMAIL)
    else if !IsValidPassword(body.password.value) then
      Reject(400, WEAK_PASSWORD)
    else if EmailIndex(users, body.email.value) != -1 then
      Reject(409, EMAIL_TAKEN)
    else
      Accept(())
  }

  /** The record `/register` stores for an accepted body. */
  function NewUser(id: int, body: RegisterBody, now: int): User
    requires Truthy(body.email) && Truthy(body.password) && Truthy(body.name)
  {
    User(id, body.email.value, Hashed(body.password.value), body.name.value, RoleFor(body.role), now, [])
  }

  /** Appending a user with the next identifier and an e-mail nobody has
      keeps identifiers and e-mails unique. */
  lemma AppendUserKeepsValid(users: seq<User>, counter: int, u: User)
    requires UsersValid(users, counter)
    requires u.id == counter && 1 <= counter
    requires !EmailTaken(users, u.email)
    ensures UsersValid(users + [u], counter + 1)
  {
    var all := users + [u];
    forall i, j | 0 <= i < j < |all| ensures all[i].email != all[j].email {
      if j == |users| {
        assert all[i] == users[i];
      }
    }
  }

  /** `POST /register`. Rejected bodies change nothing; an accepted one takes
      the next user identifier and appends exactly one user, with no joined
      events, whose profile (never the password) is returned. The welcome
      e-mail is sent without waiting and cannot affect state or reply. */
  method Register(db: Store, body: RegisterBody, now: int) returns (reply: Reply<Profile>)
    requires db.Valid()
    modifies db
    ensures db.Valid()
    ensures db.events == old(db.events)
    ensures db.eventIdCounter == old(db.eventIdCounter) && db.issuedEventIds == old(db.issuedEventIds)
    ensures var check := RegistrationCheck(old(db.users), body);
            if check.Reject? then
              && reply == Refuse(check)
              && db.users == old(db.users)
              && db.userIdCounter == old(db.userIdCounter)
              && db.issuedUserIds == old(db.issuedUserIds)
            else
              var u := NewUser(old(db.userIdCounter), body, now);
              && db.users == old(db.users) + [u]
              && db.userIdCounter == old(db.userIdCounter) + 1
              && db.issuedUserIds == old(db.issuedUserIds) + [u.id]
              && reply == Ok(201, REGISTERED, ProfileOf(u))
  {
    var check := RegistrationCheck(db.users, body);
    if check.Reject? {
      return Refuse(check);
    }
    var id := db.GetNextUserId();
    var user := NewUser(id, body, now);
    AppendUserKeepsValid(db.users, id, user);
    LinkedAfterNewUser(db.users, db.events, user);
    db.users := db.users + [user];
    reply := Ok(201, REGISTERED, ProfileOf(user));
  }

  /** `POST /login`: a lookup by e-mail and a password comparison; it changes
      nothing. */
  function Login(users: seq<User>, body: LoginBody): (r: Reply<Session>)
    ensures r == Err(400, LOGIN_FIELDS_REQUIRED) <==> !Truthy(body.email) || !Truthy(body.password)
    ensures r.Err? ==> r == Err(400, LOGIN_FIELDS_REQUIRED) || r == Err(401, BAD_CREDENTIALS)
    ensures Truthy(body.email) && Truthy(body.password) && !EmailTaken(users, body.email.value)
            ==> r == Err(401, BAD_CREDENTIALS)
    ensures r.Ok? ==> exists k :: 0 <= k < |users|
                       && users[k].email == body.email.value && Matches(body.password.value, users[k].password)
                       && r == Ok(200, LOGGED_IN, Session(ClaimsOf(users[k]), ProfileOf(users[k])))
  {
    if !Truthy(body.email) || !Truthy(body.password) then
      Err(400, LOGIN_FIELDS_REQUIRED)
    else
      var k := EmailIndex(users, body.email.value);
      if k == -1 then Err(401, BAD_CREDENTIALS)
      else if !Matches(body.password.value, users[k].password) then Err(401, BAD_CREDENTIALS)
      else Ok(200, LOGGED_IN, Session(ClaimsOf(users[k]), ProfileOf(users[k])))
  }

  /** An unknown e-mail and a wrong password get the very same answer, so a
      failed login does not tell which of the two it was. */
  lemma LoginFailureIsUniform(users: seq<User>, unknown: LoginBody, wrong: LoginBody)
    requires Truthy(unknown.email) && Truthy(unknown.password) && !EmailTaken(users, unknown.email.value)
    requires Truthy(wrong.email) && Truthy(wrong.password)
    requires forall k :: 0 <= k < |users| && users[k].email == wrong.email.value
                         ==> !Matches(wrong.password.value, users[k].password)
    ensures Login(users, unknown) == Login(users, wrong) == Err(401, BAD_CREDENTIALS)
  {
    var k := EmailIndex(users, wrong.email.value);
    if k != -1 {
      assert !Matches(wrong.password.value, users[k].password);
    }
  }

  /** In a store whose e-mails are unique, a user logs in with their own
      e-mail and password and gets a token over exactly their claims. */
  lemma StoredUserLogsIn(users: seq<User>, counter: int, k: int, password: string)
    requires UsersValid(users, counter)
    requires 0 <= k < |users| && users[k].password == Hashed(password)
    requires users[k].email != "" && password != ""
    ensures Login(users, LoginBody(Some(users[k].email), Some(password)))
            == Ok(200, LOGGED_IN, Session(ClaimsOf(users[k]), ProfileOf(users[k])))
  {
    assert EmailIndex(users, users[k].email) == k;
  }
}
