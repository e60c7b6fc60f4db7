/** `POST /api/auth/register` and `POST /api/auth/login`: the credential
    validation chain, the users table with its unique usernames, and the
    session token both routes hand out. */
module AuthRoutes {
  import opened Schema
  import opened Crypto

  /** The `{ username, password }` members of the request body; None where a
      member is missing or `null`. */
  datatype Credentials = Credentials(username: Option<string>, password: Option<string>)

  /** JavaScript truthiness of a string member: present and non-empty. */
  predicate Provided(f: Option<string>)
    ensures Provided(f) <==> f.Some? && |f.value| >= 1
  {
    f.Some? && f.value != ""
  }

  /** `/\d/.test(p)`: without the `u` flag `\d` is the ASCII digits. */
  predicate HasDigit(p: string)
    ensures HasDigit(p) <==> exists c :: c in p && '0' <= c <= '9'
  {
    DigitPositions(p);
    exists i :: 0 <= i < |p| && '0' <= p[i] <= '9'
  }

  /** A digit at some position is a digit among the characters. */
  lemma DigitPositions(p: string)
    ensures (exists i :: 0 <= i < |p| && '0' <= p[i] <= '9') <==> exists c :: c in p && '0' <= c <= '9'
  {
    if exists i :: 0 <= i < |p| && '0' <= p[i] <= '9' {
      var i :| 0 <= i < |p| && '0' <= p[i] <= '9';
      assert p[i] in p;
    }
    if exists c :: c in p && '0' <= c <= '9' {
      var c :| c in p && '0' <= c <= '9';
      var i :| 0 <= i < |p| && p[i] == c;
    }
  }

  const SpecialCharacters := "!@#$%^&*"

  /** `/[!@#$%^&*]/.test(p)`. */
  predicate HasSpecial(p: string)
    ensures HasSpecial(p) <==> exists c :: c in p && c in SpecialCharacters
  {
    exists i :: 0 <= i < |p| && p[i] in SpecialCharacters
  }

  /** Some user already has this username (the comparison is exact). */
  predicate Taken(users: seq<User>, name: string)
  {
    exists i :: 0 <= i < |users| && users[i].username == name
  }

  // ---------------------------------------------------------------------------
  // Registration

  /** The rules of the registration chain, one per error it can report. */
  datatype RegisterError =
    | MissingFields
    | UsernameTooShort
    | PasswordTooShort
    | PasswordWithoutDigit
    | PasswordWithoutSpecial
    | UsernameTaken
  {
    /** The position of the rule in the chain. */
    function Rank(): nat
    {
      match this
      case MissingFields => 0
      case UsernameTooShort => 1
      case PasswordTooShort => 2
      case PasswordWithoutDigit => 3
      case PasswordWithoutSpecial => 4
      case UsernameTaken => 5
    }

    /** The response the rule's failure produces. */
    function Reply(): (r: Response)
      ensures r.status == (if UsernameTaken? then 409 else 400)
      ensures r.body.Message?
    {
      match this
      case MissingFields => Response(400, Message("Username and password are required"))
      case UsernameTooShort => Response(400, Message("Username must be at least 3 characters"))
      case PasswordTooShort => Response(400, Message("Password must be at least 6 characters"))
      case PasswordWithoutDigit => Response(400, Message("Password must contain at least one number"))
      case PasswordWithoutSpecial => Response(400, Message("Password must contain at least one special character"))
      case UsernameTaken => Response(409, Message("Username already taken"))
    }
  }

  /** Whether `body` satisfies the rule `e`, read on its own. */
  predicate Satisfies(users: seq<User>, body: Credentials, e: RegisterError)
  {
    var u, p := body.username.GetOr(""), body.password.GetOr("");
    match e
    case MissingFields => Provided(body.username) && Provided(body.password)
    case UsernameTooShort => |u| >= 3
    case PasswordTooShort => |p| >= 6
    case PasswordWithoutDigit => HasDigit(p)
    case PasswordWithoutSpecial => HasSpecial(p)
    case UsernameTaken => !Taken(users, u)
  }

  /** The first rule of the chain that `body` breaks, if any: a rule is reported
      exactly when it fails and every earlier rule holds. */
  function RegisterFailure(users: seq<User>, body: Credentials): (r: Option<RegisterError>)
    ensures forall e: RegisterError :: r == Some(e) <==>
      !Satisfies(users, body, e) && forall d: RegisterError :: d.Rank() < e.Rank() ==> Satisfies(users, body, d)
    ensures r == None <==> forall e: RegisterError :: Satisfies(users, body, e)
  {
    RankOrder();
    if !Provided(body.username) || !Provided(body.password) then
      assert !Satisfies(users, body, MissingFields);
      Some(MissingFields)
    else
      var u, p := body.username.value, body.password.value;
      assert Satisfies(users, body, MissingFields);
      if |u| < 3 then
        assert !Satisfies(users, body, UsernameTooShort);
        Some(UsernameTooShort)
      else if |p| < 6 then
        assert !Satisfies(users, body, PasswordTooShort);
        Some(PasswordTooShort)
      else if !HasDigit(p) then
        assert !Satisfies(users, body, PasswordWithoutDigit);
        Some(PasswordWithoutDigit)
      else if !HasSpecial(p) then
        assert !Satisfies(users, body, PasswordWithoutSpecial);
        Some(PasswordWithoutSpecial)
      else if Taken(users, u) then
        assert !Satisfies(users, body, UsernameTaken);
        Some(UsernameTaken)
      else
        None
  }

  /** The rules, listed by rank. */
  lemma RankOrder()
    ensures forall d: RegisterError :: d.Rank() < 1 ==> d == MissingFields
    ensures forall d: RegisterError :: d.Rank() < 2 ==> d in {MissingFields, UsernameTooShort}
    ensures forall d: RegisterError :: d.Rank() < 3 ==> d in {MissingFields, UsernameTooShort, PasswordTooShort}
    ensures forall d: RegisterError :: d.Rank() < 4 ==> d in {MissingFields, UsernameTooShort, PasswordTooShort, PasswordWithoutDigit}
    ensures forall d: RegisterError :: d.Rank() < 5 ==> d != UsernameTaken
  {
  }

  /** A password that gets through the chain is at least six characters long
      and holds a digit and one of `!@#$%^&*`; the username is at least three
      characters long and not yet taken. */
  lemma AcceptedCredentials(users: seq<User>, body: Credentials)
    requires RegisterFailure(users, body) == None
    ensures Provided(body.username) && Provided(body.password)
    ensures |body.username.value| >= 3 && !Taken(users, body.username.value)
    ensures |body.password.value| >= 6 && HasDigit(body.password.value) && HasSpecial(body.password.value)
  {
    assert Satisfies(users, body, MissingFields);
    assert Satisfies(users, body, UsernameTooShort) && Satisfies(users, body, PasswordTooShort);
    assert Satisfies(users, body, PasswordWithoutDigit) && Satisfies(users, body, PasswordWithoutSpecial);
    assert Satisfies(users, body, UsernameTaken);
  }

  /** A too-short username is reported whatever the password is. */
  lemma ShortUsernameWins(users: seq<User>, body: Credentials)
    requires Provided(body.username) && Provided(body.password)
    requires |body.username.value| < 3
    ensures RegisterFailure(users, body) == Some(UsernameTooShort)
  {
  }

  /** A password with neither a digit nor a special character is reported as
      missing the digit. */
  lemma DigitReportedBeforeSpecial(users: seq<User>, body: Credentials)
    requires Provided(body.username) && Provided(body.password)
    requires |body.username.value| >= 3 && |body.password.value| >= 6
    requires !HasDigit(body.password.value) && !HasSpecial(body.password.value)
    ensures RegisterFailure(users, body) == Some(PasswordWithoutDigit)
  {
  }

  // ---------------------------------------------------------------------------
  // Login

  const CredentialsRequired := Response(400, Message("Username and password are required"))
  const InvalidCredentials := Response(401, Message("Invalid credentials"))

  /** `SELECT * FROM users WHERE username = ?`: the first user with the name. */
  function FindUser(users: seq<User>, name: string): (r: Option<User>)
    ensures r.None? <==> !Taken(users, name)
    ensures r.Some? ==> r.value in users && r.value.username == name
  {
    if users == [] then None
    else if users[0].username == name then Some(users[0])
    else
      var r := FindUser(users[1..], name);
      assert Taken(users[1..], name) ==> Taken(users, name) by {
        if Taken(users[1..], name) {
          var i :| 0 <= i < |users[1..]| && users[1..][i].username == name;
          assert users[i + 1].username == name;
        }
      }
      r
  }

  // ---------------------------------------------------------------------------
  // The users table

  class UserTable {
    var users: seq<User>
    /** The AUTOINCREMENT counter: the id the next inserted user receives. */
    var nextId: nat

    /** Ids are assigned in increasing order and lie below the counter;
        usernames are UNIQUE. */
    ghost predicate Valid()
      reads this
    {
      && 1 <= nextId
      && (forall i :: 0 <= i < |users| ==> 1 <= users[i].id < nextId)
      && (forall i, j :: 0 <= i < j < |users| ==> users[i].id < users[j].id)
      && (forall i, j :: 0 <= i < j < |users| ==> users[i].username != users[j].username)
    }

    constructor ()
      ensures Valid() && users == [] && nextId == 1
    {
      users := [];
      nextId := 1;
    }

    /** `POST /register`: the first failing rule decides a 400 or 409 reply and
        the table is left alone; otherwise exactly one user is appended, holding
        the bcrypt hash of the password, and the reply is 201 with a token for
        the new id. */
    method Register(body: Credentials, c: Primitives, salt: string, now: int) returns (res: Response)
      requires Valid()
      modifies this
      ensures Valid()
      ensures RegisterFailure(old(users), body).Some? ==>
        res == RegisterFailure(old(users), body).value.Reply() && users == old(users) && nextId == old(nextId)
      ensures RegisterFailure(old(users), body).None? ==>
        && users == old(users) + [User(old(nextId), body.username.value, c.hash(body.password.value, salt), now)]
        && nextId == old(nextId) + 1
        && res == Response(201, Session(c.sign(old(nextId), now), body.username.value))
    {
      var failure := RegisterFailure(users, body);
      if failure.Some? {
        return failure.value.Reply();
      }
      AcceptedCredentials(users, body);
      var id := nextId;
      var username := body.username.value;
      users := users + [User(id, username, c.hash(body.password.value, salt), now)];
      nextId := nextId + 1;
      res := Response(201, Session(c.sign(id, now), username));
    }

    /** `POST /login`: missing fields give 400; an unknown username and a wrong
        password give the same 401; otherwise 200 with a token for the stored
        user's id and the stored username. */
    function Login(body: Credentials, c: Primitives, now: int): (r: Response)
      reads this
      ensures r == CredentialsRequired <==> !Provided(body.username) || !Provided(body.password)
      ensures Provided(body.username) && Provided(body.password) && !Taken(users, body.username.value) ==>
        r == InvalidCredentials
      ensures r.status == 200 ==>
        exists i :: 0 <= i < |users| && users[i].username == body.username.value
          && c.compare(body.password.value, users[i].passwordHash)
          && r.body == Session(c.sign(users[i].id, now), users[i].username)
      ensures r == CredentialsRequired || r == InvalidCredentials || r.status == 200
    {
      if !Provided(body.username) || !Provided(body.password) then CredentialsRequired
      else
        match FindUser(users, body.username.value)
        case None => InvalidCredentials
        case Some(user) =>
          if !c.compare(body.password.value, user.passwordHash) then InvalidCredentials
          else Response(200, Session(c.sign(user.id, now), user.username))
    }

    /** A stored user whose hash matches the password logs in: the reply is
        200 with a token for that user's id and the stored username. */
    lemma LoginSucceeds(body: Credentials, c: Primitives, now: int, i: nat)
      requires Valid()
      requires Provided(body.username) && Provided(body.password)
      requires i < |users| && users[i].username == body.username.value
      requires c.compare(body.password.value, users[i].passwordHash)
      ensures Login(body, c, now) == Response(200, Session(c.sign(users[i].id, now), users[i].username))
    {
      var found := FindUser(users, body.username.value);
      var k :| 0 <= k < |users| && users[k] == found.value;
      assert k == i;
    }

    /** With unique usernames, a login whose password does not match the stored
        hash is answered exactly like one for a username nobody has. */
    lemma WrongPasswordLooksLikeUnknownUser(body: Credentials, stranger: Credentials, c: Primitives, now: int, i: nat)
      requires Valid()
      requires Provided(body.username) && Provided(body.password)
      requires i < |users| && users[i].username == body.username.value
      requires !c.compare(body.password.value, users[i].passwordHash)
      requires Provided(stranger.username) && Provided(stranger.password) && !Taken(users, stranger.username.value)
      ensures Login(body, c, now) == Login(stranger, c, now) == InvalidCredentials
    {
      var found := FindUser(users, body.username.value);
      var k :| 0 <= k < |users| && users[k] == found.value;
      assert k == i;
    }
  }

  /** Once a registration has succeeded, the same username is refused with 409
      (the other rules depend on the body alone and still hold). */
  lemma SecondRegistrationConflicts(users: seq<User>, body: Credentials, newUser: User)
    requires RegisterFailure(users, body) == None
    requires newUser.username == body.username.value
    ensures RegisterFailure(users + [newUser], body) == Some(UsernameTaken)
  {
    AcceptedCredentials(users, body);
    assert (users + [newUser])[|users|].username == body.username.value;
  }

  /** After a registration the new user is the one login finds. */
  lemma FindRegisteredUser(users: seq<User>, newUser: User)
    requires !Taken(users, newUser.username)
    ensures FindUser(users + [newUser], newUser.username) == Some(newUser)
  {
    if users != [] {
      assert (users + [newUser])[1..] == users[1..] + [newUser];
      FindRegisteredUser(users[1..], newUser);
    }
  }
}
