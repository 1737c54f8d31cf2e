/** The authentication controller: signup, with its ordered chain of checks,
    and login by email or username. Password hashing and comparison (bcrypt)
    are functions given as parameters; issuing the session token and sending
    the welcome email are not part of this model.

    The text fields of the request body are strings here; a missing field is
    the empty string, which is falsy like `undefined`. */
module Auth {
  import opened Base
  import opened Tables
  import opened Store

  const AllFieldsRequired := "All fields are required"
  const InvalidEmail := "Invalid email"
  const PasswordTooShort := "Password must be at least 6 characters"
  const EmailExists := "Email already exists"
  const UsernameExists := "Username already exists"
  const Registered := "User registered successfully"
  const InvalidCredentials := "Invalid credentials"
  const LoggedIn := "Logged in successfully"

  // -- THE EMAIL PATTERN --

  /** The character class `[^\s@]`. */
  predicate EmailChar(c: char) {
    !IsJsSpace(c) && c != '@'
  }

  predicate EmailChars(s: string) {
    forall k :: 0 <= k < |s| ==> EmailChar(s[k])
  }

  /** The regular expression `^[^\s@]+@[^\s@]+\.[^\s@]+$`: a non-empty local
      part, `@`, then non-empty text, a `.` and non-empty text, none of the
      three parts holding white space or `@` (they may hold further dots). */
  ghost predicate MatchesEmailRegex(s: string) {
    exists i, j ::
      0 < i && i + 1 < j && j + 1 < |s| && s[i] == '@' && s[j] == '.'
      && EmailChars(s[..i]) && EmailChars(s[i + 1..j]) && EmailChars(s[j + 1..])
  }

  /** The pattern, read from the `@` at index `i`: text before it, no white
      space and no other `@` anywhere, and a `.` with text on both sides after it. */
  predicate EmailAt(s: string, i: nat) {
    && 0 < i < |s|
    && (forall k :: 0 <= k < |s| && k != i ==> EmailChar(s[k]))
    && exists j :: i + 1 < j < |s| - 1 && s[j] == '.'
  }

  /** `emailRegex.test(s)`, decided by looking at the first `@`. */
  predicate IsEmail(s: string)
    ensures IsEmail(s) <==> MatchesEmailRegex(s)
  {
    EmailRegexEquivalence(s);
    '@' in s && EmailAt(s, IndexOf(s, '@'))
  }

  lemma EmailRegexEquivalence(s: string)
    ensures MatchesEmailRegex(s) <==> '@' in s && EmailAt(s, IndexOf(s, '@'))
  {
    if MatchesEmailRegex(s) {
      RegexMatchIsEmail(s);
    }
    if '@' in s && EmailAt(s, IndexOf(s, '@')) {
      IsEmailMatchesRegex(s, IndexOf(s, '@'));
    }
  }

  lemma RegexMatchIsEmail(s: string)
    requires MatchesEmailRegex(s)
    ensures '@' in s && EmailAt(s, IndexOf(s, '@'))
  {
    var i, j :| 0 < i && i + 1 < j && j + 1 < |s| && s[i] == '@' && s[j] == '.'
      && EmailChars(s[..i]) && EmailChars(s[i + 1..j]) && EmailChars(s[j + 1..]);
    forall k | 0 <= k < |s| && k != i ensures EmailChar(s[k]) {
      if k < i {
        assert s[..i][k] == s[k];
      } else if k < j {
        assert s[i + 1..j][k - i - 1] == s[k];
      } else if k > j {
        assert s[j + 1..][k - j - 1] == s[k];
      }
    }
    assert '@' in s;
  }

  lemma IsEmailMatchesRegex(s: string, i: nat)
    requires i < |s| && s[i] == '@' && EmailAt(s, i)
    ensures MatchesEmailRegex(s)
  {
    var j :| i + 1 < j < |s| - 1 && s[j] == '.';
    assert EmailChars(s[..i]);
    assert EmailChars(s[i + 1..j]);
    assert EmailChars(s[j + 1..]);
  }

  /** What the pattern implies: no white space anywhere, exactly one `@`, not
      in first position, and a `.` strictly inside the part after it. */
  lemma EmailShape(s: string)
    requires MatchesEmailRegex(s)
    ensures forall k :: 0 <= k < |s| ==> !IsJsSpace(s[k])
    ensures '@' in s && 0 < IndexOf(s, '@')
    ensures forall k :: 0 <= k < |s| && s[k] == '@' ==> k == IndexOf(s, '@')
    ensures exists j :: IndexOf(s, '@') + 1 < j < |s| - 1 && s[j] == '.'
  {
    assert IsEmail(s);
    var i := IndexOf(s, '@');
    forall k | 0 <= k < |s| ensures !IsJsSpace(s[k]) {
      if k != i {
        assert EmailChar(s[k]);
      }
    }
  }

  /** Strings the pattern accepts; the part after the last `.` may itself hold a `.`. */
  lemma EmailExamples()
    ensures IsEmail("a@b.c")
    ensures IsEmail("a@b.c.")
  {
    var s, t := "a@b.c", "a@b.c.";
    assert IndexOf(s, '@') == 1 && IndexOf(t, '@') == 1;
    assert s[0] == 'a' && s[2] == 'b' && s[3] == '.' && s[4] == 'c';
    assert EmailAt(s, 1);
    assert t[..5] == s && t[5] == '.';
    assert EmailAt(t, 1);
  }

  /** Strings the pattern rejects: no `@`, no `.` after it, nothing before
      it, nothing between it and the `.`, nothing after the `.`, a space, a
      second `@`. */
  lemma NonEmailExamples()
    ensures !IsEmail("ab")
    ensures !IsEmail("a@b")
    ensures !IsEmail("@b.c")
    ensures !IsEmail("a@.c")
    ensures !IsEmail("a@b.")
    ensures !IsEmail("a b@c.d")
    ensures !IsEmail("a@@b.c")
  {
    assert "a b@c.d"[1] == ' ';
    assert "a@@b.c"[2] == '@';
  }

  // -- SIGNUP --

  /** `password.length`: the number of UTF-16 code units, two for a character
      outside the Basic Multilingual Plane. */
  function Utf16Length(s: string): (n: nat)
    ensures |s| <= n <= 2 * |s|
  {
    if s == [] then 0
    else (if s[0] as int >= 0x10000 then 2 else 1) + Utf16Length(s[1..])
  }

  ghost predicate EmailTaken(users: Table<User>, email: string) {
    exists id :: id in users.rows && users.rows[id].email == email
  }

  ghost predicate UsernameTaken(users: Table<User>, username: string) {
    exists id :: id in users.rows && users.rows[id].username == username
  }

  /** The message of the first failing signup check, or None when all pass. */
  function SignupError(users: Table<User>, name: string, username: string, email: string, password: string)
    : (err: Option<string>)
    requires Wf(users)
    ensures err == Some(AllFieldsRequired) <==> name == "" || username == "" || email == "" || password == ""
    ensures err == Some(InvalidEmail) <==>
      name != "" && username != "" && email != "" && password != "" && !MatchesEmailRegex(email)
    ensures err == Some(PasswordTooShort) <==>
      name != "" && username != "" && email != "" && password != "" && MatchesEmailRegex(email)
      && Utf16Length(password) < 6
    ensures err == Some(EmailExists) <==>
      name != "" && username != "" && MatchesEmailRegex(email) && Utf16Length(password) >= 6
      && EmailTaken(users, email)
    ensures err == Some(UsernameExists) <==>
      name != "" && username != "" && MatchesEmailRegex(email) && Utf16Length(password) >= 6
      && !EmailTaken(users, email) && UsernameTaken(users, username)
    ensures err == None <==>
      name != "" && username != "" && MatchesEmailRegex(email) && Utf16Length(password) >= 6
      && !EmailTaken(users, email) && !UsernameTaken(users, username)
  {
    if name == "" || username == "" || email == "" || password == "" then Some(AllFieldsRequired)
    else if !IsEmail(email) then Some(InvalidEmail)
    else if Utf16Length(password) < 6 then Some(PasswordTooShort)
    else if FindOne(users, (id, u: User) => u.email == email).Some? then Some(EmailExists)
    else if FindOne(users, (id, u: User) => u.username == username).Some? then Some(UsernameExists)
    else None
  }

  /** `hash` stands for bcrypt's salted hash. A rejected signup changes nothing;
      an accepted one stores exactly one new user, holding the hash. */
  method Signup(db: Db, name: string, username: string, email: string, password: string,
                hash: string -> string)
    returns (reply: Reply)
    requires db.Valid()
    modifies db
    ensures db.Valid()
    ensures SignupError(old(db.users), name, username, email, password).Some? ==>
      reply == Reply(400, SignupError(old(db.users), name, username, email, password).value) && unchanged(db)
    ensures SignupError(old(db.users), name, username, email, password).None? ==>
      && reply == Reply(200, Registered)
      && db.users == Insert(old(db.users), old(db.nextId),
           User(username, email, hash(password), [], map["name" := Str(name)]))
      && db.nextId == old(db.nextId) + 1
      && db.requests == old(db.requests) && db.notifications == old(db.notifications)
      && db.posts == old(db.posts)
  {
    var err := SignupError(db.users, name, username, email, password);
    if err.Some? {
      return Reply(400, err.value);
    }
    var u := User(username, email, hash(password), [], map["name" := Str(name)]);
    InsertUserKeepsStoreOk(db.users, db.requests, db.notifications, db.posts, db.nextId, u);
    db.Commit(Insert(db.users, db.nextId, u), db.requests, db.notifications, db.posts, db.nextId + 1);
    reply := Reply(200, Registered);
  }

  // -- LOGIN --

  /** The lookup key: the email when the identifier looks like one, otherwise
      the username. */
  predicate Identifies(u: User, identifier: string) {
    if IsEmail(identifier) then u.email == identifier else u.username == identifier
  }

  /** The reply and, on success, the user that logged in. */
  datatype LoginResult = LoginResult(reply: Reply, user: Option<Id>)

  /** `matches(password, hash)` stands for bcrypt's comparison. */
  function Login(users: Table<User>, identifier: string, password: string,
                 matches: (string, string) -> bool): (r: LoginResult)
    requires Wf(users)
    ensures identifier == "" || password == "" ==> r == LoginResult(Reply(400, AllFieldsRequired), None)
    ensures r.user.Some? <==> r.reply.code == 200
    ensures r.user.Some? ==>
      && r.reply == Reply(200, LoggedIn)
      && r.user.value in users.rows
      && Identifies(users.rows[r.user.value], identifier)
      && matches(password, users.rows[r.user.value].password)
    ensures identifier != "" && password != "" && r.user.None? ==> r.reply == Reply(400, InvalidCredentials)
    ensures (identifier != "" && password != "" &&
             forall id :: id in users.rows && Identifies(users.rows[id], identifier) ==>
               matches(password, users.rows[id].password)) ==>
      (r.user.Some? <==> exists id :: id in users.rows && Identifies(users.rows[id], identifier))
  {
    if identifier == "" || password == "" then LoginResult(Reply(400, AllFieldsRequired), None)
    else
      match FindOne(users, (id, u: User) => Identifies(u, identifier))
      case None => LoginResult(Reply(400, InvalidCredentials), None)
      case Some(id) =>
        if !matches(password, users.rows[id].password) then LoginResult(Reply(400, InvalidCredentials), None)
        else LoginResult(Reply(200, LoggedIn), Some(id))
  }

  /** With emails and usernames unique, a login succeeds exactly when some user
      is identified by the identifier and the password matches that user's hash. */
  lemma LoginSucceedsIff(users: Table<User>, identifier: string, password: string,
                         matches: (string, string) -> bool)
    requires Wf(users) && UsersOk(users.rows) && identifier != "" && password != ""
    ensures Login(users, identifier, password, matches).user.Some? <==>
      exists id :: id in users.rows && Identifies(users.rows[id], identifier)
        && matches(password, users.rows[id].password)
  {
    var r := Login(users, identifier, password, matches);
    if exists id :: id in users.rows && Identifies(users.rows[id], identifier)
        && matches(password, users.rows[id].password) {
      var id :| id in users.rows && Identifies(users.rows[id], identifier)
        && matches(password, users.rows[id].password);
      var found := FindOne(users, (k, u: User) => Identifies(u, identifier));
      assert found.Some?;
      assert found.value == id;
    }
  }

  /** A username shaped like an email address is looked up as an email, so
      its owner cannot log in with it unless it is also their email. */
  lemma EmailShapedUsernameCannotLogIn(users: Table<User>, id: Id, password: string,
                                        matches: (string, string) -> bool)
    requires Wf(users) && UsersOk(users.rows) && id in users.rows
    requires IsEmail(users.rows[id].username) && password != ""
    requires forall k :: k in users.rows ==> users.rows[k].email != users.rows[id].username
    ensures Login(users, users.rows[id].username, password, matches).user.None?
  {
  }
}
