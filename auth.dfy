/**
 * The account rules of routes/auth.py: the ordered guards of
 * registration, the row that registration then adds, the cookie check of
 * `droplet_connect`, and the shape of a generated auth token.  Password
 * hashing is an input (the hash text), and the random choices behind a
 * token are an input (one alphabet index per character).
 */
module Auth {
  import opened Wrappers

  datatype User = User(id: string, username: string, email: Option<string>, passwordHash: string, authToken: string, groups: string)

  datatype Group = Group(id: string, displayName: string)

  /** The four form fields of the registration request; an absent field is None. */
  datatype RegisterForm = RegisterForm(username: Option<string>, email: Option<string>, password: Option<string>, passwordConfirm: Option<string>)

  /**
   * Where registration redirects: back to the form with an error flash,
   * or to the sign-in page with a success flash; a primary-key clash of
   * the new row's uuid is a server error.
   */
  datatype RegisterReply = Rejected(error: string) | Created(success: string) | ServerError

  /** Python truthiness of a form field: present and non-empty. */
  predicate Filled(field: Option<string>) {
    field.Some? && field.value != []
  }

  predicate UsernameTaken(users: seq<User>, username: string) {
    exists j :: 0 <= j < |users| && users[j].username == username
  }

  predicate EmailTaken(users: seq<User>, email: string) {
    exists j :: 0 <= j < |users| && users[j].email == Some(email)
  }

  /** The first group whose display name is `User`. */
  function DefaultGroup(groups: seq<Group>): (r: Option<Group>)
    ensures r.Some? ==> r.value in groups && r.value.displayName == "User"
    ensures r.Some? ==>
      exists i :: 0 <= i < |groups| && groups[i] == r.value && forall j :: 0 <= j < i ==> groups[j].displayName != "User"
    ensures r.None? <==> forall j :: 0 <= j < |groups| ==> groups[j].displayName != "User"
  {
    if groups == [] then None
    else if groups[0].displayName == "User" then Some(groups[0])
    else DefaultGroup(groups[1..])
  }

  const MinPasswordLength: nat := 8

  const AllFieldsRequired := "All fields are required"
  const PasswordsDiffer := "Passwords do not match"
  const PasswordTooShort := "Password must be at least 8 characters"
  const UsernameExists := "Username already exists"
  const EmailExists := "Email already registered"
  const NoDefaultGroup := "System error: default group not found"

  /** The error of the first registration guard that fails, or None when every guard passes. */
  function RegisterGuard(form: RegisterForm, users: seq<User>, groups: seq<Group>): (r: Option<string>)
    ensures r.None? <==>
      Filled(form.username) && Filled(form.password) && Filled(form.email)
      && form.password == form.passwordConfirm
      && |form.password.value| >= MinPasswordLength
      && !UsernameTaken(users, form.username.value)
      && !EmailTaken(users, form.email.value)
      && DefaultGroup(groups).Some?
    ensures r.Some? ==> r.value in {AllFieldsRequired, PasswordsDiffer, PasswordTooShort, UsernameExists, EmailExists, NoDefaultGroup}
  {
    if !Filled(form.username) || !Filled(form.password) || !Filled(form.email) then Some(AllFieldsRequired)
    else if form.password != form.passwordConfirm then Some(PasswordsDiffer)
    else if |form.password.value| < MinPasswordLength then Some(PasswordTooShort)
    else if UsernameTaken(users, form.username.value) then Some(UsernameExists)
    else if EmailTaken(users, form.email.value) then Some(EmailExists)
    else if DefaultGroup(groups).None? then Some(NoDefaultGroup)
    else None
  }

  /** An empty or absent username, password or email is reported first, whatever else is wrong. */
  lemma EmptyFieldWins(form: RegisterForm, users: seq<User>, groups: seq<Group>)
    requires !Filled(form.username) || !Filled(form.password) || !Filled(form.email)
    ensures RegisterGuard(form, users, groups) == Some(AllFieldsRequired)
  {
  }

  /** A mismatch is reported even when the password is also too short. */
  lemma MismatchBeforeLength(form: RegisterForm, users: seq<User>, groups: seq<Group>)
    requires Filled(form.username) && Filled(form.password) && Filled(form.email)
    requires form.password != form.passwordConfirm
    ensures RegisterGuard(form, users, groups) == Some(PasswordsDiffer)
  {
  }

  /** Seven characters are refused and eight pass the length guard. */
  lemma LengthBoundary(form: RegisterForm, users: seq<User>, groups: seq<Group>)
    requires Filled(form.username) && Filled(form.password) && Filled(form.email)
    requires form.password == form.passwordConfirm
    ensures |form.password.value| == 7 ==> RegisterGuard(form, users, groups) == Some(PasswordTooShort)
    ensures |form.password.value| == 8 ==> RegisterGuard(form, users, groups) != Some(PasswordTooShort)
    ensures (|form.password.value| == 8 && !UsernameTaken(users, form.username.value) && !EmailTaken(users, form.email.value)
             && DefaultGroup(groups).Some?) ==> RegisterGuard(form, users, groups).None?
  {
  }

  /** A taken username is reported before a taken email, and both before a missing default group. */
  lemma UsernameBeforeEmailBeforeGroup(form: RegisterForm, users: seq<User>, groups: seq<Group>)
    requires Filled(form.username) && Filled(form.password) && Filled(form.email)
    requires form.password == form.passwordConfirm && |form.password.value| >= MinPasswordLength
    ensures UsernameTaken(users, form.username.value) ==> RegisterGuard(form, users, groups) == Some(UsernameExists)
    ensures !UsernameTaken(users, form.username.value) && EmailTaken(users, form.email.value) ==>
      RegisterGuard(form, users, groups) == Some(EmailExists)
    ensures DefaultGroup(groups).None? && RegisterGuard(form, users, groups).Some? ==>
      RegisterGuard(form, users, groups).value in {UsernameExists, EmailExists, NoDefaultGroup}
  {
  }

  /** `n` consecutive characters from `first` on. */
  function CharRange(first: char, n: nat): (r: string)
    requires first as int + n <= 0xD800
    ensures |r| == n && forall i :: 0 <= i < n ==> r[i] as int == first as int + i
  {
    seq(n, i requires 0 <= i < n => (first as int + i) as char)
  }

  /** `string.ascii_letters + string.digits`: a-z, A-Z, then 0-9. */
  const TokenAlphabet: string := CharRange('a', 26) + CharRange('A', 26) + CharRange('0', 10)

  const TokenLength: nat := 80

  predicate IsAlphanumeric(c: char) {
    'a' <= c <= 'z' || 'A' <= c <= 'Z' || '0' <= c <= '9'
  }

  /** The position of an alphanumeric character in the alphabet. */
  function AlphabetIndex(c: char): (i: nat)
    requires IsAlphanumeric(c)
    ensures i < |TokenAlphabet| && TokenAlphabet[i] == c
  {
    if 'a' <= c <= 'z' then c as int - 'a' as int
    else if 'A' <= c <= 'Z' then 26 + c as int - 'A' as int
    else 52 + c as int - '0' as int
  }

  /** The alphabet holds 62 characters, and exactly the ASCII letters and digits. */
  lemma TokenAlphabetIsAlphanumeric(c: char)
    ensures |TokenAlphabet| == 62
    ensures c in TokenAlphabet <==> IsAlphanumeric(c)
  {
    if IsAlphanumeric(c) {
      assert TokenAlphabet[AlphabetIndex(c)] == c;
    }
  }

  /** Each of `random.choice`'s draws is an index into the alphabet. */
  predicate ValidDraws(draws: seq<nat>) {
    |draws| == TokenLength && forall i :: 0 <= i < |draws| ==> draws[i] < |TokenAlphabet|
  }

  /** `generate_auth_token`: one alphabet character per draw. */
  function GenerateAuthToken(draws: seq<nat>): (t: string)
    requires ValidDraws(draws)
    ensures |t| == TokenLength
    ensures forall i :: 0 <= i < |t| ==> IsAlphanumeric(t[i])
  {
    assert forall i :: 0 <= i < |draws| ==> TokenAlphabet[draws[i]] in TokenAlphabet;
    forall i | 0 <= i < |draws| ensures IsAlphanumeric(TokenAlphabet[draws[i]]) {
      TokenAlphabetIsAlphanumeric(TokenAlphabet[draws[i]]);
    }
    seq(|draws|, i requires 0 <= i < |draws| => TokenAlphabet[draws[i]])
  }

  /** Every 80-character alphanumeric string is a token some draws produce: the shape is exact. */
  lemma EveryAlphanumericTokenIsGenerated(t: string)
    requires |t| == TokenLength && forall i :: 0 <= i < |t| ==> IsAlphanumeric(t[i])
    ensures exists draws :: ValidDraws(draws) && GenerateAuthToken(draws) == t
  {
    var draws := seq(|t|, i requires 0 <= i < |t| => AlphabetIndex(t[i]));
    assert ValidDraws(draws);
    assert GenerateAuthToken(draws) == t;
  }

  /** The first user with id `id`, as `filter_by(id=...).first()` finds it. */
  function UserById(users: seq<User>, id: string): (r: Option<User>)
    ensures r.Some? ==> r.value in users && r.value.id == id
    ensures r.None? <==> forall j :: 0 <= j < |users| ==> users[j].id != id
  {
    if users == [] then None
    else if users[0].id == id then Some(users[0])
    else UserById(users[1..], id)
  }

  /** `droplet_connect`: 200 when both cookies are set and the token is the user's, 401 otherwise. */
  function DropletConnect(users: seq<User>, userid: Option<string>, token: Option<string>): (status: int)
    ensures status == 200 || status == 401
    ensures status == 200 <==>
      Filled(userid) && Filled(token) && UserById(users, userid.value).Some? && UserById(users, userid.value).value.authToken == token.value
  {
    if !Filled(userid) || !Filled(token) then 401
    else
      match UserById(users, userid.value)
      case None => 401
      case Some(u) => if u.authToken != token.value then 401 else 200
  }

  predicate DistinctUserIds(users: seq<User>) {
    forall i, j :: 0 <= i < j < |users| ==> users[i].id != users[j].id
  }

  /** With ids unique, connecting succeeds exactly for a stored (id, token) pair with both non-empty. */
  lemma {:induction false} ConnectIffStoredToken(users: seq<User>, id: string, token: string)
    requires DistinctUserIds(users)
    ensures DropletConnect(users, Some(id), Some(token)) == 200 <==>
      id != [] && token != [] && exists j :: 0 <= j < |users| && users[j].id == id && users[j].authToken == token
  {
    if id != [] && token != [] && exists j :: 0 <= j < |users| && users[j].id == id && users[j].authToken == token {
      var j :| 0 <= j < |users| && users[j].id == id && users[j].authToken == token;
      FirstUserIsUnique(users, id, j);
    }
  }

  lemma {:induction false} FirstUserIsUnique(users: seq<User>, id: string, j: nat)
    requires DistinctUserIds(users) && j < |users| && users[j].id == id
    ensures UserById(users, id) == Some(users[j])
  {
    if j > 0 {
      assert users[0].id != id;
      var rest := users[1..];
      assert rest[j - 1] == users[j];
      assert DistinctUserIds(rest) by {
        forall a, b | 0 <= a < b < |rest| ensures rest[a].id != rest[b].id {
          assert rest[a] == users[a + 1] && rest[b] == users[b + 1];
        }
      }
      FirstUserIsUnique(rest, id, j - 1);
    }
  }

  class Accounts {
    var users: seq<User>
    var groups: seq<Group>

    constructor (groups: seq<Group>)
      ensures this.users == [] && this.groups == groups
      ensures Valid()
    {
      this.users := [];
      this.groups := groups;
    }

    /** User ids are unique (the primary key). */
    ghost predicate Valid()
      reads this
    {
      DistinctUserIds(users)
    }

    /**
     * `register` followed by `create_user`: when every guard passes, a
     * user with the hashed password, the default group and a fresh token
     * is added (the email is set by the second commit); otherwise the
     * first failing guard's message comes back and nothing is added.
     */
    method Register(form: RegisterForm, newId: string, passwordHash: string, draws: seq<nat>) returns (r: RegisterReply)
      requires Valid() && ValidDraws(draws)
      modifies this
      ensures Valid()
      ensures groups == old(groups)
      ensures RegisterGuard(form, old(users), groups).Some? ==> r == Rejected(RegisterGuard(form, old(users), groups).value) && users == old(users)
      ensures r.Created? <==> RegisterGuard(form, old(users), groups).None? && UserById(old(users), newId).None?
      ensures r.Created? ==>
        r.success == "Account created successfully! Please sign in."
        && users == old(users) + [User(newId, form.username.value, form.email, passwordHash, GenerateAuthToken(draws),
                                       DefaultGroup(groups).value.id)]
      ensures !r.Created? ==> users == old(users)
    {
      var guard := RegisterGuard(form, users, groups);
      if guard.Some? {
        return Rejected(guard.value);
      }
      if UserById(users, newId).Some? {
        return ServerError;
      }
      var group := DefaultGroup(groups).value;
      var user := User(newId, form.username.value, None, passwordHash, GenerateAuthToken(draws), group.id);
      users := users + [user];
      users := users[|users| - 1 := user.(email := form.email)];
      forall i, j | 0 <= i < j < |users| ensures users[i].id != users[j].id {
        if j == |users| - 1 { assert users[i] == old(users)[i]; }
      }
      return Created("Account created successfully! Please sign in.");
    }
  }

  /** A freshly registered user can connect with the cookies `login` would set: its id and its token. */
  lemma RegisteredUserConnects(users: seq<User>, user: User)
    requires DistinctUserIds(users + [user]) && user.id != [] && |user.authToken| == TokenLength
    ensures DropletConnect(users + [user], Some(user.id), Some(user.authToken)) == 200
  {
    FirstUserIsUnique(users + [user], user.id, |users|);
  }
}
