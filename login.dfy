/**
 * The login screen. Logging in trims the username (the password is taken
 * verbatim), looks the pair up among the user rows and routes an "admin"
 * role to the admin panel and everyone else to the category screen;
 * registering appends a row whose role is "user".
 */
module Login {
  import opened Wrappers
  import opened JavaText

  /** A row of the users table; `role` is a nullable column. */
  datatype UserRow = UserRow(id: int, username: string, password: string, role: Option<string>)

  /** Where a press of the Login button leads. */
  datatype LoginOutcome =
    | MissingFields                             // "Enter both fields"
    | LoginDbError                              // the query raised an SQLException
    | InvalidCredentials                        // no row matched
    | AdminPanel                                // the matched role is "admin", ignoring case
    | CategoryScreen(userId: int, username: string)

  /** What a press of the Register button does. */
  datatype RegisterOutcome = RegisterMissingFields | RegisterFailed | Registered

  /** The row matches the typed username and password exactly. */
  predicate Matches(u: UserRow, username: string, password: string) {
    u.username == username && u.password == password
  }

  /** Row `k` matches and no row before it does. */
  predicate IsFirstMatch(users: seq<UserRow>, username: string, password: string, k: int) {
    0 <= k < |users| && Matches(users[k], username, password)
    && forall i :: 0 <= i < k ==> !Matches(users[i], username, password)
  }

  /** The first row the query `WHERE username = ? AND password = ?` returns. */
  function FirstMatch(users: seq<UserRow>, username: string, password: string): (r: Option<nat>)
    ensures r.None? <==> forall i :: 0 <= i < |users| ==> !Matches(users[i], username, password)
    ensures r.Some? ==> IsFirstMatch(users, username, password, r.value)
  {
    if users == [] then None
    else if Matches(users[0], username, password) then Some(0)
    else match FirstMatch(users[1..], username, password)
      case None => None
      case Some(k) => Some(k + 1)
  }

  /**
   * `"admin".equalsIgnoreCase(c)` for one character position: Java compares
   * upper-case forms and then lower-case forms, so besides the two ASCII cases
   * the dotted capital I (U+0130) and the dotless small i (U+0131) match 'i'.
   */
  predicate SameLetterIgnoringCase(c: char, lower: char)
    requires 'a' <= lower <= 'z'
  {
    c == lower || c as int == lower as int - 32
    || (lower == 'i' && (c == 'İ' || c == 'ı'))
  }

  /** `"admin".equalsIgnoreCase(role)`; a null role is never an admin. */
  predicate IsAdminRole(role: Option<string>)
    ensures IsAdminRole(role) ==> role.Some? && |role.value| == 5
  {
    role.Some? && |role.value| == 5
    && forall i :: 0 <= i < 5 ==> SameLetterIgnoringCase(role.value[i], "admin"[i])
  }

  /** The input guard shared by both buttons: a blank username or an empty password. */
  predicate FieldsMissing(usernameField: string, password: string) {
    IsBlank(usernameField) || password == []
  }

  /** The Login button, given the users table and whether the database answers. */
  function AttemptLogin(users: seq<UserRow>, usernameField: string, password: string, dbUp: bool): (r: LoginOutcome)
    ensures r == MissingFields <==> FieldsMissing(usernameField, password)
    ensures r == LoginDbError <==> !FieldsMissing(usernameField, password) && !dbUp
    ensures r == InvalidCredentials <==>
      !FieldsMissing(usernameField, password) && dbUp
      && forall i :: 0 <= i < |users| ==> !Matches(users[i], Trim(usernameField), password)
    ensures r == AdminPanel || r.CategoryScreen? ==>
      exists k :: (IsFirstMatch(users, Trim(usernameField), password, k)
        && (r == AdminPanel <==> IsAdminRole(users[k].role))
        && (r.CategoryScreen? ==> r.userId == users[k].id))
    ensures r.CategoryScreen? ==> r.username == Trim(usernameField)
  {
    var user := Trim(usernameField);
    if IsBlank(usernameField) || password == [] then MissingFields
    else if !dbUp then LoginDbError
    else match FirstMatch(users, user, password)
      case None => InvalidCredentials
      case Some(k) =>
        if IsAdminRole(users[k].role) then AdminPanel else CategoryScreen(users[k].id, user)
  }

  /** The users table and the id the database will give the next row. */
  class UserTable {
    var users: seq<UserRow>
    var nextId: int

    ghost predicate Valid()
      reads this
    {
      forall i :: 0 <= i < |users| ==> users[i].id < nextId
    }

    constructor (rows: seq<UserRow>, nextId: int)
      requires forall i :: 0 <= i < |rows| ==> rows[i].id < nextId
      ensures Valid() && users == rows && this.nextId == nextId
    {
      users := rows;
      this.nextId := nextId;
    }

    /** The Register button: no uniqueness check, the new row's role is "user". */
    method Register(usernameField: string, password: string, dbUp: bool) returns (r: RegisterOutcome)
      requires Valid()
      modifies this
      ensures Valid()
      ensures r == RegisterMissingFields <==> FieldsMissing(usernameField, password)
      ensures r == RegisterFailed <==> !FieldsMissing(usernameField, password) && !dbUp
      ensures r == Registered ==>
        users == old(users) + [UserRow(old(nextId), Trim(usernameField), password, Some("user"))]
        && nextId == old(nextId) + 1
      ensures r != Registered ==> users == old(users) && nextId == old(nextId)
    {
      var user := Trim(usernameField);
      if IsBlank(usernameField) || password == [] {
        return RegisterMissingFields;
      }
      if !dbUp {
        return RegisterFailed;
      }
      users := users + [UserRow(nextId, user, password, Some("user"))];
      nextId := nextId + 1;
      r := Registered;
    }
  }

  /** The role a registration writes is not an admin role. */
  lemma UserRoleIsNotAdmin()
    ensures !IsAdminRole(Some("user"))
  {
    assert !SameLetterIgnoringCase("user"[0], "admin"[0]);
  }

  /**
   * The spellings `"admin".equalsIgnoreCase` accepts and refuses: any mix of
   * cases, the dotted capital and dotless small i in place of `i`; never a
   * null role, and never a role with surrounding blanks (the role is not trimmed).
   */
  lemma AdminRoleSpellings()
    ensures !IsAdminRole(None)
    ensures IsAdminRole(Some("admin")) && IsAdminRole(Some("ADMIN")) && IsAdminRole(Some("Admin"))
    ensures IsAdminRole(Some("admİn")) && IsAdminRole(Some("ADMıN"))
    ensures !IsAdminRole(Some("admin ")) && !IsAdminRole(Some("administrator"))
  {
  }

  /** The letters `"admin".equalsIgnoreCase` accepts at each of the five positions, for every role. */
  lemma AdminRoleLetters(r: string)
    ensures IsAdminRole(Some(r)) <==>
      |r| == 5 && r[0] in {'a', 'A'} && r[1] in {'d', 'D'} && r[2] in {'m', 'M'}
      && r[3] in {'i', 'I', 'İ', 'ı'} && r[4] in {'n', 'N'}
  {
  }

  /** Appending rows never changes which earlier row the lookup finds first. */
  lemma {:induction false} FirstMatchAppend(users: seq<UserRow>, extra: seq<UserRow>, username: string, password: string)
    ensures FirstMatch(users + extra, username, password) ==
      match FirstMatch(users, username, password)
      case Some(k) => Some(k)
      case None => match FirstMatch(extra, username, password)
        case Some(k) => Some(|users| + k)
        case None => None
  {
    if users != [] {
      assert (users + extra)[1..] == users[1..] + extra;
      FirstMatchAppend(users[1..], extra, username, password);
    } else {
      assert users + extra == extra;
    }
  }

  /**
   * Logging in right after a registration succeeds with the same fields; when
   * no earlier row held that username and password, it opens the category
   * screen for the new row's id.
   */
  lemma RegisterThenLogin(users: seq<UserRow>, id: int, usernameField: string, password: string)
    requires !FieldsMissing(usernameField, password)
    ensures var after := users + [UserRow(id, Trim(usernameField), password, Some("user"))];
      var r := AttemptLogin(after, usernameField, password, true);
      && (r == AdminPanel || r.CategoryScreen?)
      && ((forall i :: 0 <= i < |users| ==> !Matches(users[i], Trim(usernameField), password))
          ==> r == CategoryScreen(id, Trim(usernameField)))
  {
    var row := UserRow(id, Trim(usernameField), password, Some("user"));
    FirstMatchAppend(users, [row], Trim(usernameField), password);
    UserRoleIsNotAdmin();
  }
}
