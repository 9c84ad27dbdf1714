/**
 * The checks `registerUser` in node/router.js applies to a registration request,
 * in their fixed order: all three fields present, username free, email free,
 * email well-formed, password strong; the first failing check decides the reply.
 * Strings are sequences of Unicode scalar values.
 */
module Registration {
  import opened Wrappers
  import opened Strings
  import opened Users

  /** The status code and message of the JSON reply. */
  datatype Reply = Reply(status: int, message: string)

  const MSG_FIELDS: string := "All fields are required."
  const MSG_USERNAME_TAKEN: string := "Username already taken."
  const MSG_EMAIL_TAKEN: string := "Email already registered."
  const MSG_BAD_EMAIL: string := "Invalid email format."
  const MSG_WEAK_PASSWORD: string :=
    "Password must contain at least one uppercase letter, one lowercase letter, and one number."
  const MSG_REGISTERED: string := "User successfully registered"
  const MSG_STORE_FAILED: string := "User could not be registered. Internal server error."

  // ---------------------------------------------------------------------------
  // The email pattern /^[^\s@]+@[^\s@]+\.[^\s@]+$/.
  // ---------------------------------------------------------------------------

  /** `\s` in a JavaScript regular expression: white space and line terminators. */
  predicate IsJsSpace(c: char) {
    || c == '\t' || c == '\n' || c == '\U{0B}' || c == '\U{0C}' || c == '\r' || c == ' '
    || c == '\U{A0}' || c == '\U{1680}' || ('\U{2000}' <= c <= '\U{200A}')
    || c == '\U{2028}' || c == '\U{2029}' || c == '\U{202F}' || c == '\U{205F}'
    || c == '\U{3000}' || c == '\U{FEFF}'
  }

  /** Every character is in the class `[^\s@]`. */
  predicate Plain(s: string) {
    forall k :: 0 <= k < |s| ==> !IsJsSpace(s[k]) && s[k] != '@'
  }

  /** The pattern matches with its `@` at position i and its escaped `.` at position j. */
  predicate EmailMatchAt(e: string, i: int, j: int) {
    && 0 < i && i + 1 < j && j + 1 < |e|
    && e[i] == '@' && e[j] == '.'
    && Plain(e[..i]) && Plain(e[i + 1..j]) && Plain(e[j + 1..])
  }

  /** The email pattern accepts the whole string. */
  predicate EmailPattern(e: string) {
    exists i, j | 0 <= i < |e| && 0 <= j < |e| :: EmailMatchAt(e, i, j)
  }

  /** The domain has a '.' that is neither its first nor its last character. */
  predicate InnerDot(d: string) {
    exists j :: 0 < j < |d| - 1 && d[j] == '.'
  }

  /**
   * The email shape in plain words: no white space, exactly one '@', something
   * before it, and a domain after it with an inner '.'.
   */
  predicate EmailShape(e: string) {
    && (forall k :: 0 <= k < |e| ==> !IsJsSpace(e[k]))
    && multiset(e)['@'] == 1
    && 0 < IndexOf(e, '@')
    && InnerDot(e[IndexOf(e, '@') + 1..])
  }

  lemma PlainSlice(s: string, a: int, b: int)
    requires 0 <= a <= b <= |s| && Plain(s)
    ensures Plain(s[a..b])
  {
    assert forall k :: 0 <= k < b - a ==> s[a..b][k] == s[a + k];
  }

  /** Plain text is the text without white space whose bag holds no '@'. */
  lemma PlainMeaning(s: string)
    ensures Plain(s) <==> (forall k :: 0 <= k < |s| ==> !IsJsSpace(s[k])) && multiset(s)['@'] == 0
  {
    if multiset(s)['@'] != 0 {
      assert '@' in s;
    }
  }

  /** Behind the first of exactly one '@' there is no '@'. */
  lemma SingleAtAfter(e: string, i: nat)
    requires i < |e| && e[i] == '@' && '@' !in e[..i] && multiset(e)['@'] == 1
    ensures '@' !in e[i + 1..]
  {
    var a, d := e[..i], e[i + 1..];
    assert e == a + [e[i]] + d;
    assert multiset(a)['@'] == 0;
  }

  /** A slice of text without '@' or white space is plain. */
  lemma PlainSliceOf(e: string, lo: nat, hi: nat)
    requires lo <= hi <= |e| && '@' !in e[lo..hi]
    requires forall k :: 0 <= k < |e| ==> !IsJsSpace(e[k])
    ensures Plain(e[lo..hi])
  {
    forall k | 0 <= k < hi - lo
      ensures !IsJsSpace(e[lo..hi][k]) && e[lo..hi][k] != '@'
    {
      assert e[lo..hi][k] == e[lo + k];
    }
  }

  /** Around its single '@', a well-shaped email splits into two plain parts. */
  lemma ShapeSplits(e: string)
    requires EmailShape(e)
    ensures 0 < IndexOf(e, '@') < |e| && e[IndexOf(e, '@')] == '@'
    ensures Plain(e[..IndexOf(e, '@')]) && Plain(e[IndexOf(e, '@') + 1..])
  {
    var i := IndexOf(e, '@');
    SingleAtAfter(e, i);
    PlainSliceOf(e, 0, i);
    PlainSliceOf(e, i + 1, |e|);
    assert e[0..i] == e[..i];
    assert e[i + 1..|e|] == e[i + 1..];
  }

  lemma ShapeGivesPattern(e: string)
    requires EmailShape(e)
    ensures EmailPattern(e)
  {
    ShapeSplits(e);
    var i := IndexOf(e, '@');
    var d := e[i + 1..];
    var j' :| 0 < j' < |d| - 1 && d[j'] == '.';
    var j := i + 1 + j';
    PlainSlice(d, 0, j');
    PlainSlice(d, j' + 1, |d|);
    assert d[..j'] == e[i + 1..j];
    assert d[j' + 1..] == e[j + 1..];
    assert EmailMatchAt(e, i, j);
  }

  lemma PatternGivesShape(e: string, i: int, j: int)
    requires EmailMatchAt(e, i, j)
    ensures EmailShape(e)
  {
    var a, b, c := e[..i], e[i + 1..j], e[j + 1..];
    assert e == a + [e[i]] + b + [e[j]] + c;
    PlainMeaning(a);
    PlainMeaning(b);
    PlainMeaning(c);
    assert multiset(e)['@'] == 1;
    assert '@' !in a;
    IndexOfAt(e, '@', i);
    forall k | 0 <= k < |e| ensures !IsJsSpace(e[k]) {
      if k < i {
        assert e[k] == a[k];
      } else if i < k < j {
        assert e[k] == b[k - i - 1];
      } else if j < k {
        assert e[k] == c[k - j - 1];
      }
    }
    assert e[i + 1..][j - i - 1] == '.';
  }

  /** The pattern accepts exactly the strings of the plain-words email shape. */
  lemma EmailPatternMeaning(e: string)
    ensures EmailPattern(e) <==> EmailShape(e)
  {
    if EmailPattern(e) {
      var i, j :| EmailMatchAt(e, i, j);
      PatternGivesShape(e, i, j);
    }
    if EmailShape(e) {
      ShapeGivesPattern(e);
    }
  }

  // ---------------------------------------------------------------------------
  // The password pattern /^(?=.*[a-z])(?=.*[A-Z])(?=.*\d)[a-zA-Z\d]{6,}$/.
  // ---------------------------------------------------------------------------

  predicate IsLower(c: char) { 'a' <= c <= 'z' }
  predicate IsUpper(c: char) { 'A' <= c <= 'Z' }
  predicate IsDigit(c: char) { '0' <= c <= '9' }
  predicate IsAsciiAlnum(c: char) { IsLower(c) || IsUpper(c) || IsDigit(c) }

  /** `.` in a JavaScript regular expression matches anything but a line terminator. */
  predicate IsLineTerminator(c: char) {
    c == '\n' || c == '\r' || c == '\U{2028}' || c == '\U{2029}'
  }

  /** A lookahead `(?=.*[class])`: a character of the class after a run of non-terminators. */
  predicate LookaheadFinds(p: string, cls: char -> bool) {
    exists k :: 0 <= k < |p| && cls(p[k]) && forall m :: 0 <= m < k ==> !IsLineTerminator(p[m])
  }

  /** The password pattern accepts the whole string. */
  predicate PasswordPattern(p: string) {
    && LookaheadFinds(p, IsLower)
    && LookaheadFinds(p, IsUpper)
    && LookaheadFinds(p, IsDigit)
    && |p| >= 6
    && forall k :: 0 <= k < |p| ==> IsAsciiAlnum(p[k])
  }

  /** The password rule in plain words: at least six ASCII letters and digits, with a lower, an upper and a digit. */
  predicate PasswordRule(p: string) {
    && |p| >= 6
    && (forall k :: 0 <= k < |p| ==> IsAsciiAlnum(p[k]))
    && (exists k :: 0 <= k < |p| && IsLower(p[k]))
    && (exists k :: 0 <= k < |p| && IsUpper(p[k]))
    && (exists k :: 0 <= k < |p| && IsDigit(p[k]))
  }

  /** The lookaheads cannot be stopped by a line terminator, because the body admits none. */
  lemma PasswordPatternMeaning(p: string)
    ensures PasswordPattern(p) <==> PasswordRule(p)
  {
    if PasswordRule(p) {
      assert forall m :: 0 <= m < |p| ==> !IsLineTerminator(p[m]) by {
        forall m | 0 <= m < |p| ensures !IsLineTerminator(p[m]) {
          assert IsAsciiAlnum(p[m]);
        }
      }
      var a :| 0 <= a < |p| && IsLower(p[a]);
      var b :| 0 <= b < |p| && IsUpper(p[b]);
      var c :| 0 <= c < |p| && IsDigit(p[c]);
      assert LookaheadFinds(p, IsLower) by { assert IsLower(p[a]); }
      assert LookaheadFinds(p, IsUpper) by { assert IsUpper(p[b]); }
      assert LookaheadFinds(p, IsDigit) by { assert IsDigit(p[c]); }
    }
  }

  // ---------------------------------------------------------------------------
  // The ordered checks.
  // ---------------------------------------------------------------------------

  predicate UsernameTaken(users: seq<User>, name: string) {
    exists k :: 0 <= k < |users| && users[k].username == name
  }

  predicate EmailTaken(users: seq<User>, email: string) {
    exists k :: 0 <= k < |users| && users[k].email == email
  }

  /** Everything before the store succeeds. */
  predicate Admissible(users: seq<User>, username: Option<string>, email: Option<string>, password: Option<string>) {
    && Truthy(username) && Truthy(email) && Truthy(password)
    && !UsernameTaken(users, username.value)
    && !EmailTaken(users, email.value)
    && EmailPattern(email.value)
    && PasswordPattern(password.value)
  }

  /**
   * The reply `registerUser` sends. The store is `registerUserToDB`, an async
   * function: its result is a promise, which is truthy, so once every check
   * passes the reply is 201 whatever the database does.
   */
  function Register(users: seq<User>, username: Option<string>, email: Option<string>, password: Option<string>): (r: Reply)
    ensures r == Reply(400, MSG_FIELDS) <==> !(Truthy(username) && Truthy(email) && Truthy(password))
    ensures r == Reply(409, MSG_USERNAME_TAKEN) <==>
      Truthy(username) && Truthy(email) && Truthy(password) && UsernameTaken(users, username.value)
    ensures r == Reply(409, MSG_EMAIL_TAKEN) <==>
      && Truthy(username) && Truthy(email) && Truthy(password)
      && !UsernameTaken(users, username.value) && EmailTaken(users, email.value)
    ensures r == Reply(400, MSG_BAD_EMAIL) <==>
      && Truthy(username) && Truthy(email) && Truthy(password)
      && !UsernameTaken(users, username.value) && !EmailTaken(users, email.value)
      && !EmailShape(email.value)
    ensures r == Reply(400, MSG_WEAK_PASSWORD) <==>
      && Truthy(username) && Truthy(email) && Truthy(password)
      && !UsernameTaken(users, username.value) && !EmailTaken(users, email.value)
      && EmailShape(email.value) && !PasswordRule(password.value)
    ensures r.status == 201 <==> Admissible(users, username, email, password)
    ensures r.status != 500
  {
    if !(Truthy(username) && Truthy(email) && Truthy(password)) then Reply(400, MSG_FIELDS)
    else if UsernameTaken(users, username.value) then Reply(409, MSG_USERNAME_TAKEN)
    else if EmailTaken(users, email.value) then Reply(409, MSG_EMAIL_TAKEN)
    else if !EmailPattern(email.value) then
      EmailPatternMeaning(email.value);
      Reply(400, MSG_BAD_EMAIL)
    else if !PasswordPattern(password.value) then
      EmailPatternMeaning(email.value);
      PasswordPatternMeaning(password.value);
      Reply(400, MSG_WEAK_PASSWORD)
    else
      EmailPatternMeaning(email.value);
      PasswordPatternMeaning(password.value);
      Reply(201, MSG_REGISTERED)
  }

  /**
   * Registration with the store awaited: `stored` is whether the database
   * accepted the new user. It answers 500 exactly when every check passes and
   * the store fails, and otherwise agrees with `Register`.
   */
  function RegisterAwaited(users: seq<User>, username: Option<string>, email: Option<string>, password: Option<string>,
                           stored: bool): (r: Reply)
    ensures r.status == 500 <==> Admissible(users, username, email, password) && !stored
    ensures r.status == 201 <==> Admissible(users, username, email, password) && stored
    ensures stored ==> r == Register(users, username, email, password)
    ensures !Admissible(users, username, email, password) ==> r == Register(users, username, email, password)
  {
    var checked := Register(users, username, email, password);
    if checked.status == 201 && !stored then Reply(500, MSG_STORE_FAILED) else checked
  }

  /** Once a user is on record, the same username can never be registered again, whatever the other fields. */
  lemma RegisteredUsernameRefused(users: seq<User>, u: User, email: Option<string>, password: Option<string>)
    requires u.username != [] && Truthy(email) && Truthy(password)
    ensures Register(users + [u], Some(u.username), email, password) == Reply(409, MSG_USERNAME_TAKEN)
  {
    assert (users + [u])[|users|] == u;
  }

  /** A request accepted against a list of users is accepted against any list with fewer users. */
  lemma AcceptanceSurvivesFewerUsers(users: seq<User>, fewer: seq<User>,
                                     username: Option<string>, email: Option<string>, password: Option<string>)
    requires forall k :: 0 <= k < |fewer| ==> fewer[k] in users
    requires Register(users, username, email, password).status == 201
    ensures Register(fewer, username, email, password).status == 201
  {
  }
}
