/**
 * The account rules of quizzer-v2/src/utils/user_manager.py: the username
 * and password format checks, the decision order of `register_user` and
 * `login_user`, and the arithmetic `get_user_stats` derives from its counts.
 *
 * The SQLite `users` table is a map from username to the stored account, the
 * AUTOINCREMENT counter is a field of the store, PBKDF2 is an uninterpreted
 * function `hash(password, salt)` and the fresh salt from `secrets` is a
 * parameter.
 */
module Accounts {
  import opened Text

  // ---------------------------------------------------------------------------
  // Format checks
  // ---------------------------------------------------------------------------

  /** The class `[A-Za-z0-9]`. */
  predicate IsUsernameChar(c: char) {
    IsAlpha(c) || IsDigit(c)
  }

  /** The symbols the password class lists after `A-Za-z0-9`. */
  const PasswordSymbols: set<char> := {
    '!', '@', '#', '$', '%', '^', '&', '*', '(', ')', '_', '+', '-', '=',
    '[', ']', '{', '}', ';', ':', '\'', '"', ',', '.', '<', '>', '/', '?'
  }

  /** The class `[A-Za-z0-9!@#$%^&*()_+\-=\[\]{};:'",.<>/?]`. */
  predicate IsPasswordChar(c: char) {
    IsUsernameChar(c) || c in PasswordSymbols
  }

  /** `s` without the one newline Python's `$` lets through at the end. */
  function Body(s: string): (b: string)
    ensures s == b || s == b + "\n"
  {
    if s != [] && s[|s| - 1] == '\n' then s[..|s| - 1] else s
  }

  /** `re.match(r'^[X]+$', s)` for a class X that does not hold '\n': one or
      more class characters, then at most one final newline. */
  predicate WholeMatch(s: string, allowed: char -> bool) {
    var b := Body(s);
    b != [] && forall i :: 0 <= i < |b| ==> allowed(b[i])
  }

  /** Why a username or password is refused, in the order they are checked. */
  datatype Refusal = Empty | TooShort | TooLong | BadChars

  datatype Validity = Valid | Invalid(why: Refusal)

  /** The message `validate_username` returns with each refusal. */
  function UsernameMessage(why: Refusal): string {
    match why
    case Empty => "Username cannot be empty"
    case TooShort => "Username must be at least 3 characters"
    case TooLong => "Username must be at most 20 characters"
    case BadChars => "Username can only contain letters and numbers (no symbols)"
  }

  /** The message `validate_password` returns with each refusal. */
  function PasswordMessage(why: Refusal): string {
    match why
    case Empty => "Password cannot be empty"
    case TooShort => "Password must be at least 6 characters"
    case TooLong => "Password must be at most 50 characters"
    case BadChars => "Password contains invalid characters"
  }

  /** The four checks in order, with the length bounds `lo..hi`: the first
      one that fails is reported. */
  function Validate(s: string, lo: nat, hi: nat, allowed: char -> bool): (v: Validity)
    requires 1 <= lo <= hi
    ensures v == Valid <==> lo <= |s| <= hi && WholeMatch(s, allowed)
    ensures v == Invalid(Empty) <==> s == []
    ensures v == Invalid(TooShort) <==> 0 < |s| < lo
    ensures v == Invalid(TooLong) <==> |s| > hi
    ensures v == Invalid(BadChars) <==> lo <= |s| <= hi && !WholeMatch(s, allowed)
  {
    if s == [] then Invalid(Empty)
    else if |s| < lo then Invalid(TooShort)
    else if |s| > hi then Invalid(TooLong)
    else if !WholeMatch(s, allowed) then Invalid(BadChars)
    else Valid
  }

  /** `validate_username`: 3 to 20 characters of `[A-Za-z0-9]`. */
  function ValidateUsername(u: string): (v: Validity)
    ensures v == Valid <==> 3 <= |u| <= 20 && WholeMatch(u, IsUsernameChar)
    ensures v == Invalid(Empty) <==> u == []
    ensures v == Invalid(TooShort) <==> 0 < |u| < 3
    ensures v == Invalid(TooLong) <==> |u| > 20
  {
    Validate(u, 3, 20, IsUsernameChar)
  }

  /** `validate_password`: 6 to 50 characters from the password class. */
  function ValidatePassword(p: string): (v: Validity)
    ensures v == Valid <==> 6 <= |p| <= 50 && WholeMatch(p, IsPasswordChar)
    ensures v == Invalid(Empty) <==> p == []
    ensures v == Invalid(TooShort) <==> 0 < |p| < 6
    ensures v == Invalid(TooLong) <==> |p| > 50
  {
    Validate(p, 6, 50, IsPasswordChar)
  }

  /** What a valid username is made of: letters and digits, with at most one
      newline at the very end, which the length bound counts. */
  lemma ValidUsernameShape(u: string)
    ensures ValidateUsername(u) == Valid <==>
      3 <= |u| <= 20 &&
      ((forall i :: 0 <= i < |u| ==> IsUsernameChar(u[i])) ||
       (u[|u| - 1] == '\n' && forall i :: 0 <= i < |u| - 1 ==> IsUsernameChar(u[i])))
  {
    if 3 <= |u| <= 20 && u[|u| - 1] != '\n' {
      assert Body(u) == u;
    }
    if 3 <= |u| <= 20 && (forall i :: 0 <= i < |u| ==> IsUsernameChar(u[i])) {
      assert !IsUsernameChar('\n');
      assert u[|u| - 1] != '\n';
    }
  }

  /** The `$` quirk: two to nineteen letters or digits and a final newline
      pass, and the newline counts toward the bounds. */
  lemma TrailingNewlineAccepted(w: string)
    requires 2 <= |w| <= 19 && forall i :: 0 <= i < |w| ==> IsUsernameChar(w[i])
    ensures ValidateUsername(w + "\n") == Valid
    ensures ValidateUsername(w + "\n\n") != Valid
  {
    assert Body(w + "\n") == w;
    assert Body(w + "\n\n") == w + "\n";
    assert (w + "\n")[|w|] == '\n';
  }

  /** No valid password holds a space: ' ' is outside the class, and a
      final newline is the only character outside it that is let through. */
  lemma ValidPasswordHasNoSpace(p: string)
    requires ValidatePassword(p) == Valid
    ensures forall i :: 0 <= i < |p| ==> p[i] != ' '
  {
    var b := Body(p);
    assert !IsPasswordChar(' ');
    forall i | 0 <= i < |p|
      ensures p[i] != ' '
    {
      if i < |b| {
        assert IsPasswordChar(b[i]) && b[i] == p[i];
      }
    }
  }

  // ---------------------------------------------------------------------------
  // Register and login
  // ---------------------------------------------------------------------------

  /** A row of `users`. */
  datatype Account = Account(id: nat, hash: string, salt: string)

  /** The `users` table: accounts by username, and the next row id. */
  datatype Store = Store(users: map<string, Account>, nextId: nat)

  /** Every row id was handed out before and no two rows share one. */
  predicate Wf(st: Store) {
    (forall u :: u in st.users ==> st.users[u].id < st.nextId) &&
    (forall u, v :: u in st.users && v in st.users && u != v ==>
       st.users[u].id != st.users[v].id)
  }

  datatype AuthFailure =
    | BadUsername(why: Refusal)
    | BadPassword(why: Refusal)
    | UsernameTaken
    | InsertFailed
    | InvalidCredentials

  datatype AuthResult = Success(userId: nat) | Failure(failure: AuthFailure)

  /** `register_user`: the username is checked, then the password, then
      the table; only then is a row inserted with the fresh salt and the
      hash of the password under it. An insert that raises leaves the table
      as it was. */
  function Register(st: Store, u: string, p: string, hash: (string, string) -> string,
                    salt: string, insertOk: bool): (r: (Store, AuthResult))
    ensures ValidateUsername(u).Invalid? ==>
      r == (st, Failure(BadUsername(ValidateUsername(u).why)))
    ensures ValidateUsername(u) == Valid && ValidatePassword(p).Invalid? ==>
      r == (st, Failure(BadPassword(ValidatePassword(p).why)))
    ensures ValidateUsername(u) == Valid && ValidatePassword(p) == Valid && u in st.users ==>
      r == (st, Failure(UsernameTaken))
    ensures r.1.Success? <==>
      ValidateUsername(u) == Valid && ValidatePassword(p) == Valid && u !in st.users && insertOk
    ensures r.1.Success? ==>
      r.1.userId == st.nextId && r.0.nextId == st.nextId + 1 &&
      r.0.users == st.users[u := Account(st.nextId, hash(p, salt), salt)]
    ensures r.1.Failure? ==> r.0 == st
  {
    var vu := ValidateUsername(u);
    if vu.Invalid? then (st, Failure(BadUsername(vu.why)))
    else
      var vp := ValidatePassword(p);
      if vp.Invalid? then (st, Failure(BadPassword(vp.why)))
      else if u in st.users then (st, Failure(UsernameTaken))
      else if !insertOk then (st, Failure(InsertFailed))
      else
        var acct := Account(st.nextId, hash(p, salt), salt);
        (Store(st.users[u := acct], st.nextId + 1), Success(st.nextId))
  }

  /** `login_user`: the stored salt re-hashes the password; an unknown
      username and a wrong password give the same answer. */
  function Login(st: Store, u: string, p: string, hash: (string, string) -> string): (r: AuthResult)
    ensures r.Success? <==> u in st.users && hash(p, st.users[u].salt) == st.users[u].hash
    ensures r.Success? ==> r.userId == st.users[u].id
    ensures r.Failure? ==> r.failure == InvalidCredentials
  {
    if u !in st.users then Failure(InvalidCredentials)
    else if hash(p, st.users[u].salt) != st.users[u].hash then Failure(InvalidCredentials)
    else Success(st.users[u].id)
  }

  /** Registering keeps the table well formed, leaves every other account
      alone, and a later login with the same password gets the new id. */
  lemma RegisterThenLogin(st: Store, u: string, p: string, hash: (string, string) -> string,
                          salt: string, insertOk: bool)
    requires Wf(st)
    ensures var (st', r) := Register(st, u, p, hash, salt, insertOk);
      Wf(st') &&
      (forall v :: v in st.users ==> v in st'.users && st'.users[v] == st.users[v]) &&
      (forall v, q :: v != u ==> Login(st', v, q, hash) == Login(st, v, q, hash)) &&
      (r.Success? ==> Login(st', u, p, hash) == Success(r.userId))
  {
  }

  /** A login reveals nothing about which of the two checks failed: with
      the username unknown and with the password wrong the answers are
      equal. */
  lemma LoginFailuresAgree(st: Store, u: string, v: string, p: string, q: string,
                           hash: (string, string) -> string)
    requires u !in st.users
    requires v in st.users && hash(q, st.users[v].salt) != st.users[v].hash
    ensures Login(st, u, p, hash) == Login(st, v, q, hash) == Failure(InvalidCredentials)
  {
  }

  // ---------------------------------------------------------------------------
  // Derived statistics
  // ---------------------------------------------------------------------------

  /** A row of `question_attempts`, as far as the statistics read it. */
  datatype Attempt = Attempt(isCorrect: bool)

  function CountCorrect(attempts: seq<Attempt>): (n: nat)
    ensures n <= |attempts|
  {
    if attempts == [] then 0
    else (if attempts[0].isCorrect then 1 else 0) + CountCorrect(attempts[1..])
  }

  function CountIncorrect(attempts: seq<Attempt>): nat {
    if attempts == [] then 0
    else (if attempts[0].isCorrect then 0 else 1) + CountIncorrect(attempts[1..])
  }

  /** The fields of `get_user_stats` computed from the counts. */
  datatype Derived = Derived(totalQuestions: int, correct: int, incorrect: int, accuracy: real)

  /** `incorrect_answers = total - correct` and `accuracy = correct / total
      * 100`, or 0 with no questions. */
  function DeriveStats(total: int, correct: int): (d: Derived)
    ensures d.totalQuestions == total && d.correct == correct
    ensures d.correct + d.incorrect == d.totalQuestions
    ensures total <= 0 ==> d.accuracy == 0.0
    ensures total > 0 ==> d.accuracy * (total as real) == (correct as real) * 100.0
  {
    Derived(total, correct, total - correct,
            if total > 0 then (correct as real) / (total as real) * 100.0 else 0.0)
  }

  /** Every attempt is counted as correct or as incorrect, never both. */
  lemma {:induction false} CountsSplit(attempts: seq<Attempt>)
    ensures CountCorrect(attempts) + CountIncorrect(attempts) == |attempts|
    decreases |attempts|
  {
    if attempts != [] {
      CountsSplit(attempts[1..]);
    }
  }

  /** A share of correct answers is a percentage, and all of it exactly when
      every answer was correct. */
  lemma AccuracyPercent(total: int, correct: int)
    requires 0 <= correct <= total
    ensures 0.0 <= DeriveStats(total, correct).accuracy <= 100.0
    ensures DeriveStats(total, correct).accuracy == 100.0 <==> total > 0 && correct == total
  {
    if total > 0 {
      var t := total as real;
      var c := correct as real;
      assert c / t <= 1.0;
      assert c / t == 1.0 <==> c == t;
    }
  }

  /** The statistics of the user's attempts: the two counts come from the
      same rows, so the incorrect answers are exactly the rows not marked
      correct and the accuracy is a percentage. */
  lemma AttemptStats(attempts: seq<Attempt>)
    ensures var d := DeriveStats(|attempts|, CountCorrect(attempts));
      d.incorrect == CountIncorrect(attempts) &&
      0.0 <= d.accuracy <= 100.0 &&
      (d.accuracy == 100.0 <==> attempts != [] && CountIncorrect(attempts) == 0)
  {
    CountsSplit(attempts);
    AccuracyPercent(|attempts|, CountCorrect(attempts));
  }
}
