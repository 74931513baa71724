/** Signup and login request handling of server.js. Accounts are kept in a
    map keyed by email (the schema makes email unique); password hashing and
    comparison are foreign, so the salted hash is an input and the
    comparison a predicate parameter. */
module Accounts {
  import opened Basics
  import opened Text

  datatype Account = Account(id: string, firstName: string, lastName: string, email: string, passwordHash: string)

  /** A character of the class `[^\s@]`. */
  predicate AtomChar(c: char) {
    c != '@' && !IsSpace(c)
  }

  /** A run of one or more characters of `[^\s@]`. */
  ghost predicate Atom(s: string) {
    |s| > 0 && forall i :: 0 <= i < |s| ==> AtomChar(s[i])
  }

  /** The language of `/^[^\s@]+@[^\s@]+\.[^\s@]+$/`, read off the pattern:
      three atoms separated by `@` and `.`. */
  ghost predicate MatchesEmailPattern(s: string) {
    exists at, dot :: 0 < at < dot < |s| - 1 && s[at] == '@' && s[dot] == '.' &&
      Atom(s[..at]) && Atom(s[at + 1..dot]) && Atom(s[dot + 1..])
  }

  /** `emailRegex.test(email)`, computed in one pass: no white space, exactly
      one `@` with something before it, and a `.` after it that is neither
      right after the `@` nor the last character. */
  predicate EmailRegexTest(s: string) {
    var at := IndexOf(s, '@');
    && 0 < at
    && at + 2 < |s|
    && !HasSpace(s)
    && '@' !in s[at + 1..]
    && '.' in s[at + 2..|s| - 1]
  }

  lemma AtomOfSlice(s: string, lo: nat, hi: nat)
    requires lo < hi <= |s|
    requires forall i :: lo <= i < hi ==> AtomChar(s[i])
    ensures Atom(s[lo..hi])
  {
    var t := s[lo..hi];
    forall i | 0 <= i < |t| ensures AtomChar(t[i]) {
      assert t[i] == s[lo + i];
    }
  }

  lemma CharsOfAtom(s: string, lo: nat, hi: nat)
    requires lo < hi <= |s|
    requires Atom(s[lo..hi])
    ensures forall i :: lo <= i < hi ==> AtomChar(s[i])
  {
    var t := s[lo..hi];
    forall i | lo <= i < hi ensures AtomChar(s[i]) {
      assert s[i] == t[i - lo];
    }
  }

  lemma EmailRegexTestSound(s: string)
    requires EmailRegexTest(s)
    ensures MatchesEmailPattern(s)
  {
    var at := IndexOf(s, '@');
    var tail := s[at + 2..|s| - 1];
    var k :| 0 <= k < |tail| && tail[k] == '.';
    var dot := at + 2 + k;
    assert s[dot] == '.';
    assert s[..at] == s[0..at];
    forall i | 0 <= i < |s| && i != at ensures AtomChar(s[i]) {
      assert !IsSpace(s[i]);
      if i < at {
        assert s[i] in s[..at];
      } else {
        assert s[i] == s[at + 1..][i - at - 1];
      }
    }
    AtomOfSlice(s, 0, at);
    AtomOfSlice(s, at + 1, dot);
    AtomOfSlice(s, dot + 1, |s|);
  }

  lemma EmailRegexTestComplete(s: string)
    requires MatchesEmailPattern(s)
    ensures EmailRegexTest(s)
  {
    var at, dot :| 0 < at < dot < |s| - 1 && s[at] == '@' && s[dot] == '.' &&
      Atom(s[..at]) && Atom(s[at + 1..dot]) && Atom(s[dot + 1..]);
    OnlyOneAt(s, at, dot);
    FirstAt(s, at);
    NoSpaceOutsideAt(s, at);
    NoAtAfter(s, at);
    assert s[at + 2..|s| - 1][dot - at - 2] == '.';
  }

  lemma FirstAt(s: string, at: nat)
    requires at < |s| && s[at] == '@'
    requires forall i :: 0 <= i < |s| && i != at ==> AtomChar(s[i])
    ensures IndexOf(s, '@') == at
  {
    assert '@' !in s[..at] by {
      forall i | 0 <= i < at ensures s[..at][i] != '@' {
        assert AtomChar(s[i]);
      }
    }
  }

  lemma NoSpaceOutsideAt(s: string, at: nat)
    requires at < |s| && s[at] == '@'
    requires forall i :: 0 <= i < |s| && i != at ==> AtomChar(s[i])
    ensures !HasSpace(s)
  {
    forall i | 0 <= i < |s| ensures !IsSpace(s[i]) {
      if i != at { assert AtomChar(s[i]); }
    }
  }

  lemma NoAtAfter(s: string, at: nat)
    requires at < |s|
    requires forall i :: 0 <= i < |s| && i != at ==> AtomChar(s[i])
    ensures '@' !in s[at + 1..]
  {
    var rest := s[at + 1..];
    forall i | 0 <= i < |rest| ensures rest[i] != '@' {
      assert rest[i] == s[at + 1 + i];
      assert AtomChar(s[at + 1 + i]);
    }
  }

  lemma OnlyOneAt(s: string, at: nat, dot: nat)
    requires 0 < at < dot < |s| - 1 && s[dot] == '.'
    requires Atom(s[..at]) && Atom(s[at + 1..dot]) && Atom(s[dot + 1..])
    ensures forall i :: 0 <= i < |s| && i != at ==> AtomChar(s[i])
  {
    assert s[..at] == s[0..at] && s[dot + 1..] == s[dot + 1..|s|];
    CharsOfAtom(s, 0, at);
    CharsOfAtom(s, at + 1, dot);
    CharsOfAtom(s, dot + 1, |s|);
  }

  /** The one-pass test accepts exactly the strings the pattern describes. */
  lemma EmailRegexTestCorrect(s: string)
    ensures EmailRegexTest(s) <==> MatchesEmailPattern(s)
  {
    if EmailRegexTest(s) { EmailRegexTestSound(s); }
    if MatchesEmailPattern(s) { EmailRegexTestComplete(s); }
  }

  datatype SignupRequest = SignupRequest(firstName: Option<string>, lastName: Option<string>,
                                         email: Option<string>, password: Option<string>)

  /** `firstName && lastName && email && password`: every field is present
      and non-empty. */
  predicate AllGiven(req: SignupRequest) {
    Given(req.firstName) && Given(req.lastName) && Given(req.email) && Given(req.password)
  }

  datatype SignupResult =
    | SignupRejected(status: int, error: string)
    | Registered(status: int, userId: string, accounts: map<string, Account>)

  /** POST /api/users/signup. `hashed` is what `bcrypt.hash` produced,
      `newId` the identifier the store assigns, and `saved` whether the
      insert succeeds. The checks run in the source's order and the first
      failing one decides the answer. */
  function Signup(accounts: map<string, Account>, req: SignupRequest, hashed: string, newId: string, saved: bool): (r: SignupResult)
    ensures r.Registered? ==> r.status == 201 && r.userId == newId
    ensures r.SignupRejected? ==> r.status in {400, 500}
  {
    if !AllGiven(req) then
      SignupRejected(400, "All fields are required")
    else if !EmailRegexTest(req.email.value) then
      SignupRejected(400, "Invalid email format")
    else if Utf16Length(req.password.value) < 6 then
      SignupRejected(400, "Password must be at least 6 characters long")
    else if req.email.value in accounts then
      SignupRejected(400, "User already exists")
    else if !saved then
      SignupRejected(500, "An error occurred during signup")
    else
      var account := Account(newId, req.firstName.value, req.lastName.value, req.email.value, hashed);
      Registered(201, newId, accounts[req.email.value := account])
  }

  /** A signup succeeds exactly when every field is given, the email matches
      the pattern, the password is at least six UTF-16 code units long
      (`password.length`), the email is
      new and the write succeeds; it then adds exactly that account. */
  lemma SignupAcceptance(accounts: map<string, Account>, req: SignupRequest, hashed: string, newId: string, saved: bool)
    ensures Signup(accounts, req, hashed, newId, saved).Registered? <==>
              && AllGiven(req)
              && MatchesEmailPattern(req.email.value)
              && Utf16Length(req.password.value) >= 6
              && req.email.value !in accounts
              && saved
    ensures Signup(accounts, req, hashed, newId, saved).Registered? ==>
              && Signup(accounts, req, hashed, newId, saved).accounts.Keys == accounts.Keys + {req.email.value}
              && Signup(accounts, req, hashed, newId, saved).accounts[req.email.value]
                 == Account(newId, req.firstName.value, req.lastName.value, req.email.value, hashed)
              && forall e :: e in accounts ==> Signup(accounts, req, hashed, newId, saved).accounts[e] == accounts[e]
  {
    if Given(req.email) {
      EmailRegexTestCorrect(req.email.value);
    }
  }

  /** The refusals follow the handler's order of checks: the first check
      that fails answers 400 with its own message, and 500 comes only from a
      failed write once every check has passed. */
  lemma SignupRefusals(accounts: map<string, Account>, req: SignupRequest, hashed: string, newId: string, saved: bool)
    ensures !AllGiven(req) ==>
              Signup(accounts, req, hashed, newId, saved) == SignupRejected(400, "All fields are required")
    ensures AllGiven(req) && !MatchesEmailPattern(req.email.value) ==>
              Signup(accounts, req, hashed, newId, saved) == SignupRejected(400, "Invalid email format")
    ensures AllGiven(req) && MatchesEmailPattern(req.email.value) && Utf16Length(req.password.value) < 6 ==>
              Signup(accounts, req, hashed, newId, saved) == SignupRejected(400, "Password must be at least 6 characters long")
    ensures AllGiven(req) && MatchesEmailPattern(req.email.value) && Utf16Length(req.password.value) >= 6
            && req.email.value in accounts ==>
              Signup(accounts, req, hashed, newId, saved) == SignupRejected(400, "User already exists")
    ensures Signup(accounts, req, hashed, newId, saved).status == 500 <==>
              && AllGiven(req) && MatchesEmailPattern(req.email.value) && Utf16Length(req.password.value) >= 6
              && req.email.value !in accounts && !saved
  {
    if Given(req.email) {
      EmailRegexTestCorrect(req.email.value);
    }
  }

  datatype LoginResult = LoginResult(status: int, body: string)

  /** POST /api/users/login. `matches(password, hash)` stands for `bcrypt.compare`. */
  function Login(accounts: map<string, Account>, email: Option<string>, password: Option<string>,
                 matches: (string, string) -> bool): (r: LoginResult)
    ensures !Given(email) || !Given(password) ==> r == LoginResult(400, "Email and password are required")
    ensures r.status == 200 <==>
              Given(email) && Given(password) && email.value in accounts
              && matches(password.value, accounts[email.value].passwordHash)
    ensures r.status == 200 ==> r.body == accounts[email.value].id
    ensures r.status != 200 && Given(email) && Given(password) ==> r == LoginResult(401, "Invalid email or password")
  {
    if !Given(email) || !Given(password) then LoginResult(400, "Email and password are required")
    else if email.value !in accounts then LoginResult(401, "Invalid email or password")
    else if !matches(password.value, accounts[email.value].passwordHash) then LoginResult(401, "Invalid email or password")
    else LoginResult(200, accounts[email.value].id)
  }

  /** An unknown email and a wrong password get the same answer, so the
      response does not reveal which accounts exist. */
  lemma LoginDoesNotRevealAccounts(accounts: map<string, Account>, unknown: string, known: string, password: string,
                                   matches: (string, string) -> bool)
    requires unknown != "" && known != "" && password != ""
    requires unknown !in accounts && known in accounts
    requires !matches(password, accounts[known].passwordHash)
    ensures Login(accounts, Some(unknown), Some(password), matches) == Login(accounts, Some(known), Some(password), matches)
    ensures Login(accounts, Some(unknown), Some(password), matches).status == 401
  {
  }
}
