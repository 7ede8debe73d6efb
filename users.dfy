/**
 * internal/data/users.go: the user record, the distinguished anonymous user,
 * and the validation of e-mail, password and user input.
 */
module Users {
  import opened Wrappers
  import opened Decimal
  import opened Validator
  import Text

  /** `password`: the plaintext, when the request supplied one, and the bcrypt hash (`nil` is `None`). */
  datatype Password = Password(plaintext: Option<string>, hash: Option<seq<Text.Byte>>)

  /** `User`, without its creation timestamp. */
  datatype User = User(id: Int64, name: string, email: string, password: Password, activated: bool, version: int)

  /** The zero value `User{}`. */
  const ZeroUser: User := User(0, "", "", Password(None, None), false, 0)

  /**
   * A `*User` as the request context carries it. Go compares `*User` values
   * by address, so the anonymous user (`AnonymouseUser`, the address of a
   * zero `User`) is a value of its own, distinct from every other address,
   * even one of an equal zero `User`.
   */
  datatype UserRef = Anonymous | Record(user: User)

  /** The `User` a reference points to. */
  function Deref(u: UserRef): (r: User)
    ensures u.Record? ==> r == u.user
  {
    if u.Anonymous? then ZeroUser else u.user
  }

  /** `IsAnonymous()`: address identity with the anonymous user. */
  predicate IsAnonymous(u: UserRef) {
    u == Anonymous
  }

  /**
   * The anonymous user is a zero `User`, so it is not activated; yet a fresh
   * zero `User` (what `GetForToken` returns beside an error) has the same
   * fields and is not the anonymous user.
   */
  lemma AnonymousIsIdentity()
    ensures !Deref(Anonymous).activated
    ensures Deref(Record(ZeroUser)) == Deref(Anonymous)
    ensures !IsAnonymous(Record(ZeroUser)) && IsAnonymous(Anonymous)
  {
  }

  /** A failure of bcrypt (`GenerateFromPassword` or `CompareHashAndPassword` returning an error other than a mismatch). */
  datatype HashError = HashError

  /**
   * `password.Set` as written. bcrypt's outcome is the parameter `hashed`
   * (`None` for an error). On an error the method returns nil and leaves
   * the password as it was.
   */
  function SetAsWritten(p: Password, plaintext: string, hashed: Option<seq<Text.Byte>>): (r: (Password, Option<HashError>))
    ensures r.1.None?
    ensures hashed.None? ==> r.0 == p
  {
    if hashed.None? then (p, None) else (Password(Some(plaintext), hashed), None)
  }

  /** As written, a failed hash on a user without a password reports success yet leaves no hash, which `ValidateUser` refuses with a panic. */
  lemma SetAsWrittenHidesFailure(plaintext: string)
    ensures var (p, err) := SetAsWritten(Password(None, None), plaintext, None);
            err.None? && p.hash.None?
  {
  }

  /** `password.Set` returning bcrypt's error, as its doc comment and callers expect. */
  function Set(p: Password, plaintext: string, hashed: Option<seq<Text.Byte>>): (r: (Password, Option<HashError>))
    ensures r.1.None? <==> hashed.Some?
    ensures r.1.None? ==> r.0.plaintext == Some(plaintext) && r.0.hash == hashed
    ensures r.1.Some? ==> r.0 == p
  {
    if hashed.None? then (p, Some(HashError)) else (Password(Some(plaintext), hashed), None)
  }

  /** A user whose password `Set` reported success meets `ValidateUser`'s demand for a hash. */
  lemma SetReadiesValidation(u: User, plaintext: string, hashed: Option<seq<Text.Byte>>)
    ensures var (p, err) := Set(u.password, plaintext, hashed);
            err.None? ==> u.(password := p).password.hash.Some?
  {
  }

  /** What bcrypt's `CompareHashAndPassword` reports. */
  datatype Comparison = HashMatches | HashMismatch | CompareFault

  /** `password.Matches`: a mismatch is a plain `false`; every other bcrypt error is an error. */
  function Matches(c: Comparison): (r: Result<bool, HashError>)
    ensures r == Ok(true) <==> c == HashMatches
    ensures r == Ok(false) <==> c == HashMismatch
    ensures r.Err? <==> c == CompareFault
  {
    match c
    case HashMatches => Ok(true)
    case HashMismatch => Ok(false)
    case CompareFault => Err(HashError)
  }

  function EmailError(email: string): (r: Option<string>)
    ensures email == "" ==> r == Some("must be provided")
    ensures r.None? <==> MatchesEmail(email)
  {
    if email == "" then
      Text.SplitNoSeparator(email, '@');
      Some("must be provided")
    else if !MatchesEmail(email) then Some("must be a valid email address")
    else None
  }

  /** The errors `ValidateEmail` records on an empty validator. */
  function EmailErrors(email: string): (e: map<string, string>)
    ensures e.Keys <= {"email"}
  {
    Entry("email", EmailError(email))
  }

  /** A non-empty address gets an error exactly when it does not match the e-mail pattern. */
  lemma EmailRejected(email: string)
    requires email != ""
    ensures "email" in EmailErrors(email) <==> !MatchesEmail(email)
    ensures !MatchesEmail(email) ==> EmailErrors(email)["email"] == "must be a valid email address"
  {
  }

  lemma EmailChecks(errors: map<string, string>, email: string)
    ensures Checked(Checked(errors, email != "", "email", "must be provided"),
                    MatchesEmail(email), "email", "must be a valid email address")
         == EmailErrors(email) + errors
  {
    assert Entry("email", None) + errors == errors;
    CheckedEntry(errors, "email", None, email != "", "must be provided");
    var first := FirstFailure(None, email != "", "must be provided");
    CheckedEntry(errors, "email", first, MatchesEmail(email), "must be a valid email address");
  }

  /** `ValidateEmail(v, email)`: adds the address's errors to `v`, first message per field kept. */
  method ValidateEmail(v: Validator, email: string)
    modifies v
    ensures v.errors == EmailErrors(email) + old(v.errors)
  {
    ghost var before := v.errors;
    v.Check(email != "", "email", "must be provided");
    v.Check(MatchesEmail(email), "email", "must be a valid email address");
    EmailChecks(before, email);
  }

  const MinPasswordBytes: int := 8
  const MaxPasswordBytes: int := 72

  function PasswordError(password: string): (r: Option<string>)
    ensures password == "" ==> r == Some("must be provided")
    ensures r.None? <==> MinPasswordBytes <= |password| <= MaxPasswordBytes
  {
    if password == "" then Some("must be provided")
    else if |password| < MinPasswordBytes then Some("must be at least 8 bytes long")
    else if |password| > MaxPasswordBytes then Some("must not be more than 72 bytes long")
    else None
  }

  /** The errors `ValidatePasswordPlaintext` records on an empty validator. */
  function PasswordErrors(password: string): (e: map<string, string>)
    ensures e.Keys <= {"password"}
  {
    Entry("password", PasswordError(password))
  }

  lemma PasswordChecks(errors: map<string, string>, password: string)
    ensures Checked(Checked(Checked(errors, password != "", "password", "must be provided"),
                            |password| >= MinPasswordBytes, "password", "must be at least 8 bytes long"),
                    |password| <= MaxPasswordBytes, "password", "must not be more than 72 bytes long")
         == PasswordErrors(password) + errors
  {
    assert Entry("password", None) + errors == errors;
    CheckedEntry(errors, "password", None, password != "", "must be provided");
    var first := FirstFailure(None, password != "", "must be provided");
    CheckedEntry(errors, "password", first, |password| >= MinPasswordBytes, "must be at least 8 bytes long");
    first := FirstFailure(first, |password| >= MinPasswordBytes, "must be at least 8 bytes long");
    CheckedEntry(errors, "password", first, |password| <= MaxPasswordBytes, "must not be more than 72 bytes long");
  }

  /** `ValidatePasswordPlaintext(v, password)`: adds the password's errors to `v`. */
  method ValidatePasswordPlaintext(v: Validator, password: string)
    modifies v
    ensures v.errors == PasswordErrors(password) + old(v.errors)
  {
    ghost var before := v.errors;
    v.Check(password != "", "password", "must be provided");
    v.Check(|password| >= MinPasswordBytes, "password", "must be at least 8 bytes long");
    v.Check(|password| <= MaxPasswordBytes, "password", "must not be more than 72 bytes long");
    PasswordChecks(before, password);
  }

  const MaxNameBytes: int := 500

  function NameError(name: string): (r: Option<string>)
    ensures r.None? <==> name != "" && |name| <= MaxNameBytes
  {
    if name == "" then Some("must be provided")
    else if |name| > MaxNameBytes then Some("must not be more than 500 bytes long")
    else None
  }

  /** The password's errors when a plaintext was supplied, none otherwise. */
  function PlaintextErrors(password: Password): (e: map<string, string>)
    ensures password.plaintext.None? ==> e == map[]
    ensures password.plaintext.Some? ==> e == PasswordErrors(password.plaintext.value)
  {
    if password.plaintext.Some? then PasswordErrors(password.plaintext.value) else map[]
  }

  /** The errors `ValidateUser` records on an empty validator. */
  function UserErrors(u: User): (e: map<string, string>)
    ensures e.Keys <= {"name", "email", "password"}
    ensures "password" in e ==> u.password.plaintext.Some?
  {
    PlaintextErrors(u.password) + EmailErrors(u.email) + Entry("name", NameError(u.name))
  }

  lemma NameChecks(errors: map<string, string>, name: string)
    ensures Checked(Checked(errors, name != "", "name", "must be provided"),
                    |name| <= MaxNameBytes, "name", "must not be more than 500 bytes long")
         == Entry("name", NameError(name)) + errors
  {
    assert Entry("name", None) + errors == errors;
    CheckedEntry(errors, "name", None, name != "", "must be provided");
    var first := FirstFailure(None, name != "", "must be provided");
    CheckedEntry(errors, "name", first, |name| <= MaxNameBytes, "must not be more than 500 bytes long");
  }

  /**
   * `ValidateUser(v, user)`: name, then e-mail, then the password when a
   * plaintext is present. A user without a password hash makes the source
   * panic, so the hash is required.
   */
  method ValidateUser(v: Validator, user: User)
    requires user.password.hash.Some?
    modifies v
    ensures v.errors == UserErrors(user) + old(v.errors)
  {
    ghost var before := v.errors;
    v.Check(user.name != "", "name", "must be provided");
    v.Check(|user.name| <= MaxNameBytes, "name", "must not be more than 500 bytes long");
    NameChecks(before, user.name);
    ValidateEmail(v, user.email);
    if user.password.plaintext.Some? {
      ValidatePasswordPlaintext(v, user.password.plaintext.value);
    }
    ghost var p, e, n := PlaintextErrors(user.password), EmailErrors(user.email), Entry("name", NameError(user.name));
    assert v.errors == p + (e + (n + before));
    UnionAssociative(e, n, before);
    UnionAssociative(p, e + n, before);
    UnionAssociative(p, e, n);
  }

  /** A user passes validation exactly when its name, e-mail and (when supplied) password are acceptable. */
  lemma UserValid(u: User)
    ensures UserErrors(u) == map[] <==>
      && u.name != "" && |u.name| <= MaxNameBytes
      && MatchesEmail(u.email)
      && (u.password.plaintext.Some? ==> MinPasswordBytes <= |u.password.plaintext.value| <= MaxPasswordBytes)
  {
    var e := UserErrors(u);
    if NameError(u.name).Some? { assert "name" in e; }
    if EmailError(u.email).Some? { assert "email" in e; }
    if u.password.plaintext.Some? && PasswordError(u.password.plaintext.value).Some? { assert "password" in e; }
  }

  /** The invalid-user fixture of the registration test (`Jackie Chan`, `j.chan`, `test_password`) fails on its e-mail alone. */
  lemma InvalidUserFixture(hash: seq<Text.Byte>)
    ensures UserErrors(User(3, "Jackie Chan", "j.chan", Password(Some("test_password"), Some(hash)), false, 1))
         == map["email" := "must be a valid email address"]
  {
    RejectsNoAt();
  }
}
