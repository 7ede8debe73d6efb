/**
 * cmd/api/tokens.go: `createAuthenticationTokenHandler`, the exchange of an
 * e-mail address and a password for an authentication token. The handler
 * is a chain of early returns over what its collaborators report: the JSON
 * decoder, the user store, bcrypt and the token store are parameters.
 */
module TokenHandler {
  import opened Wrappers
  import opened Decimal
  import Validator
  import Text
  import Users
  import Tokens

  /** The decoded request body. */
  datatype Credentials = Credentials(email: string, password: string)

  /** What `Users.GetByEmail` reports. */
  datatype UserLookup = UserFound(user: Users.User) | UserNotFound | LookupFault

  /** How the handler answers. */
  datatype Outcome =
    | BadRequest                                   // 400
    | FailedValidation(errors: map<string, string>) // 422
    | InvalidCredentials                           // 401
    | ServerError                                  // 500
    | Issued(token: Tokens.Token)                  // 200, the token in the envelope

  /** `24*time.Hour` in nanoseconds. */
  const AuthenticationTTL: int := 24 * 60 * 60 * 1000000000

  /** The errors `ValidateEmail` and then `ValidatePasswordPlaintext` record on a fresh validator. */
  function CredentialErrors(c: Credentials): (e: map<string, string>)
    ensures e.Keys <= {"email", "password"}
    ensures e == map[] <==>
              Validator.MatchesEmail(c.email) && Users.MinPasswordBytes <= |c.password| <= Users.MaxPasswordBytes
  {
    var e := Users.PasswordErrors(c.password) + Users.EmailErrors(c.email);
    assert Users.EmailError(c.email).Some? ==> "email" in e;
    assert Users.PasswordError(c.password).Some? ==> "password" in e;
    e
  }

  /** The validation step of the handler, on a validator of its own. */
  method ValidateCredentials(c: Credentials) returns (errors: map<string, string>)
    ensures errors == CredentialErrors(c)
  {
    var v := new Validator.Validator.New();
    Users.ValidateEmail(v, c.email);
    Users.ValidatePasswordPlaintext(v, c.password);
    errors := v.errors;
  }

  /**
   * The handler. `body` is the decoded body (`None` when `readJSON` fails),
   * `getByEmail` the user store, `compare` bcrypt's comparison of a stored
   * password with a plaintext, and `newToken` the token store's `New`
   * (`None` for an error).
   */
  function CreateAuthenticationToken(body: Option<Credentials>,
                                     getByEmail: string -> UserLookup,
                                     compare: (Users.Password, string) -> Users.Comparison,
                                     newToken: (Int64, int, string) -> Option<Tokens.Token>): (r: Outcome)
    ensures r == BadRequest <==> body.None?
    ensures r.FailedValidation? <==> body.Some? && CredentialErrors(body.value) != map[]
  {
    match body
    case None => BadRequest
    case Some(c) =>
      var errors := CredentialErrors(c);
      if errors != map[] then FailedValidation(errors)
      else
        match getByEmail(c.email)
        case UserNotFound => InvalidCredentials
        case LookupFault => ServerError
        case UserFound(user) =>
          match Users.Matches(compare(user.password, c.password))
          case Err(_) => ServerError
          case Ok(false) => InvalidCredentials
          case Ok(true) =>
            match newToken(user.id, AuthenticationTTL, Tokens.ScopeAuthentication)
            case None => ServerError
            case Some(token) => Issued(token)
  }

  /** Invalid credentials are reported with the validator's errors, and no collaborator after the decoder is consulted. */
  lemma ValidationBeforeLookup(c: Credentials,
                               getByEmail1: string -> UserLookup, getByEmail2: string -> UserLookup,
                               compare1: (Users.Password, string) -> Users.Comparison,
                               compare2: (Users.Password, string) -> Users.Comparison,
                               newToken1: (Int64, int, string) -> Option<Tokens.Token>,
                               newToken2: (Int64, int, string) -> Option<Tokens.Token>)
    requires CredentialErrors(c) != map[]
    ensures CreateAuthenticationToken(Some(c), getByEmail1, compare1, newToken1) == FailedValidation(CredentialErrors(c))
    ensures CreateAuthenticationToken(Some(c), getByEmail1, compare1, newToken1)
         == CreateAuthenticationToken(Some(c), getByEmail2, compare2, newToken2)
  {
  }

  /**
   * No oracle: an address no user has and a known address with the wrong
   * password give the same answer, so a client cannot tell which happened.
   */
  lemma UnknownEmailLikeWrongPassword(c: Credentials, user: Users.User,
                                      getByEmail1: string -> UserLookup, getByEmail2: string -> UserLookup,
                                      compare: (Users.Password, string) -> Users.Comparison,
                                      newToken: (Int64, int, string) -> Option<Tokens.Token>)
    requires CredentialErrors(c) == map[]
    requires getByEmail1(c.email) == UserNotFound
    requires getByEmail2(c.email) == UserFound(user) && compare(user.password, c.password) == Users.HashMismatch
    ensures CreateAuthenticationToken(Some(c), getByEmail1, compare, newToken) == InvalidCredentials
    ensures CreateAuthenticationToken(Some(c), getByEmail1, compare, newToken)
         == CreateAuthenticationToken(Some(c), getByEmail2, compare, newToken)
  {
  }

  /** The handler answers 401 exactly for an unknown address or a password bcrypt finds different. */
  lemma InvalidCredentialsCases(body: Option<Credentials>, getByEmail: string -> UserLookup,
                                compare: (Users.Password, string) -> Users.Comparison,
                                newToken: (Int64, int, string) -> Option<Tokens.Token>)
    ensures CreateAuthenticationToken(body, getByEmail, compare, newToken) == InvalidCredentials <==>
              && body.Some? && CredentialErrors(body.value) == map[]
              && (|| getByEmail(body.value.email) == UserNotFound
                  || (getByEmail(body.value.email).UserFound?
                      && compare(getByEmail(body.value.email).user.password, body.value.password) == Users.HashMismatch))
  {
  }

  /**
   * Before the response is written, a store fault, a bcrypt error or a
   * failure to make the token is a server error, and nothing else is.
   */
  lemma ServerErrorCases(body: Option<Credentials>, getByEmail: string -> UserLookup,
                         compare: (Users.Password, string) -> Users.Comparison,
                         newToken: (Int64, int, string) -> Option<Tokens.Token>)
    ensures CreateAuthenticationToken(body, getByEmail, compare, newToken) == ServerError <==>
              && body.Some? && CredentialErrors(body.value) == map[]
              && var lookup := getByEmail(body.value.email);
              || lookup == LookupFault
              || (&& lookup.UserFound?
                  && var cmp := compare(lookup.user.password, body.value.password);
                  || cmp == Users.CompareFault
                  || (cmp == Users.HashMatches
                      && newToken(lookup.user.id, AuthenticationTTL, Tokens.ScopeAuthentication).None?))
  {
  }

  /**
   * A token is issued only to the user the address belongs to, after bcrypt
   * matched the password, and it is the authentication-scoped token with a
   * 24-hour lifetime that the token store made for that user.
   */
  lemma IssuedForMatchedUser(body: Option<Credentials>, getByEmail: string -> UserLookup,
                             compare: (Users.Password, string) -> Users.Comparison,
                             newToken: (Int64, int, string) -> Option<Tokens.Token>)
    requires CreateAuthenticationToken(body, getByEmail, compare, newToken).Issued?
    ensures var c := body.value;
            && CredentialErrors(c) == map[]
            && getByEmail(c.email).UserFound?
            && compare(getByEmail(c.email).user.password, c.password) == Users.HashMatches
            && newToken(getByEmail(c.email).user.id, AuthenticationTTL, Tokens.ScopeAuthentication)
               == Some(CreateAuthenticationToken(body, getByEmail, compare, newToken).token)
  {
  }

  /**
   * With the token store backed by `generateToken` (clock reading `now`,
   * random source `random`), an issued token belongs to the matched user,
   * has the authentication scope, expires 24 hours after `now`, and its
   * plaintext passes `ValidateTokenPlaintext`, so the authenticate
   * middleware will look it up.
   */
  lemma IssuedTokenUsable(c: Credentials, getByEmail: string -> UserLookup,
                          compare: (Users.Password, string) -> Users.Comparison,
                          now: int, random: seq<Text.Byte>, sha256: string -> seq<Text.Byte>)
    requires |random| == Tokens.RandomBytes
    ensures var r := CreateAuthenticationToken(Some(c), getByEmail, compare,
                       (id: Int64, ttl: int, scope: string) => Tokens.GenerateToken(id, ttl, scope, now, Some(random), sha256).ToOption());
            r.Issued? ==>
              && r.token.userID == getByEmail(c.email).user.id
              && r.token.scope == Tokens.ScopeAuthentication
              && r.token.expiry == now + AuthenticationTTL
              && Tokens.TokenErrors(r.token.plaintext) == map[]
  {
    var newToken := (id: Int64, ttl: int, scope: string) => Tokens.GenerateToken(id, ttl, scope, now, Some(random), sha256).ToOption();
    var r := CreateAuthenticationToken(Some(c), getByEmail, compare, newToken);
    if r.Issued? {
      IssuedForMatchedUser(Some(c), getByEmail, compare, newToken);
      var user := getByEmail(c.email).user;
      Tokens.GeneratedTokenValid(user.id, AuthenticationTTL, Tokens.ScopeAuthentication, now, Some(random), sha256);
    }
  }

  /** The user store of the handler test: only `a.wong@mail.com` is known. */
  function FixtureGetByEmail(email: string): (r: UserLookup)
    ensures r.UserFound? <==> email == "a.wong@mail.com"
  {
    if email == "a.wong@mail.com" then UserFound(Users.User(2, "Ada Wong", "a.wong@mail.com", Users.Password(None, None), true, 1))
    else UserNotFound
  }

  /** The handler test's `mail` row is refused on its address with 422, before the store is asked. */
  lemma FixtureInvalidEmail(compare: (Users.Password, string) -> Users.Comparison,
                            newToken: (Int64, int, string) -> Option<Tokens.Token>)
    ensures CreateAuthenticationToken(Some(Credentials("mail", "valid_password")), FixtureGetByEmail, compare, newToken)
         == FailedValidation(map["email" := "must be a valid email address"])
  {
    assert '@' !in "mail";
    Text.SplitNoSeparator("mail", '@');
    assert !Validator.MatchesEmail("mail");
    assert |"valid_password"| == 14;
  }

  /** `invalid@mail.com` (local part `invalid`, labels `mail` and `com`) is a valid address. */
  lemma FixtureAddressValid()
    ensures Validator.MatchesEmail("invalid@mail.com")
  {
    var labels := ["mail", "com"];
    assert Validator.IsLocalPart("invalid");
    assert Validator.IsLabel(labels[0]) && Validator.IsLabel(labels[1]);
    Validator.EmailCompose("invalid", labels);
    assert Text.Join(labels, '.') == "mail.com";
    assert "invalid" + "@" + "mail.com" == "invalid@mail.com";
  }

  /** The handler test's `invalid@mail.com` row passes validation and is answered 401 as an unknown address. */
  lemma FixtureUnknownEmail(compare: (Users.Password, string) -> Users.Comparison,
                            newToken: (Int64, int, string) -> Option<Tokens.Token>)
    ensures CreateAuthenticationToken(Some(Credentials("invalid@mail.com", "valid_password")), FixtureGetByEmail, compare, newToken)
         == InvalidCredentials
  {
    FixtureAddressValid();
    assert |"valid_password"| == 14;
    assert CredentialErrors(Credentials("invalid@mail.com", "valid_password")) == map[];
    assert FixtureGetByEmail("invalid@mail.com") == UserNotFound;
    InvalidCredentialsCases(Some(Credentials("invalid@mail.com", "valid_password")), FixtureGetByEmail, compare, newToken);
  }
}
