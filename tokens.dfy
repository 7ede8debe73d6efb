/**
 * internal/data/tokens.go: token scopes, the making of a token from 16 random
 * bytes, and the validation of a token's plaintext.
 */
module Tokens {
  import opened Wrappers
  import opened Decimal
  import opened Validator
  import Text
  import Base32

  const ScopeActivation: string := "activation"
  const ScopeAuthentication: string := "authentication"
  const ScopePasswordReset: string := "password-reset"

  /** The three scopes are different strings, so a token of one scope never passes a lookup for another. */
  lemma ScopesDistinct()
    ensures ScopeActivation != ScopeAuthentication
    ensures ScopeActivation != ScopePasswordReset
    ensures ScopeAuthentication != ScopePasswordReset
  {
    assert ScopeActivation[1] != ScopeAuthentication[1];
    assert ScopeActivation[0] != ScopePasswordReset[0];
    assert ScopeAuthentication[0] != ScopePasswordReset[0];
  }

  /** `Token`; the expiry is a time in nanoseconds. */
  datatype Token = Token(plaintext: string, hash: seq<Text.Byte>, userID: Int64, expiry: int, scope: string)

  /** The number of random bytes behind a token. */
  const RandomBytes: nat := 16

  /** The length of a token's plaintext. */
  const PlaintextLength: nat := 26

  /** A failure of the random source (`rand.Read` returning an error). */
  datatype GenerateError = ErrRandomSource

  /**
   * `generateToken(userID, ttl, scope)`. The clock reading `now`, the outcome
   * of `rand.Read` (`None` for an error, otherwise the 16 bytes read) and
   * SHA-256 are parameters.
   */
  function GenerateToken(userID: Int64, ttl: int, scope: string, now: int,
                         random: Option<seq<Text.Byte>>, sha256: string -> seq<Text.Byte>): (r: Result<Token, GenerateError>)
    requires random.Some? ==> |random.value| == RandomBytes
    ensures r.Err? <==> random.None?
    ensures r.Ok? ==> && r.value.userID == userID
                      && r.value.scope == scope
                      && r.value.expiry == now + ttl
                      && r.value.plaintext == Base32.Encode(random.value)
                      && r.value.hash == sha256(r.value.plaintext)
  {
    match random
    case None => Err(ErrRandomSource)
    case Some(bytes) =>
      var plaintext := Base32.Encode(bytes);
      Ok(Token(plaintext, sha256(plaintext), userID, now + ttl, scope))
  }

  /** A generated plaintext is 26 characters of the base 32 alphabet and determines the random bytes. */
  lemma GeneratedPlaintext(userID: Int64, ttl: int, scope: string, now: int, bytes: seq<Text.Byte>, sha256: string -> seq<Text.Byte>)
    requires |bytes| == RandomBytes
    ensures var t := GenerateToken(userID, ttl, scope, now, Some(bytes), sha256).value;
            && |t.plaintext| == PlaintextLength
            && (forall i :: 0 <= i < |t.plaintext| ==> 'A' <= t.plaintext[i] <= 'Z' || '2' <= t.plaintext[i] <= '7')
            && Base32.Decode(t.plaintext) == Some(bytes)
  {
    Base32.DecodeEncode(bytes);
  }

  function TokenError(plaintext: string): (r: Option<string>)
    ensures plaintext == "" ==> r == Some("must be provided")
    ensures r.None? <==> |plaintext| == PlaintextLength
  {
    if plaintext == "" then Some("must be provided")
    else if |plaintext| != PlaintextLength then Some("must be 26 bytes long")
    else None
  }

  /** The errors `ValidateTokenPlaintext` records on an empty validator. */
  function TokenErrors(plaintext: string): (e: map<string, string>)
    ensures e.Keys <= {"token"}
  {
    Entry("token", TokenError(plaintext))
  }

  lemma TokenChecks(errors: map<string, string>, plaintext: string)
    ensures Checked(Checked(errors, plaintext != "", "token", "must be provided"),
                    |plaintext| == PlaintextLength, "token", "must be 26 bytes long")
         == TokenErrors(plaintext) + errors
  {
    assert Entry("token", None) + errors == errors;
    CheckedEntry(errors, "token", None, plaintext != "", "must be provided");
    var first := FirstFailure(None, plaintext != "", "must be provided");
    CheckedEntry(errors, "token", first, |plaintext| == PlaintextLength, "must be 26 bytes long");
  }

  /** `ValidateTokenPlaintext(v, plaintext)`: adds the plaintext's errors to `v`. */
  method ValidateTokenPlaintext(v: Validator, plaintext: string)
    modifies v
    ensures v.errors == TokenErrors(plaintext) + old(v.errors)
  {
    ghost var before := v.errors;
    v.Check(plaintext != "", "token", "must be provided");
    v.Check(|plaintext| == PlaintextLength, "token", "must be 26 bytes long");
    TokenChecks(before, plaintext);
  }

  /** Every token `generateToken` makes passes `ValidateTokenPlaintext`. */
  lemma GeneratedTokenValid(userID: Int64, ttl: int, scope: string, now: int,
                            random: Option<seq<Text.Byte>>, sha256: string -> seq<Text.Byte>)
    requires random.Some? ==> |random.value| == RandomBytes
    ensures var r := GenerateToken(userID, ttl, scope, now, random, sha256);
            r.Ok? ==> TokenErrors(r.value.plaintext) == map[]
  {
    if random.Some? {
      GeneratedPlaintext(userID, ttl, scope, now, random.value, sha256);
    }
  }
}
