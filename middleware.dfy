/**
 * The decisions of the request middleware in cmd/api/middleware.go: the
 * per-address client table of the rate limiter, the resolution of the
 * `Authorization` header into a user, and the three access gates.
 */
module Middleware {
  import opened Wrappers
  import Text
  import Users
  import Tokens
  import Permissions
  import Validator

  // ---------------------------------------------------------------------
  // Rate limiting
  // ---------------------------------------------------------------------

  /**
   * A token bucket (`rate.Limiter`) as far as the table sees it: the rate
   * and burst it was made with, and `born`, the time it was made, which
   * tells one bucket from another. Its fill level is not modelled; whether
   * it allows a request is a function of the bucket, an input of `Admit`.
   */
  datatype Limiter = Limiter(rps: real, burst: int, born: int)

  /** `client`: a client's bucket and when it was last seen, in nanoseconds. */
  datatype Client = Client(limiter: Limiter, lastSeen: int)

  /** What the rate limiter does with a request. */
  datatype RateDecision = Proceed | ServerError | RateLimitExceeded

  /** An entry idle for longer than three minutes is removed by the sweep. */
  const IdleLimit: int := 3 * 60 * 1_000_000_000

  predicate Idle(c: Client, now: int) {
    now - c.lastSeen > IdleLimit
  }

  /** The table after a request from `ip` at `now`: a new bucket for an unseen address, and the address marked as seen. */
  function Touched(clients: map<string, Client>, ip: string, now: int, newLimiter: Limiter): (r: map<string, Client>)
    ensures r.Keys == clients.Keys + {ip}
    ensures r[ip].lastSeen == now
    ensures ip in clients ==> r[ip].limiter == clients[ip].limiter
    ensures ip !in clients ==> r[ip].limiter == newLimiter
    ensures forall other :: other in clients && other != ip ==> r[other] == clients[other]
  {
    var limiter := if ip in clients then clients[ip].limiter else newLimiter;
    clients[ip := Client(limiter, now)]
  }

  /** The entries the sweep keeps: those seen within the last three minutes, untouched. */
  function Recent(clients: map<string, Client>, now: int): (r: map<string, Client>)
    ensures forall ip :: ip in r <==> ip in clients && !Idle(clients[ip], now)
    ensures forall ip :: ip in r ==> r[ip] == clients[ip]
  {
    map ip | ip in clients && !Idle(clients[ip], now) :: clients[ip]
  }

  /** The first request from an unseen address adds exactly one entry; a known address keeps the table's size. */
  lemma TouchedSize(clients: map<string, Client>, ip: string, now: int, newLimiter: Limiter)
    ensures ip !in clients ==> |Touched(clients, ip, now, newLimiter)| == |clients| + 1
    ensures ip in clients ==> |Touched(clients, ip, now, newLimiter)| == |clients|
  {
    var r := Touched(clients, ip, now, newLimiter);
    if ip in clients {
      assert r.Keys == clients.Keys;
    } else {
      assert r.Keys == clients.Keys + {ip};
    }
  }

  /** A client that was just seen survives a sweep at the same time. */
  lemma TouchedSurvivesSweep(clients: map<string, Client>, ip: string, now: int, newLimiter: Limiter)
    ensures ip in Recent(Touched(clients, ip, now, newLimiter), now)
  {
  }

  /**
   * A client the sweep kept goes on with its own bucket at its next
   * request; a client the sweep evicted comes back to a bucket made at
   * that request, not to the one it had drained.
   */
  lemma BucketAfterSweep(clients: map<string, Client>, ip: string, swept: int, now: int, rps: real, burst: int)
    requires ip in clients
    ensures var r := Touched(Recent(clients, swept), ip, now, Limiter(rps, burst, now));
            && (!Idle(clients[ip], swept) ==> r[ip].limiter == clients[ip].limiter)
            && (Idle(clients[ip], swept) ==> r[ip].limiter == Limiter(rps, burst, now))
  {
  }

  /** Sweeping twice at the same time removes nothing more. */
  lemma SweepIdempotent(clients: map<string, Client>, now: int)
    ensures Recent(Recent(clients, now), now) == Recent(clients, now)
  {
  }

  /** `rateLimit`: the configuration and the client table it guards. */
  class RateLimiter {
    const enabled: bool
    const rps: real
    const burst: int
    var clients: map<string, Client>

    constructor (enabled: bool, rps: real, burst: int)
      ensures this.enabled == enabled && this.rps == rps && this.burst == burst
      ensures clients == map[]
    {
      this.enabled, this.rps, this.burst := enabled, rps, burst;
      clients := map[];
    }

    /**
     * One request. `host` is the outcome of `net.SplitHostPort` on the remote
     * address (`None` when it fails), `now` the clock, and `allow` what a
     * bucket answers to `Allow()`. A disabled limiter lets everything through
     * without touching the table; an address that does not parse is a
     * server error; otherwise the client is recorded as seen now, whether or
     * not its bucket allows the request.
     */
    method Admit(host: Option<string>, now: int, allow: Limiter -> bool) returns (d: RateDecision)
      modifies this
      ensures !enabled ==> d == Proceed && clients == old(clients)
      ensures enabled && host.None? ==> d == ServerError && clients == old(clients)
      ensures enabled && host.Some? ==>
                && clients == Touched(old(clients), host.value, now, Limiter(rps, burst, now))
                && d == (if allow(clients[host.value].limiter) then Proceed else RateLimitExceeded)
    {
      if !enabled {
        return Proceed;
      }
      if host.None? {
        return ServerError;
      }
      var ip := host.value;
      if ip !in clients {
        clients := clients[ip := Client(Limiter(rps, burst, now), 0)];
      }
      clients := clients[ip := clients[ip].(lastSeen := now)];
      if !allow(clients[ip].limiter) {
        return RateLimitExceeded;
      }
      d := Proceed;
    }

    /** One pass of the janitor: deletes every entry idle for more than three minutes. */
    method Sweep(now: int)
      modifies this
      ensures clients == Recent(old(clients), now)
    {
      var pending := clients.Keys;
      ghost var start := clients;
      while pending != {}
        invariant pending <= start.Keys
        invariant clients.Keys <= start.Keys
        invariant forall ip :: ip in clients ==> clients[ip] == start[ip]
        invariant forall ip :: ip in pending ==> ip in clients
        invariant forall ip :: ip in start && ip !in pending ==> (ip in clients <==> !Idle(start[ip], now))
        decreases |pending|
      {
        var ip :| ip in pending;
        if Idle(clients[ip], now) {
          clients := clients - {ip};
        }
        pending := pending - {ip};
      }
    }
  }

  // ---------------------------------------------------------------------
  // Authentication
  // ---------------------------------------------------------------------

  /** The outcome of `GetForToken`: a user, `ErrRecordNotFound`, or any other error. */
  datatype Lookup = Found(user: Users.User) | NotFound | Fault

  /** What `authenticate` does with a request. */
  datatype AuthOutcome = AttachUser(user: Users.UserRef) | InvalidToken | AuthServerError

  /** `authenticate`, given the `Authorization` header and the user store's `GetForToken`. */
  function Authenticate(header: string, getForToken: (string, string) -> Lookup): (r: AuthOutcome)
    ensures r == AttachUser(Users.Anonymous) <==> header == ""
  {
    if header == "" then AttachUser(Users.Anonymous)
    else
      var parts := Text.Split(header, ' ');
      if |parts| != 2 || parts[0] != "Bearer" then InvalidToken
      else
        var token := parts[1];
        if Tokens.TokenErrors(token) != map[] then InvalidToken
        else
          match getForToken(Tokens.ScopeAuthentication, token)
          case Found(user) => AttachUser(Users.Record(user))
          case NotFound => InvalidToken
          case Fault => AuthServerError
  }

  /**
   * The token check inside `authenticate`: a fresh validator, the token
   * validation, and `Valid()`. It accepts exactly the tokens of 26 bytes.
   */
  method TokenAccepted(token: string) returns (ok: bool)
    ensures ok <==> Tokens.TokenErrors(token) == map[]
    ensures ok <==> |token| == Tokens.PlaintextLength
  {
    var v := new Validator.Validator.New();
    Tokens.ValidateTokenPlaintext(v, token);
    assert v.errors == Tokens.TokenErrors(token);
    ok := v.Valid();
    if |token| != Tokens.PlaintextLength {
      assert "token" in Tokens.TokenErrors(token);
    }
  }

  /** The header is exactly `Bearer`, one space, and a 26-character token. */
  predicate WellFormed(header: string) {
    var parts := Text.Split(header, ' ');
    |parts| == 2 && parts[0] == "Bearer" && |parts[1]| == Tokens.PlaintextLength
  }

  /**
   * A non-empty header that is not well formed is rejected as an invalid
   * token whatever the store holds: the store is not consulted.
   */
  lemma MalformedRejected(header: string, getForToken: (string, string) -> Lookup)
    requires header != "" && !WellFormed(header)
    ensures Authenticate(header, getForToken) == InvalidToken
  {
  }

  /** For a well-formed header, the store is asked for the token under the authentication scope and its answer decides. */
  lemma WellFormedLooksUp(header: string, getForToken: (string, string) -> Lookup)
    requires WellFormed(header)
    ensures var token := Text.Split(header, ' ')[1];
            match getForToken(Tokens.ScopeAuthentication, token)
            case Found(u) => Authenticate(header, getForToken) == AttachUser(Users.Record(u))
            case NotFound => Authenticate(header, getForToken) == InvalidToken
            case Fault => Authenticate(header, getForToken) == AuthServerError
  {
    assert header != "" by {
      Text.SplitNoSeparator("", ' ');
    }
  }

  /** `Bearer <token>` with a space-free 26-character token is well formed. */
  lemma BearerWellFormed(token: string)
    requires ' ' !in token && |token| == Tokens.PlaintextLength
    ensures WellFormed("Bearer " + token)
    ensures Text.Split("Bearer " + token, ' ')[1] == token
  {
    assert "Bearer " + token == "Bearer" + [' '] + token;
    assert ' ' !in "Bearer";
    Text.SplitTwo("Bearer", token, ' ');
  }

  /**
   * One rejection for every kind of bad credential: a malformed header, a
   * token of the wrong length and a token the store does not know all give
   * the same outcome.
   */
  lemma UniformRejection(header: string, getForToken: (string, string) -> Lookup)
    requires header != ""
    requires !WellFormed(header) || getForToken(Tokens.ScopeAuthentication, Text.Split(header, ' ')[1]) == NotFound
    ensures Authenticate(header, getForToken) == InvalidToken
  {
  }

  /** A store fault on a well-formed header is a server error, never a rejection of the client's token. */
  lemma FaultIsServerError(header: string, getForToken: (string, string) -> Lookup)
    requires WellFormed(header)
    requires getForToken(Tokens.ScopeAuthentication, Text.Split(header, ' ')[1]) == Fault
    ensures Authenticate(header, getForToken) == AuthServerError
  {
    WellFormedLooksUp(header, getForToken);
  }

  /** An attached user that is not the anonymous user came from the store, for the token of the header. */
  lemma AttachedUserFromStore(header: string, getForToken: (string, string) -> Lookup)
    requires Authenticate(header, getForToken).AttachUser?
    requires Authenticate(header, getForToken).user.Record?
    ensures WellFormed(header)
    ensures getForToken(Tokens.ScopeAuthentication, Text.Split(header, ' ')[1])
         == Found(Authenticate(header, getForToken).user.user)
  {
  }

  // ---------------------------------------------------------------------
  // Access gates
  // ---------------------------------------------------------------------

  /** What a gate does with a request. */
  datatype GateOutcome = Pass | AuthenticationRequired | InactiveAccount | NotPermitted | GateServerError

  /** `requireAuthenticatedUser`: the anonymous user is turned away. */
  function RequireAuthenticatedUser(user: Users.UserRef): (r: GateOutcome)
    ensures r == Pass <==> !Users.IsAnonymous(user)
    ensures r != Pass ==> r == AuthenticationRequired
  {
    if Users.IsAnonymous(user) then AuthenticationRequired else Pass
  }

  /** `requireActivatedUser`: behind `requireAuthenticatedUser`, an inactive user is turned away. */
  function RequireActivatedUser(user: Users.UserRef): (r: GateOutcome)
    ensures r == Pass <==> RequireAuthenticatedUser(user) == Pass && Users.Deref(user).activated
    ensures RequireAuthenticatedUser(user) != Pass ==> r == RequireAuthenticatedUser(user)
    ensures RequireAuthenticatedUser(user) == Pass && !Users.Deref(user).activated ==> r == InactiveAccount
  {
    match RequireAuthenticatedUser(user)
    case Pass => if !Users.Deref(user).activated then InactiveAccount else Pass
    case other => other
  }

  /**
   * `requirePermission(code)`: behind `requireActivatedUser`, the user's
   * permissions are looked up (`None` is a lookup error) and must include
   * `code`.
   */
  function RequirePermission(code: string, user: Users.UserRef, getAllForUser: int -> Option<Permissions.Permissions>): (r: GateOutcome)
    ensures r == Pass <==>
              && RequireActivatedUser(user) == Pass
              && getAllForUser(Users.Deref(user).id).Some?
              && Permissions.Include(getAllForUser(Users.Deref(user).id).value, code)
  {
    match RequireActivatedUser(user)
    case Pass =>
      (match getAllForUser(Users.Deref(user).id)
       case None => GateServerError
       case Some(permissions) => if !Permissions.Include(permissions, code) then NotPermitted else Pass)
    case other => other
  }

  /** The anonymous user needs to authenticate, and is told so before any permission lookup. */
  lemma AnonymousTurnedAway(code: string, lookup: int -> Option<Permissions.Permissions>)
    ensures RequireAuthenticatedUser(Users.Anonymous) == AuthenticationRequired
    ensures RequireActivatedUser(Users.Anonymous) == AuthenticationRequired
    ensures RequirePermission(code, Users.Anonymous, lookup) == AuthenticationRequired
  {
  }

  /** An authenticated but inactive user is told so, whatever its permissions. */
  lemma InactiveTurnedAway(code: string, user: Users.User, lookup: int -> Option<Permissions.Permissions>)
    requires !user.activated
    ensures RequireActivatedUser(Users.Record(user)) == InactiveAccount
    ensures RequirePermission(code, Users.Record(user), lookup) == InactiveAccount
  {
  }

  /** For an activated user, a lookup error is a server error and a missing code is a refusal. */
  lemma PermissionDecision(code: string, user: Users.User, lookup: int -> Option<Permissions.Permissions>)
    requires user.activated
    ensures lookup(user.id).None? ==> RequirePermission(code, Users.Record(user), lookup) == GateServerError
    ensures lookup(user.id).Some? && !Permissions.Include(lookup(user.id).value, code) ==>
              RequirePermission(code, Users.Record(user), lookup) == NotPermitted
  {
  }

  /** The gates are nested: what passes a permission gate passes the activation gate, and that passes the authentication gate. */
  lemma GatesNested(code: string, user: Users.UserRef, lookup: int -> Option<Permissions.Permissions>)
    ensures RequirePermission(code, user, lookup) == Pass ==> RequireActivatedUser(user) == Pass
    ensures RequireActivatedUser(user) == Pass ==> RequireAuthenticatedUser(user) == Pass
  {
  }
}
