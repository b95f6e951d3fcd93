/** The reference auth host: a session authority minting signed tokens, a revocation set and a
    process-wide session counter, over every sequence of calls. Tokens are symbolic signed terms. */
module SessionHost {
  import opened Common
  import opened Ordering

  // ----- session ids -----

  /** Lower-case hexadecimal without leading zeros. */
  function Hex(n: nat): (s: string)
    ensures s != ""
  {
    if n < 16 then [HexDigit(n)] else Hex(n / 16) + [HexDigit(n % 16)]
  }

  lemma HexDigitInjective(a: nat, b: nat)
    requires a < 16 && b < 16 && HexDigit(a) == HexDigit(b)
    ensures a == b
  {
  }

  lemma {:induction false} HexInjective(a: nat, b: nat)
    requires Hex(a) == Hex(b)
    ensures a == b
  {
    var x, y := Hex(a), Hex(b);
    assert x[|x| - 1] == HexDigit(a % 16) && y[|y| - 1] == HexDigit(b % 16);
    HexDigitInjective(a % 16, b % 16);
    if a >= 16 && b >= 16 {
      assert x[..|x| - 1] == Hex(a / 16) && y[..|y| - 1] == Hex(b / 16);
      HexInjective(a / 16, b / 16);
    }
  }

  lemma {:induction false} HexHasNoHyphen(n: nat)
    ensures '-' !in Hex(n)
  {
    if n >= 16 {
      HexHasNoHyphen(n / 16);
    }
  }

  function SessionIdText(nanos: nat, counter: nat): string {
    Hex(nanos) + "-" + Hex(counter)
  }

  /** The text form loses nothing: it determines the nanoseconds and the counter. */
  lemma SessionIdInjective(n1: nat, c1: nat, n2: nat, c2: nat)
    requires SessionIdText(n1, c1) == SessionIdText(n2, c2)
    ensures n1 == n2 && c1 == c2
  {
    HexHasNoHyphen(n1);
    HexHasNoHyphen(n2);
    HyphenSplits(Hex(n1), Hex(c1), Hex(n2), Hex(c2));
    HexInjective(n1, n2);
    HexInjective(c1, c2);
  }

  lemma {:induction false} HyphenSplits(a: string, x: string, b: string, y: string)
    requires a + "-" + x == b + "-" + y
    requires '-' !in a && '-' !in b
    ensures a == b && x == y
  {
    var s, t := a + "-" + x, b + "-" + y;
    assert (a == "" <==> s[0] == '-') && (b == "" <==> t[0] == '-');
    if a != "" {
      assert s[1..] == a[1..] + "-" + x && t[1..] == b[1..] + "-" + y;
      HyphenSplits(a[1..], x, b[1..], y);
      assert a == [s[0]] + a[1..] && b == [t[0]] + b[1..];
    } else {
      assert s[1..] == x && t[1..] == y;
    }
  }

  // ----- claims and tokens -----

  const U64_MAX := 0xFFFF_FFFF_FFFF_FFFF
  const COUNTER_MODULUS := 0x1_0000_0000_0000_0000

  function SaturatingAdd(a: nat, b: nat): nat {
    if a + b > U64_MAX then U64_MAX else a + b
  }

  /** The registered claims carry the meanings of section 4.1 of RFC 7519. */
  datatype Claims = Claims(sub: string, iss: string, aud: string, exp: nat, iat: nat, jti: string,
                           provider: string, scopes: seq<string>, assurance: nat)

  datatype RefreshClaims = RefreshClaims(sub: string, iss: string, aud: string, exp: nat, iat: nat, jti: string,
                                         provider: string, typ: string)

  datatype Token =
    | AccessToken(key: nat, claims: Claims)
    | RefreshToken(key: nat, refresh: RefreshClaims)
    | Malformed

  datatype Config = Config(key: nat, issuer: string, audience: string, accessTtl: nat, refreshTtl: nat, leeway: nat)

  datatype AuthError =
    | InvalidSession | Expired | SessionRevoked | HostConfiguration
    | InvalidCredential | UnsupportedScheme | IdentityInactive | Rejected

  const NO_ASSURANCE: nat := 0

  predicate ExpiredAt(cfg: Config, exp: nat, now: nat) {
    exp + cfg.leeway < now
  }

  /** A refresh body read as session claims: scopes and assurance take their defaults. */
  function AsClaims(r: RefreshClaims): Claims {
    Claims(r.sub, r.iss, r.aud, r.exp, r.iat, r.jti, r.provider, [], NO_ASSURANCE)
  }

  /** The body of a well-formed token, read as session claims. */
  function ClaimsOf(token: Token): Claims
    requires !token.Malformed?
  {
    if token.AccessToken? then token.claims else AsClaims(token.refresh)
  }

  function CheckClaims(cfg: Config, exp: nat, iss: string, aud: string, now: nat): Option<AuthError> {
    if ExpiredAt(cfg, exp, now) then Some(Expired)
    else if iss != cfg.issuer || aud != cfg.audience then Some(InvalidSession)
    else None
  }

  /** `Hs256SessionAuthority::validate` */
  function ValidateToken(cfg: Config, token: Token, now: nat): Result<Claims, AuthError> {
    if token.Malformed? || token.key != cfg.key then Err(InvalidSession)
    else
      var claims := ClaimsOf(token);
      match CheckClaims(cfg, claims.exp, claims.iss, claims.aud, now)
      case Some(e) => Err(e)
      case None => Ok(claims)
  }

  /** `Hs256SessionAuthority::validate_refresh`: only a refresh body has a `typ` to check. */
  function ValidateRefresh(cfg: Config, token: Token, now: nat): Result<RefreshClaims, AuthError> {
    if !token.RefreshToken? || token.key != cfg.key then Err(InvalidSession)
    else
      match CheckClaims(cfg, token.refresh.exp, token.refresh.iss, token.refresh.aud, now)
      case Some(e) => Err(e)
      case None => if token.refresh.typ != "refresh" then Err(InvalidSession) else Ok(token.refresh)
  }

  datatype Grant = Grant(sessionId: string, access: Token, refresh: Token, expiresAt: nat, claims: Claims)

  /** The two clock readings of one issue: whole seconds, `None` before the epoch, and nanoseconds. */
  datatype Clock = Clock(seconds: Option<nat>, nanos: nat)

  function MakeGrant(cfg: Config, sub: string, provider: string, scopes: seq<string>, assurance: nat, now: nat,
                     id: string): Grant {
    var exp, refreshExp := SaturatingAdd(now, cfg.accessTtl), SaturatingAdd(now, cfg.refreshTtl);
    var claims := Claims(sub, cfg.issuer, cfg.audience, exp, now, id, provider, scopes, assurance);
    Grant(id, AccessToken(cfg.key, claims),
          RefreshToken(cfg.key, RefreshClaims(sub, cfg.issuer, cfg.audience, refreshExp, now, id, provider, "refresh")),
          exp, claims)
  }

  // ----- scopes -----

  function Dedup(s: seq<string>): seq<string> {
    if |s| < 2 then s
    else if s[0] == s[1] then Dedup(s[1..])
    else [s[0]] + Dedup(s[1..])
  }

  /** Requested and augmented scopes, sorted and without repeats. */
  function GrantedScopes(requested: seq<string>, augmented: seq<string>): seq<string> {
    Dedup(Sort(TextLe, requested + augmented))
  }

  lemma TextOrder()
    ensures TotalOrder(TextLe)
  {
    forall a, b
      ensures TextLe(a, b) || TextLe(b, a)
    {
      TextTotal(a, b);
    }
    forall a, b, c | TextLe(a, b) && TextLe(b, c)
      ensures TextLe(a, c)
    {
      TextTransitive(a, b, c);
    }
  }

  lemma {:induction false} DedupKeeps(s: seq<string>)
    requires Sorted(TextLe, s)
    ensures forall x :: x in Dedup(s) <==> x in s
    ensures forall i, j :: 0 <= i < j < |Dedup(s)| ==> TextLe(Dedup(s)[i], Dedup(s)[j]) && Dedup(s)[i] != Dedup(s)[j]
    ensures s != [] ==> Dedup(s) != [] && Dedup(s)[0] == s[0]
  {
    if |s| >= 2 {
      DedupKeeps(s[1..]);
      var rest := Dedup(s[1..]);
      assert s == [s[0]] + s[1..];
      if s[0] != s[1] {
        forall i | 0 <= i < |rest|
          ensures TextLe(s[0], rest[i]) && s[0] != rest[i]
        {
          assert rest[i] in s[1..];
          var k :| 0 <= k < |s[1..]| && s[1..][k] == rest[i];
          assert TextLe(s[0], s[k + 1]) && (k > 0 ==> TextLe(s[1], s[k + 1]));
          TextTotal(s[0], s[1]);
          assert TextLe(s[0], s[1]);
          TextTotal(s[1], rest[i]);
        }
      }
    }
  }

  /** Every requested or augmented scope is granted once, in order, and no other. */
  lemma ScopesExactly(requested: seq<string>, augmented: seq<string>)
    ensures var g := GrantedScopes(requested, augmented);
            && (forall x :: x in g <==> x in requested || x in augmented)
            && (forall i, j :: 0 <= i < j < |g| ==> TextLe(g[i], g[j]) && g[i] != g[j])
  {
    TextOrder();
    SortKeeps(TextLe, requested + augmented);
    SortMembers(TextLe, requested + augmented);
    DedupKeeps(Sort(TextLe, requested + augmented));
  }

  // ----- the host -----

  /** What the provider and the identity store make of one credential. */
  datatype Verified = Verified(sub: string, provider: string, assurance: nat, active: bool)

  datatype Call =
    | Exchange(verified: Result<Verified, AuthError>, requested: seq<string>, augmented: seq<string>, clock: Clock)
    | Validate(token: Token, now: nat)
    | Refresh(token: Token, now: nat, clock: Clock)
    | Revoke(id: string)

  datatype Answer = Granted(grant: Grant) | Valid(claims: Claims) | Done | Failed(error: AuthError)

  /** `issued` lists the counter and clock behind every id, oldest first; `minted` every token made. */
  datatype State = State(revoked: set<string>, counter: nat, issued: seq<(nat, nat)>, minted: set<Token>)

  const INITIAL := State({}, 0, [], {})

  function Issue(cfg: Config, s: State, sub: string, provider: string, scopes: seq<string>, assurance: nat,
                 clock: Clock)
      : (State, Answer) {
    match clock.seconds
    case None => (s, Failed(HostConfiguration))
    case Some(now) =>
      var g := MakeGrant(cfg, sub, provider, scopes, assurance, now, SessionIdText(clock.nanos, s.counter));
      (s.(counter := (s.counter + 1) % COUNTER_MODULUS,
          issued := s.issued + [(clock.nanos, s.counter)],
          minted := s.minted + {g.access, g.refresh}),
       Granted(g))
  }

  function Serve(cfg: Config, s: State, call: Call): (State, Answer) {
    match call
    case Exchange(verified, requested, augmented, clock) =>
      (match verified
       case Err(e) => (s, Failed(e))
       case Ok(v) =>
         if !v.active then (s, Failed(IdentityInactive))
         else Issue(cfg, s, v.sub, v.provider, GrantedScopes(requested, augmented), v.assurance, clock))
    case Validate(token, now) =>
      (match ValidateToken(cfg, token, now)
       case Err(e) => (s, Failed(e))
       case Ok(claims) => if claims.jti in s.revoked then (s, Failed(SessionRevoked)) else (s, Valid(claims)))
    case Refresh(token, now, clock) =>
      (match ValidateRefresh(cfg, token, now)
       case Err(e) => (s, Failed(e))
       case Ok(r) =>
         if r.jti in s.revoked then (s, Failed(SessionRevoked))
         else Issue(cfg, s, r.sub, r.provider, [], NO_ASSURANCE, clock))
    case Revoke(id) => (s.(revoked := s.revoked + {id}), Done)
  }

  /** The host's fields, updated in place. */
  class ReferenceAuthHost {
    const cfg: Config
    var revoked: set<string>
    var counter: nat
    ghost var issued: seq<(nat, nat)>
    ghost var minted: set<Token>

    constructor (cfg: Config)
      ensures this.cfg == cfg && View() == INITIAL
    {
      this.cfg := cfg;
      revoked, counter := {}, 0;
      issued, minted := [], {};
    }

    ghost function View(): State
      reads this
    {
      State(revoked, counter, issued, minted)
    }

    method IssueGrant(sub: string, provider: string, scopes: seq<string>, assurance: nat, clock: Clock)
        returns (a: Answer)
      modifies this
      ensures (View(), a) == Issue(cfg, old(View()), sub, provider, scopes, assurance, clock)
    {
      if clock.seconds.None? {
        return Failed(HostConfiguration);
      }
      var drawn := counter;
      counter := (counter + 1) % COUNTER_MODULUS;
      var g := MakeGrant(cfg, sub, provider, scopes, assurance, clock.seconds.value, SessionIdText(clock.nanos, drawn));
      issued := issued + [(clock.nanos, drawn)];
      minted := minted + {g.access, g.refresh};
      return Granted(g);
    }

    method OnRefresh(token: Token, now: nat, clock: Clock) returns (a: Answer)
      modifies this
      ensures (View(), a) == Serve(cfg, old(View()), Refresh(token, now, clock))
    {
      var subject := ValidateRefresh(cfg, token, now);
      if subject.Err? {
        return Failed(subject.error);
      }
      if subject.value.jti in revoked {
        return Failed(SessionRevoked);
      }
      a := IssueGrant(subject.value.sub, subject.value.provider, [], NO_ASSURANCE, clock);
    }

    method OnValidate(token: Token, now: nat) returns (a: Answer)
      ensures (View(), a) == Serve(cfg, View(), Validate(token, now))
    {
      var claims := ValidateToken(cfg, token, now);
      if claims.Err? {
        return Failed(claims.error);
      }
      return if claims.value.jti in revoked then Failed(SessionRevoked) else Valid(claims.value);
    }

    method OnRevoke(id: string)
      modifies this`revoked
      ensures View() == Serve(cfg, old(View()), Revoke(id)).0
    {
      revoked := revoked + {id};
    }
  }

  // ----- runs -----

  predicate Known(s: State, cfg: Config, token: Token) {
    token.Malformed? || token.key != cfg.key || token in s.minted
  }

  /** Nobody else can sign with the authority's key: a presented token that carries it was minted. */
  predicate Presentable(s: State, cfg: Config, call: Call) {
    match call
    case Validate(token, _) => Known(s, cfg, token)
    case Refresh(token, _, _) => Known(s, cfg, token)
    case _ => true
  }

  ghost predicate IsRun(cfg: Config, states: seq<State>, calls: seq<Call>) {
    && |states| == |calls| + 1
    && states[0] == INITIAL
    && forall i :: 0 <= i < |calls| ==>
         Presentable(states[i], cfg, calls[i]) && states[i + 1] == Serve(cfg, states[i], calls[i]).0
  }

  predicate HasSession(token: Token, id: string) {
    !token.Malformed? && ClaimsOf(token).jti == id
  }

  /** The 64-bit counter after so many ids. */
  function CounterAfter(ids: nat): nat {
    ids % COUNTER_MODULUS
  }

  lemma CounterNext(ids: nat)
    ensures (CounterAfter(ids) + 1) % COUNTER_MODULUS == CounterAfter(ids + 1)
  {
  }

  ghost predicate Inv(s: State, cfg: Config) {
    && s.counter == CounterAfter(|s.issued|)
    && (forall i :: 0 <= i < |s.issued| ==> s.issued[i].1 == CounterAfter(i))
    && forall t <- s.minted :: MintedHere(s, cfg, t)
  }

  predicate SignedHere(cfg: Config, t: Token) {
    && !t.Malformed? && t.key == cfg.key && ClaimsOf(t).iss == cfg.issuer && ClaimsOf(t).aud == cfg.audience
    && (t.RefreshToken? ==> t.refresh.typ == "refresh")
  }

  /** A minted token is signed for this issuer and audience and names an issued session. */
  ghost predicate MintedHere(s: State, cfg: Config, t: Token) {
    && SignedHere(cfg, t)
    && exists i :: 0 <= i < |s.issued| && HasSession(t, SessionIdText(s.issued[i].0, s.issued[i].1))
  }

  lemma GrantNamesSession(cfg: Config, sub: string, provider: string, scopes: seq<string>, assurance: nat, now: nat,
                          id: string)
    ensures var g := MakeGrant(cfg, sub, provider, scopes, assurance, now, id);
            forall t :: t == g.access || t == g.refresh ==> SignedHere(cfg, t) && HasSession(t, id)
  {
  }

  lemma IssueKeepsInv(cfg: Config, s: State, sub: string, provider: string, scopes: seq<string>, assurance: nat,
                      clock: Clock)
    requires Inv(s, cfg)
    ensures Inv(Issue(cfg, s, sub, provider, scopes, assurance, clock).0, cfg)
  {
    hide MakeGrant, SessionIdText, MintedHere, CounterAfter;
    var t := Issue(cfg, s, sub, provider, scopes, assurance, clock).0;
    if clock.seconds.Some? {
      var n := |s.issued|;
      CounterNext(n);
      forall token <- t.minted
        ensures MintedHere(t, cfg, token)
      {
        if token in s.minted {
          MintedStays(s, t, cfg, token);
        } else {
          GrantMinted(t, cfg, sub, provider, scopes, assurance, clock.seconds.value, n, token);
        }
      }
    }
  }

  lemma MintedStays(s: State, t: State, cfg: Config, token: Token)
    requires MintedHere(s, cfg, token) && s.issued <= t.issued
    ensures MintedHere(t, cfg, token)
  {
    hide SignedHere, HasSession, SessionIdText;
    var i :| 0 <= i < |s.issued| && HasSession(token, SessionIdText(s.issued[i].0, s.issued[i].1));
    assert t.issued[i] == s.issued[i];
  }

  lemma GrantMinted(t: State, cfg: Config, sub: string, provider: string, scopes: seq<string>, assurance: nat, now: nat,
                    n: nat, token: Token)
    requires n < |t.issued|
    requires var g := MakeGrant(cfg, sub, provider, scopes, assurance, now,
                                SessionIdText(t.issued[n].0, t.issued[n].1));
             token == g.access || token == g.refresh
    ensures MintedHere(t, cfg, token)
  {
    hide SignedHere, HasSession, SessionIdText, MakeGrant;
    GrantNamesSession(cfg, sub, provider, scopes, assurance, now, SessionIdText(t.issued[n].0, t.issued[n].1));
  }

  lemma RevokeKeepsInv(cfg: Config, s: State, id: string)
    requires Inv(s, cfg)
    ensures Inv(s.(revoked := s.revoked + {id}), cfg)
  {
    var t := s.(revoked := s.revoked + {id});
    assert forall token <- s.minted :: MintedHere(s, cfg, token) == MintedHere(t, cfg, token);
  }

  lemma ServeKeepsInv(cfg: Config, s: State, call: Call)
    requires Inv(s, cfg)
    ensures Inv(Serve(cfg, s, call).0, cfg)
  {
    hide Inv, Issue, GrantedScopes, ValidateRefresh, ValidateToken;
    match call
    case Exchange(verified, requested, augmented, clock) =>
      if verified.Ok? {
        IssueKeepsInv(cfg, s, verified.value.sub, verified.value.provider, GrantedScopes(requested, augmented),
                      verified.value.assurance, clock);
      }
    case Refresh(token, now, clock) =>
      var r := ValidateRefresh(cfg, token, now);
      if r.Ok? {
        IssueKeepsInv(cfg, s, r.value.sub, r.value.provider, [], NO_ASSURANCE, clock);
      }
    case Validate(_, _) =>
    case Revoke(id) =>
      RevokeKeepsInv(cfg, s, id);
  }

  lemma {:induction false} RunKeepsInv(cfg: Config, states: seq<State>, calls: seq<Call>, i: nat)
    requires IsRun(cfg, states, calls) && i < |states|
    ensures Inv(states[i], cfg)
  {
    if i > 0 {
      hide Inv, Serve;
      RunKeepsInv(cfg, states, calls, i - 1);
      ServeKeepsInv(cfg, states[i - 1], calls[i - 1]);
    } else {
      assert Inv(INITIAL, cfg);
    }
  }

  /** Session ids of one process are pairwise distinct until the counter wraps. */
  lemma IdsAreDistinct(cfg: Config, states: seq<State>, calls: seq<Call>, n: nat, i: nat, j: nat)
    requires IsRun(cfg, states, calls) && n < |states|
    requires i < j < |states[n].issued| <= COUNTER_MODULUS
    ensures SessionIdText(states[n].issued[i].0, states[n].issued[i].1)
         != SessionIdText(states[n].issued[j].0, states[n].issued[j].1)
  {
    RunKeepsInv(cfg, states, calls, n);
    var a, b := states[n].issued[i], states[n].issued[j];
    if SessionIdText(a.0, a.1) == SessionIdText(b.0, b.1) {
      SessionIdInjective(a.0, a.1, b.0, b.1);
    }
  }

  lemma {:induction false} RevokedStays(cfg: Config, states: seq<State>, calls: seq<Call>, i: nat, j: nat, id: string)
    requires IsRun(cfg, states, calls) && i <= j < |states| && id in states[i].revoked
    ensures id in states[j].revoked
    decreases j - i
  {
    if i < j {
      RevokedStays(cfg, states, calls, i, j - 1, id);
    }
  }

  /** Main result: once a session is revoked, no later validate or refresh of its tokens succeeds. */
  lemma RevokedNeverSucceeds(cfg: Config, states: seq<State>, calls: seq<Call>, i: nat, j: nat)
    requires IsRun(cfg, states, calls) && i < j < |calls| && calls[i].Revoke?
    requires calls[j].Validate? || calls[j].Refresh?
    requires HasSession(calls[j].token, calls[i].id)
    ensures Serve(cfg, states[j], calls[j]).1.Failed?
  {
    RevokedStays(cfg, states, calls, i + 1, j, calls[i].id);
  }

  /** Exactly when `validate` succeeds, and that it then vouches for a session this process issued. */
  lemma ValidateExactly(cfg: Config, states: seq<State>, calls: seq<Call>, j: nat)
    requires IsRun(cfg, states, calls) && j < |calls| && calls[j].Validate?
    ensures var token, now, s := calls[j].token, calls[j].now, states[j];
            Serve(cfg, s, calls[j]).1.Valid?
            <==> !token.Malformed? && token in s.minted
                 && !ExpiredAt(cfg, ClaimsOf(token).exp, now) && ClaimsOf(token).jti !in s.revoked
    ensures var answer := Serve(cfg, states[j], calls[j]).1;
            answer.Valid? ==>
              exists i :: 0 <= i < |states[j].issued|
                && answer.claims.jti == SessionIdText(states[j].issued[i].0, states[j].issued[i].1)
  {
    RunKeepsInv(cfg, states, calls, j);
    var token, s := calls[j].token, states[j];
    if !token.Malformed? && token in s.minted {
      assert MintedHere(s, cfg, token);
      var i :| 0 <= i < |s.issued| && HasSession(token, SessionIdText(s.issued[i].0, s.issued[i].1));
    }
  }

  /** Exactly when `refresh` succeeds: for minted refresh tokens only, when the clock is past the epoch. */
  lemma RefreshExactly(cfg: Config, states: seq<State>, calls: seq<Call>, j: nat)
    requires IsRun(cfg, states, calls) && j < |calls| && calls[j].Refresh?
    ensures var token, now, s := calls[j].token, calls[j].now, states[j];
            Serve(cfg, s, calls[j]).1.Granted?
            <==> token.RefreshToken? && token in s.minted && calls[j].clock.seconds.Some?
                 && !ExpiredAt(cfg, token.refresh.exp, now) && token.refresh.jti !in s.revoked
  {
    hide MakeGrant, SessionIdText;
    RunKeepsInv(cfg, states, calls, j);
    var token, s := calls[j].token, states[j];
    if token.RefreshToken? && token in s.minted {
      assert MintedHere(s, cfg, token);
    }
  }

  /** What is issued is what validates: until its expiry with leeway, and with the claims granted. */
  lemma GrantValidates(cfg: Config, sub: string, provider: string, scopes: seq<string>, assurance: nat, made: nat,
                       id: string, now: nat)
    ensures var g := MakeGrant(cfg, sub, provider, scopes, assurance, made, id);
            && g.claims.sub == sub && g.claims.provider == provider && g.claims.scopes == scopes && g.claims.jti == id
            && ValidateToken(cfg, g.access, now)
               == (if SaturatingAdd(made, cfg.accessTtl) + cfg.leeway < now then Err(Expired) else Ok(g.claims))
            && (ValidateRefresh(cfg, g.refresh, now).Ok? <==> SaturatingAdd(made, cfg.refreshTtl) + cfg.leeway >= now)
            && ValidateRefresh(cfg, g.access, now) == Err(InvalidSession)
  {
  }

  // ----- refresh chains -----

  /** Each grant answers a refresh made with the refresh token of the one before. */
  ghost predicate IsChain(cfg: Config, grants: seq<Grant>) {
    forall i :: 0 <= i < |grants| - 1 ==> RefreshedFrom(cfg, grants[i], grants[i + 1])
  }

  ghost predicate RefreshedFrom(cfg: Config, g: Grant, next: Grant) {
    exists s: State, now: nat, clock: Clock :: Serve(cfg, s, Refresh(g.refresh, now, clock)).1 == Granted(next)
  }

  /** The refresh token of a grant names the same subject, provider and session as its claims. */
  predicate Coherent(g: Grant) {
    && g.refresh.RefreshToken? && g.refresh.refresh.sub == g.claims.sub
    && g.refresh.refresh.provider == g.claims.provider && g.refresh.refresh.jti == g.claims.jti == g.sessionId
  }

  /** Whatever call grants it, a grant is coherent: a chain may start at any of them. */
  lemma GrantedIsCoherent(cfg: Config, s: State, call: Call, g: Grant)
    requires Serve(cfg, s, call).1 == Granted(g)
    ensures Coherent(g)
  {
    hide GrantedScopes, SessionIdText;
  }

  lemma {:induction false} ChainKeepsSubject(cfg: Config, grants: seq<Grant>, i: nat)
    requires IsChain(cfg, grants) && i < |grants| && Coherent(grants[0])
    ensures Coherent(grants[i])
    ensures grants[i].claims.sub == grants[0].claims.sub && grants[i].claims.provider == grants[0].claims.provider
    ensures i > 0 ==> grants[i].claims.scopes == [] && grants[i].claims.assurance == NO_ASSURANCE
  {
    if i > 0 {
      ChainKeepsSubject(cfg, grants, i - 1);
      assert RefreshedFrom(cfg, grants[i - 1], grants[(i - 1) + 1]);
    }
  }

  // ----- what each call answers -----

  function Until(now: nat, ttl: nat): nat {
    if now + ttl < 0x1_0000_0000_0000_0000 then now + ttl else 0xFFFF_FFFF_FFFF_FFFF
  }

  /** A grant for one subject: an access token and a refresh token signed with the host's key, issued now
      under a fresh session id, each expiring after its own lifetime. */
  predicate GrantFor(cfg: Config, s: State, g: Grant, sub: string, provider: string, scopes: seq<string>,
                     assurance: nat, now: nat, nanos: nat) {
    var id := Hex(nanos) + "-" + Hex(s.counter);
    && g.sessionId == id
    && g.claims
       == Claims(sub, cfg.issuer, cfg.audience, Until(now, cfg.accessTtl), now, id, provider, scopes, assurance)
    && g.access == AccessToken(cfg.key, g.claims) && g.expiresAt == g.claims.exp
    && g.refresh == RefreshToken(cfg.key, RefreshClaims(sub, cfg.issuer, cfg.audience, Until(now, cfg.refreshTtl), now,
                                                        id, provider, "refresh"))
  }

  /** An exchange grants exactly for a verified, active identity when the clock is past the epoch, with
      every requested or augmented scope once and in order; otherwise it fails for the first reason. */
  lemma ExchangeMeans(cfg: Config, s: State, verified: Result<Verified, AuthError>, requested: seq<string>,
                      augmented: seq<string>, clock: Clock)
    ensures var (t, answer) := Serve(cfg, s, Exchange(verified, requested, augmented, clock));
            match verified
            case Err(e) => t == s && answer == Failed(e)
            case Ok(v) =>
              if !v.active then t == s && answer == Failed(IdentityInactive)
              else if clock.seconds.None? then t == s && answer == Failed(HostConfiguration)
              else
                && answer.Granted?
                && var scopes := answer.grant.claims.scopes;
                   && GrantFor(cfg, s, answer.grant, v.sub, v.provider, scopes, v.assurance, clock.seconds.value,
                               clock.nanos)
                   && (forall x :: x in scopes <==> x in requested || x in augmented)
                   && (forall i, j :: 0 <= i < j < |scopes| ==> TextLe(scopes[i], scopes[j]) && scopes[i] != scopes[j])
                   && t.revoked == s.revoked && t.minted == s.minted + {answer.grant.access, answer.grant.refresh}
  {
    ScopesExactly(requested, augmented);
    hide GrantedScopes, TextLe, Hex;
  }

  /** A token is accepted for its own claims, a refresh token as one without scopes and assurance. */
  lemma ValidateMeans(cfg: Config, s: State, token: Token, now: nat)
    ensures var (t, answer) := Serve(cfg, s, Validate(token, now));
            && t == s
            && (token.Malformed? || token.key != cfg.key ==> answer == Failed(InvalidSession))
            && (token.AccessToken? && token.key == cfg.key ==>
                 answer == Judged(cfg, s, now, token.claims))
            && (token.RefreshToken? && token.key == cfg.key ==>
                 var r := token.refresh;
                 answer == Judged(cfg, s, now, Claims(r.sub, r.iss, r.aud, r.exp, r.iat, r.jti, r.provider, [], 0)))
  {
  }

  /** The verdict on a body signed with the host's key. */
  function Judged(cfg: Config, s: State, now: nat, c: Claims): Answer {
    if now > c.exp + cfg.leeway then Failed(Expired)
    else if c.iss != cfg.issuer || c.aud != cfg.audience then Failed(InvalidSession)
    else if c.jti in s.revoked then Failed(SessionRevoked)
    else Valid(c)
  }

  /** A refresh grants, without scopes and assurance, for the subject and provider of a good refresh token;
      otherwise it fails for the first reason and changes nothing. */
  lemma RefreshMeans(cfg: Config, s: State, token: Token, now: nat, clock: Clock)
    ensures var (t, answer) := Serve(cfg, s, Refresh(token, now, clock));
            if !token.RefreshToken? || token.key != cfg.key then t == s && answer == Failed(InvalidSession)
            else
              var r := token.refresh;
              if now > r.exp + cfg.leeway then t == s && answer == Failed(Expired)
              else if r.iss != cfg.issuer || r.aud != cfg.audience || r.typ != "refresh" then
                t == s && answer == Failed(InvalidSession)
              else if r.jti in s.revoked then t == s && answer == Failed(SessionRevoked)
              else if clock.seconds.None? then t == s && answer == Failed(HostConfiguration)
              else
                && answer.Granted?
                && GrantFor(cfg, s, answer.grant, r.sub, r.provider, [], 0, clock.seconds.value, clock.nanos)
                && t.revoked == s.revoked && t.minted == s.minted + {answer.grant.access, answer.grant.refresh}
  {
    hide Hex;
  }
}
