/** The authorization-code flow with PKCE: a table of single-use codes shared by
    authorize and token requests that interleave between critical regions.
    The verifier's digest is any function: nothing here depends on which. */
module CodeFlow {
  import opened Text

  type Time = int

  const MINUTE: Time := 60_000_000_000

  datatype User = User(login: string, name: string, groups: seq<string>, githubID: int)

  datatype PendingCode = PendingCode(
    user: User, clientID: string, redirectURI: string, nonce: string, challenge: string, federated: bool, issued: Time)

  /** The query of an authorize request; scope is already split into fields. */
  datatype AuthorizeRequest = AuthorizeRequest(
    responseType: string, challengeMethod: string, challenge: string, redirectURI: string,
    clientID: string, nonce: string, loginHint: string, scope: seq<string>)

  datatype TokenRequest = TokenRequest(
    grantType: string, clientID: string, code: string, redirectURI: string, verifier: string)

  datatype IDToken = IDToken(user: User, audience: string, nonce: string, federatedID: Option<int>)

  predicate WellFormed(q: AuthorizeRequest) {
    q.responseType == "code" && q.challengeMethod == "S256" && q.challenge != "" && q.redirectURI != ""
  }

  function Pending(q: AuthorizeRequest, user: User, now: Time): PendingCode {
    PendingCode(user, q.clientID, q.redirectURI, q.nonce, q.challenge, "federated:id" in q.scope, now)
  }

  predicate SupportedGrant(r: TokenRequest) {
    r.grantType == "authorization_code"
  }

  function UserToken(pc: PendingCode, audience: string): IDToken {
    IDToken(pc.user, audience, pc.nonce, if pc.federated && pc.user.githubID > 0 then Some(pc.user.githubID) else None)
  }

  /** The checks made after the code left the table. */
  function Redeemed(
    digest: string -> string, found: Option<PendingCode>, r: TokenRequest, now: Time): (token: Option<IDToken>)
    ensures token.Some? ==> found.Some?
  {
    if found.None? || now - found.value.issued > MINUTE then None
    else if found.value.clientID != r.clientID || found.value.redirectURI != r.redirectURI then None
    else if digest(r.verifier) != found.value.challenge then None
    else Some(UserToken(found.value, r.clientID))
  }

  function Lookup<V>(m: map<string, V>, k: string): Option<V> {
    if k in m then Some(m[k]) else None
  }

  // ---- interleaved requests ----

  /** A token request between taking its code and its answer. */
  datatype Attempt = Attempt(request: TokenRequest, found: Option<PendingCode>)

  /** What an authorize request granted: to whom, on whose query, and when. */
  datatype Grant = Grant(query: AuthorizeRequest, user: User, at: Time)

  datatype Answer = Answer(id: nat, request: TokenRequest, at: Time, token: Option<IDToken>)

  /** The shared table, the requests in flight between regions, and two records
      of the run: every code ever stored, and every token answer. */
  datatype Flow = Flow(
    users: map<string, User>, codes: map<string, PendingCode>,
    signedIn: map<nat, (AuthorizeRequest, User)>, attempts: map<nat, Attempt>,
    nextAttempt: nat, issued: map<string, Grant>, answers: seq<Answer>)

  const START := Flow(map[], map[], map[], map[], 0, map[], [])

  datatype Action =
    | Register(user: User)
    | SignIn(id: nat, query: AuthorizeRequest)
    | Store(id: nat, code: string, now: Time)
    | TakeCode(request: TokenRequest)
    | Reply(id: nat, now: Time)

  /** One region. A stored code is random, so it is taken to be one never stored before. */
  function Next(digest: string -> string, f: Flow, a: Action): Flow {
    match a
    case Register(u) => f.(users := f.users[u.login := u])
    case SignIn(id, q) =>
      if WellFormed(q) && q.loginHint in f.users then f.(signedIn := f.signedIn[id := (q, f.users[q.loginHint])])
      else f
    case Store(id, code, now) =>
      if id !in f.signedIn || code in f.issued then f
      else
        var (q, user) := f.signedIn[id];
        f.(signedIn := f.signedIn - {id},
           codes := f.codes[code := Pending(q, user, now)], issued := f.issued[code := Grant(q, user, now)])
    case TakeCode(r) =>
      if !SupportedGrant(r) then f
      else
        f.(attempts := f.attempts[f.nextAttempt := Attempt(r, Lookup(f.codes, r.code))],
           codes := f.codes - {r.code}, nextAttempt := f.nextAttempt + 1)
    case Reply(id, now) =>
      if id !in f.attempts then f
      else
        var at := f.attempts[id];
        f.(attempts := f.attempts - {id},
           answers := f.answers + [Answer(id, at.request, now, Redeemed(digest, at.found, at.request, now))])
  }

  function Run(digest: string -> string, f: Flow, actions: seq<Action>): Flow {
    if actions == [] then f
    else Next(digest, Run(digest, f, actions[..|actions| - 1]), actions[|actions| - 1])
  }

  // ---- what every interleaving keeps ----

  /** The attempt holds the code it took out of the table. */
  ghost predicate Holding(f: Flow, id: nat, code: string) {
    id in f.attempts && f.attempts[id].found.Some? && f.attempts[id].request.code == code
  }

  ghost predicate Minted(f: Flow, k: nat, code: string) {
    k < |f.answers| && f.answers[k].token.Some? && f.answers[k].request.code == code
  }

  /** A token answers exactly what was authorized for its code. */
  ghost predicate Bound(digest: string -> string, a: Answer, g: Grant) {
    && a.token.Some?
    && var token := a.token.value;
    && token.user == g.user && token.user.login == g.query.loginHint
    && token.audience == a.request.clientID == g.query.clientID
    && token.nonce == g.query.nonce
    && token.federatedID
       == (if "federated:id" in g.query.scope && g.user.githubID > 0 then Some(g.user.githubID) else None)
    && a.request.redirectURI == g.query.redirectURI != ""
    && g.query.challengeMethod == "S256" && digest(a.request.verifier) == g.query.challenge != ""
    && a.at - g.at <= 60_000_000_000
  }

  /** The user signed in is the one the well-formed query named. */
  predicate Vouched(q: AuthorizeRequest, user: User) {
    WellFormed(q) && user.login == q.loginHint
  }

  function Recorded(g: Grant): PendingCode {
    Pending(g.query, g.user, g.at)
  }

  /** A code is in the table, or held by one attempt, or minted once: never two of these. */
  ghost predicate SingleUse(f: Flow) {
    && (forall id: nat, code | Holding(f, id, code) :: code !in f.codes)
    && (forall k: nat, code | Minted(f, k, code) :: code !in f.codes)
    && (forall i: nat, j: nat, code | Holding(f, i, code) && Holding(f, j, code) :: i == j)
    && (forall i: nat, k: nat, code | Holding(f, i, code) :: !Minted(f, k, code))
    && (forall k: nat, l: nat, code | Minted(f, k, code) && Minted(f, l, code) :: k == l)
  }

  ghost predicate Vouching(f: Flow) {
    && (forall login | login in f.users :: f.users[login].login == login)
    && (forall id | id in f.signedIn :: Vouched(f.signedIn[id].0, f.signedIn[id].1))
    && (forall code | code in f.issued :: Vouched(f.issued[code].query, f.issued[code].user))
  }

  ghost predicate Numbered(f: Flow) {
    && (forall id | id in f.attempts :: id < f.nextAttempt)
    && (forall k | 0 <= k < |f.answers| :: f.answers[k].id < f.nextAttempt)
  }

  /** What is in the table, or held, is what was recorded for a code ever issued. */
  ghost predicate Backed(f: Flow) {
    && (forall code | code in f.codes :: code in f.issued && f.codes[code] == Recorded(f.issued[code]))
    && (forall id: nat, code | Holding(f, id, code) ::
          code in f.issued && f.attempts[id].found == Some(Recorded(f.issued[code])))
  }

  ghost predicate AllBound(digest: string -> string, f: Flow) {
    forall k: nat, code | Minted(f, k, code) :: code in f.issued && Bound(digest, f.answers[k], f.issued[code])
  }

  ghost predicate Accounted(digest: string -> string, f: Flow) {
    Vouching(f) && Numbered(f) && Backed(f) && AllBound(digest, f)
  }

  lemma NextKeepsSingleUse(digest: string -> string, f: Flow, a: Action)
    requires SingleUse(f) && Accounted(digest, f)
    ensures SingleUse(Next(digest, f, a))
  {
    hide Bound, Redeemed, Pending, Vouching, WellFormed;
    var g := Next(digest, f, a);
    forall id: nat, code | Holding(g, id, code)
      ensures Holding(f, id, code) || (a.TakeCode? && id == f.nextAttempt && code in f.codes && code == a.request.code)
    {}
    forall k: nat, code | Minted(g, k, code)
      ensures Minted(f, k, code) || (a.Reply? && k == |f.answers| && Holding(f, a.id, code) && !Holding(g, a.id, code))
    {}
  }

  lemma MintedIsBound(digest: string -> string, id: nat, r: TokenRequest, g: Grant, now: Time)
    requires Vouched(g.query, g.user)
    ensures var token := Redeemed(digest, Some(Recorded(g)), r, now);
      token.Some? ==> Bound(digest, Answer(id, r, now, token), g)
  {}

  lemma NextKeepsVouching(digest: string -> string, f: Flow, a: Action)
    requires Vouching(f)
    ensures Vouching(Next(digest, f, a))
  {
    hide Redeemed, Pending;
  }

  lemma NextKeepsNumbered(digest: string -> string, f: Flow, a: Action)
    requires Numbered(f)
    ensures Numbered(Next(digest, f, a))
  {
    hide Redeemed, Pending;
  }

  lemma NextKeepsBacked(digest: string -> string, f: Flow, a: Action)
    requires Numbered(f) && Backed(f)
    ensures Backed(Next(digest, f, a))
  {
    hide Redeemed, Pending;
    var g := Next(digest, f, a);
    forall id: nat, code | Holding(g, id, code)
      ensures code in g.issued && g.attempts[id].found == Some(Recorded(g.issued[code]))
    {
      if Holding(f, id, code) {
        assert g.attempts[id] == f.attempts[id];
      }
    }
  }

  lemma NextKeepsBound(digest: string -> string, f: Flow, a: Action)
    requires Accounted(digest, f)
    ensures AllBound(digest, Next(digest, f, a))
  {
    hide Bound, Redeemed, Pending, WellFormed;
    var g := Next(digest, f, a);
    forall k: nat, code | Minted(g, k, code)
      ensures code in g.issued && Bound(digest, g.answers[k], g.issued[code])
    {
      if Minted(f, k, code) {
        assert g.answers[k] == f.answers[k];
      } else {
        assert Holding(f, a.id, code);
        MintedIsBound(digest, a.id, f.attempts[a.id].request, f.issued[code], a.now);
      }
    }
  }

  lemma {:induction false} RunKeeps(digest: string -> string, actions: seq<Action>)
    ensures var f := Run(digest, START, actions); SingleUse(f) && Accounted(digest, f)
  {
    hide Next, SingleUse, Vouching, Numbered, Backed, AllBound;
    if actions == [] {
      StartKeeps(digest);
    } else {
      var n := |actions| - 1;
      RunKeeps(digest, actions[..n]);
      var f, a := Run(digest, START, actions[..n]), actions[n];
      NextKeeps(digest, f, a);
    }
  }

  lemma NextKeeps(digest: string -> string, f: Flow, a: Action)
    ensures SingleUse(f) && Accounted(digest, f) ==>
              SingleUse(Next(digest, f, a)) && Accounted(digest, Next(digest, f, a))
  {
    hide Next, SingleUse, Vouching, Numbered, Backed, AllBound;
    if SingleUse(f) && Accounted(digest, f) {
      NextKeepsSingleUse(digest, f, a);
      NextKeepsVouching(digest, f, a);
      NextKeepsNumbered(digest, f, a);
      NextKeepsBacked(digest, f, a);
      NextKeepsBound(digest, f, a);
    }
  }

  lemma StartKeeps(digest: string -> string)
    ensures SingleUse(START) && Accounted(digest, START)
  {}

  /** Over all interleavings a code yields one ID token at most, and only to the
      client, redirect URI and verifier it was authorized for, within a minute. */
  lemma OneTokenPerCode(digest: string -> string, actions: seq<Action>)
    ensures var f := Run(digest, START, actions);
      && (forall k, l | 0 <= k < l < |f.answers| && f.answers[k].token.Some? && f.answers[l].token.Some? ::
            f.answers[k].request.code != f.answers[l].request.code)
      && (forall k | 0 <= k < |f.answers| && f.answers[k].token.Some? ::
            f.answers[k].request.code in f.issued && Bound(digest, f.answers[k], f.issued[f.answers[k].request.code]))
  {
    RunKeeps(digest, actions);
    var f := Run(digest, START, actions);
    hide Bound, Run;
    forall k, l | 0 <= k < l < |f.answers| && f.answers[k].token.Some? && f.answers[l].token.Some?
      ensures f.answers[k].request.code != f.answers[l].request.code
    {
      assert Minted(f, k, f.answers[k].request.code) && Minted(f, l, f.answers[l].request.code);
    }
    forall k | 0 <= k < |f.answers| && f.answers[k].token.Some?
      ensures f.answers[k].request.code in f.issued && Bound(digest, f.answers[k], f.issued[f.answers[k].request.code])
    {
      assert Minted(f, k, f.answers[k].request.code);
    }
  }

  /** The code is out of the table for good, and attempts from id `first` on get nothing for it. */
  ghost predicate SpentFrom(f: Flow, code: string, first: nat) {
    && code in f.issued && code !in f.codes
    && (forall id | id in f.attempts && id >= first && f.attempts[id].request.code == code ::
          f.attempts[id].found.None?)
    && (forall k | 0 <= k < |f.answers| && f.answers[k].id >= first && f.answers[k].request.code == code ::
          f.answers[k].token.None?)
  }

  lemma {:induction false} StaysSpent(digest: string -> string, f: Flow, more: seq<Action>, code: string, first: nat)
    requires SpentFrom(f, code, first)
    ensures SpentFrom(Run(digest, f, more), code, first)
  {
    hide Next, SpentFrom;
    if more != [] {
      StaysSpent(digest, f, more[..|more| - 1], code, first);
      SpentStep(digest, Run(digest, f, more[..|more| - 1]), more[|more| - 1], code, first);
    }
  }

  lemma SpentStep(digest: string -> string, f: Flow, a: Action, code: string, first: nat)
    requires SpentFrom(f, code, first)
    ensures SpentFrom(Next(digest, f, a), code, first)
  {}

  /** The first attempt on an issued code spends it, whether it succeeds or not:
      no attempt made after it ever gets a token. */
  lemma {:induction false} AnyAttemptSpends(
    digest: string -> string, actions: seq<Action>, r: TokenRequest, more: seq<Action>)
    requires r.grantType == "authorization_code" && r.code in Run(digest, START, actions).issued
    ensures var f := Run(digest, START, actions);
      var g := Run(digest, Next(digest, f, TakeCode(r)), more);
      && r.code !in g.codes
      && forall k | 0 <= k < |g.answers| && g.answers[k].id > f.nextAttempt && g.answers[k].request.code == r.code ::
           g.answers[k].token.None?
  {
    RunKeeps(digest, actions);
    var f := Run(digest, START, actions);
    StaysSpent(digest, Next(digest, f, TakeCode(r)), more, r.code, f.nextAttempt + 1);
  }

  /** The right request in time for a stored code, made first, gets the token, whatever runs between its two regions. */
  lemma RightRequestIsAnswered(
    digest: string -> string, f: Flow, r: TokenRequest, between: seq<Action>, now: Time)
    requires r.grantType == "authorization_code" && r.code in f.codes
    requires forall a | a in between :: !(a.Reply? && a.id == f.nextAttempt)
    ensures var pc := f.codes[r.code];
      var g := Next(digest, Run(digest, Next(digest, f, TakeCode(r)), between), Reply(f.nextAttempt, now));
      && |g.answers| > 0
      && var answer := g.answers[|g.answers| - 1];
      && answer.id == f.nextAttempt && answer.request == r
      && (answer.token.Some? <==>
            && r.clientID == pc.clientID && r.redirectURI == pc.redirectURI
            && digest(r.verifier) == pc.challenge && now - pc.issued <= 60_000_000_000)
      && (answer.token.Some? ==>
            answer.token.value
            == IDToken(
                 pc.user, r.clientID, pc.nonce,
                 if pc.federated && pc.user.githubID > 0 then Some(pc.user.githubID) else None))
  {
    AttemptWaits(digest, Next(digest, f, TakeCode(r)), between, f.nextAttempt);
  }

  lemma {:induction false} AttemptWaits(digest: string -> string, f: Flow, between: seq<Action>, id: nat)
    requires id in f.attempts && id < f.nextAttempt
    requires forall a | a in between :: !(a.Reply? && a.id == id)
    ensures var g := Run(digest, f, between); id in g.attempts && g.attempts[id] == f.attempts[id] && id < g.nextAttempt
  {
    hide Next;
    if between != [] {
      var n := |between| - 1;
      assert between[n] in between;
      AttemptWaits(digest, f, between[..n], id);
      AttemptStep(digest, Run(digest, f, between[..n]), between[n], id);
    }
  }

  lemma AttemptStep(digest: string -> string, f: Flow, a: Action, id: nat)
    requires id in f.attempts && id < f.nextAttempt && !(a.Reply? && a.id == id)
    ensures var g := Next(digest, f, a); id in g.attempts && g.attempts[id] == f.attempts[id] && id < g.nextAttempt
  {
    hide Redeemed, Pending;
  }

  /** A code no one takes stays in the table as it was stored. */
  lemma {:induction false} CodeWaits(digest: string -> string, f: Flow, between: seq<Action>, code: string)
    requires code in f.codes && code in f.issued
    requires forall a | a in between :: !Takes(a, code)
    ensures var g := Run(digest, f, between); code in g.codes && g.codes[code] == f.codes[code] && code in g.issued
  {
    hide Next;
    if between != [] {
      var n := |between| - 1;
      assert between[n] in between;
      CodeWaits(digest, f, between[..n], code);
      CodeStep(digest, Run(digest, f, between[..n]), between[n], code);
    }
  }

  lemma CodeStep(digest: string -> string, f: Flow, a: Action, code: string)
    requires code in f.codes && code in f.issued && !Takes(a, code)
    ensures var g := Next(digest, f, a); code in g.codes && g.codes[code] == f.codes[code] && code in g.issued
  {
    hide Redeemed, Pending;
  }

  predicate Takes(a: Action, code: string) {
    a.TakeCode? && a.request.grantType == "authorization_code" && a.request.code == code
  }

  /** A user signed in stays so until the code is stored. */
  lemma {:induction false} SignInWaits(digest: string -> string, f: Flow, between: seq<Action>, id: nat)
    requires id in f.signedIn
    requires forall a | a in between :: !(a.SignIn? && a.id == id) && !(a.Store? && a.id == id)
    ensures var g := Run(digest, f, between); id in g.signedIn && g.signedIn[id] == f.signedIn[id]
  {
    hide Next;
    if between != [] {
      var n := |between| - 1;
      assert between[n] in between;
      SignInWaits(digest, f, between[..n], id);
      SignInStep(digest, Run(digest, f, between[..n]), between[n], id);
    }
  }

  lemma SignInStep(digest: string -> string, f: Flow, a: Action, id: nat)
    requires id in f.signedIn && !(a.SignIn? && a.id == id) && !(a.Store? && a.id == id)
    ensures var g := Next(digest, f, a); id in g.signedIn && g.signedIn[id] == f.signedIn[id]
  {
    hide Redeemed, Pending;
  }

  /** What an authorize request is answered with, whatever runs between its regions: for a
      well-formed query that names a known user, a code that stands for that query, that user
      and the time it was stored. */
  lemma AuthorizedCodeIsStored(
    digest: string -> string, f: Flow, id: nat, q: AuthorizeRequest, between: seq<Action>, code: string, at: Time)
    requires q.responseType == "code" && q.challengeMethod == "S256" && q.challenge != "" && q.redirectURI != ""
    requires q.loginHint in f.users
    requires forall a | a in between :: !(a.SignIn? && a.id == id) && !(a.Store? && a.id == id)
    requires code !in Run(digest, Next(digest, f, SignIn(id, q)), between).issued
    ensures var g := Next(digest, Run(digest, Next(digest, f, SignIn(id, q)), between), Store(id, code, at));
      && code in g.issued && code in g.codes
      && var pc := g.codes[code];
      && pc.user == f.users[q.loginHint] && pc.clientID == q.clientID && pc.redirectURI == q.redirectURI
      && pc.nonce == q.nonce && pc.challenge == q.challenge && pc.issued == at
      && (pc.federated <==> "federated:id" in q.scope)
  {
    SignInWaits(digest, Next(digest, f, SignIn(id, q)), between, id);
  }

  /** The whole flow, in terms of the authorize query: the first token request for its code is
      answered with a token exactly when it comes from the same client, for the same redirect
      URI, with the verifier of the challenge, within a minute of the code being stored. */
  lemma AuthorizedRequestIsAnswered(
    digest: string -> string, f: Flow, id: nat, q: AuthorizeRequest, authorizing: seq<Action>,
    code: string, at: Time, waiting: seq<Action>, r: TokenRequest, answering: seq<Action>, now: Time)
    requires q.responseType == "code" && q.challengeMethod == "S256" && q.challenge != "" && q.redirectURI != ""
    requires q.loginHint in f.users
    requires forall a | a in authorizing :: !(a.SignIn? && a.id == id) && !(a.Store? && a.id == id)
    requires code !in Run(digest, Next(digest, f, SignIn(id, q)), authorizing).issued
    requires forall a | a in waiting :: !Takes(a, code)
    requires r.grantType == "authorization_code" && r.code == code
    requires var stored := Next(digest, Run(digest, Next(digest, f, SignIn(id, q)), authorizing), Store(id, code, at));
      forall a | a in answering :: !(a.Reply? && a.id == Run(digest, stored, waiting).nextAttempt)
    ensures var stored := Next(digest, Run(digest, Next(digest, f, SignIn(id, q)), authorizing), Store(id, code, at));
      var waited := Run(digest, stored, waiting);
      var g := Next(digest, Run(digest, Next(digest, waited, TakeCode(r)), answering), Reply(waited.nextAttempt, now));
      && |g.answers| > 0
      && var answer := g.answers[|g.answers| - 1];
      && answer.id == waited.nextAttempt && answer.request == r
      && (answer.token.Some? <==>
            && r.clientID == q.clientID && r.redirectURI == q.redirectURI
            && digest(r.verifier) == q.challenge && now - at <= 60_000_000_000)
      && (answer.token.Some? ==>
            var user := f.users[q.loginHint];
            answer.token.value
            == IDToken(
                 user, q.clientID, q.nonce,
                 if "federated:id" in q.scope && user.githubID > 0 then Some(user.githubID) else None))
  {
    hide Run;
    AuthorizedCodeIsStored(digest, f, id, q, authorizing, code, at);
    var stored := Next(digest, Run(digest, Next(digest, f, SignIn(id, q)), authorizing), Store(id, code, at));
    CodeWaits(digest, stored, waiting, code);
    var waited := Run(digest, stored, waiting);
    RightRequestIsAnswered(digest, waited, r, answering, now);
  }

  // ---- the server ----

  /** The real fields are the two maps. The ghost ones are what the requests in flight hold in
      their own variables, and the record of the run. */
  class Server {
    const digest: string -> string
    var users: map<string, User>
    var codes: map<string, PendingCode>
    ghost var signedIn: map<nat, (AuthorizeRequest, User)>
    ghost var attempts: map<nat, Attempt>
    ghost var nextAttempt: nat
    ghost var issued: map<string, Grant>
    ghost var answers: seq<Answer>

    ghost function State(): Flow
      reads this
    {
      Flow(users, codes, signedIn, attempts, nextAttempt, issued, answers)
    }

    ghost predicate Valid()
      reads this
    {
      SingleUse(State()) && Accounted(digest, State())
    }

    constructor (digest: string -> string)
      ensures this.digest == digest && Valid() && State() == START
    {
      this.digest := digest;
      users, codes, signedIn, attempts, nextAttempt, issued, answers := map[], map[], map[], map[], 0, map[], [];
      new;
      StartKeeps(digest);
    }

    method AddUser(u: User)
      requires Valid()
      modifies this
      ensures Valid() && State() == Next(digest, old(State()), Register(u))
      ensures users == old(users)[u.login := u] && codes == old(codes)
    {
      hide SingleUse, Accounted;
      NextKeeps(digest, State(), Register(u));
      users := users[u.login := u];
    }

    /** The first region of an authorize request: looking the user up. */
    method SignInUser(ghost id: nat, q: AuthorizeRequest) returns (user: Option<User>)
      requires Valid()
      modifies this
      ensures Valid() && State() == Next(digest, old(State()), SignIn(id, q))
      ensures users == old(users) && codes == old(codes)
      ensures user.Some? <==>
        && q.responseType == "code" && q.challengeMethod == "S256" && q.challenge != "" && q.redirectURI != ""
        && q.loginHint in users
      ensures user.Some? ==> user.value == users[q.loginHint]
      ensures user.Some? ==> id in signedIn && signedIn[id] == (q, user.value)
    {
      hide SingleUse, Accounted;
      NextKeeps(digest, State(), SignIn(id, q));
      if !WellFormed(q) {
        return None;
      }
      user := Lookup(users, q.loginHint);
      if user.Some? {
        signedIn := signedIn[id := (q, user.value)];
      }
    }

    /** The second region: storing a random code, taken to be one never stored before. */
    method StoreCode(ghost id: nat, q: AuthorizeRequest, user: User, code: string, now: Time)
      requires Valid() && id in signedIn && signedIn[id] == (q, user) && code !in issued
      modifies this
      ensures Valid() && State() == Next(digest, old(State()), Store(id, code, now))
      ensures users == old(users)
      ensures codes
              == old(codes)[
                code := PendingCode(
                  user, q.clientID, q.redirectURI, q.nonce, q.challenge, "federated:id" in q.scope, now)]
    {
      hide SingleUse, Accounted;
      NextKeeps(digest, State(), Store(id, code, now));
      codes := codes[code := Pending(q, user, now)];
      signedIn, issued := signedIn - {id}, issued[code := Grant(q, user, now)];
    }

    /** The two regions with nothing in between. */
    method HandleAuthorize(ghost id: nat, q: AuthorizeRequest, random: string, now: Time) returns (code: Option<string>)
      requires Valid() && id !in signedIn && random !in issued
      modifies this
      ensures Valid()
      ensures State() == Next(digest, Next(digest, old(State()), SignIn(id, q)), Store(id, random, now))
      ensures code.Some? <==>
        && q.responseType == "code" && q.challengeMethod == "S256" && q.challenge != "" && q.redirectURI != ""
        && q.loginHint in users
      ensures code.None? ==> State() == old(State())
      ensures code.Some? ==>
        && code.value == random && users == old(users)
        && codes
           == old(codes)[
             random := PendingCode(
               users[q.loginHint], q.clientID, q.redirectURI, q.nonce, q.challenge, "federated:id" in q.scope, now)]
    {
      hide SingleUse, Accounted, Pending;
      var user := SignInUser(id, q);
      if user.None? {
        return None;
      }
      StoreCode(id, q, user.value, random, now);
      code := Some(random);
    }

    /** The one region a token request holds the lock for: lookup and deletion together. */
    method Take(r: TokenRequest) returns (found: Option<PendingCode>)
      requires Valid() && r.grantType == "authorization_code"
      modifies this
      ensures Valid() && State() == Next(digest, old(State()), TakeCode(r))
      ensures found.Some? <==> r.code in old(codes)
      ensures found.Some? ==> found.value == old(codes)[r.code]
      ensures users == old(users) && codes == old(codes) - {r.code}
      ensures old(nextAttempt) in attempts && attempts[old(nextAttempt)] == Attempt(r, found)
    {
      hide SingleUse, Accounted;
      NextKeeps(digest, State(), TakeCode(r));
      found := Lookup(codes, r.code);
      codes := codes - {r.code};
      attempts, nextAttempt := attempts[nextAttempt := Attempt(r, found)], nextAttempt + 1;
    }

    /** The checks and the token, outside the lock. */
    method Answered(ghost id: nat, r: TokenRequest, found: Option<PendingCode>, now: Time)
      returns (token: Option<IDToken>)
      requires Valid() && id in attempts && attempts[id] == Attempt(r, found)
      modifies this
      ensures Valid() && State() == Next(digest, old(State()), Reply(id, now))
      ensures users == old(users) && codes == old(codes)
      ensures token.Some? <==>
        && found.Some? && r.clientID == found.value.clientID && r.redirectURI == found.value.redirectURI
        && digest(r.verifier) == found.value.challenge && now - found.value.issued <= 60_000_000_000
      ensures token.Some? ==>
        var pc := found.value;
        token.value
        == IDToken(
             pc.user, r.clientID, pc.nonce,
             if pc.federated && pc.user.githubID > 0 then Some(pc.user.githubID) else None)
    {
      hide SingleUse, Accounted;
      NextKeeps(digest, State(), Reply(id, now));
      if found.None? || now - found.value.issued > MINUTE {
        token := None;
      } else if found.value.clientID != r.clientID || found.value.redirectURI != r.redirectURI {
        token := None;
      } else if digest(r.verifier) != found.value.challenge {
        token := None;
      } else {
        token := Some(UserToken(found.value, r.clientID));
      }
      attempts, answers := attempts - {id}, answers + [Answer(id, r, now, token)];
    }

    /** A token request with nothing run between its region and its answer. */
    method HandleToken(r: TokenRequest, now: Time) returns (token: Option<IDToken>)
      requires Valid()
      modifies this
      ensures Valid()
      ensures State() == Next(digest, Next(digest, old(State()), TakeCode(r)), Reply(old(nextAttempt), now))
      ensures r.grantType != "authorization_code" ==> token == None && State() == old(State())
      ensures r.grantType == "authorization_code" ==> users == old(users) && codes == old(codes) - {r.code}
      ensures token.Some? <==>
        && r.grantType == "authorization_code" && r.code in old(codes)
        && var pc := old(codes)[r.code];
        && r.clientID == pc.clientID && r.redirectURI == pc.redirectURI
        && digest(r.verifier) == pc.challenge && now - pc.issued <= 60_000_000_000
      ensures token.Some? ==>
        var pc := old(codes)[r.code];
        token.value
        == IDToken(
             pc.user, r.clientID, pc.nonce,
             if pc.federated && pc.user.githubID > 0 then Some(pc.user.githubID) else None)
    {
      hide SingleUse, Redeemed, Vouching, Backed, AllBound;
      if !SupportedGrant(r) {
        assert nextAttempt !in attempts;
        return None;
      }
      ghost var id := nextAttempt;
      var found := Take(r);
      token := Answered(id, r, found, now);
    }
  }
}
