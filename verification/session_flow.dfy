/** auth.go and session.go: the login flow, carried between requests by one sealed cookie. */
module SessionFlow {
  import opened Wrappers
  import opened Sorting

  // ---- sessions and cookies ----------------------------------------------------------------

  const SECOND: nat := 1_000_000_000
  const FLOW_MAX_AGE: nat := 600 * SECOND

  datatype Claims = Claims(email: string, name: string, picture: string, emailVerified: bool)

  datatype User = User(subject: string, claims: Claims, expiresAt: int, idToken: string)

  /** The four flow fields, "" or 0 when clear, and the user. */
  datatype Session = Session(state: string, nonce: string, verifier: string, createdAt: int, user: Option<User>)

  const EMPTY := Session("", "", "", 0, None)

  /** What the browser holds: a value this service sealed, or anything else. */
  datatype CookieValue = Sealed(session: Session) | Garbage

  datatype SetCookie = Store(value: CookieValue) | Expire

  function FlowCleared(d: Session): Session {
    d.(state := "", nonce := "", verifier := "", createdAt := 0)
  }

  /** More than ten minutes since the flow's second; times are nanoseconds. */
  predicate TooOld(createdAt: int, now: nat) {
    now - createdAt * SECOND > FLOW_MAX_AGE
  }

  /** load: None is an invalid session. */
  function Loaded(cookie: Option<CookieValue>, now: nat): Option<Session> {
    match cookie
    case None => Some(EMPTY)
    case Some(Garbage) => None
    case Some(Sealed(d)) => Some(if d.createdAt != 0 && TooOld(d.createdAt, now) then FlowCleared(d) else d)
  }

  /** What load makes of each cookie, with the ten minutes written out. */
  lemma LoadMeaning(d: Session, now: nat)
    ensures Loaded(None, now) == Some(Session("", "", "", 0, None))
    ensures Loaded(Some(Garbage), now) == None
    ensures Loaded(Some(Sealed(d)), now) == Some(
              if d.createdAt != 0 && now - d.createdAt * 1_000_000_000 > 600 * 1_000_000_000
              then Session("", "", "", 0, d.user) else d)
  {
  }

  /** The Set-Cookie headers of one response. */
  class ResponseWriter {
    var cookies: seq<SetCookie>

    constructor ()
      ensures cookies == []
    {
      cookies := [];
    }
  }

  class SessionStore {
    constructor () {}

    method Load(cookie: Option<CookieValue>, now: nat) returns (data: Option<Session>)
      ensures data == Loaded(cookie, now)
    {
      match cookie
      case None => return Some(EMPTY);
      case Some(Garbage) => return None;
      case Some(Sealed(stored)) =>
        var d := stored;
        if d.createdAt != 0 && TooOld(d.createdAt, now) {
          d := d.(state := "", nonce := "", verifier := "", createdAt := 0);
        }
        return Some(d);
    }

    /** save: `fits` is false when sealing fails or the value is over the cookie size limit. */
    method Save(w: ResponseWriter, data: Session, fits: bool) returns (ok: bool)
      modifies w
      ensures ok == fits && w.cookies == old(w.cookies) + if fits then [Store(Sealed(data))] else []
    {
      ok := fits;
      if fits {
        w.cookies := w.cookies + [Store(Sealed(data))];
      }
    }

    method Clear(w: ResponseWriter)
      modifies w
      ensures w.cookies == old(w.cookies) + [Expire]
    {
      w.cookies := w.cookies + [Expire];
    }
  }

  // ---- the identity provider ---------------------------------------------------------------

  /** What comes back for a code: the verifier's word on the id token is taken as given. */
  datatype Answer =
    | ExchangeFailed
    | NoIDToken
    | Unverified
    | Verified(nonce: string, subject: string, expiry: int, claims: Option<Claims>, raw: string)

  class Upstream {
    var exchanges: seq<string>
    const answers: nat -> Answer

    constructor (answers: nat -> Answer)
      ensures exchanges == [] && this.answers == answers
    {
      this.answers := answers;
      exchanges := [];
    }

    method Exchange(verifier: string) returns (answer: Answer)
      modifies this
      ensures exchanges == old(exchanges) + [verifier] && answer == answers(|old(exchanges)|)
    {
      answer := answers(|exchanges|);
      exchanges := exchanges + [verifier];
    }
  }

  // ---- the service -------------------------------------------------------------------------

  datatype FlowError =
    | Disabled | InvalidRequest | InvalidState | InvalidNonce | CookieTooLarge | UpstreamFailed | BadEndpoint

  /** The authorization URL: the configured endpoint and client, with these three parameters. */
  datatype AuthURL = AuthURL(state: string, nonce: string, challenge: string)

  /** What a caller sees of a user, from the session or from a bearer token. */
  datatype Profile = Profile(subject: string, claims: Claims)

  /** The provider's end-session endpoint as url.Parse sees it, with the query it already has. */
  datatype EndSession = NotOffered | Malformed | Offered(endpoint: string, query: map<string, string>)

  datatype LogoutURL = LogoutURL(endpoint: string, query: map<string, string>)

  /** A browser request: its cookie and the query of the callback URL. */
  datatype Request = Request(cookie: Option<CookieValue>, providerError: string, code: string, state: string)

  /** What a call sends: its error, its cookies, and the verifier it spends at the provider. */
  datatype Outcome = Outcome(error: Option<FlowError>, cookies: seq<SetCookie>, spent: Option<string>)

  function Refused(e: FlowError): Outcome {
    Outcome(Some(e), [], None)
  }

  function Opened(state: string, nonce: string, verifier: string, now: nat): Session {
    Session(state, nonce, verifier, now / SECOND, None)
  }

  function LoginOutcome(enabled: bool, state: string, nonce: string, verifier: string, now: nat, fits: bool): Outcome {
    if !enabled then Refused(Disabled)
    else if !fits then Refused(CookieTooLarge)
    else Outcome(None, [Store(Sealed(Opened(state, nonce, verifier, now)))], None)
  }

  /** The checks of Callback before it consumes the flow. */
  function CallbackRefusal(enabled: bool, r: Request, loadedAt: nat, now: nat): Option<FlowError> {
    var data := Loaded(r.cookie, loadedAt);
    if !enabled then Some(Disabled)
    else if r.providerError != "" || r.code == "" || r.state == "" then Some(InvalidRequest)
    else if data.None? || data.value.state == "" || data.value.nonce == "" || data.value.verifier == "" then
      Some(InvalidState)
    else if r.state != data.value.state then Some(InvalidState)
    else if data.value.createdAt == 0 || TooOld(data.value.createdAt, now) then Some(InvalidState)
    else None
  }

  /** What Callback makes of the provider's answer. */
  function SignedIn(answer: Answer, nonce: string): Result<User, FlowError> {
    match answer
    case ExchangeFailed => Failure(UpstreamFailed)
    case NoIDToken => Failure(InvalidRequest)
    case Unverified => Failure(UpstreamFailed)
    case Verified(n, subject, expiry, claims, raw) =>
      if n != nonce then Failure(InvalidNonce)
      else if claims.None? then Failure(UpstreamFailed)
      else if subject == "" then Failure(InvalidRequest)
      else Success(User(subject, claims.value, expiry, raw))
  }

  function CallbackOutcome(
      enabled: bool, r: Request, loadedAt: nat, now: nat, answer: Answer, fits: bool, fitsUser: bool): Outcome
  {
    var refusal := CallbackRefusal(enabled, r, loadedAt, now);
    if refusal.Some? then Refused(refusal.value)
    else
      var data := Loaded(r.cookie, loadedAt).value;
      var consumed := FlowCleared(data);
      var signedIn := SignedIn(answer, data.nonce);
      if !fits then Refused(CookieTooLarge)
      else if signedIn.Failure? then Outcome(Some(signedIn.error), [Store(Sealed(consumed))], Some(data.verifier))
      else if !fitsUser then Outcome(Some(CookieTooLarge), [Store(Sealed(consumed))], Some(data.verifier))
      else Outcome(None, [Store(Sealed(consumed)), Store(Sealed(consumed.(user := Some(signedIn.value))))],
        Some(data.verifier))
  }

  class Service {
    const enabled: bool
    const sessions: SessionStore
    const upstream: Upstream
    const challengeOf: string -> string
    const clientID: string
    const postLogoutRedirectURI: string
    const endSession: EndSession

    constructor (enabled: bool, sessions: SessionStore, upstream: Upstream, challengeOf: string -> string,
                 clientID: string, postLogoutRedirectURI: string, endSession: EndSession)
      ensures this.enabled == enabled && this.sessions == sessions && this.upstream == upstream
      ensures this.challengeOf == challengeOf && this.clientID == clientID
      ensures this.postLogoutRedirectURI == postLogoutRedirectURI && this.endSession == endSession
    {
      this.enabled, this.sessions, this.upstream := enabled, sessions, upstream;
      this.challengeOf, this.clientID := challengeOf, clientID;
      this.postLogoutRedirectURI, this.endSession := postLogoutRedirectURI, endSession;
    }

    /** Login: the three tokens are fresh random strings; the URL carries two of them and the third's challenge. */
    method Login(w: ResponseWriter, r: Request, state: string, nonce: string, verifier: string, now: nat, fits: bool)
      returns (result: Result<AuthURL, FlowError>)
      modifies w
      ensures var o := LoginOutcome(enabled, state, nonce, verifier, now, fits);
              && w.cookies == old(w.cookies) + o.cookies
              && result == if o.error.Some? then Failure(o.error.value)
                           else Success(AuthURL(state, nonce, challengeOf(verifier)))
    {
      if !enabled {
        return Failure(Disabled);
      }
      var loaded := sessions.Load(r.cookie, now);
      var data := if loaded.None? then EMPTY else loaded.value;
      data := data.(state := state, nonce := nonce, verifier := verifier);
      data := data.(createdAt := now / SECOND);
      data := data.(user := None);
      var saved := sessions.Save(w, data, fits);
      if !saved {
        return Failure(CookieTooLarge);
      }
      return Success(AuthURL(state, nonce, challengeOf(verifier)));
    }

    /** Callback: the flow is consumed before the code is exchanged, the user saved only at the end. */
    method Callback(w: ResponseWriter, r: Request, loadedAt: nat, now: nat, fits: bool, fitsUser: bool)
      returns (error: Option<FlowError>)
      modifies w, upstream
      ensures var o := CallbackOutcome(enabled, r, loadedAt, now, upstream.answers(|old(upstream.exchanges)|),
                                       fits, fitsUser);
              && error == o.error && w.cookies == old(w.cookies) + o.cookies
              && upstream.exchanges == old(upstream.exchanges) + if o.spent.Some? then [o.spent.value] else []
    {
      if !enabled {
        return Some(Disabled);
      }
      if r.providerError != "" || r.code == "" || r.state == "" {
        return Some(InvalidRequest);
      }
      var loaded := sessions.Load(r.cookie, loadedAt);
      if loaded.None? || loaded.value.state == "" || loaded.value.nonce == "" || loaded.value.verifier == "" {
        return Some(InvalidState);
      }
      var data := loaded.value;
      if r.state != data.state {
        return Some(InvalidState);
      }
      if data.createdAt == 0 || TooOld(data.createdAt, now) {
        return Some(InvalidState);
      }
      var verifier, nonce := data.verifier, data.nonce;
      data := data.(state := "", nonce := "", verifier := "", createdAt := 0);
      var saved := sessions.Save(w, data, fits);
      if !saved {
        return Some(CookieTooLarge);
      }
      var answer := upstream.Exchange(verifier);
      match answer
      case ExchangeFailed => return Some(UpstreamFailed);
      case NoIDToken => return Some(InvalidRequest);
      case Unverified => return Some(UpstreamFailed);
      case Verified(n, subject, expiry, claims, raw) =>
        if n != nonce {
          return Some(InvalidNonce);
        }
        if claims.None? {
          return Some(UpstreamFailed);
        }
        data := data.(user := Some(User(subject, claims.value, expiry, raw)));
        if data.user.value.subject == "" {
          return Some(InvalidRequest);
        }
        saved := sessions.Save(w, data, fitsUser);
        return if saved then None else Some(CookieTooLarge);
    }

    /** Me: a user put in the request context by a bearer token goes first, then the session. */
    method Me(context: Option<Profile>, cookie: Option<CookieValue>, loadedAt: nat, now: nat)
      returns (user: Option<Profile>)
      ensures context.Some? ==> user == context
      ensures context.None? ==>
                user == if Shown(cookie, loadedAt, now).None? then None
                        else Some(ProfileOf(Shown(cookie, loadedAt, now).value))
      ensures context.None? && user.Some? ==>
                cookie.Some? && cookie.value.Sealed? && cookie.value.session.user.Some?
                && var u := cookie.value.session.user.value;
                   user == Some(Profile(u.subject, u.claims)) && u.expiresAt != 0 && now < u.expiresAt * 1_000_000_000
      ensures (&& context.None? && cookie.Some? && cookie.value.Sealed? && cookie.value.session.user.Some?
               && now < cookie.value.session.user.value.expiresAt * 1_000_000_000) ==> user.Some?
    {
      if context.Some? {
        return context;
      }
      var data := sessions.Load(cookie, loadedAt);
      if data.None? || data.value.user.None? {
        return None;
      }
      var u := data.value.user.value;
      if u.expiresAt == 0 || now >= u.expiresAt * SECOND {
        return None;
      }
      return Some(Profile(u.subject, u.claims));
    }

    /** Logout: the cookie is expired whatever it held; the id token it held is the hint for the provider. */
    method Logout(w: ResponseWriter, r: Request, now: nat) returns (result: Result<Option<LogoutURL>, FlowError>)
      modifies w
      ensures w.cookies == old(w.cookies) + [Expire]
      ensures !enabled || endSession.NotOffered? ==> result == Success(None)
      ensures enabled && endSession.Malformed? ==> result == Failure(BadEndpoint)
      ensures enabled && endSession.Offered? ==>
                var hint := Hint(UserOf(Loaded(r.cookie, now)));
                && result.Success? && result.value.Some? && result.value.value.endpoint == endSession.endpoint
                && ForLogout(endSession.query, result.value.value.query, hint, postLogoutRedirectURI, clientID)
    {
      var hint := "";
      var data := sessions.Load(r.cookie, now);
      if data.Some? && data.value.user.Some? {
        hint := data.value.user.value.idToken;
      }
      sessions.Clear(w);
      if !enabled || endSession.NotOffered? {
        return Success(None);
      }
      if endSession.Malformed? {
        return Failure(BadEndpoint);
      }
      var query := endSession.query;
      if hint != "" {
        query := query["id_token_hint" := hint];
      }
      if postLogoutRedirectURI != "" {
        query := query["post_logout_redirect_uri" := postLogoutRedirectURI];
      }
      query := query["client_id" := clientID];
      return Success(Some(LogoutURL(endSession.endpoint, query)));
    }
  }

  function ProfileOf(u: User): Profile {
    Profile(u.subject, u.claims)
  }

  function Hint(user: Option<User>): string {
    if user.Some? then user.value.idToken else ""
  }

  /** The endpoint's own query with the logout parameters set over it, an empty one left as it was. */
  ghost predicate ForLogout(
      was: map<string, string>, now: map<string, string>, hint: string, redirect: string, client: string)
  {
    && now.Keys == was.Keys + {"client_id"} + (if hint != "" then {"id_token_hint"} else {})
                   + (if redirect != "" then {"post_logout_redirect_uri"} else {})
    && now["client_id"] == client
    && (hint != "" ==> now["id_token_hint"] == hint)
    && (redirect != "" ==> now["post_logout_redirect_uri"] == redirect)
    && (forall key <- was | key != "client_id" && (hint == "" || key != "id_token_hint")
                            && (redirect == "" || key != "post_logout_redirect_uri") :: now[key] == was[key])
  }

  function UserOf(data: Option<Session>): Option<User> {
    if data.None? then None else data.value.user
  }

  function Shown(cookie: Option<CookieValue>, loadedAt: nat, now: nat): Option<User> {
    var user := UserOf(Loaded(cookie, loadedAt));
    if user.None? || user.value.expiresAt == 0 || now >= user.value.expiresAt * SECOND then None else user
  }

  // ---- runs of one cookie jar --------------------------------------------------------------

  /** A flow as Login opened it, with the moment it did. */
  datatype Flow = Flow(state: string, nonce: string, verifier: string, openedAt: nat)

  datatype Visit =
    | LoginVisit
    | CallbackVisit(providerError: string, code: string, state: string)
    | LogoutVisit

  /** A request as it left: the cookie the jar held, and for the statements below what had arrived by then. */
  datatype Trip = Trip(visit: Visit, cookie: Option<CookieValue>, latest: Option<Flow>, arrived: set<nat>)

  /** A response on its way: its cookies, the flow it opens, or the answer a callback signed in with. */
  datatype Reply = Reply(cookies: seq<SetCookie>, opens: Option<Flow>, signed: Option<Signed>)

  datatype Signed = Signed(answer: Answer, checkedAt: nat)

  /** One verifier spent at the provider by one request. */
  datatype Spend = Spend(trip: nat, verifier: string)

  /**
   * The browser's cookie, the clock, the requests the server has still to handle and the responses on their
   * way, any number of each. The rest is history: the latest flow whose cookie reached the jar, the tokens
   * handed out, what was spent, the sessions issued, every request sent, and which responses have arrived.
   */
  datatype World = World(
    jar: Option<CookieValue>, now: nat, waiting: set<nat>, replies: map<nat, Reply>,
    latest: Option<Flow>, tokens: set<string>, spent: seq<Spend>, issued: set<Session>,
    trips: map<nat, Trip>, arrived: set<nat>)

  /** What the server draws from outside while it handles one request. */
  datatype Draw = Draw(
    enabled: bool, state: string, nonce: string, verifier: string, later: nat, answer: Answer,
    fits: bool, fitsUser: bool)

  /**
   * Sending reads the jar, handling happens later at the server, arrival applies the cookies; a request or a
   * response may be lost, and the jar may lose its cookie or hold rubbish.
   */
  datatype Event =
    | Wait(ns: nat)
    | Forget
    | Corrupt
    | Send(k: nat, visit: Visit)
    | Handle(k: nat, draw: Draw)
    | Arrive(k: nat)
    | Lose(k: nat)

  /** Set-Cookie headers take effect in order. */
  function Received(jar: Option<CookieValue>, cookies: seq<SetCookie>): Option<CookieValue> {
    if cookies == [] then jar
    else match cookies[|cookies| - 1]
      case Store(value) => Some(value)
      case Expire => None
  }

  function Sessions(cookies: seq<SetCookie>): set<Session> {
    set c | c in cookies && c.Store? && c.value.Sealed? :: c.value.session
  }

  /** What the server does with a callback it was sent, at the time it handles it. */
  function CallbackOf(w: World, k: nat, d: Draw): Outcome
    requires k in w.trips && w.trips[k].visit.CallbackVisit?
  {
    var t := w.trips[k];
    CallbackOutcome(d.enabled, Request(t.cookie, t.visit.providerError, t.visit.code, t.visit.state),
                    w.now, w.now + d.later, d.answer, d.fits, d.fitsUser)
  }

  function Replied(w: World, k: nat, o: Outcome, opens: Option<Flow>, signed: Option<Signed>): World {
    w.(waiting := w.waiting - {k},
       replies := w.replies[k := Reply(o.cookies, opens, signed)],
       issued := w.issued + Sessions(o.cookies),
       spent := w.spent + if o.spent.Some? then [Spend(k, o.spent.value)] else [])
  }

  function Handled(w: World, k: nat, d: Draw): World
    requires k in w.trips
  {
    match w.trips[k].visit
    case LoginVisit =>
      var o := LoginOutcome(d.enabled, d.state, d.nonce, d.verifier, w.now, d.fits);
      var opens := if o.error.None? then Some(Flow(d.state, d.nonce, d.verifier, w.now)) else None;
      Replied(w, k, o, opens, None).(tokens := w.tokens + {d.state, d.nonce, d.verifier})
    case CallbackVisit(_, _, _) =>
      Replied(w, k, CallbackOf(w, k, d), None, Some(Signed(d.answer, w.now + d.later))).(now := w.now + d.later)
    case LogoutVisit => Replied(w, k, Outcome(None, [Expire], None), None, None)
  }

  function Next(w: World, e: Event): World {
    match e
    case Wait(ns) => w.(now := w.now + ns)
    case Forget => w.(jar := None)
    case Corrupt => w.(jar := Some(Garbage))
    case Send(k, visit) =>
      if k in w.trips then w
      else w.(trips := w.trips[k := Trip(visit, w.jar, w.latest, w.arrived)], waiting := w.waiting + {k})
    case Handle(k, d) => if k in w.waiting && k in w.trips then Handled(w, k, d) else w
    case Arrive(k) =>
      if k !in w.replies then w
      else
        var reply := w.replies[k];
        w.(jar := Received(w.jar, reply.cookies),
           latest := if reply.opens.Some? then reply.opens else w.latest,
           replies := w.replies - {k}, arrived := w.arrived + {k})
    case Lose(k) => w.(waiting := w.waiting - {k}, replies := w.replies - {k})
  }

  function Run(w: World, events: seq<Event>): World {
    if events == [] then w else Next(Run(w, events[..|events| - 1]), events[|events| - 1])
  }

  const START := World(None, SECOND, {}, map[], None, {}, [], {}, map[], {})

  /** The tokens drawn for a login are not empty, differ from each other and from all handed out before. */
  ghost predicate TokensFresh(w: World, e: Event) {
    e.Handle? && e.k in w.trips && w.trips[e.k].visit.LoginVisit? ==>
      var d := e.draw;
      && d.state != "" && d.nonce != "" && d.verifier != ""
      && d.state != d.nonce && d.nonce != d.verifier && d.state != d.verifier
      && d.state !in w.tokens && d.nonce !in w.tokens && d.verifier !in w.tokens
  }

  ghost predicate FreshTokens(w: World, events: seq<Event>) {
    events == []
    || (FreshTokens(w, events[..|events| - 1]) && TokensFresh(Run(w, events[..|events| - 1]), events[|events| - 1]))
  }

  // ---- what every run keeps ----------------------------------------------------------------

  predicate Pending(d: Session) {
    d.state != "" || d.nonce != "" || d.verifier != "" || d.createdAt != 0
  }

  /** All four flow fields are set or all are clear, and a pending flow never comes with a user. */
  ghost predicate Whole(d: Session) {
    Pending(d) ==> d.state != "" && d.nonce != "" && d.verifier != "" && d.createdAt != 0 && d.user.None?
  }

  /** The session holds exactly this flow, stamped with the second it was opened in. */
  ghost predicate IsFlow(d: Session, f: Flow) {
    && (d.state, d.nonce, d.verifier) == (f.state, f.nonce, f.verifier)
    && d.createdAt * SECOND <= f.openedAt < (d.createdAt + 1) * SECOND
  }

  /** A cookie the jar held while this was the latest flow: if it holds a flow, it is that one. */
  ghost predicate CookieOk(issued: set<Session>, cookie: Option<CookieValue>, latest: Option<Flow>) {
    cookie.Some? && cookie.value.Sealed? ==>
      var d := cookie.value.session;
      d in issued && (Pending(d) ==> latest.Some? && IsFlow(d, latest.value))
  }

  ghost predicate FlowOk(w: World, f: Option<Flow>) {
    f.Some? ==> {f.value.state, f.value.nonce, f.value.verifier} <= w.tokens && f.value.openedAt <= w.now
  }

  /** The callback that may sign a user in: state, nonce and age all match the flow that was latest when it was sent. */
  ghost predicate Matches(t: Trip, s: Signed, user: User) {
    && t.visit.CallbackVisit? && t.latest.Some?
    && t.visit.state == t.latest.value.state && t.visit.code != "" && t.visit.providerError == ""
    && s.answer.Verified? && s.answer.nonce == t.latest.value.nonce
    && s.checkedAt - t.latest.value.openedAt <= 600 * 1_000_000_000
    && user.subject != "" && s.answer.claims == Some(user.claims)
    && user == User(s.answer.subject, user.claims, s.answer.expiry, s.answer.raw)
  }

  /** A login's response stores its flow; no other response stores one; a user comes from a matching callback. */
  ghost predicate ReplyOk(w: World, k: nat, r: Reply) {
    && k in w.trips && Sessions(r.cookies) <= w.issued && FlowOk(w, r.opens)
    && (forall c <- r.cookies :: c.Store? ==> c.value.Sealed?)
    && (if r.opens.Some?
        then |r.cookies| == 1 && r.cookies[0].Store? && r.cookies[0].value.Sealed?
             && IsFlow(r.cookies[0].value.session, r.opens.value)
        else forall c <- r.cookies :: c.Store? ==> !Pending(c.value.session))
    && (forall c <- r.cookies | c.Store? && c.value.session.user.Some? ::
          r.signed.Some? && Matches(w.trips[k], r.signed.value, c.value.session.user.value))
  }

  ghost predicate TripOk(w: World, t: Trip) {
    CookieOk(w.issued, t.cookie, t.latest) && FlowOk(w, t.latest)
  }

  ghost predicate FlowInv(w: World) {
    && w.now >= SECOND
    && (forall d <- w.issued :: Whole(d))
    && CookieOk(w.issued, w.jar, w.latest) && FlowOk(w, w.latest)
    && (forall k <- w.trips :: TripOk(w, w.trips[k]))
    && (forall k <- w.replies :: ReplyOk(w, k, w.replies[k]))
  }

  /** Nothing said of a request or a response is undone by what is issued, handed out or sent later. */
  ghost predicate Later(w: World, w': World) {
    && w.issued <= w'.issued && w.tokens <= w'.tokens && w.now <= w'.now
    && (forall k <- w.trips :: k in w'.trips && w'.trips[k] == w.trips[k])
  }

  lemma StaysOk(w: World, w': World)
    requires FlowInv(w) && Later(w, w')
    ensures forall k <- w.trips :: TripOk(w', w'.trips[k])
    ensures forall k <- w.replies :: ReplyOk(w', k, w.replies[k])
    ensures CookieOk(w'.issued, w.jar, w.latest) && FlowOk(w', w.latest)
  {
    hide Matches, IsFlow, Pending;
  }

  /** What a callback does when it is handled: refused, or the flow of its cookie is consumed and spent. */
  lemma CallbackAnswers(w: World, k: nat, d: Draw)
    requires FlowInv(w) && k in w.trips && w.trips[k].visit.CallbackVisit?
    ensures var o, t := CallbackOf(w, k, d), w.trips[k];
            && (forall c <- o.cookies :: c.Store? && c.value.Sealed? && !Pending(c.value.session))
            && (o.spent.None? ==> o.cookies == [])
            && (o.spent.Some? ==> o.cookies != [] && Carried(t.cookie) == o.spent && t.latest.Some?
                                  && t.visit.state == t.latest.value.state)
            && (forall c <- o.cookies | c.value.session.user.Some? ::
                  Matches(t, Signed(d.answer, w.now + d.later), c.value.session.user.value))
  {
    assert TripOk(w, w.trips[k]);
  }

  /** The verifier of the pending flow in a cookie. */
  function Carried(cookie: Option<CookieValue>): Option<string> {
    if cookie.Some? && cookie.value.Sealed? && Pending(cookie.value.session) then Some(cookie.value.session.verifier)
    else None
  }

  lemma HandledOk(w: World, k: nat, d: Draw)
    requires FlowInv(w) && k in w.trips && TokensFresh(w, Handle(k, d))
    ensures ReplyOk(Handled(w, k, d), k, Handled(w, k, d).replies[k])
    ensures forall x <- Handled(w, k, d).issued :: Whole(x)
    ensures Later(w, Handled(w, k, d))
  {
    match w.trips[k].visit
    case LoginVisit => LoginHandledOk(w, k, d);
    case CallbackVisit(_, _, _) =>
      CallbackAnswers(w, k, d);
      hide CallbackOf, Matches, IsFlow;
    case LogoutVisit =>
  }

  lemma LoginHandledOk(w: World, k: nat, d: Draw)
    requires FlowInv(w) && k in w.trips && w.trips[k].visit.LoginVisit? && TokensFresh(w, Handle(k, d))
    ensures ReplyOk(Handled(w, k, d), k, Handled(w, k, d).replies[k])
    ensures forall x <- Handled(w, k, d).issued :: Whole(x)
    ensures Later(w, Handled(w, k, d))
  {
    var x := Opened(d.state, d.nonce, d.verifier, w.now);
    assert Whole(x) && IsFlow(x, Flow(d.state, d.nonce, d.verifier, w.now));
    hide Matches, IsFlow, Pending, TripOk;
  }

  /** Every event keeps the invariant. */
  lemma {:induction false} StepKeepsFlow(w: World, e: Event)
    requires FlowInv(w) && TokensFresh(w, e)
    ensures FlowInv(Next(w, e))
  {
    hide Handled, ReplyOk, TripOk, Whole, TokensFresh;
    var w' := Next(w, e);
    if e.Handle? && e.k in w.waiting && e.k in w.trips {
      HandledOk(w, e.k, e.draw);
      HandledFrame(w, e.k, e.draw);
    }
    StaysOk(w, w');
    match e
    case Send(k, visit) => SendOk(w, k, visit);
    case Arrive(k) =>
      if k in w.replies {
        ArriveOk(w, k);
      }
    case _ =>
  }

  lemma HandledFrame(w: World, k: nat, d: Draw)
    requires k in w.trips
    ensures var w' := Handled(w, k, d);
            && w'.jar == w.jar && w'.latest == w.latest && w'.trips == w.trips && w'.arrived == w.arrived
            && w'.waiting == w.waiting - {k} && k in w'.replies && w'.replies == w.replies[k := w'.replies[k]]
  {
    hide CallbackOf, LoginOutcome;
  }

  lemma SendOk(w: World, k: nat, visit: Visit)
    requires FlowInv(w)
    ensures TripOk(Next(w, Send(k, visit)), Trip(visit, w.jar, w.latest, w.arrived))
  {
    hide IsFlow, Pending;
  }

  lemma ArriveOk(w: World, k: nat)
    requires FlowInv(w) && k in w.replies
    ensures var w' := Next(w, Arrive(k)); CookieOk(w'.issued, w'.jar, w'.latest) && FlowOk(w', w'.latest)
  {
    assert ReplyOk(w, k, w.replies[k]);
    hide Matches, IsFlow;
  }

  /**
   * In every run, however requests and responses overlap, every issued session has its four flow fields all
   * set or all clear and never a flow with a user, and a flow in the jar is the latest that reached it.
   */
  lemma {:induction false} EveryRunKeepsFlow(w: World, events: seq<Event>)
    requires FlowInv(w) && FreshTokens(w, events)
    ensures FlowInv(Run(w, events))
    ensures forall d <- Run(w, events).issued :: Whole(d)
  {
    if events != [] {
      EveryRunKeepsFlow(w, events[..|events| - 1]);
      StepKeepsFlow(Run(w, events[..|events| - 1]), events[|events| - 1]);
    }
  }

  // ---- who is signed in --------------------------------------------------------------------

  ghost function JarUser(w: World): Option<User> {
    if w.jar.Some? && w.jar.value.Sealed? then w.jar.value.session.user else None
  }

  /**
   * A user appears in the jar only when the response of a callback arrives that matched, in state and nonce,
   * the flow that was latest when it was sent, and was checked within ten minutes of the login.
   */
  lemma {:induction false} UserOnlyFromMatchingCallback(start: World, events: seq<Event>, e: Event)
    requires FlowInv(start) && FreshTokens(start, events)
    ensures var w := Run(start, events);
            var user := JarUser(Next(w, e));
            user.Some? && user != JarUser(w) ==>
              && e.Arrive? && e.k in w.replies && e.k in w.trips && w.replies[e.k].signed.Some?
              && Matches(w.trips[e.k], w.replies[e.k].signed.value, user.value)
  {
    EveryRunKeepsFlow(start, events);
    var w := Run(start, events);
    hide Run, FreshTokens, Matches, Handled, IsFlow;
    if e.Handle? && e.k in w.waiting && e.k in w.trips {
      HandledFrame(w, e.k, e.draw);
    }
    if e.Arrive? && e.k in w.replies {
      assert ReplyOk(w, e.k, w.replies[e.k]);
    }
  }

  /** A callback signs in exactly when its cookie holds the latest flow, everything matches and both saves fit. */
  lemma {:induction false} SignsInExactly(w: World, k: nat, d: Draw)
    requires FlowInv(w) && k in w.trips && w.trips[k].visit.CallbackVisit?
    ensures var o, t := CallbackOf(w, k, d), w.trips[k];
            && (o.error.None? <==>
                  && Carried(t.cookie).Some? && t.latest.Some?
                  && d.enabled && t.visit.providerError == "" && t.visit.code != ""
                  && t.visit.state == t.latest.value.state
                  && w.now + d.later - t.cookie.value.session.createdAt * 1_000_000_000 <= 600 * 1_000_000_000
                  && d.fits && d.fitsUser
                  && d.answer.Verified? && d.answer.nonce == t.latest.value.nonce && d.answer.claims.Some?
                  && d.answer.subject != "")
            && (o.error.None? ==>
                  var user := User(d.answer.subject, d.answer.claims.value, d.answer.expiry, d.answer.raw);
                  Received(w.jar, o.cookies) == Some(Sealed(EMPTY.(user := Some(user)))))
  {
    assert TripOk(w, w.trips[k]);
  }

  /**
   * Handled within 599 seconds of its login, a callback that carries the latest flow with matching state,
   * nonce and answer signs in: the truncation to seconds costs less than one.
   */
  lemma SignsInWithinTenMinutes(w: World, k: nat, d: Draw)
    requires FlowInv(w) && k in w.trips && w.trips[k].visit.CallbackVisit? && Carried(w.trips[k].cookie).Some?
    requires d.enabled && d.fits && d.fitsUser && d.answer.Verified? && d.answer.claims.Some? && d.answer.subject != ""
    requires w.trips[k].latest.Some?
    requires var t, f := w.trips[k], w.trips[k].latest.value;
             && t.visit.providerError == "" && t.visit.code != "" && t.visit.state == f.state
             && d.answer.nonce == f.nonce && w.now + d.later - f.openedAt <= 599 * 1_000_000_000
    ensures CallbackOf(w, k, d).error.None? && CallbackOf(w, k, d).spent == Some(w.trips[k].latest.value.verifier)
  {
    assert TripOk(w, w.trips[k]);
    SignsInExactly(w, k, d);
    hide SignedIn;
  }

  /** Handled more than 600 seconds after its flow's second, it is refused and nothing reaches the provider. */
  lemma RefusedAfterTenMinutes(w: World, k: nat, d: Draw)
    requires FlowInv(w) && k in w.trips && w.trips[k].visit.CallbackVisit? && Carried(w.trips[k].cookie).Some?
    requires w.now + d.later - w.trips[k].cookie.value.session.createdAt * 1_000_000_000 > 600 * 1_000_000_000
    ensures var o := CallbackOf(w, k, d);
            && o.spent.None? && o.cookies == [] && o.error.Some?
            && var v := w.trips[k].visit;
               (d.enabled && v.providerError == "" && v.code != "" && v.state != "" ==> o.error == Some(InvalidState))
  {
    assert TripOk(w, w.trips[k]);
  }

  /** No response of a callback arrives in the run. */
  ghost predicate NoSignIn(w: World, events: seq<Event>) {
    events == []
    || (&& NoSignIn(w, events[..|events| - 1])
        && var before, last := Run(w, events[..|events| - 1]), events[|events| - 1];
           last.Arrive? && last.k in before.replies ==> before.replies[last.k].signed.None?)
  }

  /** Once a logout's or a login's response has arrived, nobody is signed in until a callback's response arrives. */
  lemma {:induction false} SignedOutUntilCallback(
    w: World, k: nat, events: seq<Event>, loadedAt: nat, now: nat)
    requires FlowInv(w) && k in w.replies && w.replies[k].signed.None? && w.replies[k].cookies != []
    requires FreshTokens(Next(w, Arrive(k)), events) && NoSignIn(Next(w, Arrive(k)), events)
    ensures var w' := Run(Next(w, Arrive(k)), events);
            JarUser(w').None? && Shown(w'.jar, loadedAt, now).None?
  {
    hide Matches, IsFlow, Handled;
    StepKeepsFlow(w, Arrive(k));
    var w1 := Next(w, Arrive(k));
    assert ReplyOk(w, k, w.replies[k]);
    if events != [] {
      var front, last := events[..|events| - 1], events[|events| - 1];
      SignedOutUntilCallback(w, k, front, loadedAt, now);
      EveryRunKeepsFlow(w1, front);
      UserOnlyFromMatchingCallback(w1, front, last);
    }
  }

  // ---- how often a flow is exchanged -------------------------------------------------------

  ghost predicate SpentBefore(spent: seq<Spend>, verifier: string) {
    exists s <- spent :: s.verifier == verifier
  }

  /** Some request that spent the verifier had, when this one was sent, not had its response reach the jar. */
  ghost predicate SentTooEarly(w: World, k: nat, verifier: string)
    requires k in w.trips
  {
    exists s <- w.spent :: s.verifier == verifier && s.trip !in w.trips[k].arrived
  }

  /** No response that consumed the cookie's flow is among those that have arrived. */
  ghost predicate Unconsumed(w: World, cookie: Option<CookieValue>, arrived: set<nat>) {
    Carried(cookie).Some? ==>
      Carried(cookie).value in w.tokens
      && forall s <- w.spent :: s.verifier == Carried(cookie).value ==> s.trip !in arrived
  }

  ghost predicate SpendOk(w: World, s: Spend) {
    && s.trip in w.trips && s.trip !in w.waiting && s.verifier in w.tokens
    && w.trips[s.trip].visit.CallbackVisit? && Carried(w.trips[s.trip].cookie) == Some(s.verifier)
    && (s.trip in w.replies ==> w.replies[s.trip].cookies != [] && w.replies[s.trip].opens.None?)
  }

  /** The flow of a login whose response is still on its way is in no cookie, and was never spent. */
  ghost predicate NotYetSeen(w: World, k: nat, verifier: string) {
    && verifier in w.tokens && Carried(w.jar) != Some(verifier) && !SpentBefore(w.spent, verifier)
    && (forall j <- w.trips :: Carried(w.trips[j].cookie) != Some(verifier))
    && (forall j <- w.replies | j != k && w.replies[j].opens.Some? :: w.replies[j].opens.value.verifier != verifier)
  }

  ghost predicate SpentInv(w: World) {
    && w.waiting <= w.trips.Keys && w.replies.Keys <= w.trips.Keys && w.arrived <= w.trips.Keys
    && w.waiting !! w.arrived && w.replies.Keys !! w.arrived && w.waiting !! w.replies.Keys
    && (forall s <- w.spent :: SpendOk(w, s))
    && Unconsumed(w, w.jar, w.arrived)
    && (forall k <- w.trips :: w.trips[k].arrived <= w.arrived && Unconsumed(w, w.trips[k].cookie, w.trips[k].arrived))
    && (forall k <- w.replies | w.replies[k].opens.Some? :: NotYetSeen(w, k, w.replies[k].opens.value.verifier))
  }

  lemma LoginKeepsSpent(w: World, k: nat, d: Draw)
    requires FlowInv(w) && SpentInv(w) && k in w.waiting && k in w.trips && w.trips[k].visit.LoginVisit?
    requires TokensFresh(w, Handle(k, d))
    ensures SpentInv(Handled(w, k, d))
  {
    hide ReplyOk, TripOk, FlowOk, Pending, LoginOutcome, Sessions;
    var w' := Handled(w, k, d);
    assert w'.spent == w.spent by { LoginSpendsNothing(d, w.now); }
    assert forall s <- w.spent :: SpendOk(w', s);
  }

  lemma LoginSpendsNothing(d: Draw, now: nat)
    ensures var o := LoginOutcome(d.enabled, d.state, d.nonce, d.verifier, now, d.fits); o.spent.None?
  {
  }

  lemma CallbackKeepsSpent(w: World, k: nat, d: Draw)
    requires FlowInv(w) && SpentInv(w) && k in w.waiting && k in w.trips && w.trips[k].visit.CallbackVisit?
    ensures SpentInv(Handled(w, k, d))
  {
    hide CallbackOf, FlowInv, Sessions, Carried;
    CallbackAnswers(w, k, d);
    var w' := Handled(w, k, d);
    forall s | s in w'.spent
      ensures SpendOk(w', s) && (s in w.spent || (s.trip == k && Some(s.verifier) == Carried(w.trips[k].cookie)))
    {
      if s in w.spent {
        assert SpendOk(w, s);
      } else {
        assert Unconsumed(w, w.trips[k].cookie, w.trips[k].arrived);
      }
    }
    forall j | j in w'.replies && w'.replies[j].opens.Some?
      ensures NotYetSeen(w', j, w'.replies[j].opens.value.verifier)
    {
      assert NotYetSeen(w, j, w.replies[j].opens.value.verifier);
    }
  }

  lemma LogoutKeepsSpent(w: World, k: nat, d: Draw)
    requires SpentInv(w) && k in w.waiting && k in w.trips && w.trips[k].visit.LogoutVisit?
    ensures SpentInv(Handled(w, k, d))
  {
    hide Pending, Sessions;
    var w' := Handled(w, k, d);
    assert forall s <- w.spent :: SpendOk(w', s);
  }

  lemma SendKeepsSpent(w: World, k: nat, visit: Visit)
    requires SpentInv(w)
    ensures SpentInv(Next(w, Send(k, visit)))
  {
    hide Pending;
    var w' := Next(w, Send(k, visit));
    assert forall s <- w.spent :: SpendOk(w', s);
  }

  /** The jar after an arrival: a login's unseen flow, a consumed or expired session, or what it held before. */
  lemma ArrivedJar(w: World, k: nat)
    requires FlowInv(w) && SpentInv(w) && k in w.replies
    ensures var w' := Next(w, Arrive(k));
            && Unconsumed(w', w'.jar, w'.arrived)
            && (Carried(w'.jar).Some? && Carried(w'.jar) != Carried(w.jar) ==>
                  w.replies[k].opens.Some? && Carried(w'.jar).value == w.replies[k].opens.value.verifier)
  {
    var reply := w.replies[k];
    assert ReplyOk(w, k, reply);
    hide TripOk, FlowOk, Matches, FlowInv;
    if reply.opens.Some? {
      assert NotYetSeen(w, k, reply.opens.value.verifier);
    } else if reply.cookies == [] {
      forall s | s in w.spent ensures s.trip != k {
        assert SpendOk(w, s);
      }
    }
  }

  lemma ArriveKeepsSpent(w: World, k: nat)
    requires FlowInv(w) && SpentInv(w) && k in w.replies
    ensures SpentInv(Next(w, Arrive(k)))
  {
    hide FlowInv, Pending, Carried, Received;
    ArrivedJar(w, k);
    var w' := Next(w, Arrive(k));
    forall s | s in w.spent ensures SpendOk(w', s) {
      assert SpendOk(w, s);
    }
    forall j | j in w'.replies && w'.replies[j].opens.Some?
      ensures NotYetSeen(w', j, w'.replies[j].opens.value.verifier)
    {
      assert NotYetSeen(w, j, w.replies[j].opens.value.verifier);
    }
  }

  lemma LossKeepsSpent(w: World, w': World)
    requires SpentInv(w) && w' == w.(jar := w'.jar, now := w'.now, waiting := w'.waiting, replies := w'.replies)
    requires w'.waiting <= w.waiting && (w'.jar == w.jar || Carried(w'.jar).None?)
    requires forall k <- w'.replies :: k in w.replies && w'.replies[k] == w.replies[k]
    ensures SpentInv(w')
  {
    hide Pending;
    assert forall s <- w.spent :: SpendOk(w', s);
  }

  lemma StepKeepsSpent(w: World, e: Event)
    requires FlowInv(w) && SpentInv(w) && TokensFresh(w, e)
    ensures SpentInv(Next(w, e))
  {
    hide FlowInv, SpentInv, TokensFresh, Handled;
    match e
    case Send(k, visit) => SendKeepsSpent(w, k, visit);
    case Handle(k, d) =>
      if k in w.waiting && k in w.trips {
        match w.trips[k].visit {
          case LoginVisit => LoginKeepsSpent(w, k, d);
          case CallbackVisit(_, _, _) => CallbackKeepsSpent(w, k, d);
          case LogoutVisit => LogoutKeepsSpent(w, k, d);
        }
      }
    case Arrive(k) =>
      if k in w.replies {
        ArriveKeepsSpent(w, k);
      }
    case _ => LossKeepsSpent(w, Next(w, e));
  }

  lemma {:induction false} EveryRunKeepsSpent(w: World, events: seq<Event>)
    requires FlowInv(w) && SpentInv(w) && FreshTokens(w, events)
    ensures FlowInv(Run(w, events)) && SpentInv(Run(w, events))
  {
    EveryRunKeepsFlow(w, events);
    if events != [] {
      EveryRunKeepsSpent(w, events[..|events| - 1]);
      StepKeepsSpent(Run(w, events[..|events| - 1]), events[|events| - 1]);
    }
  }

  /**
   * Exactly when a flow is exchanged again: in every run, a callback that reaches the exchange does so with a
   * verifier spent before if and only if it was sent before the response of an earlier spending request had
   * reached the jar, be that response late or lost. Sent after any consuming response arrived, it never does.
   */
  lemma {:induction false} ExchangedAgainExactly(start: World, events: seq<Event>, k: nat, d: Draw)
    requires FlowInv(start) && SpentInv(start) && FreshTokens(start, events)
    requires var w := Run(start, events);
             k in w.waiting && k in w.trips && w.trips[k].visit.CallbackVisit? && CallbackOf(w, k, d).spent.Some?
    ensures var w := Run(start, events);
            var v := CallbackOf(w, k, d).spent.value;
            && (SpentBefore(w.spent, v) <==> SentTooEarly(w, k, v))
            && (forall s <- w.spent :: s.trip in w.trips[k].arrived ==> s.verifier != v)
  {
    EveryRunKeepsSpent(start, events);
    var w := Run(start, events);
    CallbackAnswers(w, k, d);
    hide Run, CallbackOf, FlowInv, FreshTokens;
    assert Unconsumed(w, w.trips[k].cookie, w.trips[k].arrived);
  }

  /** A callback is sent only when every earlier callback that carried the jar's flow has had its response arrive. */
  ghost predicate InTurn(w: World, e: Event) {
    e.Send? && e.visit.CallbackVisit? && Carried(w.jar).Some? ==>
      forall j <- w.trips | w.trips[j].visit.CallbackVisit? && Carried(w.trips[j].cookie) == Carried(w.jar) ::
          j in w.arrived
  }

  ghost predicate AllInTurn(w: World, events: seq<Event>) {
    events == []
    || (AllInTurn(w, events[..|events| - 1]) && InTurn(Run(w, events[..|events| - 1]), events[|events| - 1]))
  }

  /** Of two callbacks that carried one flow, one was sent after the other's response had arrived. */
  ghost predicate Apart(w: World) {
    forall i <- w.trips, j <- w.trips
      | i != j && w.trips[i].visit.CallbackVisit? && w.trips[j].visit.CallbackVisit?
        && Carried(w.trips[i].cookie).Some? && Carried(w.trips[i].cookie) == Carried(w.trips[j].cookie) ::
        i in w.trips[j].arrived || j in w.trips[i].arrived
  }

  ghost predicate EachOnce(spent: seq<Spend>) {
    forall i, j :: 0 <= i < j < |spent| ==> spent[i].verifier != spent[j].verifier
  }

  lemma StepStaysApart(w: World, e: Event)
    requires Apart(w) && InTurn(w, e)
    ensures Apart(Next(w, e))
  {
    hide Carried, Handled;
    if e.Handle? && e.k in w.waiting && e.k in w.trips {
      HandledFrame(w, e.k, e.draw);
    }
  }

  lemma StepSpendsOnce(w: World, e: Event)
    requires FlowInv(w) && SpentInv(w) && Apart(w) && EachOnce(w.spent)
    ensures EachOnce(Next(w, e).spent)
  {
    hide FlowInv, Pending;
    if e.Handle? && e.k in w.waiting && e.k in w.trips {
      if w.trips[e.k].visit.CallbackVisit? {
        CallbackAnswers(w, e.k, e.draw);
        hide CallbackOf;
        var v := CallbackOf(w, e.k, e.draw).spent;
        forall s | s in w.spent ensures Some(s.verifier) != v {
          assert SpendOk(w, s) && Unconsumed(w, w.trips[e.k].cookie, w.trips[e.k].arrived);
        }
      } else if w.trips[e.k].visit.LoginVisit? {
        LoginSpendsNothing(e.draw, w.now);
      }
    }
  }

  /** Where callbacks that carry one flow wait for each other's responses, no flow reaches the exchange twice. */
  lemma {:induction false} EachFlowExchangedOnce(w: World, events: seq<Event>)
    requires FlowInv(w) && SpentInv(w) && Apart(w) && EachOnce(w.spent)
    requires FreshTokens(w, events) && AllInTurn(w, events)
    ensures EachOnce(Run(w, events).spent) && Apart(Run(w, events))
  {
    hide FlowInv, SpentInv, Apart, EachOnce, InTurn, TokensFresh, Next;
    if events != [] {
      var front, last := events[..|events| - 1], events[|events| - 1];
      EachFlowExchangedOnce(w, front);
      EveryRunKeepsSpent(w, front);
      StepStaysApart(Run(w, front), last);
      StepSpendsOnce(Run(w, front), last);
    }
  }

  /** What becomes of the first response: it arrives before the second request is sent, after it, or never. */
  datatype Fate = InTime | Late | Lost

  /** The same callback URL requested twice. */
  ghost function Twice(visit: Visit, i: nat, j: nat, first: Draw, second: Draw, fate: Fate): seq<Event> {
    match fate
    case InTime => [Send(i, visit), Handle(i, first), Arrive(i), Send(j, visit), Handle(j, second)]
    case Late => [Send(i, visit), Handle(i, first), Send(j, visit), Arrive(i), Handle(j, second)]
    case Lost => [Send(i, visit), Handle(i, first), Lose(i), Send(j, visit), Handle(j, second)]
  }

  /** A callback that reached the exchange: the jar still holds the flow, the response will consume it. */
  lemma FirstOfTwo(w: World, visit: Visit, i: nat, first: Draw)
    requires FlowInv(w) && visit.CallbackVisit? && i !in w.trips
    requires CallbackOf(Next(w, Send(i, visit)), i, first).spent.Some?
    ensures Carried(w.jar).Some? && w.latest.Some? && w.jar.value.session.state == visit.state
    ensures visit.code != "" && visit.state != "" && visit.providerError == "" && Whole(w.jar.value.session)
    ensures var w' := Next(Next(w, Send(i, visit)), Handle(i, first));
            && w'.spent == w.spent + [Spend(i, w.jar.value.session.verifier)] && w'.jar == w.jar
            && w'.now == w.now + first.later && w'.trips.Keys == w.trips.Keys + {i}
            && i in w'.replies && w'.replies[i].opens.None? && Carried(Received(w.jar, w'.replies[i].cookies)).None?
  {
    var w1 := Next(w, Send(i, visit));
    StepKeepsFlow(w, Send(i, visit));
    CallbackAnswers(w1, i, first);
    hide FlowInv, Matches, TripOk, SignedIn;
  }

  /** The second request reaches the exchange exactly when it carries the flow. */
  lemma SecondOfTwo(w: World, j: nat, second: Draw, d: Session)
    requires j in w.trips && w.trips[j].visit.CallbackVisit? && j in w.waiting && second.enabled && second.fits
    requires w.trips[j].visit.providerError == "" && w.trips[j].visit.code != ""
             && w.trips[j].visit.state == d.state != ""
    requires Pending(d) && Whole(d)
    requires w.now + second.later - d.createdAt * 1_000_000_000 <= 600 * 1_000_000_000
    requires w.trips[j].cookie == Some(Sealed(d)) || Carried(w.trips[j].cookie).None?
    ensures Carried(Some(Sealed(d))).Some?
    ensures Next(w, Handle(j, second)).spent ==
            w.spent + if w.trips[j].cookie == Some(Sealed(d)) then [Spend(j, d.verifier)] else []
  {
    hide SignedIn;
  }

  /**
   * The whole family: from any state, a callback that reaches the exchange and is requested a second time
   * while its flow is young enough reaches it again if and only if the second request was sent before the
   * first response arrived, whether that response arrives late or never.
   */
  lemma {:induction false} RepeatedCallback(
      w: World, visit: Visit, i: nat, j: nat, first: Draw, second: Draw, fate: Fate)
    requires FlowInv(w) && visit.CallbackVisit? && i !in w.trips && j !in w.trips && i != j
    requires CallbackOf(Next(w, Send(i, visit)), i, first).spent.Some?
    requires second.enabled && second.fits
    requires w.now + first.later + second.later - w.jar.value.session.createdAt * 1_000_000_000 <= 600 * 1_000_000_000
    ensures var v := w.jar.value.session.verifier;
            Run(w, Twice(visit, i, j, first, second, fate)).spent ==
            w.spent + [Spend(i, v)] + if fate.InTime? then [] else [Spend(j, v)]
  {
    hide FlowInv, CallbackOf, Next, Pending, Whole, TooOld, Received, Run, Carried;
    FirstOfTwo(w, visit, i, first);
    FiveEvents(w, Twice(visit, i, j, first, second, fate));
    var w2 := Next(Next(w, Send(i, visit)), Handle(i, first));
    CarriedIsPending(w.jar);
    BetweenTwo(w2, visit, i, j, fate);
    SecondOfTwo(Between(w2, visit, i, j, fate), j, second, w.jar.value.session);
  }

  ghost function Between(w: World, visit: Visit, i: nat, j: nat, fate: Fate): World {
    match fate
    case InTime => Next(Next(w, Arrive(i)), Send(j, visit))
    case Late => Next(Next(w, Send(j, visit)), Arrive(i))
    case Lost => Next(Next(w, Lose(i)), Send(j, visit))
  }

  /** What the second request carries. */
  lemma BetweenTwo(w: World, visit: Visit, i: nat, j: nat, fate: Fate)
    requires i in w.replies && w.replies[i].opens.None? && j !in w.trips && i != j
    requires Carried(Received(w.jar, w.replies[i].cookies)).None?
    ensures var w' := Between(w, visit, i, j, fate);
            && w'.now == w.now && w'.spent == w.spent && j in w'.waiting && j in w'.trips && w'.trips[j].visit == visit
            && (if fate.InTime? then Carried(w'.trips[j].cookie).None? else w'.trips[j].cookie == w.jar)
  {
    hide Carried, Received;
  }

  lemma CarriedIsPending(cookie: Option<CookieValue>)
    requires Carried(cookie).Some?
    ensures cookie == Some(Sealed(cookie.value.session)) && Pending(cookie.value.session)
  {
  }

  lemma OneMoreEvent(w: World, events: seq<Event>, i: nat)
    requires i < |events|
    ensures Run(w, events[..i + 1]) == Next(Run(w, events[..i]), events[i])
  {
    hide Next;
    assert events[..i + 1][..i] == events[..i];
  }

  lemma FiveEvents(w: World, events: seq<Event>)
    requires |events| == 5
    ensures Run(w, events) == Next(Next(Next(Next(Next(w, events[0]), events[1]), events[2]), events[3]), events[4])
  {
    hide Next;
    assert events[..0] == [] && Run(w, []) == w && events[..5] == events;
    OneMoreEvent(w, events, 0);
    OneMoreEvent(w, events, 1);
    OneMoreEvent(w, events, 2);
    OneMoreEvent(w, events, 3);
    OneMoreEvent(w, events, 4);
  }

  /** A jar that holds a pending flow, as a login leaves it. */
  const FLOW_PENDING :=
    START.(jar := Some(Sealed(Session("s", "n", "v", 1, None))), latest := Some(Flow("s", "n", "v", SECOND)),
           tokens := {"s", "n", "v"}, issued := {Session("s", "n", "v", 1, None)})

  /** A lost response leaves the flow in the jar: the same callback then reaches the exchange again. */
  lemma LostResponseExchangesAgain()
    ensures FlowInv(FLOW_PENDING) && SpentInv(FLOW_PENDING)
    ensures var draw := Draw(true, "", "", "", 0, ExchangeFailed, true, true);
            var visit := CallbackVisit("", "c", "s");
            && Run(FLOW_PENDING, Twice(visit, 1, 2, draw, draw, Lost)).spent == [Spend(1, "v"), Spend(2, "v")]
            && Run(FLOW_PENDING, Twice(visit, 1, 2, draw, draw, Late)).spent == [Spend(1, "v"), Spend(2, "v")]
  {
    var draw := Draw(true, "", "", "", 0, ExchangeFailed, true, true);
    var visit := CallbackVisit("", "c", "s");
    var w1 := Next(FLOW_PENDING, Send(1, visit));
    assert CallbackOf(w1, 1, draw).spent == Some("v");
    hide CallbackOf, Run, Next;
    RepeatedCallback(FLOW_PENDING, visit, 1, 2, draw, draw, Lost);
    RepeatedCallback(FLOW_PENDING, visit, 1, 2, draw, draw, Late);
  }

  // ---- one visit from handling to arrival --------------------------------------------------

  /** A logout that is handled and answered empties the jar, whatever it held. */
  lemma LogoutEmptiesJar(w: World, k: nat, d: Draw)
    requires k in w.waiting && k in w.trips && w.trips[k].visit.LogoutVisit?
    ensures Next(Next(w, Handle(k, d)), Arrive(k)).jar == None
  {
  }

  /** A login that is handled and answered puts its flow, and no user, in the jar; refused, it leaves the jar alone. */
  lemma LoginFillsJar(w: World, k: nat, d: Draw)
    requires k in w.waiting && k in w.trips && w.trips[k].visit.LoginVisit?
    ensures var w' := Next(Next(w, Handle(k, d)), Arrive(k));
            if d.enabled && d.fits then
              && w'.jar == Some(Sealed(Session(d.state, d.nonce, d.verifier, w.now / 1_000_000_000, None)))
              && w'.latest == Some(Flow(d.state, d.nonce, d.verifier, w.now))
            else w'.jar == w.jar && w'.latest == w.latest
  {
  }

  /** A callback that is handled and answered signs its user in exactly when it ends without an error. */
  lemma CallbackFillsJar(w: World, k: nat, d: Draw)
    requires FlowInv(w) && k in w.waiting && k in w.trips && w.trips[k].visit.CallbackVisit?
    ensures var w', o := Next(Next(w, Handle(k, d)), Arrive(k)), CallbackOf(w, k, d);
            if o.error.None? then
              JarUser(w') == Some(User(d.answer.subject, d.answer.claims.value, d.answer.expiry, d.answer.raw))
            else if o.spent.Some? then w'.jar == Some(Sealed(Session("", "", "", 0, None)))
            else w'.jar == w.jar && w'.spent == w.spent
  {
    SignsInExactly(w, k, d);
    assert TripOk(w, w.trips[k]);
  }
}
