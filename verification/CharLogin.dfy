/**
  The Char.Login sign-in controller (src/GMCPAuthenticator.cpp) as a transition
  system.  A `State` holds what the controller remembers, the credential-store
  reads and deferred attempts that are still in flight, and a log of everything
  it did.  What the code cannot control arrives as an `Event`: server frames,
  connection changes, the passage of time, and the completion - in any order and
  with any contents - of a read of the credential store that other running
  instances also write to.

  Only hashes of sign-in tokens appear; the token text itself plays no part in
  any decision the controller makes.
*/
module CharLogin {
  import opened Common

  /** Milliseconds between two sign-in attempts on one connection. */
  const INTERVAL: nat := 1000

  /** The generation counters are 32-bit unsigned integers. */
  const GENERATIONS: nat := 0x1_0000_0000

  type Hash = nat

  /** What Char.Login.Default advertised; `providerFlow` says that the client-driven OAuth flow can run. */
  datatype Caps = Caps(password: bool, oauth: bool, providerFlow: bool)

  /** What the controller asks the profile and the socket for at the moment it acts. */
  datatype Env = Env(secure: bool, haveCredentials: bool)

  /** Sign-in state of one Default (PerConnectionState). */
  datatype Conn = Conn(
    awaiting: bool,        // a Char.Login.Reconnect awaits its Char.Login.Result
    usedToken: bool,       // this sign-in replayed a saved token
    announced: bool,       // the "token saved" notice was shown
    retried: bool,         // the one rotated-token retry was spent
    provider: string,
    account: string,
    sentHash: Option<Hash>)

  const FRESH_CONN := Conn(false, false, false, false, "", "", None)

  /** A read of the stored sign-in, with everything its callback captured. */
  datatype Read =
    | SignIn(gen: nat, allowToken: bool)
    | Recovery(gen: nat, sentHash: Option<Hash>, retried: bool, account: string, provider: string)

  /** A deferred sign-in attempt. */
  datatype Timer = Timer(gen: nat, due: nat)

  /** What a read of the credential store brings back; an empty or corrupt entry reads as `Unreadable`. */
  datatype Stored = Unreadable | Entry(account: string, provider: string, token: Option<Hash>)

  datatype Frame =
    | Reconnect(account: string, hash: Hash)
    | Credentials
    | Handoff
    | Resume(account: string, provider: string)

  datatype AttemptKind = TokenBarred | StoredCredentials | NoOAuth | TokenAllowed

  datatype Act =
    | DefaultSeen(time: nat, caps: Caps)
    | ConnectionChanged
    | Attempted(at: nat, kind: AttemptKind, using: Caps)
    | Sent(frame: Frame, rotated: bool)
    | FlowStarted
    | Rejected(hash: Option<Hash>)
    | Rearmed
    | HintStored(hintAccount: string, hintProvider: string)
    | EntryDiscarded
    | TokenStored(tokenAccount: string, tokenHash: Hash, tokenProvider: string)
    | ReconnectRequested
    | LoginFailed

  datatype State = State(
    caps: Caps,
    conn: Conn,
    rejected: bool,
    authGen: nat,
    scheduleGen: nat,
    lastAttempt: Option<nat>,
    pending: bool,
    now: nat,
    nextJob: nat,
    lookups: map<nat, Read>,
    timers: map<nat, Timer>,
    log: seq<Act>)

  const INIT := State(Caps(false, false, false), FRESH_CONN, false, 1, 0, None, false, 0, 0, map[], map[], [])

  /** Two counter values look equal to the code when they agree modulo the counter's width. */
  predicate SameGeneration(a: nat, b: nat) {
    a % GENERATIONS == b % GENERATIONS
  }

  function Log(s: State, acts: seq<Act>): State {
    s.(log := s.log + acts)
  }

  /** A connection began or ended. */
  function ConnectionChange(s: State): State {
    Log(s.(scheduleGen := s.scheduleGen + 1, authGen := s.authGen + 1, pending := false, lastAttempt := None),
        [ConnectionChanged])
  }

  /** Capabilities of an advertisement: OpenID Provider fields count only on an encrypted transport. */
  function SupportsSet(password: bool, oauth: bool, providerFields: bool, env: Env): Caps {
    Caps(password, oauth, oauth && providerFields && env.secure)
  }

  function ResetPerConnection(s: State): State {
    s.(conn := FRESH_CONN, authGen := s.authGen + 1)
  }

  function SelectAuthMethod(s: State, env: Env): State {
    if s.caps.password && env.haveCredentials then Log(s, [Sent(Credentials, false)])
    else if s.caps.providerFlow then Log(s, [FlowStarted])
    else Log(s, [Sent(Handoff, false)])
  }

  function StartRead(s: State, r: Read): State {
    s.(lookups := s.lookups[s.nextJob := r], nextJob := s.nextJob + 1)
  }

  function AttemptReconnect(s: State, env: Env): State {
    if s.rejected then
      StartRead(Log(s.(rejected := false), [Attempted(s.now, TokenBarred, s.caps)]), SignIn(s.authGen, false))
    else if s.caps.password && env.haveCredentials then
      SelectAuthMethod(Log(s, [Attempted(s.now, StoredCredentials, s.caps)]), env)
    else if !s.caps.oauth then
      SelectAuthMethod(Log(s, [Attempted(s.now, NoOAuth, s.caps)]), env)
    else
      StartRead(Log(s, [Attempted(s.now, TokenAllowed, s.caps)]), SignIn(s.authGen, true))
  }

  function ScheduleSignIn(s: State, env: Env): State {
    if s.pending then s
    else if s.lastAttempt.None? || s.now - s.lastAttempt.value >= INTERVAL then
      AttemptReconnect(s.(lastAttempt := Some(s.now)), env)
    else
      s.(pending := true,
         timers := s.timers[s.nextJob := Timer(s.scheduleGen, s.now + (INTERVAL - (s.now - s.lastAttempt.value)))],
         nextJob := s.nextJob + 1)
  }

  /** Char.Login.Default. */
  function Default(s: State, caps: Caps, env: Env): State {
    ScheduleSignIn(ResetPerConnection(Log(s.(caps := caps), [DefaultSeen(s.now, caps)])), env)
  }

  function TimerFires(s: State, job: nat, env: Env): State
    requires job in s.timers
  {
    var t := s.timers[job];
    var s1 := s.(timers := s.timers - {job});
    if !SameGeneration(t.gen, s.scheduleGen) then s1
    else AttemptReconnect(s1.(pending := false, lastAttempt := Some(s.now)), env)
  }

  /** Char.Login.Result; `None` stands for a frame that does not parse. */
  function Result(s: State, success: Option<bool>): State {
    if success.None? then s
    else if s.conn.awaiting then
      var s1 := s.(conn := s.conn.(awaiting := false));
      if success.value then s1
      else
        StartRead(Log(s1.(rejected := true), [Rejected(s.conn.sentHash)]),
                  Recovery(s.authGen, s.conn.sentHash, s.conn.retried, s.conn.account, s.conn.provider))
    else if success.value then s
    else Log(s, [LoginFailed])
  }

  /** Char.Login.Token. */
  function TokenFrame(s: State, account: string, token: Option<Hash>): State {
    if account == "" || token.None? then s
    else
      Log(s.(conn := s.conn.(announced := s.conn.announced || !s.conn.usedToken)),
          [TokenStored(account, token.value, s.conn.provider)])
  }

  /** Char.Login.URL, as far as it is remembered. */
  function UrlFrame(s: State, provider: string): State {
    if provider == "" then s else s.(conn := s.conn.(provider := provider))
  }

  /** The callback of readStoredSignIn. */
  function SignInReadDone(s: State, r: Read, found: Stored, env: Env): State
    requires r.SignIn?
  {
    if !SameGeneration(r.gen, s.authGen) then s
    else match found
      case Unreadable => SelectAuthMethod(s, env)
      case Entry(account, provider, token) =>
        var s1 := UrlFrame(s, provider);
        if r.allowToken && account != "" && token.Some? && env.secure then
          Log(s1.(conn := s1.conn.(usedToken := true, awaiting := true, account := account, sentHash := token)),
              [Sent(Reconnect(account, token.value), false)])
        else if account != "" && provider != "" then Log(s1, [Sent(Resume(account, provider), false)])
        else SelectAuthMethod(s1, env)
  }

  function DropTokenKeepHint(account: string, provider: string): Act {
    if account == "" || provider == "" then EntryDiscarded else HintStored(account, provider)
  }

  /** The store still holds a usable token, and no retry was spent yet. */
  predicate TokenSeen(r: Read, found: Stored)
    requires r.Recovery?
  {
    !r.retried && found.Entry? && found.account != "" && found.token.Some?
  }

  predicate Rotated(r: Read, found: Stored)
    requires r.Recovery?
  {
    TokenSeen(r, found) && r.sentHash.Some? && found.token != r.sentHash
  }

  predicate RejectedStillStored(r: Read, found: Stored)
    requires r.Recovery?
  {
    TokenSeen(r, found) && r.sentHash.Some? && found.token == r.sentHash
  }

  /** The callback of retryOrDropRejectedToken. */
  function RecoveryReadDone(s: State, r: Read, found: Stored, env: Env): State
    requires r.Recovery?
  {
    var superseded := !SameGeneration(r.gen, s.authGen);
    if Rotated(r, found) then
      if superseded then s
      else if env.secure then
        Log(s.(conn := s.conn.(retried := true, sentHash := found.token, usedToken := true, awaiting := true,
                               account := found.account),
               rejected := false),
            [Sent(Reconnect(found.account, found.token.value), true)])
      else SelectAuthMethod(s, env)
    else if superseded && !RejectedStillStored(r, found) then
      Log(s.(rejected := true), [Rearmed])
    else if superseded then
      Log(s, [DropTokenKeepHint(r.account, r.provider)])
    else
      Log(s, [DropTokenKeepHint(r.account, r.provider), ReconnectRequested])
  }

  function ReadDone(s: State, job: nat, found: Stored, env: Env): State
    requires job in s.lookups
  {
    var r := s.lookups[job];
    var s1 := s.(lookups := s.lookups - {job});
    if r.SignIn? then SignInReadDone(s1, r, found, env) else RecoveryReadDone(s1, r, found, env)
  }

  /** Everything that can happen to the controller. */
  datatype Event =
    | Connected
    | Disconnected
    | DefaultFrame(password: bool, oauth: bool, providerFields: bool, env: Env)
    | ResultFrame(success: Option<bool>)
    | TokenReceived(account: string, token: Option<Hash>)
    | UrlReceived(provider: string)
    | ReadCompletes(job: nat, found: Stored, env: Env)
    | DeferredAttempt(job: nat, env: Env)
    | Tick(elapsed: nat)
    | HintWriteFailed
    | ForgetSavedSignIn

  /** Events that begin a new sign-in or end the connection. */
  predicate Supersedes(e: Event) {
    e.Connected? || e.Disconnected? || e.DefaultFrame?
  }

  /**
    What the outside world guarantees: callbacks belong to jobs in flight and
    complete once, timers are never early, and no job stays in flight across
    2^32 resets of the counter it captured.
  */
  predicate Enabled(s: State, e: Event) {
    match e
    case ReadCompletes(job, _, _) => job in s.lookups
    case DeferredAttempt(job, _) => job in s.timers && s.timers[job].due <= s.now
    case DefaultFrame(_, _, _, _) =>
      forall j :: j in s.lookups ==> s.authGen + 1 < s.lookups[j].gen + GENERATIONS
    case Connected =>
      && (forall j :: j in s.lookups ==> s.authGen + 1 < s.lookups[j].gen + GENERATIONS)
      && (forall j :: j in s.timers ==> s.scheduleGen + 1 < s.timers[j].gen + GENERATIONS)
    case Disconnected =>
      && (forall j :: j in s.lookups ==> s.authGen + 1 < s.lookups[j].gen + GENERATIONS)
      && (forall j :: j in s.timers ==> s.scheduleGen + 1 < s.timers[j].gen + GENERATIONS)
    case _ => true
  }

  function Step(s: State, e: Event): State
    requires Enabled(s, e)
  {
    match e
    case Connected => ConnectionChange(s)
    case Disconnected => ConnectionChange(s)
    case DefaultFrame(password, oauth, fields, env) => Default(s, SupportsSet(password, oauth, fields, env), env)
    case ResultFrame(success) => Result(s, success)
    case TokenReceived(account, token) => TokenFrame(s, account, token)
    case UrlReceived(provider) => UrlFrame(s, provider)
    case ReadCompletes(job, found, env) => ReadDone(s, job, found, env)
    case DeferredAttempt(job, env) => TimerFires(s, job, env)
    case Tick(elapsed) => s.(now := s.now + elapsed)
    case HintWriteFailed => Log(s, [EntryDiscarded])
    case ForgetSavedSignIn => Log(s, [EntryDiscarded])
  }
}
