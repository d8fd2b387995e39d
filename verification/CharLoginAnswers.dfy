/**
  What the sign-in controller does at each event of a run, and not only what it must
  not do: which attempt a Default or a deferred timer makes, what is answered when the
  stored sign-in has been read, and what a rejected token leads to.  Everything is said
  in terms of the events and of what has been logged and found.
*/
module CharLoginAnswers {
  import opened Common
  import opened CharLogin
  import opened CharLoginMonitor
  import opened CharLoginRuns

  // ---------------------------------------------------------------- one event of a run

  /** Event `n` happens in this run. */
  ghost predicate Happens(es: seq<Event>, n: nat) {
    n < |es| && StateAt(es, n).Some? && StateAt(es, n + 1).Some?
  }

  /** The state before event `n`. */
  function Before(es: seq<Event>, n: nat): State
    requires Happens(es, n)
  {
    StateAt(es, n).value
  }

  /** The state after event `n`. */
  function Afterwards(es: seq<Event>, n: nat): State
    requires Happens(es, n)
  {
    StateAt(es, n + 1).value
  }

  lemma {:induction false} BeforeKeeps(es: seq<Event>, n: nat)
    requires Happens(es, n)
    ensures Inv(Before(es, n)) && Inv(Afterwards(es, n))
    ensures Before(es, n).caps == LatestCaps(Before(es, n).log, |Before(es, n).log|)
  {
    PrefixKeeps(es, n);
    PrefixKeeps(es, n + 1);
    var log := Before(es, n).log;
    CapsAreLatest(log, |log|);
  }

  /** The capabilities of the latest advertisement before event `n`. */
  function Offered(es: seq<Event>, n: nat): Caps
    requires Happens(es, n)
  {
    LatestCaps(Before(es, n).log, |Before(es, n).log|)
  }

  /** The method selected without a stored sign-in: credentials, the client-driven flow, or the game's own screen. */
  predicate Selects(caps: Caps, env: Env, act: Act) {
    && (act == Sent(Credentials, false) <==> caps.password && env.haveCredentials)
    && (act == FlowStarted <==> !(caps.password && env.haveCredentials) && caps.providerFlow)
    && (act == Sent(Handoff, false) <==> !(caps.password && env.haveCredentials) && !caps.providerFlow)
  }

  // ---------------------------------------------------------------- the stored sign-in

  /** A token may be used, there is one for an account, and the transport is encrypted. */
  predicate Replayable(allowToken: bool, found: Stored, env: Env) {
    allowToken && found.Entry? && found.account != "" && found.token.Some? && env.secure
  }

  /** It is remembered how the account signs in. */
  predicate Resumable(found: Stored) {
    found.Entry? && found.account != "" && found.provider != ""
  }

  /** One answer to the stored sign-in that was read. */
  predicate Answers(allowToken: bool, found: Stored, caps: Caps, env: Env, act: Act) {
    && (act.Sent? && act.frame.Reconnect? <==> Replayable(allowToken, found, env))
    && (Replayable(allowToken, found, env) ==> act == Sent(Reconnect(found.account, found.token.value), false))
    && (act.Sent? && act.frame.Resume? <==> !Replayable(allowToken, found, env) && Resumable(found))
    && (!Replayable(allowToken, found, env) && Resumable(found) ==>
          act == Sent(Resume(found.account, found.provider), false))
    && (!Replayable(allowToken, found, env) && !Resumable(found) ==> Selects(caps, env, act))
  }

  /** The connection after that answer: it awaits a result exactly if a token was sent, and remembers which. */
  predicate Awaits(c: Conn, c': Conn, allowToken: bool, found: Stored, env: Env) {
    && (c'.awaiting <==> Replayable(allowToken, found, env))
    && (c'.awaiting ==> c'.usedToken && c'.account == found.account && c'.sentHash == found.token)
    && (!c'.awaiting ==> c'.usedToken == c.usedToken && c'.account == c.account && c'.sentHash == c.sentHash)
    && c'.provider == (if found.Entry? && found.provider != "" then found.provider else c.provider)
    && c'.retried == c.retried && c'.announced == c.announced
  }

  lemma {:induction false} SelectsOne(s: State, env: Env) returns (act: Act)
    ensures SelectAuthMethod(s, env) == Log(s, [act]) && Selects(s.caps, env, act)
    ensures !(act.Sent? && (act.frame.Reconnect? || act.frame.Resume?))
  {
    act := SelectAuthMethod(s, env).log[|s.log|];
  }

  /** The state after an answer: one more act, and the connection's facts. */
  ghost predicate Answered(s: State, s': State, allowToken: bool, found: Stored, env: Env, act: Act) {
    && s' == s.(conn := s'.conn, log := s.log + [act])
    && Answers(allowToken, found, s.caps, env, act)
    && Awaits(s.conn, s'.conn, allowToken, found, env)
  }

  lemma {:induction false} ReplayAnswers(s: State, found: Stored, env: Env, c: Conn)
    requires Replayable(true, found, env) && c == UrlFrame(s, found.provider).conn
    ensures var act := Sent(Reconnect(found.account, found.token.value), false);
            Answered(s, s.(conn := c.(usedToken := true, awaiting := true, account := found.account,
                                      sentHash := found.token), log := s.log + [act]), true, found, env, act)
  {
  }

  lemma {:induction false} ResumeAnswers(s: State, allowToken: bool, found: Stored, env: Env)
    requires !s.conn.awaiting && !Replayable(allowToken, found, env) && Resumable(found)
    ensures var act := Sent(Resume(found.account, found.provider), false);
            Answered(s, s.(conn := s.conn.(provider := found.provider), log := s.log + [act]), allowToken, found, env,
                     act)
  {
  }

  lemma {:induction false} SelectAnswers(s: State, allowToken: bool, found: Stored, env: Env, c: Conn)
    returns (act: Act)
    requires !s.conn.awaiting && !Replayable(allowToken, found, env) && !Resumable(found)
    requires c == if found.Entry? then UrlFrame(s, found.provider).conn else s.conn
    ensures SelectAuthMethod(s.(conn := c), env) == s.(conn := c, log := s.log + [act])
    ensures Answered(s, s.(conn := c, log := s.log + [act]), allowToken, found, env, act)
  {
    act := SelectsOne(s.(conn := c), env);
  }

  lemma {:induction false} SignInReplays(s: State, r: Read, found: Stored, env: Env) returns (act: Act)
    requires r.SignIn? && SameGeneration(r.gen, s.authGen) && Replayable(r.allowToken, found, env)
    ensures Answered(s, SignInReadDone(s, r, found, env), r.allowToken, found, env, act)
  {
    var c := UrlFrame(s, found.provider).conn;
    act := Sent(Reconnect(found.account, found.token.value), false);
    ReplayAnswers(s, found, env, c);
    assert SignInReadDone(s, r, found, env)
           == s.(conn := c.(usedToken := true, awaiting := true, account := found.account, sentHash := found.token),
                 log := s.log + [act]);
  }

  lemma {:induction false} SignInResumes(s: State, r: Read, found: Stored, env: Env) returns (act: Act)
    requires r.SignIn? && SameGeneration(r.gen, s.authGen) && !s.conn.awaiting
    requires !Replayable(r.allowToken, found, env) && Resumable(found)
    ensures Answered(s, SignInReadDone(s, r, found, env), r.allowToken, found, env, act)
  {
    act := Sent(Resume(found.account, found.provider), false);
    ResumeAnswers(s, r.allowToken, found, env);
    assert SignInReadDone(s, r, found, env)
           == s.(conn := s.conn.(provider := found.provider), log := s.log + [act]);
  }

  lemma {:induction false} SignInSelects(s: State, r: Read, found: Stored, env: Env) returns (act: Act)
    requires r.SignIn? && SameGeneration(r.gen, s.authGen) && !s.conn.awaiting
    requires !Replayable(r.allowToken, found, env) && !Resumable(found)
    ensures Answered(s, SignInReadDone(s, r, found, env), r.allowToken, found, env, act)
  {
    var c := if found.Entry? then UrlFrame(s, found.provider).conn else s.conn;
    act := SelectAnswers(s, r.allowToken, found, env, c);
    assert SignInReadDone(s, r, found, env) == SelectAuthMethod(s.(conn := c), env);
  }

  lemma {:induction false} SignInAnswered(s: State, r: Read, found: Stored, env: Env) returns (act: Act)
    requires r.SignIn? && SameGeneration(r.gen, s.authGen) && !s.conn.awaiting
    ensures Answered(s, SignInReadDone(s, r, found, env), r.allowToken, found, env, act)
  {
    if Replayable(r.allowToken, found, env) {
      act := SignInReplays(s, r, found, env);
    } else if Resumable(found) {
      act := SignInResumes(s, r, found, env);
    } else {
      act := SignInSelects(s, r, found, env);
    }
  }

  /**
    In every run, a stored sign-in whose read nothing has superseded is answered at once
    and exactly once: the saved token is replayed when that is possible, else the provider
    resumed, else a method selected from the latest advertisement; and nothing but the
    connection's own facts changes.
  */
  lemma {:induction false} StoredSignInAnswered(es: seq<Event>, n: nat) returns (act: Act)
    requires Happens(es, n) && es[n].ReadCompletes? && es[n].job in Before(es, n).lookups
    requires Before(es, n).lookups[es[n].job].SignIn?
    requires SameGeneration(Before(es, n).lookups[es[n].job].gen, Before(es, n).authGen)
    ensures Before(es, n).caps == Offered(es, n)
    ensures var s, s', r := Before(es, n), Afterwards(es, n), Before(es, n).lookups[es[n].job];
            Answered(s.(lookups := s.lookups - {es[n].job}), s', r.allowToken, es[n].found, es[n].env, act)
  {
    var s, job := Before(es, n), es[n].job;
    BeforeKeeps(es, n);
    NoneAwaited(s, job);
    act := SignInAnswered(s.(lookups := s.lookups - {job}), s.lookups[job], es[n].found, es[n].env);
  }

  /** While a read that nothing has superseded is in flight, no result is awaited. */
  lemma {:induction false} NoneAwaited(s: State, job: nat)
    requires Inv(s) && job in s.lookups && SameGeneration(s.lookups[job].gen, s.authGen)
    ensures !s.conn.awaiting && Live(s, s.lookups[job]) && ReadFits(Summary(s.log), s.lookups[job])
  {
    GenerationExact(s.lookups[job].gen, s.authGen);
  }

  // ---------------------------------------------------------------- attempts

  /** A rejection, or a superseded recovery, bars the next attempt: nothing has released it since. */
  ghost predicate Barred(log: seq<Act>) {
    exists i :: 0 <= i < |log| && Latches(log[i]) && NoRelease(log, i + 1, |log|)
  }

  lemma {:induction false} BarredIsArmed(log: seq<Act>)
    ensures Summary(log).armed <==> Barred(log)
  {
    if Summary(log).armed {
      var i := ArmedBy(log, |log|);
    }
    if Barred(log) {
      var i :| 0 <= i < |log| && Latches(log[i]) && NoRelease(log, i + 1, |log|);
      ArmedSince(log, i, |log|);
    }
  }

  /** Which attempt is made, given whether tokens are barred and what is offered. */
  predicate Fits(barred: bool, caps: Caps, env: Env, kind: AttemptKind) {
    && (kind.TokenBarred? <==> barred)
    && (kind.StoredCredentials? <==> !barred && caps.password && env.haveCredentials)
    && (kind.NoOAuth? <==> !barred && !(caps.password && env.haveCredentials) && !caps.oauth)
    && (kind.TokenAllowed? <==> !barred && !(caps.password && env.haveCredentials) && caps.oauth)
  }

  /**
    One attempt: logged with its time and what was offered, and followed at once by the
    stored credentials, by the game's own screen, or by one read of the stored sign-in.
  */
  ghost predicate Attempts(s: State, s': State, log: seq<Act>, caps: Caps, env: Env) {
    exists kind: AttemptKind :: AttemptsAs(s, s', log, caps, env, kind)
  }

  ghost predicate AttemptsAs(s: State, s': State, log: seq<Act>, caps: Caps, env: Env, kind: AttemptKind) {
    && Fits(Barred(s.log), caps, env, kind)
    && s'.lastAttempt == Some(s.now) && !s'.rejected && !s'.pending
    && match kind
       case StoredCredentials =>
         s'.log == log + [Attempted(s.now, kind, caps), Sent(Credentials, false)] && s'.lookups == s.lookups
       case NoOAuth =>
         s'.log == log + [Attempted(s.now, kind, caps), Sent(Handoff, false)] && s'.lookups == s.lookups
       case _ =>
         && s'.log == log + [Attempted(s.now, kind, caps)]
         && s'.lookups == s.lookups[s.nextJob := SignIn(s'.authGen, kind.TokenAllowed?)]
         && s'.nextJob == s.nextJob + 1
  }

  lemma {:induction false} AttemptIs(s: State, s1: State, env: Env)
    requires s1.rejected <==> Barred(s.log)
    requires s1.lookups == s.lookups && s1.nextJob == s.nextJob && s1.now == s.now
    requires s1.lastAttempt == Some(s.now) && !s1.pending && (s1.caps.providerFlow ==> s1.caps.oauth)
    ensures var s' := AttemptReconnect(s1, env);
            Attempts(s, s', s1.log, s1.caps, env) && s'.timers == s1.timers && s'.conn == s1.conn
            && s'.authGen == s1.authGen && s'.scheduleGen == s1.scheduleGen
  {
    var s' := AttemptReconnect(s1, env);
    var kind := if s1.rejected then TokenBarred else if s1.caps.password && env.haveCredentials then StoredCredentials
                else if !s1.caps.oauth then NoOAuth else TokenAllowed;
    assert AttemptsAs(s, s', s1.log, s1.caps, env, kind);
  }

  /** The client-driven flow is only ever noted where OAuth is offered. */
  lemma {:induction false} FlowNeedsOAuth(es: seq<Event>, n: nat)
    requires n <= |es| && StateAt(es, n).Some?
    ensures StateAt(es, n).value.caps.providerFlow ==> StateAt(es, n).value.caps.oauth
  {
    if n > 0 {
      FlowNeedsOAuth(es, n - 1);
      CapsChange(StateAt(es, n - 1).value, es[n - 1]);
    }
  }

  /** Only an advertisement changes what is known to be offered. */
  lemma {:induction false} CapsChange(s: State, e: Event)
    requires Enabled(s, e)
    ensures Step(s, e).caps
         == if e.DefaultFrame? then SupportsSet(e.password, e.oauth, e.providerFields, e.env) else s.caps
  {
    match e
    case ReadCompletes(job, found, env) =>
      var s1 := s.(lookups := s.lookups - {job});
      if s.lookups[job].SignIn? {
        SignInReplied(s1, s.lookups[job], found, env);
      } else {
        RecoveryReplied(s1, s.lookups[job], found, env);
      }
    case _ =>
  }

  /** When the latest attempt on the present connection was made. */
  function LatestAttempt(log: seq<Act>, n: nat): Option<nat>
    requires n <= |log|
  {
    if n == 0 || log[n - 1].ConnectionChanged? then None
    else if log[n - 1].Attempted? then Some(log[n - 1].at)
    else LatestAttempt(log, n - 1)
  }

  lemma {:induction false} LatestAttemptIs(log: seq<Act>, n: nat)
    requires n <= |log|
    ensures SummaryAt(log, n).lastAttempt == LatestAttempt(log, n)
  {
    if n > 0 { LatestAttemptIs(log, n - 1); }
  }

  /** A whole interval has passed since the latest attempt on this connection, or there was none. */
  predicate WindowOpen(s: State) {
    var last := LatestAttempt(s.log, |s.log|);
    last.None? || s.now >= last.value + INTERVAL
  }

  /**
    An advertisement is noted as it came, with the client-driven flow counting only on an
    encrypted transport.  It folds into a deferred attempt if there is one, is served at
    once if the window is open, and otherwise defers one attempt to the end of the window.
  */
  lemma {:induction false} DefaultAnswered(es: seq<Event>, n: nat)
    requires Happens(es, n) && es[n].DefaultFrame?
    ensures var s, s', e := Before(es, n), Afterwards(es, n), es[n];
            var caps := Caps(e.password, e.oauth, e.oauth && e.providerFields && e.env.secure);
            var noted := s.log + [DefaultSeen(s.now, caps)];
            && s'.caps == caps && s'.conn == FRESH_CONN && s'.authGen == s.authGen + 1
            && if s.pending then s'.log == noted && s'.timers == s.timers && s'.lookups == s.lookups && s'.pending
               else if WindowOpen(s) then Attempts(s, s', noted, caps, e.env) && s'.timers == s.timers
               else
                 var due := LatestAttempt(s.log, |s.log|).value + INTERVAL;
                 && s'.log == noted && s'.pending && s'.lookups == s.lookups
                 && s'.timers == s.timers[s.nextJob := Timer(s.scheduleGen, due)]
  {
    var s, e := Before(es, n), es[n];
    BeforeKeeps(es, n);
    BarredIsArmed(s.log);
    LatestAttemptIs(s.log, |s.log|);
    var caps := SupportsSet(e.password, e.oauth, e.providerFields, e.env);
    var s1 := ResetPerConnection(Log(s.(caps := caps), [DefaultSeen(s.now, caps)]));
    assert Afterwards(es, n) == ScheduleSignIn(s1, e.env);
    if !s.pending && WindowOpen(s) {
      AttemptIs(s, s1.(lastAttempt := Some(s.now)), e.env);
    }
  }

  /** A deferred attempt is made when it is due, for whatever was advertised last, unless its connection has gone. */
  lemma {:induction false} DeferredAnswered(es: seq<Event>, n: nat)
    requires Happens(es, n) && es[n].DeferredAttempt? && es[n].job in Before(es, n).timers
    ensures var s, s', e := Before(es, n), Afterwards(es, n), es[n];
            if SameGeneration(s.timers[e.job].gen, s.scheduleGen)
            then Attempts(s, s', s.log, Offered(es, n), e.env) && s'.conn == s.conn && s'.authGen == s.authGen
            else s' == s.(timers := s.timers - {e.job})
  {
    var s, e := Before(es, n), es[n];
    BeforeKeeps(es, n);
    BarredIsArmed(s.log);
    FlowNeedsOAuth(es, n);
    if SameGeneration(s.timers[e.job].gen, s.scheduleGen) {
      AttemptIs(s, s.(timers := s.timers - {e.job}, pending := false, lastAttempt := Some(s.now)), e.env);
    }
  }

  // ---------------------------------------------------------------- from the attempt to the replay

  /** Whatever does not begin a sign-in or end the connection leaves the attempt counter alone. */
  lemma {:induction false} CounterStays(s: State, e: Event)
    requires Enabled(s, e) && !Supersedes(e)
    ensures Step(s, e).authGen == s.authGen
  {
    match e
    case ReadCompletes(job, found, env) =>
      var s1 := s.(lookups := s.lookups - {job});
      if s.lookups[job].SignIn? {
        SignInReplied(s1, s.lookups[job], found, env);
      } else {
        RecoveryReplied(s1, s.lookups[job], found, env);
      }
    case _ =>
  }

  lemma {:induction false} CounterStaysFrom(es: seq<Event>, i: nat, j: nat)
    requires i <= j <= |es| && StateAt(es, j).Some? && forall k :: i <= k < j ==> !Supersedes(es[k])
    ensures StateAt(es, i).Some? && StateAt(es, i).value.authGen == StateAt(es, j).value.authGen
  {
    InFlight(es, i, j);
    if i < j {
      CounterStaysFrom(es, i, j - 1);
      CounterStays(StateAt(es, j - 1).value, es[j - 1]);
    }
  }

  /**
    A read that is in flight when event `i` is over, with the counter of that moment, is
    not superseded when it completes at `j`, if nothing in between begins a sign-in or
    ends the connection.
  */
  lemma {:induction false} StillCurrent(es: seq<Event>, i: nat, j: nat, job: nat)
    requires i <= j && Happens(es, j) && es[j].ReadCompletes? && es[j].job == job
    requires forall k :: i <= k < j ==> !Supersedes(es[k])
    requires StateAt(es, i).Some? && job in StateAt(es, i).value.lookups
    requires StateAt(es, i).value.lookups[job].gen == StateAt(es, i).value.authGen
    ensures job in Before(es, j).lookups && Before(es, j).lookups[job] == StateAt(es, i).value.lookups[job]
    ensures Before(es, j).lookups[job].gen == Before(es, j).authGen
  {
    CounterStaysFrom(es, i, j);
    InFlight(es, i, j);
    PrefixKeeps(es, i);
  }

  /** An attempt that may use a token. */
  predicate MayReplay(s: State, s': State) {
    |s'.log| > |s.log| && s'.log[|s'.log| - 1].Attempted? && s'.log[|s'.log| - 1].kind == TokenAllowed
  }

  lemma {:induction false} MayReplayReads(s: State, s': State, log: seq<Act>, caps: Caps, env: Env)
    requires MayReplay(s, s') && Attempts(s, s', log, caps, env)
    ensures s.nextJob in s'.lookups && s'.lookups[s.nextJob] == SignIn(s'.authGen, true)
  {
    var kind :| AttemptsAs(s, s', log, caps, env, kind);
  }

  /** An attempt that may use a token starts one read, which may. */
  lemma {:induction false} AttemptReads(es: seq<Event>, i: nat)
    requires Happens(es, i) && (es[i].DefaultFrame? || es[i].DeferredAttempt?)
    requires MayReplay(Before(es, i), Afterwards(es, i))
    ensures var s, s' := Before(es, i), Afterwards(es, i);
            s.nextJob in s'.lookups && s'.lookups[s.nextJob] == SignIn(s'.authGen, true)
  {
    var s, s', e := Before(es, i), Afterwards(es, i), es[i];
    if e.DefaultFrame? {
      DefaultAnswered(es, i);
      var caps := Caps(e.password, e.oauth, e.oauth && e.providerFields && e.env.secure);
      MayReplayReads(s, s', s.log + [DefaultSeen(s.now, caps)], caps, e.env);
    } else {
      DeferredAnswered(es, i);
      MayReplayReads(s, s', s.log, Offered(es, i), e.env);
    }
  }

  /** Exactly this token is sent for this account, and its result awaited. */
  predicate Replays(s: State, s': State, account: string, hash: Hash) {
    s'.log == s.log + [Sent(Reconnect(account, hash), false)] && s'.conn.awaiting && s'.conn.sentHash == Some(hash)
  }

  /**
    The saved token is replayed: when an attempt may use a token, and the store is read
    before anything supersedes it, finding a token for an account, on an encrypted
    transport, then exactly that token is sent for that account and its result awaited.
  */
  lemma {:induction false} SavedSignInIsReplayed(es: seq<Event>, i: nat, j: nat)
    requires i < j && Happens(es, i) && Happens(es, j) && forall k :: i < k < j ==> !Supersedes(es[k])
    requires (es[i].DefaultFrame? || es[i].DeferredAttempt?) && MayReplay(Before(es, i), Afterwards(es, i))
    requires es[j].ReadCompletes? && es[j].job == Before(es, i).nextJob && Replayable(true, es[j].found, es[j].env)
    ensures Replays(Before(es, j), Afterwards(es, j), es[j].found.account, es[j].found.token.value)
  {
    var job := Before(es, i).nextJob;
    AttemptReads(es, i);
    StillCurrent(es, i + 1, j, job);
    var act := StoredSignInAnswered(es, j);
  }

  // ---------------------------------------------------------------- results and rejected tokens

  predicate IsReplay(a: Act) {
    a.Sent? && a.frame.Reconnect?
  }

  /** The latest token replayed since the latest Default, with its account. */
  function LatestReplay(log: seq<Act>, n: nat): Option<(string, Hash)>
    requires n <= |log|
  {
    if n == 0 || log[n - 1].DefaultSeen? then None
    else if IsReplay(log[n - 1]) then Some((log[n - 1].frame.account, log[n - 1].frame.hash))
    else LatestReplay(log, n - 1)
  }

  lemma {:induction false} LatestReplayIs(log: seq<Act>, n: nat)
    requires n <= |log|
    ensures var f, epoch := LatestReplay(log, n), SummaryAt(log, n).epoch;
            if f.Some? then epoch != [] && f.value.1 == epoch[|epoch| - 1] else epoch == []
  {
    if n > 0 { LatestReplayIs(log, n - 1); }
  }

  /** How many tokens have been replayed since the latest Default. */
  function ReplayCount(log: seq<Act>, n: nat): nat
    requires n <= |log|
  {
    if n == 0 || log[n - 1].DefaultSeen? then 0
    else ReplayCount(log, n - 1) + if IsReplay(log[n - 1]) then 1 else 0
  }

  lemma {:induction false} ReplayCountIs(log: seq<Act>, n: nat)
    requires n <= |log|
    ensures ReplayCount(log, n) == |SummaryAt(log, n).epoch|
  {
    if n > 0 { ReplayCountIs(log, n - 1); }
  }

  lemma {:induction false} ReplayPrefix(log: seq<Act>, log': seq<Act>, n: nat)
    requires n <= |log| && log <= log'
    ensures LatestReplay(log', n) == LatestReplay(log, n)
  {
    if n > 0 { ReplayPrefix(log, log', n - 1); }
  }

  /** The account remembered for this connection is the one the latest token was replayed for. */
  predicate AccountFits(log: seq<Act>, c: Conn) {
    var f := LatestReplay(log, |log|);
    f.Some? ==> c.account == f.value.0
  }

  /** An act that is neither a Default nor a replay. */
  predicate Plain(a: Act) {
    !a.DefaultSeen? && !IsReplay(a)
  }

  lemma {:induction false} PlainFits(log: seq<Act>, log': seq<Act>, c: Conn)
    requires AccountFits(log, c) && log <= log' && forall k :: |log| <= k < |log'| ==> Plain(log'[k])
    ensures AccountFits(log', c)
    decreases |log'|
  {
    if |log'| > |log| {
      var shorter := log'[..|log'| - 1];
      PlainFits(log, shorter, c);
      ReplayPrefix(shorter, log', |shorter|);
    } else {
      assert log' == log;
    }
  }

  /** The answer to a stored sign-in that was read keeps the account in step with the replay. */
  lemma {:induction false} SignInFits(s: State, r: Read, found: Stored, env: Env)
    requires r.SignIn? && SameGeneration(r.gen, s.authGen) && !s.conn.awaiting && AccountFits(s.log, s.conn)
    ensures var s' := SignInReadDone(s, r, found, env); AccountFits(s'.log, s'.conn)
  {
    var act := SignInAnswered(s, r, found, env);
    if Plain(act) { PlainFits(s.log, s.log + [act], s.conn); }
  }

  lemma {:induction false} RecoveryFits(s: State, r: Read, found: Stored, env: Env)
    requires r.Recovery? && AccountFits(s.log, s.conn)
    ensures var s' := RecoveryReadDone(s, r, found, env); AccountFits(s'.log, s'.conn)
  {
    var s' := RecoveryReadDone(s, r, found, env);
    RecoveryReplied(s, r, found, env);
    if !(Rotated(r, found) && SameGeneration(r.gen, s.authGen) && env.secure) { PlainFits(s.log, s'.log, s.conn); }
  }

  lemma {:induction false} DefaultFits(s: State, caps: Caps, env: Env)
    ensures var s' := Default(s, caps, env); AccountFits(s'.log, s'.conn)
  {
    var s1 := ResetPerConnection(Log(s.(caps := caps), [DefaultSeen(s.now, caps)]));
    PlainFits(s1.log, Default(s, caps, env).log, s1.conn);
  }

  lemma {:induction false} TimerFits(s: State, job: nat, env: Env)
    requires job in s.timers && AccountFits(s.log, s.conn)
    ensures var s' := TimerFires(s, job, env); AccountFits(s'.log, s'.conn)
  {
    PlainFits(s.log, TimerFires(s, job, env).log, s.conn);
  }

  lemma {:induction false} ReadDoneFits(s: State, job: nat, found: Stored, env: Env)
    requires Inv(s) && job in s.lookups && AccountFits(s.log, s.conn)
    ensures var s' := ReadDone(s, job, found, env); AccountFits(s'.log, s'.conn)
  {
    var r, s1 := s.lookups[job], s.(lookups := s.lookups - {job});
    if r.Recovery? {
      RecoveryFits(s1, r, found, env);
    } else if SameGeneration(r.gen, s.authGen) {
      NoneAwaited(s, job);
      SignInFits(s1, r, found, env);
    }
  }

  lemma {:induction false} ResultFits(s: State, success: Option<bool>)
    requires AccountFits(s.log, s.conn)
    ensures var s' := Result(s, success); AccountFits(s'.log, s'.conn)
  {
    PlainFits(s.log, Result(s, success).log, s.conn);
  }

  lemma {:induction false} TokenFits(s: State, account: string, token: Option<Hash>)
    requires AccountFits(s.log, s.conn)
    ensures var s' := TokenFrame(s, account, token); AccountFits(s'.log, s'.conn)
  {
    PlainFits(s.log, TokenFrame(s, account, token).log, s.conn);
  }

  lemma {:induction false} StepFits(s: State, e: Event)
    requires Inv(s) && Enabled(s, e) && AccountFits(s.log, s.conn)
    ensures var s' := Step(s, e); AccountFits(s'.log, s'.conn)
  {
    match e
    case DefaultFrame(password, oauth, fields, env) => DefaultFits(s, SupportsSet(password, oauth, fields, env), env);
    case ReadCompletes(job, found, env) => ReadDoneFits(s, job, found, env);
    case DeferredAttempt(job, env) => TimerFits(s, job, env);
    case ResultFrame(success) => ResultFits(s, success);
    case TokenReceived(account, token) => TokenFits(s, account, token);
    case UrlReceived(_) =>
    case Tick(_) =>
    case _ => PlainFits(s.log, Step(s, e).log, s.conn);
  }

  lemma {:induction false} AccountFitsAt(es: seq<Event>, n: nat)
    requires n <= |es| && StateAt(es, n).Some?
    ensures AccountFits(StateAt(es, n).value.log, StateAt(es, n).value.conn)
  {
    if n > 0 {
      AccountFitsAt(es, n - 1);
      PrefixKeeps(es, n - 1);
      StepFits(StateAt(es, n - 1).value, es[n - 1]);
    }
  }

  /** What a result does; `replay` and `count` are the latest token replayed since the latest Default, and how many. */
  predicate Resulted(s: State, s': State, success: Option<bool>, replay: Option<(string, Hash)>, count: nat) {
    && s'.conn == s.conn.(awaiting := s.conn.awaiting && success.None?)
    && (s.conn.awaiting ==> replay.Some?)
    && if success != Some(false) then s' == s.(conn := s'.conn)
       else if !s.conn.awaiting then s' == s.(log := s.log + [LoginFailed])
       else
         && s'.log == s.log + [Rejected(Some(replay.value.1))] && s'.rejected
         && s'.lookups == s.lookups[s.nextJob := Recovery(s.authGen, Some(replay.value.1), count == 2, replay.value.0,
                                                          s.conn.provider)]
         && s' == s.(conn := s'.conn, rejected := true, log := s'.log, lookups := s'.lookups, nextJob := s.nextJob + 1)
  }

  lemma {:induction false} ResultDone(s: State, success: Option<bool>, replay: Option<(string, Hash)>, count: nat)
    requires s.conn.awaiting ==>
               replay.Some? && s.conn.sentHash == Some(replay.value.1) && s.conn.account == replay.value.0
               && (s.conn.retried <==> count == 2)
    ensures Resulted(s, Result(s, success), success, replay, count)
  {
  }

  /**
    A result that cannot be read changes nothing.  When the result of a replay is awaited,
    it no longer is; a failure then bars the next attempt and starts one read of the store,
    which takes with it which token was rejected, for which account, and whether it was the
    second.  Any other failure stops the game from being reconnected to.
  */
  lemma {:induction false} ResultAnswered(es: seq<Event>, n: nat)
    requires Happens(es, n) && es[n].ResultFrame?
    ensures var s := Before(es, n);
            Resulted(s, Afterwards(es, n), es[n].success, LatestReplay(s.log, |s.log|), ReplayCount(s.log, |s.log|))
  {
    var s := Before(es, n);
    BeforeKeeps(es, n);
    AccountFitsAt(es, n);
    LatestReplayIs(s.log, |s.log|);
    ReplayCountIs(s.log, |s.log|);
    ResultDone(s, es[n].success, LatestReplay(s.log, |s.log|), ReplayCount(s.log, |s.log|));
  }

  /** What is left in the store in place of a dead token: how the account signs in, if that is known. */
  predicate Drops(account: string, provider: string, act: Act) {
    if account != "" && provider != "" then act == HintStored(account, provider) else act == EntryDiscarded
  }

  /** The store holds a token for an account, other than the one that was rejected, and no second one was tried yet. */
  predicate OtherToken(r: Read, found: Stored)
    requires r.Recovery?
  {
    && !r.retried && found.Entry? && found.account != "" && found.token.Some?
    && r.sentHash.Some? && found.token != r.sentHash
  }

  /** The store still holds the very token that was rejected. */
  predicate SameToken(r: Read, found: Stored)
    requires r.Recovery?
  {
    !r.retried && found.Entry? && found.account != "" && found.token.Some? && found.token == r.sentHash
  }

  /** What is done once the store has been read after a rejection; `current` when nothing has superseded it. */
  ghost predicate Recovers(s: State, s': State, r: Read, found: Stored, env: Env, current: bool)
    requires r.Recovery?
  {
    var retries := current && OtherToken(r, found) && env.secure;
    && s' == s.(conn := s'.conn, rejected := s'.rejected, log := s'.log)
    && (retries ==> s'.log == s.log + [Sent(Reconnect(found.account, found.token.value), true)]
                    && s'.conn == s.conn.(retried := true, sentHash := found.token, usedToken := true,
                                          awaiting := true, account := found.account)
                    && !s'.rejected)
    && (!retries ==> s'.conn == s.conn)
    && (current && OtherToken(r, found) && !env.secure ==>
          (exists act :: s'.log == s.log + [act] && Selects(s.caps, env, act)) && s'.rejected == s.rejected)
    && (current && !OtherToken(r, found) ==>
          (exists drop :: s'.log == s.log + [drop, ReconnectRequested] && Drops(r.account, r.provider, drop))
          && s'.rejected == s.rejected)
    && (!current && OtherToken(r, found) ==> s' == s)
    && (!current && SameToken(r, found) ==>
          (exists drop :: s'.log == s.log + [drop] && Drops(r.account, r.provider, drop)) && s'.rejected == s.rejected)
    && (!current && !OtherToken(r, found) && !SameToken(r, found) ==> s'.log == s.log + [Rearmed] && s'.rejected)
  }

  lemma {:induction false} RecoveryDone(s: State, r: Read, found: Stored, env: Env)
    requires r.Recovery?
    ensures Recovers(s, RecoveryReadDone(s, r, found, env), r, found, env, SameGeneration(r.gen, s.authGen))
  {
    var s', current := RecoveryReadDone(s, r, found, env), SameGeneration(r.gen, s.authGen);
    var drop := DropTokenKeepHint(r.account, r.provider);
    assert Drops(r.account, r.provider, drop);
    if current && OtherToken(r, found) {
      if !env.secure {
        var act := SelectsOne(s, env);
        assert s'.log == s.log + [act] && Selects(s.caps, env, act);
      }
    } else if current {
      assert s'.log == s.log + [drop, ReconnectRequested];
    } else if SameToken(r, found) {
      assert s'.log == s.log + [drop];
    }
  }

  /**
    In every run, what follows a rejection once the store has been read.  A token that
    another instance put there is replayed, once, and then the next attempt is no longer
    barred; without encryption another method is selected instead.  Otherwise the dead
    token is dropped, keeping how its account signs in, and a new connection asked for.
    If a newer sign-in has begun, the store is touched only if it still holds the rejected
    token, and else the next attempt is barred again.
  */
  lemma {:induction false} RecoveryAnswered(es: seq<Event>, n: nat)
    requires Happens(es, n) && es[n].ReadCompletes? && es[n].job in Before(es, n).lookups
    requires Before(es, n).lookups[es[n].job].Recovery?
    ensures Before(es, n).caps == Offered(es, n)
    ensures var s, s', r := Before(es, n), Afterwards(es, n), Before(es, n).lookups[es[n].job];
            Recovers(s.(lookups := s.lookups - {es[n].job}), s', r, es[n].found, es[n].env,
                     SameGeneration(r.gen, s.authGen))
  {
    var s, job := Before(es, n), es[n].job;
    BeforeKeeps(es, n);
    RecoveryDone(s.(lookups := s.lookups - {job}), s.lookups[job], es[n].found, es[n].env);
  }

  /** Among the acts logged since, the other token is replayed. */
  ghost predicate Retried(log: seq<Act>, log': seq<Act>, account: string, hash: Hash) {
    exists k :: |log| <= k < |log'| && log'[k] == Sent(Reconnect(account, hash), true)
  }

  lemma {:induction false} RetriesExactly(s: State, s': State, r: Read, found: Stored, env: Env, first: Hash)
    requires r.Recovery? && !r.retried && r.sentHash == Some(first) && Replayable(true, found, env)
    requires Recovers(s, s', r, found, env, true)
    ensures Retried(s.log, s'.log, found.account, found.token.value) <==> found.token.value != first
  {
    if found.token.value != first {
      assert OtherToken(r, found);
      assert s'.log[|s.log|] == Sent(Reconnect(found.account, found.token.value), true);
    }
  }

  /** The read that the rejection of the first token starts. */
  lemma {:induction false} RejectionReads(es: seq<Event>, i: nat)
    requires Happens(es, i) && es[i] == ResultFrame(Some(false)) && Before(es, i).conn.awaiting
    requires ReplayCount(Before(es, i).log, |Before(es, i).log|) == 1
    ensures var s, s' := Before(es, i), Afterwards(es, i);
            && LatestReplay(s.log, |s.log|).Some? && s.nextJob in s'.lookups && s'.lookups[s.nextJob].Recovery?
            && s'.lookups[s.nextJob].gen == s'.authGen && !s'.lookups[s.nextJob].retried
            && s'.lookups[s.nextJob].sentHash == Some(LatestReplay(s.log, |s.log|).value.1)
  {
    ResultAnswered(es, i);
    CounterStays(Before(es, i), es[i]);
  }

  /**
    From the rejection of the first token to the replay of the one that another instance
    put in its place: if nothing begins a new sign-in before the store has been read, the
    token found there is sent if and only if it is another one.
  */
  lemma {:induction false} RotatedTokenIsReplayed(es: seq<Event>, i: nat, j: nat)
    requires i < j && Happens(es, i) && Happens(es, j) && forall k :: i < k < j ==> !Supersedes(es[k])
    requires es[i] == ResultFrame(Some(false)) && Before(es, i).conn.awaiting
    requires ReplayCount(Before(es, i).log, |Before(es, i).log|) == 1
    requires es[j].ReadCompletes? && es[j].job == Before(es, i).nextJob && Replayable(true, es[j].found, es[j].env)
    ensures LatestReplay(Before(es, i).log, |Before(es, i).log|).Some?
    ensures Retried(Before(es, j).log, Afterwards(es, j).log, es[j].found.account, es[j].found.token.value)
            <==> es[j].found.token.value != LatestReplay(Before(es, i).log, |Before(es, i).log|).value.1
  {
    var job := Before(es, i).nextJob;
    RejectionReads(es, i);
    StillCurrent(es, i + 1, j, job);
    RecoveryAnswered(es, j);
    var s := Before(es, j);
    RetriesExactly(s.(lookups := s.lookups - {job}), Afterwards(es, j), s.lookups[job], es[j].found, es[j].env,
                   LatestReplay(Before(es, i).log, |Before(es, i).log|).value.1);
  }

  // ---------------------------------------------------------------- tokens from the game

  /** The provider named last since the latest Default, by the game or by a stored sign-in that was still of use. */
  function LatestProvider(es: seq<Event>, n: nat): string
    requires n <= |es| && StateAt(es, n).Some?
  {
    if n == 0 then ""
    else
      var was, s := LatestProvider(es, n - 1), StateAt(es, n - 1).value;
      match es[n - 1]
      case DefaultFrame(_, _, _, _) => ""
      case UrlReceived(provider) => if provider != "" then provider else was
      case ReadCompletes(job, Entry(_, provider, _), _) =>
        if job in s.lookups && s.lookups[job].SignIn? && SameGeneration(s.lookups[job].gen, s.authGen) && provider != ""
        then provider else was
      case _ => was
  }

  lemma {:induction false} ProviderRead(s: State, job: nat, found: Stored, env: Env)
    requires Inv(s) && job in s.lookups
    ensures ReadDone(s, job, found, env).conn.provider
         == if s.lookups[job].SignIn? && SameGeneration(s.lookups[job].gen, s.authGen) && found.Entry?
               && found.provider != "" then found.provider else s.conn.provider
  {
    var s1 := s.(lookups := s.lookups - {job});
    if s.lookups[job].Recovery? {
      RecoveryDone(s1, s.lookups[job], found, env);
    } else if SameGeneration(s.lookups[job].gen, s.authGen) {
      NoneAwaited(s, job);
      var act := SignInAnswered(s1, s.lookups[job], found, env);
    }
  }

  lemma {:induction false} ProviderStep(s: State, e: Event)
    requires Inv(s) && Enabled(s, e)
    ensures !e.ReadCompletes? ==>
              Step(s, e).conn.provider
                == if e.DefaultFrame? then "" else if e.UrlReceived? && e.provider != "" then e.provider
                   else s.conn.provider
  {
  }

  lemma {:induction false} ProviderIs(es: seq<Event>, n: nat)
    requires n <= |es| && StateAt(es, n).Some?
    ensures StateAt(es, n).value.conn.provider == LatestProvider(es, n)
  {
    if n > 0 {
      var s, e := StateAt(es, n - 1).value, es[n - 1];
      ProviderIs(es, n - 1);
      PrefixKeeps(es, n - 1);
      if e.ReadCompletes? { ProviderRead(s, e.job, e.found, e.env); } else { ProviderStep(s, e); }
    }
  }

  /**
    A token from the game is stored, exactly if it comes with an account, together with
    the provider named last; it is announced once, and not when this sign-in itself
    replayed one.
  */
  lemma {:induction false} TokenAnswered(es: seq<Event>, n: nat)
    requires Happens(es, n) && es[n].TokenReceived?
    ensures var s, s', e := Before(es, n), Afterwards(es, n), es[n];
            var stored := e.account != "" && e.token.Some?;
            && s' == s.(log := s'.log, conn := s.conn.(announced := s'.conn.announced))
            && s'.log == s.log + (if stored then [TokenStored(e.account, e.token.value, LatestProvider(es, n))] else [])
            && (s'.conn.announced <==> s.conn.announced || (stored && !s.conn.usedToken))
  {
    ProviderIs(es, n);
  }

  // ---------------------------------------------------------------- everything else

  /**
    A connection that begins or ends forgets the latest attempt and any deferred one, and
    supersedes what is in flight, but not the bar on tokens nor what was advertised; a
    stored sign-in that is forgotten, or a hint that cannot be written, takes the entry
    away; and the passing of time, or the name of a provider, does nothing by itself.
  */
  lemma {:induction false} OthersAnswered(es: seq<Event>, n: nat)
    requires Happens(es, n)
    ensures var s, s', e := Before(es, n), Afterwards(es, n), es[n];
            && (e.Connected? || e.Disconnected? ==>
                  s' == s.(scheduleGen := s.scheduleGen + 1, authGen := s.authGen + 1, pending := false,
                           lastAttempt := None, log := s.log + [ConnectionChanged]))
            && (e.HintWriteFailed? || e.ForgetSavedSignIn? ==> s' == s.(log := s.log + [EntryDiscarded]))
            && (e.Tick? ==> s' == s.(now := s.now + e.elapsed))
            && (e.UrlReceived? ==> s' == s.(conn := s.conn.(provider := LatestProvider(es, n + 1))))
  {
    ProviderIs(es, n);
  }
}
