/**
  What a log of the sign-in controller has to look like, as a monitor that reads
  the log one act at a time, and the proof that every run produces such a log.
*/
module CharLoginMonitor {
  import opened Common
  import opened CharLogin

  /** Whether the sign-in attempt of the latest Default has been made, and how. */
  datatype Phase = Idle | Open(kind: AttemptKind)

  datatype Digest = Digest(
    epoch: seq<Hash>,          // hashes replayed since the latest Default
    refused: bool,             // one of them was rejected
    armed: bool,               // a rejection bars the next attempt from replaying
    phase: Phase,
    lastAttempt: Option<nat>,  // latest attempt on this connection
    caps: Caps,                // latest advertisement
    unserved: Option<nat>)     // earliest Default of this connection without an attempt

  const BLANK := Digest([], false, false, Idle, None, Caps(false, false, false), None)

  function Absorb(d: Digest, a: Act): Digest {
    match a
    case DefaultSeen(time, caps) =>
      d.(epoch := [], refused := false, phase := Idle, caps := caps,
        unserved := if d.unserved.Some? then d.unserved else Some(time))
    case ConnectionChanged => d.(lastAttempt := None, unserved := None)
    case Attempted(at, kind, _) => d.(phase := Open(kind), armed := false, lastAttempt := Some(at), unserved := None)
    case Sent(Reconnect(_, hash), rotated) => d.(epoch := d.epoch + [hash], armed := d.armed && !rotated)
    case Rejected(_) => d.(armed := true, refused := true)
    case Rearmed => d.(armed := true)
    case _ => d
  }

  /** The acts the monitor lets through. */
  predicate Permitted(d: Digest, a: Act) {
    match a
    case DefaultSeen(time, _) => d.unserved.Some? ==> d.unserved.value <= time
    case Attempted(at, kind, using) =>
      && d.phase.Idle?
      && d.unserved.Some?
      && (kind.TokenBarred? <==> d.armed)
      && using == d.caps
      && (d.lastAttempt.Some? ==> at >= d.lastAttempt.value + INTERVAL)
    case Sent(Reconnect(_, hash), rotated) =>
      && d.phase == Open(TokenAllowed)
      && if rotated then |d.epoch| == 1 && hash != d.epoch[0] && d.refused else d.epoch == []
    case Sent(Credentials, _) => d.caps.password
    case FlowStarted => d.caps.providerFlow
    case Rejected(hash) => d.epoch != [] && hash == Some(d.epoch[|d.epoch| - 1])
    case _ => true
  }

  /** What the monitor knows after the first `n` acts. */
  function SummaryAt(log: seq<Act>, n: nat): Digest
    requires n <= |log|
  {
    if n == 0 then BLANK else Absorb(SummaryAt(log, n - 1), log[n - 1])
  }

  function Summary(log: seq<Act>): Digest {
    SummaryAt(log, |log|)
  }

  /** The monitor lets the first `n` acts through. */
  predicate OkUpTo(log: seq<Act>, n: nat)
    requires n <= |log|
  {
    n == 0 || (OkUpTo(log, n - 1) && Permitted(SummaryAt(log, n - 1), log[n - 1]))
  }

  predicate LogOk(log: seq<Act>) {
    OkUpTo(log, |log|)
  }

  lemma {:induction false} OkBefore(log: seq<Act>, n: nat, k: nat)
    requires k <= n <= |log| && OkUpTo(log, n)
    ensures OkUpTo(log, k) && (k < n ==> Permitted(SummaryAt(log, k), log[k]))
  {
    if k < n { OkBefore(log, n - 1, k); }
  }

  lemma {:induction false} SamePrefix(log: seq<Act>, log': seq<Act>, n: nat)
    requires n <= |log| && log <= log'
    ensures SummaryAt(log', n) == SummaryAt(log, n) && (OkUpTo(log', n) <==> OkUpTo(log, n))
  {
    if n > 0 { SamePrefix(log, log', n - 1); }
  }

  lemma {:induction false} Append(log: seq<Act>, a: Act)
    ensures Summary(log + [a]) == Absorb(Summary(log), a)
    ensures LogOk(log + [a]) <==> LogOk(log) && Permitted(Summary(log), a)
  {
    SamePrefix(log, log + [a], |log|);
  }

  // ---------------------------------------------------------------- the invariant

  /** A job whose attempt nothing has superseded. */
  predicate Live(s: State, r: Read) {
    r.gen == s.authGen
  }

  predicate LiveTimer(s: State, t: Timer) {
    t.gen == s.scheduleGen
  }

  ghost predicate JobsOk(s: State) {
    && (forall j :: j in s.lookups ==> j < s.nextJob && s.lookups[j].gen <= s.authGen < s.lookups[j].gen + GENERATIONS)
    && (forall j :: j in s.timers ==> j < s.nextJob && s.timers[j].gen <= s.scheduleGen < s.timers[j].gen + GENERATIONS)
  }

  /** At most one deferred attempt is live, exactly when one is pending, and it is due when the window closes. */
  ghost predicate TimersOk(s: State) {
    && (forall j :: j in s.timers && LiveTimer(s, s.timers[j]) ==>
          s.pending && s.lastAttempt.Some? && s.timers[j].due == s.lastAttempt.value + INTERVAL)
    && (forall i, j :: i in s.timers && j in s.timers && LiveTimer(s, s.timers[i]) && LiveTimer(s, s.timers[j]) ==>
        i == j)
    && (s.pending ==> exists j :: j in s.timers && LiveTimer(s, s.timers[j]))
  }

  ghost predicate ReadFits(d: Digest, r: Read) {
    match r
    case SignIn(_, allowToken) => d.epoch == [] && d.phase == Open(if allowToken then TokenAllowed else TokenBarred)
    case Recovery(_, sentHash, retried, _, _) =>
      d.refused && d.epoch != [] && sentHash == Some(d.epoch[|d.epoch| - 1]) && (retried <==> |d.epoch| == 2)
  }

  /** At most one read is live, and none while a result is awaited. */
  ghost predicate ReadsOk(s: State, d: Digest) {
    && (forall j :: j in s.lookups && Live(s, s.lookups[j]) ==> !s.conn.awaiting && ReadFits(d, s.lookups[j]))
    && (forall i, j :: i in s.lookups && j in s.lookups && Live(s, s.lookups[i]) && Live(s, s.lookups[j]) ==> i == j)
  }

  ghost predicate EpochOk(c: Conn, d: Digest) {
    && |d.epoch| <= 2
    && (|d.epoch| == 2 ==> d.epoch[0] != d.epoch[1])
    && (c.retried <==> |d.epoch| == 2)
    && (c.awaiting ==> d.epoch != [])
    && (d.epoch != [] ==> d.phase == Open(TokenAllowed) && c.sentHash == Some(d.epoch[|d.epoch| - 1]))
  }

  ghost predicate ClockOk(s: State, d: Digest) {
    && (s.lastAttempt.Some? ==> s.lastAttempt.value <= s.now)
    && (s.pending <==> d.unserved.Some?)
    && (s.pending ==> s.lastAttempt.Some? && s.lastAttempt.value <= d.unserved.value <= s.now && d.phase.Idle?)
  }

  ghost predicate Tied(s: State, d: Digest) {
    && s.rejected == d.armed
    && s.caps == d.caps
    && s.lastAttempt == d.lastAttempt
    && ClockOk(s, d)
    && JobsOk(s)
    && TimersOk(s)
    && ReadsOk(s, d)
    && EpochOk(s.conn, d)
  }

  ghost predicate Inv(s: State) {
    LogOk(s.log) && Tied(s, Summary(s.log))
  }

  /** Comparing the wrapped counters is exact while a job is younger than one lap of the counter... */
  lemma {:induction false} GenerationExact(gen: nat, now: nat)
    requires gen <= now < gen + GENERATIONS
    ensures SameGeneration(gen, now) <==> gen == now
  {
    if SameGeneration(gen, now) {
      var q, p := gen / GENERATIONS, now / GENERATIONS;
      assert now - gen == (p - q) * GENERATIONS;
    }
  }

  /** ...and in general is wrong exactly on whole laps. */
  lemma {:induction false} GenerationLaps(gen: nat, now: nat)
    requires gen <= now
    ensures (SameGeneration(gen, now) <==> gen == now) <==> (now - gen) % GENERATIONS != 0 || now == gen
  {
    var q, p := gen / GENERATIONS, now / GENERATIONS;
    assert gen == q * GENERATIONS + gen % GENERATIONS;
    assert now == p * GENERATIONS + now % GENERATIONS;
    if SameGeneration(gen, now) {
      assert now - gen == (p - q) * GENERATIONS;
    }
  }

  // ---------------------------------------------------------------- preservation

  /** One more act: it is enough that the monitor lets it through and that the new state fits what it then knows. */
  lemma {:induction false} Extend(s: State, s': State, a: Act)
    requires LogOk(s.log) && s'.log == s.log + [a]
    requires Permitted(Summary(s.log), a) && Tied(s', Absorb(Summary(s.log), a))
    ensures Inv(s')
  {
    Append(s.log, a);
  }

  predicate Neutral(a: Act) {
    (a.Sent? && !a.frame.Reconnect?) || a.FlowStarted? || a.HintStored? || a.EntryDiscarded? || a.TokenStored?
    || a.ReconnectRequested? || a.LoginFailed?
  }

  lemma {:induction false} LogNeutral(s: State, a: Act)
    requires Inv(s) && Neutral(a) && Permitted(Summary(s.log), a)
    ensures Inv(Log(s, [a])) && Summary(Log(s, [a]).log) == Summary(s.log)
  {
    Append(s.log, a);
    var s' := Log(s, [a]);
    assert Tied(s', Summary(s.log));
  }

  lemma {:induction false} SelectKeeps(s: State, env: Env)
    requires Inv(s)
    ensures Inv(SelectAuthMethod(s, env))
  {
    if s.caps.password && env.haveCredentials {
      LogNeutral(s, Sent(Credentials, false));
    } else if s.caps.providerFlow {
      LogNeutral(s, FlowStarted);
    } else {
      LogNeutral(s, Sent(Handoff, false));
    }
  }

  /** The state in which a sign-in attempt starts: due, not yet made, and nothing live. */
  ghost predicate Due(s: State, d: Digest) {
    && s.rejected == d.armed
    && s.caps == d.caps
    && s.lastAttempt == Some(s.now)
    && !s.pending
    && d.unserved.Some? && d.phase.Idle? && d.epoch == []
    && (d.lastAttempt.Some? ==> s.now >= d.lastAttempt.value + INTERVAL)
    && JobsOk(s)
    && (forall j :: j in s.timers ==> !LiveTimer(s, s.timers[j]))
    && (forall j :: j in s.lookups ==> !Live(s, s.lookups[j]))
    && EpochOk(s.conn, d)
  }

  lemma {:induction false} AttemptKeeps(s: State, env: Env)
    requires LogOk(s.log) && Due(s, Summary(s.log))
    ensures Inv(AttemptReconnect(s, env))
  {
    if s.rejected {
      Extend(s, AttemptReconnect(s, env), Attempted(s.now, TokenBarred, s.caps));
    } else if s.caps.password && env.haveCredentials {
      var s1 := Log(s, [Attempted(s.now, StoredCredentials, s.caps)]);
      Extend(s, s1, Attempted(s.now, StoredCredentials, s.caps));
      SelectKeeps(s1, env);
    } else if !s.caps.oauth {
      var s1 := Log(s, [Attempted(s.now, NoOAuth, s.caps)]);
      Extend(s, s1, Attempted(s.now, NoOAuth, s.caps));
      SelectKeeps(s1, env);
    } else {
      Extend(s, AttemptReconnect(s, env), Attempted(s.now, TokenAllowed, s.caps));
    }
  }

  /** A Default makes everything in flight stale; what remains is a pending attempt, or none and nothing live. */
  lemma {:induction false} ResetForgets(s: State, d: Digest, caps: Caps)
    requires Tied(s, d)
    requires forall j :: j in s.lookups ==> s.authGen + 1 < s.lookups[j].gen + GENERATIONS
    ensures var s1 := ResetPerConnection(s.(caps := caps));
            var d1 := Absorb(d, DefaultSeen(s.now, caps));
            && JobsOk(s1) && TimersOk(s1) && EpochOk(s1.conn, d1)
            && (forall j :: j in s1.lookups ==> !Live(s1, s1.lookups[j]))
            && (s1.pending ==> Tied(s1, d1))
  {
    var s1 := ResetPerConnection(s.(caps := caps));
    if s.pending {
      var j :| j in s.timers && LiveTimer(s, s.timers[j]);
      assert LiveTimer(s1, s1.timers[j]);
    }
  }

  lemma {:induction false} DeferTied(s: State, d: Digest, env: Env)
    requires s.rejected == d.armed && s.caps == d.caps && s.lastAttempt == d.lastAttempt
    requires s.lastAttempt.Some? && s.lastAttempt.value <= s.now < s.lastAttempt.value + INTERVAL
    requires !s.pending && d.unserved == Some(s.now) && d.phase.Idle?
    requires JobsOk(s) && TimersOk(s) && EpochOk(s.conn, d)
    requires forall j :: j in s.lookups ==> !Live(s, s.lookups[j])
    ensures Tied(ScheduleSignIn(s, env), d)
  {
    var s1 := ScheduleSignIn(s, env);
    assert s1.timers[s.nextJob] == Timer(s.scheduleGen, s.lastAttempt.value + INTERVAL);
    assert LiveTimer(s1, s1.timers[s.nextJob]);
    assert TimersOk(s1);
  }

  lemma {:induction false} DefaultSchedules(s: State, d: Digest, s1: State, env: Env)
    requires Tied(s, d) && LogOk(s1.log) && Summary(s1.log) == Absorb(d, DefaultSeen(s.now, s1.caps))
    requires s1.rejected == s.rejected && s1.lastAttempt == s.lastAttempt && s1.pending == s.pending && s1.now == s.now
    requires JobsOk(s1) && TimersOk(s1) && EpochOk(s1.conn, Summary(s1.log))
    requires forall j :: j in s1.lookups ==> !Live(s1, s1.lookups[j])
    requires s1.pending ==> Tied(s1, Summary(s1.log))
    ensures Inv(ScheduleSignIn(s1, env))
  {
    if s1.pending {
    } else if s1.lastAttempt.None? || s1.now - s1.lastAttempt.value >= INTERVAL {
      AttemptKeeps(s1.(lastAttempt := Some(s1.now)), env);
    } else {
      DeferTied(s1, Summary(s1.log), env);
    }
  }

  lemma {:induction false} DefaultKeeps(s: State, caps: Caps, env: Env)
    requires Inv(s)
    requires forall j :: j in s.lookups ==> s.authGen + 1 < s.lookups[j].gen + GENERATIONS
    ensures Inv(Default(s, caps, env))
  {
    var d, a := Summary(s.log), DefaultSeen(s.now, caps);
    ResetForgets(s, d, caps);
    Append(s.log, a);
    var s0 := ResetPerConnection(s.(caps := caps));
    var s1 := ResetPerConnection(Log(s.(caps := caps), [a]));
    Relog(s0, s1, Absorb(d, a));
    DefaultSchedules(s, d, s1, env);
  }

  /** The log itself plays no part in how a state and a digest fit together. */
  lemma {:induction false} Relog(s: State, s': State, d: Digest)
    requires s' == s.(log := s'.log)
    ensures Tied(s, d) <==> Tied(s', d)
    ensures JobsOk(s) <==> JobsOk(s')
    ensures TimersOk(s) <==> TimersOk(s')
    ensures (forall j :: j in s.lookups ==> !Live(s, s.lookups[j]))
              <==> (forall j :: j in s'.lookups ==> !Live(s', s'.lookups[j]))
  {
  }

  lemma {:induction false} TimerDue(s: State, d: Digest, job: nat)
    requires Tied(s, d) && job in s.timers && s.timers[job].due <= s.now
    ensures var s1 := s.(timers := s.timers - {job});
            if LiveTimer(s, s.timers[job]) then Due(s1.(pending := false, lastAttempt := Some(s.now)), d)
            else Tied(s1, d)
  {
    var s1 := s.(timers := s.timers - {job});
    if !LiveTimer(s, s.timers[job]) && s.pending {
      var j :| j in s.timers && LiveTimer(s, s.timers[j]);
      assert j in s1.timers && LiveTimer(s1, s1.timers[j]);
    }
  }

  lemma {:induction false} TimerKeeps(s: State, job: nat, env: Env)
    requires Inv(s) && job in s.timers && s.timers[job].due <= s.now
    ensures Inv(TimerFires(s, job, env))
  {
    GenerationExact(s.timers[job].gen, s.scheduleGen);
    TimerDue(s, Summary(s.log), job);
    if LiveTimer(s, s.timers[job]) {
      AttemptKeeps(s.(timers := s.timers - {job}, pending := false, lastAttempt := Some(s.now)), env);
    }
  }

  lemma {:induction false} RejectionTied(s: State, d: Digest)
    requires Tied(s, d) && s.conn.awaiting
    ensures Permitted(d, Rejected(s.conn.sentHash))
    ensures Tied(Result(s, Some(false)), Absorb(d, Rejected(s.conn.sentHash)))
  {
    var s' := Result(s, Some(false));
    var r := s'.lookups[s.nextJob];
    var d' := Absorb(d, Rejected(s.conn.sentHash));
    assert ReadFits(d', r);
    assert ReadsOk(s', d');
  }

  lemma {:induction false} ResultKeeps(s: State, success: Option<bool>)
    requires Inv(s)
    ensures Inv(Result(s, success))
  {
    if success.Some? && s.conn.awaiting && !success.value {
      RejectionTied(s, Summary(s.log));
      Extend(s, Result(s, success), Rejected(s.conn.sentHash));
    } else if success.Some? && !s.conn.awaiting && !success.value {
      LogNeutral(s, LoginFailed);
    } else {
      assert Tied(Result(s, success), Summary(s.log));
    }
  }

  /** Consuming a read keeps the invariant; once a live one is consumed, none is left. */
  lemma {:induction false} Consumed(s: State, d: Digest, job: nat)
    requires Tied(s, d) && job in s.lookups
    ensures var s1 := s.(lookups := s.lookups - {job});
            && Tied(s1, d)
            && (Live(s, s.lookups[job]) ==> forall j :: j in s1.lookups ==> !Live(s1, s1.lookups[j]))
  {
  }

  lemma {:induction false} ConnTied(s: State, d: Digest, c: Conn)
    requires Tied(s, d)
    requires c.awaiting == s.conn.awaiting && c.retried == s.conn.retried && c.sentHash == s.conn.sentHash
    ensures Tied(s.(conn := c), d)
  {
  }

  lemma {:induction false} ReplaysToken(s: State, r: Read, account: string, hash: Hash)
    requires Inv(s) && r.SignIn? && r.allowToken && ReadFits(Summary(s.log), r)
    requires forall j :: j in s.lookups ==> !Live(s, s.lookups[j])
    ensures Inv(Log(s.(conn := s.conn.(usedToken := true, awaiting := true, account := account,
              sentHash := Some(hash))),
                    [Sent(Reconnect(account, hash), false)]))
  {
    var s' := Log(s.(conn := s.conn.(usedToken := true, awaiting := true, account := account, sentHash := Some(hash))),
                  [Sent(Reconnect(account, hash), false)]);
    Extend(s, s', Sent(Reconnect(account, hash), false));
  }

  lemma {:induction false} Relearn(s: State, c: Conn)
    requires Inv(s)
    requires c.awaiting == s.conn.awaiting && c.retried == s.conn.retried && c.sentHash == s.conn.sentHash
    ensures Inv(s.(conn := c))
  {
    ConnTied(s, Summary(s.log), c);
  }

  lemma {:induction false} SignInActs(s: State, r: Read, found: Stored, env: Env)
    requires Inv(s) && r.SignIn? && Live(s, r) && ReadFits(Summary(s.log), r)
    requires forall j :: j in s.lookups ==> !Live(s, s.lookups[j])
    ensures Inv(SignInReadDone(s, r, found, env))
  {
    match found
    case Unreadable => SelectKeeps(s, env);
    case Entry(account, provider, token) =>
      var s2 := UrlFrame(s, provider);
      Relearn(s, s2.conn);
      if r.allowToken && account != "" && token.Some? && env.secure {
        ReplaysToken(s2, r, account, token.value);
      } else if account != "" && provider != "" {
        LogNeutral(s2, Sent(Resume(account, provider), false));
      } else {
        SelectKeeps(s2, env);
      }
  }

  lemma {:induction false} RecoveryActs(s: State, r: Read, found: Stored, env: Env)
    requires Inv(s) && r.Recovery? && r.gen <= s.authGen < r.gen + GENERATIONS
    requires Live(s, r) ==> !s.conn.awaiting && ReadFits(Summary(s.log), r)
    requires Live(s, r) ==> forall j :: j in s.lookups ==> !Live(s, s.lookups[j])
    ensures Inv(RecoveryReadDone(s, r, found, env))
  {
    GenerationExact(r.gen, s.authGen);
    if Rotated(r, found) {
      if !Live(s, r) {
      } else if env.secure {
        Extend(s, RecoveryReadDone(s, r, found, env), Sent(Reconnect(found.account, found.token.value), true));
      } else {
        SelectKeeps(s, env);
      }
    } else if !Live(s, r) && !RejectedStillStored(r, found) {
      Extend(s, RecoveryReadDone(s, r, found, env), Rearmed);
    } else {
      RecoveryDrops(s, r);
    }
  }

  lemma {:induction false} RecoveryDrops(s: State, r: Read)
    requires Inv(s) && r.Recovery?
    ensures Inv(Log(s, [DropTokenKeepHint(r.account, r.provider)]))
    ensures Inv(Log(s, [DropTokenKeepHint(r.account, r.provider), ReconnectRequested]))
  {
    var drop := DropTokenKeepHint(r.account, r.provider);
    LogNeutral(s, drop);
    LogNeutral(Log(s, [drop]), ReconnectRequested);
    assert s.log + [drop] + [ReconnectRequested] == s.log + [drop, ReconnectRequested];
  }

  lemma {:induction false} ReadKeeps(s: State, job: nat, found: Stored, env: Env)
    requires Inv(s) && job in s.lookups
    ensures Inv(ReadDone(s, job, found, env))
  {
    var r := s.lookups[job];
    var s1 := s.(lookups := s.lookups - {job});
    Consumed(s, Summary(s.log), job);
    assert Inv(s1);
    if r.Recovery? {
      RecoveryActs(s1, r, found, env);
    } else {
      GenerationExact(r.gen, s.authGen);
      if Live(s, r) { SignInActs(s1, r, found, env); }
    }
  }

  lemma {:induction false} ConnectionKeeps(s: State)
    requires Inv(s)
    requires forall j :: j in s.lookups ==> s.authGen + 1 < s.lookups[j].gen + GENERATIONS
    requires forall j :: j in s.timers ==> s.scheduleGen + 1 < s.timers[j].gen + GENERATIONS
    ensures Inv(ConnectionChange(s))
  {
    Extend(s, ConnectionChange(s), ConnectionChanged);
  }

  lemma {:induction false} TokenKeeps(s: State, account: string, token: Option<Hash>)
    requires Inv(s)
    ensures Inv(TokenFrame(s, account, token))
  {
    if account != "" && token.Some? {
      var c := s.conn.(announced := s.conn.announced || !s.conn.usedToken);
      Relearn(s, c);
      LogNeutral(s.(conn := c), TokenStored(account, token.value, s.conn.provider));
    }
  }

  lemma {:induction false} TickKeeps(s: State, elapsed: nat)
    requires Inv(s)
    ensures Inv(s.(now := s.now + elapsed))
  {
    assert Tied(s.(now := s.now + elapsed), Summary(s.log));
  }

  /** Every step of the controller keeps the invariant. */
  lemma {:induction false} StepKeeps(s: State, e: Event)
    requires Inv(s) && Enabled(s, e)
    ensures Inv(Step(s, e))
  {
    match e
    case Connected => ConnectionKeeps(s);
    case Disconnected => ConnectionKeeps(s);
    case DefaultFrame(password, oauth, fields, env) => DefaultKeeps(s, SupportsSet(password, oauth, fields, env), env);
    case ResultFrame(success) => ResultKeeps(s, success);
    case ReadCompletes(job, found, env) => ReadKeeps(s, job, found, env);
    case DeferredAttempt(job, env) => TimerKeeps(s, job, env);
    case TokenReceived(account, token) => TokenKeeps(s, account, token);
    case UrlReceived(provider) => Relearn(s, UrlFrame(s, provider).conn);
    case Tick(elapsed) => TickKeeps(s, elapsed);
    case HintWriteFailed => LogNeutral(s, EntryDiscarded);
    case ForgetSavedSignIn => LogNeutral(s, EntryDiscarded);
  }
}
