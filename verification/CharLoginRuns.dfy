/**
  What holds of every run of the sign-in controller, however server frames,
  connection changes, timers and store reads interleave and whatever other
  instances do to the shared store.
*/
module CharLoginRuns {
  import opened Common
  import opened CharLogin
  import opened CharLoginMonitor

  /** The state after the first `n` events, if the outside world can produce them. */
  function StateAt(es: seq<Event>, n: nat): Option<State>
    requires n <= |es|
  {
    if n == 0 then Some(INIT)
    else
      match StateAt(es, n - 1)
      case None => None
      case Some(s) => if Enabled(s, es[n - 1]) then Some(Step(s, es[n - 1])) else None
  }

  function Run(es: seq<Event>): Option<State> {
    StateAt(es, |es|)
  }

  lemma {:induction false} PrefixKeeps(es: seq<Event>, n: nat)
    requires n <= |es| && StateAt(es, n).Some?
    ensures Inv(StateAt(es, n).value)
  {
    if n > 0 {
      PrefixKeeps(es, n - 1);
      StepKeeps(StateAt(es, n - 1).value, es[n - 1]);
    }
  }

  lemma {:induction false} RunKeeps(es: seq<Event>)
    requires Run(es).Some?
    ensures Inv(Run(es).value)
  {
    PrefixKeeps(es, |es|);
  }

  // ---------------------------------------------------------------- reading a log

  /** The token hashes replayed by the acts `i` up to `j`, in order. */
  function Replays(log: seq<Act>, i: nat, j: nat): seq<Hash>
    requires i <= j <= |log|
  {
    if i == j then []
    else
      Replays(log, i, j - 1) +
      match log[j - 1]
      case Sent(Reconnect(_, hash), _) => [hash]
      case _ => []
  }

  /** The capabilities the latest Default before act `n` left behind. */
  function LatestCaps(log: seq<Act>, n: nat): Caps
    requires n <= |log|
  {
    if n == 0 then Caps(false, false, false)
    else if log[n - 1].DefaultSeen? then log[n - 1].caps
    else LatestCaps(log, n - 1)
  }

  predicate NoDefault(log: seq<Act>, i: nat, j: nat)
    requires j <= |log|
  {
    forall k :: i <= k < j ==> !log[k].DefaultSeen?
  }

  predicate SameConnection(log: seq<Act>, i: nat, j: nat)
    requires j <= |log|
  {
    forall k :: i <= k < j ==> !log[k].ConnectionChanged?
  }

  /** A rejection, or a superseded recovery that re-arms the latch. */
  predicate Latches(a: Act) {
    a.Rejected? || a.Rearmed?
  }

  /** An attempt, or the replay of a rotated token: the acts that release the latch. */
  predicate Releases(a: Act) {
    a.Attempted? || (a.Sent? && a.frame.Reconnect? && a.rotated)
  }

  predicate NoRelease(log: seq<Act>, i: nat, j: nat)
    requires j <= |log|
  {
    forall k :: i <= k < j ==> !Releases(log[k])
  }

  predicate EpochShaped(d: Digest) {
    && |d.epoch| <= 2
    && (|d.epoch| == 2 ==> d.epoch[0] != d.epoch[1])
    && (d.epoch != [] ==> d.phase == Open(TokenAllowed))
    && (d.refused ==> d.epoch != [])
  }

  lemma {:induction false} EpochStep(d: Digest, a: Act)
    requires EpochShaped(d) && Permitted(d, a)
    ensures EpochShaped(Absorb(d, a))
  {
  }

  lemma {:induction false} EpochShape(log: seq<Act>, n: nat)
    requires n <= |log| && OkUpTo(log, n)
    ensures EpochShaped(SummaryAt(log, n))
  {
    if n > 0 {
      EpochShape(log, n - 1);
      EpochStep(SummaryAt(log, n - 1), log[n - 1]);
    }
  }

  lemma {:induction false} CapsAreLatest(log: seq<Act>, n: nat)
    requires n <= |log|
    ensures SummaryAt(log, n).caps == LatestCaps(log, n)
  {
    if n > 0 { CapsAreLatest(log, n - 1); }
  }

  /** Without a Default in between, what was replayed is the tail of the current epoch. */
  lemma {:induction false} StretchOfEpoch(log: seq<Act>, i: nat, j: nat) returns (before: seq<Hash>)
    requires i <= j <= |log| && NoDefault(log, i, j)
    ensures SummaryAt(log, j).epoch == before + Replays(log, i, j)
  {
    if i == j {
      before := SummaryAt(log, j).epoch;
    } else {
      before := StretchOfEpoch(log, i, j - 1);
    }
  }

  // ---------------------------------------------------------------- theorems

  /** Between two Defaults at most two tokens are replayed, and the second is a different one. */
  lemma {:induction false} AtMostTwoReplays(es: seq<Event>, i: nat, j: nat)
    requires Run(es).Some? && i <= j <= |Run(es).value.log| && NoDefault(Run(es).value.log, i, j)
    ensures var h := Replays(Run(es).value.log, i, j); |h| <= 2 && (|h| == 2 ==> h[0] != h[1])
  {
    RunKeeps(es);
    var log := Run(es).value.log;
    var before := StretchOfEpoch(log, i, j);
    OkBefore(log, |log|, j);
    EpochShape(log, j);
  }

  lemma {:induction false} ArmedSince(log: seq<Act>, i: nat, j: nat)
    requires i < j <= |log| && Latches(log[i]) && NoRelease(log, i + 1, j)
    ensures SummaryAt(log, j).armed
  {
    if i + 1 < j { ArmedSince(log, i, j - 1); }
  }

  lemma {:induction false} ArmedBy(log: seq<Act>, n: nat) returns (i: nat)
    requires n <= |log| && SummaryAt(log, n).armed
    ensures i < n && Latches(log[i]) && NoRelease(log, i + 1, n)
  {
    if Latches(log[n - 1]) { return n - 1; }
    i := ArmedBy(log, n - 1);
  }

  /** Once an attempt was made without a token, its Default replays none. */
  lemma {:induction false} BarredEpoch(log: seq<Act>, j: nat, k: nat)
    requires j < k <= |log| && OkUpTo(log, k) && log[j].Attempted? && NoDefault(log, j + 1, k)
    ensures SummaryAt(log, k).phase == Open(log[j].kind)
  {
    if j + 1 < k { BarredEpoch(log, j, k - 1); }
  }

  /**
    After a rejection, or a superseded recovery that re-arms the latch, the next
    attempt replays no token, and nothing of its Default does - through any number
    of resets and reconnections, unless a rotated token was replayed in between.
  */
  lemma {:induction false} RejectionBarsNextAttempt(es: seq<Event>, i: nat, j: nat, k: nat)
    requires Run(es).Some? && i < j < k < |Run(es).value.log|
    requires Latches(Run(es).value.log[i]) && NoRelease(Run(es).value.log, i + 1, j)
    requires Run(es).value.log[j].Attempted? && NoDefault(Run(es).value.log, j + 1, k)
    ensures Run(es).value.log[j].kind == TokenBarred
    ensures !(Run(es).value.log[k].Sent? && Run(es).value.log[k].frame.Reconnect?)
  {
    RunKeeps(es);
    var log := Run(es).value.log;
    ArmedSince(log, i, j);
    OkBefore(log, |log|, j);
    OkBefore(log, |log|, k);
    BarredEpoch(log, j, k);
  }

  /** Conversely, an attempt is barred only by such a rejection. */
  lemma {:induction false} BarredOnlyByRejection(es: seq<Event>, j: nat) returns (i: nat)
    requires Run(es).Some? && j < |Run(es).value.log|
    requires Run(es).value.log[j].Attempted? && Run(es).value.log[j].kind == TokenBarred
    ensures i < j && Latches(Run(es).value.log[i]) && NoRelease(Run(es).value.log, i + 1, j)
  {
    RunKeeps(es);
    var log := Run(es).value.log;
    OkBefore(log, |log|, j);
    i := ArmedBy(log, j);
  }

  /** The profile's password and the client-driven flow are used only where the latest Default offered them. */
  lemma {:induction false} OnlyOfferedMethods(es: seq<Event>, j: nat)
    requires Run(es).Some? && j < |Run(es).value.log|
    ensures Run(es).value.log[j].Sent? && Run(es).value.log[j].frame.Credentials? ==>
              LatestCaps(Run(es).value.log, j).password
    ensures Run(es).value.log[j].FlowStarted? ==> LatestCaps(Run(es).value.log, j).providerFlow
  {
    RunKeeps(es);
    var log := Run(es).value.log;
    OkBefore(log, |log|, j);
    CapsAreLatest(log, j);
  }

  lemma {:induction false} StillRefused(d: Digest, a: Act)
    requires EpochShaped(d) && Permitted(d, a) && !a.Rejected?
    requires Absorb(d, a).refused && |Absorb(d, a).epoch| == 1
    ensures d.refused && d.epoch == Absorb(d, a).epoch && !a.DefaultSeen?
  {
  }

  lemma {:induction false} RefusedBy(log: seq<Act>, n: nat) returns (i: nat)
    requires n <= |log| && OkUpTo(log, n)
    requires SummaryAt(log, n).refused && |SummaryAt(log, n).epoch| == 1
    ensures i < n && log[i] == Rejected(Some(SummaryAt(log, n).epoch[0])) && NoDefault(log, i + 1, n)
  {
    if log[n - 1].Rejected? { return n - 1; }
    EpochShape(log, n - 1);
    StillRefused(SummaryAt(log, n - 1), log[n - 1]);
    i := RefusedBy(log, n - 1);
  }

  /** A rotated token is replayed only after the game rejected a different one in the same epoch. */
  lemma {:induction false} RotationFollowsRejection(es: seq<Event>, j: nat) returns (i: nat, rejected: Hash)
    requires Run(es).Some? && j < |Run(es).value.log|
    requires Run(es).value.log[j].Sent? && Run(es).value.log[j].frame.Reconnect? && Run(es).value.log[j].rotated
    ensures i < j && Run(es).value.log[i] == Rejected(Some(rejected)) && NoDefault(Run(es).value.log, i + 1, j)
    ensures rejected != Run(es).value.log[j].frame.hash
  {
    RunKeeps(es);
    var log := Run(es).value.log;
    OkBefore(log, |log|, j);
    i := RefusedBy(log, j);
    rejected := SummaryAt(log, j).epoch[0];
  }

  // ---------------------------------------------------------------- superseded reads

  /** What every handler keeps: the log, the counters and the captured facts of reads in flight only grow. */
  predicate Grows(s: State, s': State) {
    && s.log <= s'.log
    && s.authGen <= s'.authGen
    && s.nextJob <= s'.nextJob
    && (forall j :: j in s'.lookups && j < s.nextJob ==> j in s.lookups && s'.lookups[j] == s.lookups[j])
  }

  predicate NoAttempts(s: State, s': State)
    requires s.log <= s'.log
  {
    forall k :: |s.log| <= k < |s'.log| ==> !s'.log[k].Attempted?
  }

  lemma {:induction false} ScheduleGrows(s: State, env: Env)
    ensures Grows(s, ScheduleSignIn(s, env))
  {
  }

  lemma {:induction false} DefaultGrows(s: State, caps: Caps, env: Env)
    ensures Grows(s, Default(s, caps, env)) && s.authGen < Default(s, caps, env).authGen
  {
    var s1 := ResetPerConnection(Log(s.(caps := caps), [DefaultSeen(s.now, caps)]));
    ScheduleGrows(s1, env);
    assert Default(s, caps, env).authGen == s1.authGen;
  }

  lemma {:induction false} SelectGrows(s: State, env: Env)
    ensures var s' := SelectAuthMethod(s, env);
            && s'.log == s.log + [s'.log[|s.log|]] && !s'.log[|s.log|].Attempted?
            && s' == s.(log := s'.log)
  {
  }

  /** Only the connection, the latch and the log have changed, and no attempt was logged. */
  ghost predicate Replied(s: State, s': State) {
    && s' == s.(conn := s'.conn, rejected := s'.rejected, log := s'.log)
    && s.log <= s'.log && NoAttempts(s, s')
  }

  lemma {:induction false} LogReplied(s: State, c: Conn, rejected: bool, acts: seq<Act>)
    requires forall k :: 0 <= k < |acts| ==> !acts[k].Attempted?
    ensures Replied(s, Log(s.(conn := c, rejected := rejected), acts))
  {
  }

  lemma {:induction false} SelectReplied(s: State, c: Conn, env: Env)
    ensures Replied(s, SelectAuthMethod(s.(conn := c), env))
  {
    SelectGrows(s.(conn := c), env);
  }

  lemma {:induction false} SignInReplied(s: State, r: Read, found: Stored, env: Env)
    requires r.SignIn?
    ensures Replied(s, SignInReadDone(s, r, found, env))
  {
    var s' := SignInReadDone(s, r, found, env);
    if SameGeneration(r.gen, s.authGen) {
      match found {
        case Unreadable => SelectReplied(s, s.conn, env);
        case Entry(account, provider, token) =>
          var c := UrlFrame(s, provider).conn;
          if r.allowToken && account != "" && token.Some? && env.secure {
            LogReplied(s, s'.conn, s.rejected, [Sent(Reconnect(account, token.value), false)]);
          } else if account != "" && provider != "" {
            LogReplied(s, c, s.rejected, [Sent(Resume(account, provider), false)]);
          } else {
            SelectReplied(s, c, env);
          }
      }
    }
  }

  lemma {:induction false} RecoveryReplied(s: State, r: Read, found: Stored, env: Env)
    requires r.Recovery?
    ensures Replied(s, RecoveryReadDone(s, r, found, env))
  {
    var s' := RecoveryReadDone(s, r, found, env);
    var drop := DropTokenKeepHint(r.account, r.provider);
    if SameGeneration(r.gen, s.authGen) {
      if Rotated(r, found) {
        if env.secure {
          LogReplied(s, s'.conn, false, [Sent(Reconnect(found.account, found.token.value), true)]);
        } else {
          SelectReplied(s, s.conn, env);
        }
      } else {
        LogReplied(s, s.conn, s.rejected, [drop, ReconnectRequested]);
      }
    } else if !Rotated(r, found) {
      LogReplied(s, s.conn, true, [Rearmed]);
      LogReplied(s, s.conn, s.rejected, [drop]);
    }
  }

  lemma {:induction false} ReadGrows(s: State, job: nat, found: Stored, env: Env)
    requires job in s.lookups
    ensures var s' := ReadDone(s, job, found, env);
            Grows(s, s') && NoAttempts(s, s') && s'.timers == s.timers && s'.now == s.now
  {
    var r := s.lookups[job];
    var s1 := s.(lookups := s.lookups - {job});
    if r.SignIn? {
      SignInReplied(s1, r, found, env);
    } else {
      RecoveryReplied(s1, r, found, env);
    }
  }

  lemma {:induction false} ResultGrows(s: State, success: Option<bool>)
    ensures var s' := Result(s, success);
            Grows(s, s') && NoAttempts(s, s') && s'.timers == s.timers && s'.now == s.now
  {
  }

  lemma {:induction false} StepGrows(s: State, e: Event)
    requires Enabled(s, e)
    ensures Grows(s, Step(s, e)) && (Supersedes(e) ==> s.authGen < Step(s, e).authGen)
  {
    match e
    case DefaultFrame(password, oauth, fields, env) => DefaultGrows(s, SupportsSet(password, oauth, fields, env), env);
    case DeferredAttempt(job, env) =>
      AttemptLog(s.(timers := s.timers - {job}, pending := false, lastAttempt := Some(s.now)), env);
    case ReadCompletes(job, found, env) => ReadGrows(s, job, found, env);
    case ResultFrame(success) => ResultGrows(s, success);
    case _ =>
  }

  lemma {:induction false} GrowsOn(s: State, s': State, s'': State)
    requires Grows(s, s') && Grows(s', s'')
    ensures Grows(s, s'')
  {
  }

  lemma {:induction false} NextGrows(es: seq<Event>, n: nat)
    requires n < |es| && StateAt(es, n + 1).Some?
    ensures StateAt(es, n).Some? && Grows(StateAt(es, n).value, StateAt(es, n + 1).value)
    ensures Supersedes(es[n]) ==> StateAt(es, n).value.authGen < StateAt(es, n + 1).value.authGen
  {
    StepGrows(StateAt(es, n).value, es[n]);
  }

  /** A read keeps its captured facts while it is in flight, and the counter only grows. */
  lemma {:induction false} InFlight(es: seq<Event>, i: nat, j: nat)
    requires i <= j <= |es| && StateAt(es, j).Some?
    ensures StateAt(es, i).Some? && Grows(StateAt(es, i).value, StateAt(es, j).value)
  {
    if i < j {
      NextGrows(es, j - 1);
      InFlight(es, i, j - 1);
      GrowsOn(StateAt(es, i).value, StateAt(es, j - 1).value, StateAt(es, j).value);
    }
  }

  /** Acts that a superseded read may still cause, given what it found. */
  predicate Silent(a: Act, r: Read, found: Stored) {
    && !a.Sent? && !a.FlowStarted? && !a.ReconnectRequested? && !a.Attempted?
    && (a.HintStored? || a.EntryDiscarded? ==> r.Recovery? && RejectedStillStored(r, found))
  }

  lemma {:induction false} StaleRead(s: State, job: nat, found: Stored, env: Env)
    requires job in s.lookups && !SameGeneration(s.lookups[job].gen, s.authGen)
    ensures s.log <= ReadDone(s, job, found, env).log
    ensures var log := ReadDone(s, job, found, env).log;
            forall k :: |s.log| <= k < |log| ==> Silent(log[k], s.lookups[job], found)
  {
    ReadGrows(s, job, found, env);
  }

  /**
    A read that a newer Default or a connection change superseded never makes
    anything happen on the wire when it completes, and rewrites the stored entry
    only when it saw the very token that was rejected.
  */
  lemma {:induction false} SupersededReadIsSilent(es: seq<Event>, i: nat, k: nat, j: nat, job: nat)
    requires i <= k < j < |es| && StateAt(es, j + 1).Some?
    requires StateAt(es, i).Some? && job in StateAt(es, i).value.lookups
    requires Supersedes(es[k]) && es[j].ReadCompletes? && es[j].job == job
    ensures StateAt(es, j).Some? && StateAt(es, j).value.log <= StateAt(es, j + 1).value.log
    ensures var log := StateAt(es, j + 1).value.log;
            forall n :: |StateAt(es, j).value.log| <= n < |log| ==>
                          Silent(log[n], StateAt(es, i).value.lookups[job], es[j].found)
  {
    NextGrows(es, j);
    InFlight(es, k + 1, j);
    NextGrows(es, k);
    InFlight(es, i, k);
    InFlight(es, i, j);
    var s := StateAt(es, j).value;
    PrefixKeeps(es, i);
    PrefixKeeps(es, j);
    GenerationExact(s.lookups[job].gen, s.authGen);
    StaleRead(s, job, es[j].found, es[j].env);
  }

  /** A replayed token is the one the store holds, and travels only on an encrypted transport. */
  predicate ReplaySafe(a: Act, found: Stored, env: Env) {
    a.Sent? && a.frame.Reconnect? ==>
      env.secure && found.Entry? && found.token.Some? && a.frame == Reconnect(found.account, found.token.value)
  }

  lemma {:induction false} SignInReplaySafe(s: State, r: Read, found: Stored, env: Env)
    requires r.SignIn?
    ensures s.log <= SignInReadDone(s, r, found, env).log
    ensures var log := SignInReadDone(s, r, found, env).log;
            forall k :: |s.log| <= k < |log| ==> ReplaySafe(log[k], found, env)
  {
    SignInReplied(s, r, found, env);
  }

  lemma {:induction false} RecoveryReplaySafe(s: State, r: Read, found: Stored, env: Env)
    requires r.Recovery?
    ensures s.log <= RecoveryReadDone(s, r, found, env).log
    ensures var log := RecoveryReadDone(s, r, found, env).log;
            forall k :: |s.log| <= k < |log| ==> ReplaySafe(log[k], found, env)
  {
    RecoveryReplied(s, r, found, env);
  }

  lemma {:induction false} ReplayNeedsEncryption(s: State, job: nat, found: Stored, env: Env)
    requires job in s.lookups
    ensures s.log <= ReadDone(s, job, found, env).log
    ensures var log := ReadDone(s, job, found, env).log;
            forall k :: |s.log| <= k < |log| ==> ReplaySafe(log[k], found, env)
  {
    var s1 := s.(lookups := s.lookups - {job});
    if s.lookups[job].SignIn? {
      SignInReplaySafe(s1, s.lookups[job], found, env);
    } else {
      RecoveryReplaySafe(s1, s.lookups[job], found, env);
    }
  }

  /** At any moment at most one read is not superseded, and none while a result is awaited. */
  lemma {:induction false} OneLiveRead(es: seq<Event>, i: nat, j: nat)
    requires Run(es).Some? && i in Run(es).value.lookups && j in Run(es).value.lookups
    requires SameGeneration(Run(es).value.lookups[i].gen, Run(es).value.authGen)
    requires SameGeneration(Run(es).value.lookups[j].gen, Run(es).value.authGen)
    ensures i == j && !Run(es).value.conn.awaiting
  {
    var s := Run(es).value;
    RunKeeps(es);
    GenerationExact(s.lookups[i].gen, s.authGen);
    GenerationExact(s.lookups[j].gen, s.authGen);
  }

  // ---------------------------------------------------------------- throttling

  lemma {:induction false} LastAttemptStep(d: Digest, a: Act)
    requires Permitted(d, a) && d.lastAttempt.Some? && !a.ConnectionChanged?
    ensures Absorb(d, a).lastAttempt.Some? && Absorb(d, a).lastAttempt.value >= d.lastAttempt.value
  {
  }

  lemma {:induction false} LastAttemptFrom(log: seq<Act>, i: nat, j: nat)
    requires i < j <= |log| && OkUpTo(log, j) && log[i].Attempted? && SameConnection(log, i + 1, j)
    ensures var last := SummaryAt(log, j).lastAttempt; last.Some? && last.value >= log[i].at
  {
    if i + 1 < j {
      LastAttemptFrom(log, i, j - 1);
      LastAttemptStep(SummaryAt(log, j - 1), log[j - 1]);
    }
  }

  /** On one connection, attempts are at least one interval apart however many Defaults arrive. */
  lemma {:induction false} AttemptsAreSpaced(es: seq<Event>, i: nat, j: nat)
    requires Run(es).Some? && i < j < |Run(es).value.log| && SameConnection(Run(es).value.log, i + 1, j)
    requires Run(es).value.log[i].Attempted? && Run(es).value.log[j].Attempted?
    ensures Run(es).value.log[j].at >= Run(es).value.log[i].at + INTERVAL
  {
    RunKeeps(es);
    var log := Run(es).value.log;
    OkBefore(log, |log|, j);
    LastAttemptFrom(log, i, j);
  }

  /** There is a live deferred attempt exactly when one is pending, and never two. */
  lemma {:induction false} OneLiveTimer(es: seq<Event>)
    requires Run(es).Some?
    ensures var s := Run(es).value;
            && (s.pending <==> exists j :: j in s.timers && SameGeneration(s.timers[j].gen, s.scheduleGen))
            && (forall i, j | i in s.timers && j in s.timers ::
                  SameGeneration(s.timers[i].gen, s.scheduleGen) && SameGeneration(s.timers[j].gen, s.scheduleGen)
                  ==> i == j)
  {
    var s := Run(es).value;
    RunKeeps(es);
    forall j | j in s.timers
      ensures SameGeneration(s.timers[j].gen, s.scheduleGen) <==> LiveTimer(s, s.timers[j])
    {
      GenerationExact(s.timers[j].gen, s.scheduleGen);
    }
  }

  /** Timers fire no later than they are due. */
  ghost predicate Punctual(es: seq<Event>) {
    forall n :: 0 <= n < |es| ==> NotOverdue(es, n)
  }

  predicate NotOverdue(es: seq<Event>, n: nat)
    requires n < |es|
  {
    var s := StateAt(es, n);
    s.Some? && es[n].Tick? ==> forall j :: j in s.value.timers ==> s.value.now + es[n].elapsed <= s.value.timers[j].due
  }

  /** Every attempt comes within one interval of the earliest Default it serves. */
  ghost predicate Timely(log: seq<Act>) {
    forall k :: 0 <= k < |log| && log[k].Attempted? ==>
                  var t := SummaryAt(log, k).unserved; t.Some? && log[k].at <= t.value + INTERVAL
  }

  ghost predicate OnTime(s: State) {
    Timely(s.log) && forall j :: j in s.timers ==> s.now <= s.timers[j].due
  }

  /** Acts other than attempts do not disturb timeliness. */
  lemma {:induction false} TimelyAfter(log: seq<Act>, log': seq<Act>)
    requires Timely(log) && log <= log'
    requires forall k :: |log| <= k < |log'| && log'[k].Attempted? ==>
                           var t := SummaryAt(log', k).unserved; t.Some? && log'[k].at <= t.value + INTERVAL
    ensures Timely(log')
  {
    forall k | 0 <= k < |log'| && log'[k].Attempted?
      ensures var t := SummaryAt(log', k).unserved; t.Some? && log'[k].at <= t.value + INTERVAL
    {
      if k < |log| { SamePrefix(log, log', k); }
    }
  }

  lemma {:induction false} AttemptLog(s: State, env: Env)
    ensures var log := AttemptReconnect(s, env).log;
            && AttemptReconnect(s, env).timers == s.timers && AttemptReconnect(s, env).now == s.now
            && s.log < log && log[|s.log|].Attempted? && log[|s.log|].at == s.now
            && forall k :: |s.log| < k < |log| ==> !log[k].Attempted?
  {
  }

  lemma {:induction false} AttemptExtends(log: seq<Act>, log': seq<Act>)
    requires Timely(log) && log < log' && log'[|log|].Attempted?
    requires forall k :: |log| < k < |log'| ==> !log'[k].Attempted?
    requires Summary(log).unserved.Some? && log'[|log|].at <= Summary(log).unserved.value + INTERVAL
    ensures Timely(log')
  {
    SamePrefix(log, log', |log|);
    TimelyAfter(log, log');
  }

  lemma {:induction false} AttemptTimely(s: State, env: Env)
    requires Timely(s.log) && Summary(s.log).unserved.Some? && s.now <= Summary(s.log).unserved.value + INTERVAL
    ensures Timely(AttemptReconnect(s, env).log)
  {
    AttemptLog(s, env);
    AttemptExtends(s.log, AttemptReconnect(s, env).log);
  }

  lemma {:induction false} DefaultOnTime(s: State, caps: Caps, env: Env)
    requires Inv(s) && OnTime(s)
    ensures OnTime(Default(s, caps, env))
  {
    var a := DefaultSeen(s.now, caps);
    var s1 := ResetPerConnection(Log(s.(caps := caps), [a]));
    Append(s.log, a);
    TimelyAfter(s.log, s1.log);
    if !s1.pending && (s1.lastAttempt.None? || s1.now - s1.lastAttempt.value >= INTERVAL) {
      var s2 := s1.(lastAttempt := Some(s1.now));
      AttemptTimely(s2, env);
      AttemptLog(s2, env);
    }
  }

  lemma {:induction false} TimerOnTime(s: State, job: nat, env: Env)
    requires Inv(s) && OnTime(s) && job in s.timers && s.timers[job].due <= s.now
    ensures OnTime(TimerFires(s, job, env))
  {
    GenerationExact(s.timers[job].gen, s.scheduleGen);
    if LiveTimer(s, s.timers[job]) {
      var s1 := s.(timers := s.timers - {job}, pending := false, lastAttempt := Some(s.now));
      AttemptTimely(s1, env);
      AttemptLog(s1, env);
    }
  }

  lemma {:induction false} OtherLog(s: State, e: Event)
    requires Enabled(s, e) && !e.DefaultFrame? && !e.DeferredAttempt?
    ensures var s' := Step(s, e);
            && s'.timers == s.timers
            && (!e.Tick? ==> s'.now == s.now)
            && s.log <= s'.log
            && NoAttempts(s, s')
  {
    match e
    case ReadCompletes(job, found, env) => ReadGrows(s, job, found, env);
    case ResultFrame(success) => ResultGrows(s, success);
    case _ =>
  }

  lemma {:induction false} StepOnTime(s: State, e: Event)
    requires Inv(s) && OnTime(s) && Enabled(s, e)
    requires e.Tick? ==> forall j :: j in s.timers ==> s.now + e.elapsed <= s.timers[j].due
    ensures OnTime(Step(s, e))
  {
    match e
    case DefaultFrame(password, oauth, fields, env) => DefaultOnTime(s, SupportsSet(password, oauth, fields, env), env);
    case DeferredAttempt(job, env) => TimerOnTime(s, job, env);
    case _ => OtherLog(s, e); TimelyAfter(s.log, Step(s, e).log);
  }

  lemma {:induction false} RunOnTime(es: seq<Event>, n: nat)
    requires n <= |es| && StateAt(es, n).Some? && Punctual(es)
    ensures OnTime(StateAt(es, n).value)
  {
    if n > 0 {
      RunOnTime(es, n - 1);
      PrefixKeeps(es, n - 1);
      assert NotOverdue(es, n - 1);
      StepOnTime(StateAt(es, n - 1).value, es[n - 1]);
    }
  }

  lemma {:induction false} StillUnserved(d: Digest, a: Act)
    requires d.unserved.Some? && !a.ConnectionChanged? && !a.Attempted?
    ensures Absorb(d, a).unserved == d.unserved
  {
  }

  /** Until it is served or the connection goes, the earliest unserved Default is no later than any other. */
  lemma {:induction false} UnservedFrom(log: seq<Act>, i: nat, j: nat)
    requires i < j <= |log| && OkUpTo(log, j) && log[i].DefaultSeen? && SameConnection(log, i + 1, j)
    requires forall k :: i <= k < j ==> !log[k].Attempted?
    ensures var t := SummaryAt(log, j).unserved; t.Some? && t.value <= log[i].time
  {
    if i + 1 < j {
      UnservedFrom(log, i, j - 1);
      StillUnserved(SummaryAt(log, j - 1), log[j - 1]);
    }
  }

  /** The first attempt at or after position `i`, or the end of the log. */
  function NextAttempt(log: seq<Act>, i: nat): (j: nat)
    requires i <= |log|
    ensures i <= j <= |log| && (j < |log| ==> log[j].Attempted?)
    ensures forall k :: i <= k < j ==> !log[k].Attempted?
    decreases |log| - i
  {
    if i == |log| || log[i].Attempted? then i else NextAttempt(log, i + 1)
  }

  lemma {:induction false} ServedInLog(log: seq<Act>, i: nat, j: nat)
    requires LogOk(log) && Timely(log) && i < j < |log| && SameConnection(log, i + 1, |log|)
    requires log[i].DefaultSeen? && log[j].Attempted? && forall k :: i <= k < j ==> !log[k].Attempted?
    ensures log[j].at <= log[i].time + INTERVAL && log[j].using == LatestCaps(log, j)
  {
    OkBefore(log, |log|, j);
    UnservedFrom(log, i, j);
    CapsAreLatest(log, j);
  }

  lemma {:induction false} StillWaiting(s: State, i: nat)
    requires Inv(s) && OnTime(s) && i < |s.log| && SameConnection(s.log, i + 1, |s.log|)
    requires s.log[i].DefaultSeen? && forall k :: i <= k < |s.log| ==> !s.log[k].Attempted?
    ensures s.pending && s.now <= s.log[i].time + INTERVAL
  {
    UnservedFrom(s.log, i, |s.log|);
    assert TimersOk(s) && ClockOk(s, Summary(s.log));
    var job :| job in s.timers && LiveTimer(s, s.timers[job]);
  }

  /**
    With punctual timers, every Default on a surviving connection is served within
    one interval, using the capabilities of the latest advertisement - or it is
    still pending and its interval has not run out.
  */
  lemma {:induction false} DefaultIsServed(es: seq<Event>, i: nat)
    requires Run(es).Some? && Punctual(es) && i < |Run(es).value.log|
    requires Run(es).value.log[i].DefaultSeen?
    requires SameConnection(Run(es).value.log, i + 1, |Run(es).value.log|)
    ensures var s := Run(es).value;
            var j := NextAttempt(s.log, i);
            if j < |s.log| then
              s.log[j].at <= s.log[i].time + INTERVAL && s.log[j].using == LatestCaps(s.log, j)
            else
              s.pending && s.now <= s.log[i].time + INTERVAL
  {
    var s := Run(es).value;
    var j := NextAttempt(s.log, i);
    RunKeeps(es);
    RunOnTime(es, |es|);
    if j < |s.log| { ServedInLog(s.log, i, j); } else { StillWaiting(s, i); }
  }
}
