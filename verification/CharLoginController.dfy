/**
  The controller itself, in the form the program has it: an object whose handlers
  update its fields, and whose callbacks later update the same fields.  Every
  handler is proved to take the step the transition system describes, so what is
  proved of runs holds of the object.
*/
module CharLoginController {
  import opened Common
  import opened CharLogin
  import CharLoginMonitor

  class Authenticator {
    var caps: Caps
    var conn: Conn
    var reconnectRejected: bool
    var authAttemptGeneration: nat
    var signInScheduleGeneration: nat
    var lastSignInAttempt: Option<nat>
    var signInAttemptPending: bool

    // The surroundings: a monotonic clock, the jobs in flight, and what was done so far.
    var clock: nat
    var nextJob: nat
    var lookups: map<nat, Read>
    var timers: map<nat, Timer>
    var done: seq<Act>

    ghost function View(): State
      reads this
    {
      State(caps, conn, reconnectRejected, authAttemptGeneration, signInScheduleGeneration, lastSignInAttempt,
            signInAttemptPending, clock, nextJob, lookups, timers, done)
    }

    ghost predicate Valid()
      reads this
    {
      CharLoginMonitor.Inv(View())
    }

    constructor ()
      ensures View() == INIT && Valid()
    {
      caps := Caps(false, false, false);
      reconnectRejected := false;
      signInScheduleGeneration := 0;
      lastSignInAttempt := None;
      signInAttemptPending := false;
      conn := FRESH_CONN;
      authAttemptGeneration := 1;
      clock, nextJob, lookups, timers, done := 0, 0, map[], map[], [];
    }

    method ResetForNewConnection()
      modifies this
      ensures View() == ConnectionChange(old(View()))
    {
      signInScheduleGeneration := signInScheduleGeneration + 1;
      authAttemptGeneration := authAttemptGeneration + 1;
      signInAttemptPending := false;
      lastSignInAttempt := None;
      done := done + [ConnectionChanged];
    }

    method ResetPerConnectionState()
      modifies this`conn, this`authAttemptGeneration
      ensures View() == ResetPerConnection(old(View()))
    {
      conn := FRESH_CONN;
      authAttemptGeneration := authAttemptGeneration + 1;
    }

    method SelectMethod(env: Env)
      modifies this`done
      ensures View() == SelectAuthMethod(old(View()), env)
    {
      if caps.password && env.haveCredentials {
        done := done + [Sent(Credentials, false)];
        return;
      }
      if caps.providerFlow {
        done := done + [FlowStarted];
        return;
      }
      done := done + [Sent(Handoff, false)];
    }

    method ReadStoredSignIn(allowToken: bool)
      modifies this`lookups, this`nextJob
      ensures View() == StartRead(old(View()), SignIn(old(View()).authGen, allowToken))
    {
      lookups := lookups[nextJob := SignIn(authAttemptGeneration, allowToken)];
      nextJob := nextJob + 1;
    }

    method TryReconnect(env: Env)
      modifies this
      ensures View() == AttemptReconnect(old(View()), env)
    {
      if reconnectRejected {
        reconnectRejected := false;
        done := done + [Attempted(clock, TokenBarred, caps)];
        ReadStoredSignIn(false);
        return;
      }
      if caps.password && env.haveCredentials {
        done := done + [Attempted(clock, StoredCredentials, caps)];
        SelectMethod(env);
        return;
      }
      if !caps.oauth {
        done := done + [Attempted(clock, NoOAuth, caps)];
        SelectMethod(env);
        return;
      }
      done := done + [Attempted(clock, TokenAllowed, caps)];
      ReadStoredSignIn(true);
    }

    method ScheduleSignInAttempt(env: Env)
      modifies this
      ensures View() == ScheduleSignIn(old(View()), env)
    {
      if signInAttemptPending {
        return;
      }
      if lastSignInAttempt.None? || clock - lastSignInAttempt.value >= INTERVAL {
        lastSignInAttempt := Some(clock);
        TryReconnect(env);
        return;
      }
      signInAttemptPending := true;
      var wait := INTERVAL - (clock - lastSignInAttempt.value);
      timers := timers[nextJob := Timer(signInScheduleGeneration, clock + wait)];
      nextJob := nextJob + 1;
    }

    method HandleDefault(password: bool, oauth: bool, providerFields: bool, env: Env)
      requires Valid() && Enabled(View(), DefaultFrame(password, oauth, providerFields, env))
      modifies this
      ensures View() == Step(old(View()), DefaultFrame(password, oauth, providerFields, env)) && Valid()
    {
      CharLoginMonitor.StepKeeps(View(), DefaultFrame(password, oauth, providerFields, env));
      caps := Caps(false, false, false);
      caps := caps.(password := password, oauth := oauth);
      if env.secure {
        caps := caps.(providerFlow := oauth && providerFields);
      }
      done := done + [DefaultSeen(clock, caps)];
      ResetPerConnectionState();
      ScheduleSignInAttempt(env);
    }

    method DeferredAttemptFires(job: nat, env: Env)
      requires Valid() && Enabled(View(), DeferredAttempt(job, env))
      modifies this
      ensures View() == Step(old(View()), DeferredAttempt(job, env)) && Valid()
    {
      CharLoginMonitor.StepKeeps(View(), DeferredAttempt(job, env));
      var scheduleGeneration := timers[job].gen;
      timers := timers - {job};
      if !SameGeneration(scheduleGeneration, signInScheduleGeneration) {
        return;
      }
      signInAttemptPending := false;
      lastSignInAttempt := Some(clock);
      TryReconnect(env);
    }

    method RetryOrDropRejectedToken()
      modifies this`reconnectRejected, this`lookups, this`nextJob, this`done
      ensures View() ==
              StartRead(Log(old(View()).(rejected := true), [Rejected(old(View()).conn.sentHash)]),
                        Recovery(old(View()).authGen, old(View()).conn.sentHash, old(View()).conn.retried,
                                 old(View()).conn.account, old(View()).conn.provider))
    {
      var read := Recovery(authAttemptGeneration, conn.sentHash, conn.retried, conn.account, conn.provider);
      reconnectRejected := true;
      done := done + [Rejected(conn.sentHash)];
      lookups := lookups[nextJob := read];
      nextJob := nextJob + 1;
    }

    method HandleAuthResult(success: Option<bool>)
      requires Valid()
      modifies this
      ensures View() == Step(old(View()), ResultFrame(success)) && Valid()
    {
      CharLoginMonitor.StepKeeps(View(), ResultFrame(success));
      if success.None? {
        return;
      }
      if conn.awaiting {
        conn := conn.(awaiting := false);
        if success.value {
          return;
        }
        RetryOrDropRejectedToken();
        return;
      }
      if !success.value {
        done := done + [LoginFailed];
      }
    }

    /** Sends nothing, and says so, when the transport is not encrypted. */
    method SendReconnect(account: string, hash: Hash, rotated: bool, env: Env) returns (sent: bool)
      modifies this`done
      ensures sent == env.secure
      ensures done == old(done) + if sent then [Sent(Reconnect(account, hash), rotated)] else []
    {
      if !env.secure {
        return false;
      }
      done := done + [Sent(Reconnect(account, hash), rotated)];
      return true;
    }

    /** The callback of readStoredSignIn. */
    method OnStoredSignIn(read: Read, found: Stored, env: Env)
      requires read.SignIn?
      modifies this`conn, this`done
      ensures View() == SignInReadDone(old(View()), read, found, env)
    {
      if !SameGeneration(read.gen, authAttemptGeneration) {
        return;
      }
      if found.Entry? {
        if found.provider != "" {
          conn := conn.(provider := found.provider);
        }
        if read.allowToken && found.account != "" && found.token.Some? {
          var sent := SendReconnect(found.account, found.token.value, false, env);
          if sent {
            conn := conn.(usedToken := true, awaiting := true, account := found.account, sentHash := found.token);
            return;
          }
        }
        if found.account != "" && found.provider != "" {
          done := done + [Sent(Resume(found.account, found.provider), false)];
          return;
        }
      }
      SelectMethod(env);
    }

    /** The callback of retryOrDropRejectedToken. */
    method OnRecoveryRead(read: Read, found: Stored, env: Env)
      requires read.Recovery?
      modifies this`conn, this`done, this`reconnectRejected
      ensures View() == RecoveryReadDone(old(View()), read, found, env)
    {
      var superseded := !SameGeneration(read.gen, authAttemptGeneration);
      var rejectedTokenStillStored := false;
      if !read.retried && found.Entry? && found.account != "" && found.token.Some? {
        if read.sentHash.Some? && found.token != read.sentHash {
          if superseded {
            return;
          }
          var sent := SendReconnect(found.account, found.token.value, true, env);
          if sent {
            conn := conn.(retried := true, sentHash := found.token, usedToken := true, awaiting := true,
                          account := found.account);
            reconnectRejected := false;
            return;
          }
          SelectMethod(env);
          return;
        }
        rejectedTokenStillStored := read.sentHash.Some?;
      }
      if superseded && !rejectedTokenStillStored {
        reconnectRejected := true;
        done := done + [Rearmed];
        return;
      }
      if read.account == "" || read.provider == "" {
        done := done + [EntryDiscarded];
      } else {
        done := done + [HintStored(read.account, read.provider)];
      }
      if superseded {
        return;
      }
      done := done + [ReconnectRequested];
    }

    method StoreReadArrives(job: nat, found: Stored, env: Env)
      requires Valid() && Enabled(View(), ReadCompletes(job, found, env))
      modifies this
      ensures View() == Step(old(View()), ReadCompletes(job, found, env)) && Valid()
    {
      CharLoginMonitor.StepKeeps(View(), ReadCompletes(job, found, env));
      var read := lookups[job];
      lookups := lookups - {job};
      if read.SignIn? {
        OnStoredSignIn(read, found, env);
      } else {
        OnRecoveryRead(read, found, env);
      }
    }

    method HandleAuthToken(account: string, token: Option<Hash>)
      requires Valid()
      modifies this
      ensures View() == Step(old(View()), TokenReceived(account, token)) && Valid()
    {
      CharLoginMonitor.StepKeeps(View(), TokenReceived(account, token));
      if account == "" || token.None? {
        return;
      }
      done := done + [TokenStored(account, token.value, conn.provider)];
      if !conn.usedToken && !conn.announced {
        conn := conn.(announced := true);
      }
    }

    method HandleAuthUrl(provider: string)
      requires Valid()
      modifies this
      ensures View() == Step(old(View()), UrlReceived(provider)) && Valid()
    {
      CharLoginMonitor.StepKeeps(View(), UrlReceived(provider));
      if provider != "" {
        conn := conn.(provider := provider);
      }
    }

    method ConnectionBeginsOrEnds(begins: bool)
      requires Valid() && Enabled(View(), if begins then Connected else Disconnected)
      modifies this
      ensures View() == Step(old(View()), if begins then Connected else Disconnected) && Valid()
    {
      CharLoginMonitor.StepKeeps(View(), if begins then Connected else Disconnected);
      ResetForNewConnection();
    }
  }
}
