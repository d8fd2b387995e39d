/**
  Finding a stored password under its current name or an older one, and moving it
  to the current name (src/CredentialManager.cpp, retrieveCredential,
  attemptCompatNamingMigration, attemptOldFormatMigration), with every keychain
  job free to fail.
*/
module CredentialChain {
  import opened Common

  /**
    How the keychain names an entry: by the key alone (Windows, qtkeychain before
    0.17), by key and service (Windows since then, the key alone when the service is
    empty), or as a pair (everywhere else).
  */
  datatype Scheme = BareKey | KeyAtService | Pairs

  datatype Target = One(name: string) | Two(service: string, key: string)

  type Store = map<Target, string>

  function TargetOf(scheme: Scheme, service: string, key: string): Target {
    match scheme
    case BareKey => One(key)
    case KeyAtService => if service == "" then One(key) else One(key + "@" + service)
    case Pairs => Two(service, key)
  }

  function Primary(scheme: Scheme, service: string): Target {
    TargetOf(scheme, service, service)
  }

  function Compat(scheme: Scheme, service: string): Target {
    TargetOf(scheme, "", service)
  }

  function OldFormat(scheme: Scheme, service: string, account: string): Target {
    TargetOf(scheme, if scheme.Pairs? then service else "", account)
  }

  /** The names the chain consults, in order. */
  function Names(scheme: Scheme, service: string, account: string): seq<Target> {
    if scheme.Pairs? then [Primary(scheme, service), OldFormat(scheme, service, account)]
    else [Primary(scheme, service), Compat(scheme, service), OldFormat(scheme, service, account)]
  }

  function Chain(scheme: Scheme, service: string, account: string): set<Target> {
    if scheme.Pairs? then {Primary(scheme, service), OldFormat(scheme, service, account)}
    else {Primary(scheme, service), Compat(scheme, service), OldFormat(scheme, service, account)}
  }

  /** Which jobs succeed, if they are started. */
  datatype Luck = Luck(primary: bool, compat: Migration, older: Migration)

  datatype Migration = Migration(read: bool, write: bool, delete: bool)

  /** A read job: an entry that is there may still fail to be read. */
  function Read(s: Store, t: Target, works: bool): Option<string> {
    if works && t in s then Some(s[t]) else None
  }

  function Write(s: Store, t: Target, password: string, works: bool): Store {
    if works then s[t := password] else s
  }

  function Delete(s: Store, t: Target, works: bool): Store {
    if works then s - {t} else s
  }

  /** What a retrieval gives back, and the store after each of its jobs. */
  datatype Run = Run(password: Option<string>, stores: seq<Store>)

  /** Moves what was found under `from` to the current name; the older entry goes only once the write is through. */
  function Migrate(s: Store, from: Target, to: Target, password: string, m: Migration, cleans: bool): Run {
    var written := Write(s, to, password, m.write);
    Run(Some(password), if m.write && cleans then [s, written, Delete(written, from, m.delete)] else [s, written])
  }

  function OldStep(scheme: Scheme, service: string, account: string, s: Store, m: Migration): Run {
    match Read(s, OldFormat(scheme, service, account), m.read)
    case Some(password) =>
      if password != "" then Migrate(s, OldFormat(scheme, service, account), Primary(scheme, service), password, m,
          true)
      else Run(None, [s])
    case None => Run(None, [s])
  }

  function CompatStep(scheme: Scheme, service: string, account: string, s: Store, luck: Luck): Run {
    match Read(s, Compat(scheme, service), luck.compat.read)
    case Some(password) =>
      if password != "" then
        Migrate(s, Compat(scheme, service), Primary(scheme, service), password, luck.compat, scheme.KeyAtService?)
      else OldStep(scheme, service, account, s, luck.older)
    case None => OldStep(scheme, service, account, s, luck.older)
  }

  /** Retrieving the password; no answer means that the formats before these are tried next. */
  function Retrieve(scheme: Scheme, service: string, account: string, s: Store, luck: Luck): Run {
    match Read(s, Primary(scheme, service), luck.primary)
    case Some(password) => Run(Some(password), [s])
    case None =>
      if scheme.Pairs? then OldStep(scheme, service, account, s, luck.older)
          else CompatStep(scheme, service, account, s, luck)
  }

  // ---------------------------------------------------------------- what is answered

  /** Whether the read of each name succeeds, if it is started. */
  function Reads(scheme: Scheme, luck: Luck): seq<bool> {
    if scheme.Pairs? then [luck.primary, luck.older.read] else [luck.primary, luck.compat.read, luck.older.read]
  }

  /** The `i`-th name can be read and holds a password; an empty one counts under the current name only. */
  predicate Holds(scheme: Scheme, service: string, account: string, s: Store, luck: Luck, i: nat) {
    var names, works := Names(scheme, service, account), Reads(scheme, luck);
    i < |names| && works[i] && names[i] in s && (i > 0 ==> s[names[i]] != "")
  }

  /** It is the first such name. */
  predicate FirstHolding(scheme: Scheme, service: string, account: string, s: Store, luck: Luck, i: nat) {
    && Holds(scheme, service, account, s, luck, i)
    && forall j: nat :: j < i ==> !Holds(scheme, service, account, s, luck, j)
  }

  /**
    The answer is what the first name that can be read holds, and there is none exactly
    when no name does; whether anything can be written or deleted plays no part.
  */
  lemma {:induction false} AnswerExactly(scheme: Scheme, service: string, account: string, s: Store, luck: Luck)
    ensures var password := Retrieve(scheme, service, account, s, luck).password;
            && (password.Some? <==> exists i: nat :: Holds(scheme, service, account, s, luck, i))
            && (forall i: nat :: FirstHolding(scheme, service, account, s, luck, i) ==>
                  password == Some(s[Names(scheme, service, account)[i]]))
  {
    var r := Retrieve(scheme, service, account, s, luck);
    if Holds(scheme, service, account, s, luck, 0) {
      assert r.password == Some(s[Primary(scheme, service)]);
    } else if Holds(scheme, service, account, s, luck, 1) {
      assert r.password == Some(s[Names(scheme, service, account)[1]]);
    } else if Holds(scheme, service, account, s, luck, 2) {
      assert r.password == Some(s[Names(scheme, service, account)[2]]);
    }
  }

  lemma {:induction false} AnswerIgnoresWrites(scheme: Scheme, service: string, account: string, s: Store, luck: Luck,
                                               luck': Luck)
    requires Reads(scheme, luck) == Reads(scheme, luck')
    ensures Retrieve(scheme, service, account, s, luck).password
         == Retrieve(scheme, service, account, s, luck').password
  {
    var works, works' := Reads(scheme, luck), Reads(scheme, luck');
    assert works[0] == works'[0] && works[1] == works'[1] && works[|works| - 1] == works'[|works| - 1];
  }

  // ---------------------------------------------------------------- nothing found is lost

  /** The password is under some name that the chain consults. */
  ghost predicate Reachable(scheme: Scheme, service: string, account: string, s: Store, password: string) {
    exists t :: t in Chain(scheme, service, account) && t in s && s[t] == password
  }

  ghost predicate NeverLost(scheme: Scheme, service: string, account: string, r: Run) {
    r.password.Some? ==> forall k :: 0 <= k < |r.stores| ==>
        Reachable(scheme, service, account, r.stores[k], r.password.value)
  }

  lemma {:induction false} MigrateKeeps(scheme: Scheme, service: string, account: string, s: Store, from: Target,
                                        m: Migration, cleans: bool)
    requires service != "" && from in Chain(scheme, service, account) && from in s
    requires cleans ==> from != Primary(scheme, service)
    ensures var r := Migrate(s, from, Primary(scheme, service), s[from], m, cleans);
            NeverLost(scheme, service, account, r)
            && (m.write ==> Primary(scheme, service) in r.stores[|r.stores| - 1]
                            && r.stores[|r.stores| - 1][Primary(scheme, service)] == s[from])
  {
    var to := Primary(scheme, service);
    var r := Migrate(s, from, to, s[from], m, cleans);
    forall k | 0 <= k < |r.stores| ensures Reachable(scheme, service, account, r.stores[k], s[from]) {
      if k == 0 || !m.write {
        assert r.stores[k] == s;
      } else {
        assert to in r.stores[k] && r.stores[k][to] == s[from];
      }
    }
  }

  lemma {:induction false} NamesDiffer(service: string)
    requires service != ""
    ensures service != service + "@" + service
  {
    assert |service + "@" + service| > |service|;
  }

  /**
    Whatever fails and wherever it stops, a password the chain has found stays
    under a name the chain consults, provided the older format's name is not the
    current one.
  */
  lemma {:induction false} FoundIsKept(scheme: Scheme, service: string, account: string, s: Store, luck: Luck)
    requires service != "" && OldFormat(scheme, service, account) != Primary(scheme, service)
    ensures NeverLost(scheme, service, account, Retrieve(scheme, service, account, s, luck))
  {
    var r := Retrieve(scheme, service, account, s, luck);
    NamesDiffer(service);
    match Read(s, Primary(scheme, service), luck.primary) {
      case Some(password) => assert Primary(scheme, service) in s && s[Primary(scheme, service)] == password;
      case None =>
        var older, compat := OldFormat(scheme, service, account), Compat(scheme, service);
        if older in s { MigrateKeeps(scheme, service, account, s, older, luck.older, true); }
        if compat in s && !scheme.Pairs? {
          MigrateKeeps(scheme, service, account, s, compat, luck.compat, scheme.KeyAtService?);
        }
    }
  }

  /** The condition is exact: where the two names coincide, some run of the jobs loses the password. */
  lemma {:induction false} KeptExactly(scheme: Scheme, service: string, account: string)
    requires service != ""
    ensures (forall s: Store, luck :: NeverLost(scheme, service, account, Retrieve(scheme, service, account, s, luck)))
            <==> OldFormat(scheme, service, account) != Primary(scheme, service)
  {
    var older := OldFormat(scheme, service, account);
    if older != Primary(scheme, service) {
      forall s: Store, luck ensures NeverLost(scheme, service, account, Retrieve(scheme, service, account, s, luck)) {
        FoundIsKept(scheme, service, account, s, luck);
      }
    } else {
      var s: Store := map[older := "x"];
      var m := Migration(true, true, true);
      var luck := Luck(false, Migration(false, false, false), m);
      var r := Retrieve(scheme, service, account, s, luck);
      assert r == OldStep(scheme, service, account, s, m) == Migrate(s, older, older, "x", m, true);
      assert r.stores[2] == map[];
      assert !Reachable(scheme, service, account, r.stores[2], "x");
      assert !NeverLost(scheme, service, account, r);
    }
  }

  /** When the names coincide, in terms of the service and the account. */
  lemma {:induction false} WhenNamesCoincide(scheme: Scheme, service: string, account: string)
    requires service != ""
    ensures OldFormat(scheme, service, account) == Primary(scheme, service)
            <==> account == if scheme.KeyAtService? then service + "@" + service else service
  {
  }

  // ---------------------------------------------------------------- where it ends up

  /** The store once every job has finished. */
  function Final(r: Run): Store
    requires r.stores != []
  {
    r.stores[|r.stores| - 1]
  }

  /** What happens to the jobs that move a password found under the `i`-th name. */
  function Moving(scheme: Scheme, luck: Luck, i: nat): Migration {
    if scheme.Pairs? || i == 2 then luck.older else luck.compat
  }

  /**
    A password found under an older name is written to the current name, if that can be
    done, and only then is the older entry deleted: the pre-0.17 entry only where naming
    has changed since, the old format's always.  Nothing else in the store changes.
  */
  lemma {:induction false} MovedExactly(scheme: Scheme, service: string, account: string, s: Store, luck: Luck,
                                        i: nat)
    requires FirstHolding(scheme, service, account, s, luck, i)
    ensures var r := Retrieve(scheme, service, account, s, luck); var names := Names(scheme, service, account);
            var from, to := names[i], names[0];
            var moves := i > 0 && Moving(scheme, luck, i).write;
            var leaves := moves && Moving(scheme, luck, i).delete && (scheme.KeyAtService? || i == |names| - 1);
            && r.stores != []
            && (forall t :: t in Final(r) <==> (t in s || (moves && t == to)) && !(leaves && t == from))
            && (forall t :: t in Final(r) ==> Final(r)[t] == if moves && t == to then s[from] else s[t])
  {
    if i > 0 { assert !Holds(scheme, service, account, s, luck, 0); }
    if i > 1 { assert !Holds(scheme, service, account, s, luck, 1); }
  }

  /** When no name can be read, nothing is written or deleted. */
  lemma {:induction false} NothingMoves(scheme: Scheme, service: string, account: string, s: Store, luck: Luck)
    requires forall i: nat :: !Holds(scheme, service, account, s, luck, i)
    ensures Retrieve(scheme, service, account, s, luck) == Run(None, [s])
  {
    assert !Holds(scheme, service, account, s, luck, 0) && !Holds(scheme, service, account, s, luck, 1)
           && !Holds(scheme, service, account, s, luck, 2);
  }

  /** The first name that can be read, if any can. */
  lemma {:induction false} SomeFirst(scheme: Scheme, service: string, account: string, s: Store, luck: Luck, i: nat)
    returns (k: nat)
    requires Holds(scheme, service, account, s, luck, i)
    ensures FirstHolding(scheme, service, account, s, luck, k)
  {
    k := if Holds(scheme, service, account, s, luck, 0) then 0
         else if Holds(scheme, service, account, s, luck, 1) then 1 else 2;
  }

  /** Once the write is through, the next retrieval finds the password at the first place it looks. */
  lemma {:induction false} FoundFirstNextTime(scheme: Scheme, service: string, account: string, s: Store, luck: Luck,
                                              again: Luck)
    requires service != "" && OldFormat(scheme, service, account) != Primary(scheme, service)
    requires luck.compat.write && luck.older.write && again.primary
    ensures var r := Retrieve(scheme, service, account, s, luck);
            r.stores != [] && (r.password.Some? ==>
                Retrieve(scheme, service, account, Final(r), again) == Run(r.password, [Final(r)]))
  {
    var r := Retrieve(scheme, service, account, s, luck);
    AnswerExactly(scheme, service, account, s, luck);
    if r.password.Some? {
      var i: nat :| Holds(scheme, service, account, s, luck, i);
      i := SomeFirst(scheme, service, account, s, luck, i);
      MovedExactly(scheme, service, account, s, luck, i);
      NamesDiffer(service);
      assert Primary(scheme, service) in Final(r) && Some(Final(r)[Primary(scheme, service)]) == r.password;
    }
  }

  /** Entries under other names are left alone at every step. */
  lemma {:induction false} OthersUntouched(scheme: Scheme, service: string, account: string, s: Store, luck: Luck,
                                           t: Target, k: nat)
    requires t !in Chain(scheme, service, account) && k < |Retrieve(scheme, service, account, s, luck).stores|
    ensures var s' := Retrieve(scheme, service, account, s, luck).stores[k];
            (t in s' <==> t in s) && (t in s ==> s'[t] == s[t])
  {
  }

  /**
    What the current name held is replaced precisely when reading it failed, an older
    name held something else, and the write went through: a failure that is not a
    missing entry can put an older password back.
  */
  lemma {:induction false} ReplacedExactly(scheme: Scheme, service: string, account: string, s: Store, luck: Luck)
    requires service != "" && OldFormat(scheme, service, account) != Primary(scheme, service)
    requires Primary(scheme, service) in s
    ensures var r := Retrieve(scheme, service, account, s, luck); var p := Primary(scheme, service);
            r.stores != [] && p in Final(r)
            && (Final(r)[p] != s[p] <==>
                !luck.primary
                && (var compat := if scheme.Pairs? then None else Read(s, Compat(scheme, service), luck.compat.read);
                    var older := Read(s, OldFormat(scheme, service, account), luck.older.read);
                    if compat.Some? && compat.value != "" then compat.value != s[p] && luck.compat.write
                    else older.Some? && older.value != "" && older.value != s[p] && luck.older.write))
  {
    NamesDiffer(service);
  }
}
