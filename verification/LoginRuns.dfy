/**
 Runs of overlapping requests on the stores of the second factor: logins
 (internal/api/handlers_auth.go), enrolling and disabling (internal/api/mfa.go),
 the emergency reset (cmd/vpsmctl/mfa_emergency.go) and the revocation of devices.

 A request is split where another may come between two of its accesses to the same
 store, or between what the provider tells it and what it writes down. It is known
 by the position of the step that started it.
 */
module LoginRuns {
  import opened Options
  import opened BackupCodes
  import opened LoginMfa

  datatype Flight =
    | Asked(l: Login)                 // the provider has answered the lookup
    | Loaded(l: Login, codes: Codes)  // the backup codes are loaded and one of them fits
    | Enrolling(user: string)         // the provider has verified the factor
    | Disabling(user: string)         // the provider has deleted the factor

  datatype Op =
    | Ask(l: Login)
    | Check(r: nat)
    | Consume(r: nat)
    | FactorVerified(user: string)
    | Enrolled(r: nat, keys: Option<seq<string>>)       // None: the codes were not generated or not saved
    | FactorDeleted(user: string)
    | Disabled(r: nat, deleted: bool, revoked: bool)    // whether codes and devices could be deleted
    | RevokeDevices(user: string)
    | StaleDevices(user: string, k: nat)                // a device file is written back as it was after k steps
    | EmergencyReset(user: string, deleted: bool)

  datatype Sys = Sys(store: State, flights: map<nat, Flight>)

  // ---------------------------------------------------------------- one step

  predicate At(sys: Sys, r: nat, f: Flight) { r in sys.flights && sys.flights[r] == f }

  /** Mirror, device and code are checked; a backup code that fits is left to be consumed. */
  function AfterCheck(sys: Sys, r: nat, l: Login): (sys': Sys) {
    var st := sys.store;
    if TriesBackup(st, l) && HasBackup(st, l)
    then Sys(Synced(st, l), sys.flights[r := Loaded(l, CodesOf(st.codes, l.username))])
    else Sys(Minted(Synced(st, l), l, Decide(st, l)), sys.flights - {r})
  }

  function AfterConsume(sys: Sys, r: nat, l: Login, codes: Codes): (sys': Sys) {
    Sys(if l.codesSaved then Minted(WithCodes(sys.store, l.username, Spent(codes, Key(l.code))), l, BackupUsed)
        else sys.store,
        sys.flights - {r})
  }

  function AfterEnrol(sys: Sys, r: nat, user: string, keys: Option<seq<string>>): (sys': Sys) {
    Sys(if keys.None? then sys.store
        else WithCodes(sys.store, user, Fresh(keys.value)).(users := WithMirror(sys.store.users, user, true)),
        sys.flights - {r})
  }

  function AfterDisable(sys: Sys, r: nat, user: string, deleted: bool, revoked: bool): (sys': Sys) {
    var st := sys.store;
    Sys(State(WithMirror(st.users, user, false),
              if revoked then st.devices - {user} else st.devices,
              if deleted then st.codes - {user} else st.codes),
        sys.flights - {r})
  }

  function Next(sys: Sys, op: Op, n: nat): (sys': Sys) {
    match op
    case Ask(l) => if l.admitted then sys.(flights := sys.flights[n := Asked(l)]) else sys
    case Check(r) =>
      if r in sys.flights && sys.flights[r].Asked? then AfterCheck(sys, r, sys.flights[r].l) else sys
    case Consume(r) =>
      if r in sys.flights && sys.flights[r].Loaded? then AfterConsume(sys, r, sys.flights[r].l, sys.flights[r].codes)
      else sys
    case FactorVerified(user) => sys.(flights := sys.flights[n := Enrolling(user)])
    case Enrolled(r, keys) =>
      if r in sys.flights && sys.flights[r].Enrolling? then AfterEnrol(sys, r, sys.flights[r].user, keys) else sys
    case FactorDeleted(user) => sys.(flights := sys.flights[n := Disabling(user)])
    case Disabled(r, deleted, revoked) =>
      if r in sys.flights && sys.flights[r].Disabling? then AfterDisable(sys, r, sys.flights[r].user, deleted, revoked)
      else sys
    case RevokeDevices(user) => sys.(store := sys.store.(devices := sys.store.devices - {user}))
    case StaleDevices(_, _) => sys
    case EmergencyReset(user, deleted) =>
      if deleted then sys.(store := sys.store.(codes := sys.store.codes - {user})) else sys
  }

  function Run(st: State, ops: seq<Op>): (sys: Sys)
    decreases |ops|
  {
    if ops == [] then Sys(st, map[])
    else
      var n := |ops| - 1;
      var sys := Next(Run(st, ops[..n]), ops[n], n);
      if ops[n].StaleDevices? && ops[n].k <= n then
        var then_ := Of(Run(st, ops[..ops[n].k]).store.devices, ops[n].user);
        sys.(store := sys.store.(devices := sys.store.devices[ops[n].user := then_]))
      else sys
  }

  /** The step issues a session token. */
  predicate Opens(sys: Sys, op: Op)
    ensures Opens(sys, op) ==> op.Check? || op.Consume?
  {
    || (&& op.Check? && op.r in sys.flights && sys.flights[op.r].Asked?
        && var l := sys.flights[op.r].l;
           l.issued && LetsIn(Decide(sys.store, l)) && !(TriesBackup(sys.store, l) && HasBackup(sys.store, l)))
    || (&& op.Consume? && op.r in sys.flights && sys.flights[op.r].Loaded?
        && sys.flights[op.r].l.issued && sys.flights[op.r].l.codesSaved)
  }

  /** The two steps of a login are the login: checked at `sys` and, if it comes to that, consumed at `later`, it issues
      its token exactly as decided by the stores at the check, and leaves the codes the login leaves. */
  lemma LoginInSteps(sys: Sys, r: nat, l: Login, later: Sys)
    requires At(sys, r, Asked(l)) && l.admitted
    ensures var checked := AfterCheck(sys, r, l);
      if r !in checked.flights then
        && (Opens(sys, Check(r)) <==> Issues(sys.store, l))
        && checked.store == AfterLogin(sys.store, l, [])
      else
        && checked.flights[r] == Loaded(l, CodesOf(sys.store.codes, l.username)) && !Opens(sys, Check(r))
        && (At(later, r, checked.flights[r]) ==>
              && (Opens(later, Consume(r)) <==> Issues(sys.store, l))
              && CodesOf(Next(later, Consume(r), 0).store.codes, l.username)
                 == CodesOf(AfterLogin(sys.store, l, CodesOf(later.store.codes, l.username)).codes, l.username)
              && Of(Next(later, Consume(r), 0).store.devices, l.username)
                 == Of(later.store.devices, l.username)
                    + (if l.codesSaved && l.remember && l.minted.Some? then {l.minted.value} else {}))
  {
    hide Key, Unused, Spent, WithMirror, Mirror;
  }

  /** At its check a login is let in at once exactly if it needs no second factor, or brings a trusted device or an
      accepted code: in every state, so at every point of every run. */
  lemma OpensAtCheck(sys: Sys, r: nat, l: Login)
    requires At(sys, r, Asked(l))
    ensures Opens(sys, Check(r)) <==>
      && l.issued
      && (|| !l.session
          || (l.lookup.LookupFailed? && !Mirror(sys.store.users, l.username))
          || (l.lookup.Factor? && (l.lookup.id == "" || l.lookup.status != "verified"))
          || (l.lookup.Factor? && (Trusted(sys.store, l) || (l.code != "" && l.codeAccepted))))
    ensures Opens(sys, Check(r)) ==> r !in Next(sys, Check(r), 0).flights
  {
    hide Key, Unused, Spent, WithMirror, Mirror;
  }

  /** An enrolment that saves its codes turns the mirror on and hands out exactly those codes; disabling turns it off,
      and takes codes and devices away as far as they can be deleted. */
  lemma EnrolAndDisable(sys: Sys, r: nat, n: nat, user: string, keys: seq<string>, key: string, deleted: bool, revoked: bool)
    requires Known(sys.store.users, user)
    ensures At(sys, r, Enrolling(user)) ==>
      var after := Next(sys, Enrolled(r, Some(keys)), n).store;
      && Mirror(after.users, user) && after.devices == sys.store.devices
      && Unused(CodesOf(after.codes, user), key) == Occurrences(keys, key)
    ensures At(sys, r, Disabling(user)) ==>
      var after := Next(sys, Disabled(r, deleted, revoked), n).store;
      && !Mirror(after.users, user)
      && CodesOf(after.codes, user) == (if deleted then [] else CodesOf(sys.store.codes, user))
      && Of(after.devices, user) == (if revoked then {} else Of(sys.store.devices, user))
    ensures Of(Next(sys, RevokeDevices(user), n).store.devices, user) == {}
    ensures var after := Next(sys, EmergencyReset(user, deleted), n).store;
      && after.users == sys.store.users && after.devices == sys.store.devices
      && CodesOf(after.codes, user) == (if deleted then [] else CodesOf(sys.store.codes, user))
  {
    hide Mirror, WithMirror, Known, Unused, Fresh;
    MirrorAfterWrite(sys.store.users, user, true, user);
    MirrorAfterWrite(sys.store.users, user, false, user);
    FreshCounts(keys, key);
  }

  // ---------------------------------------------------------------- what a step does to each store

  /** The request that writes a user's mirror at this step. */
  function Writer(sys: Sys, op: Op, user: string): (r: Option<nat>) {
    match op
    case Check(r) =>
      if r in sys.flights && sys.flights[r].Asked? && sys.flights[r].l.session && sys.flights[r].l.lookup.Factor?
         && sys.flights[r].l.username == user then Some(r) else None
    case Enrolled(r, keys) => if At(sys, r, Enrolling(user)) && keys.Some? then Some(r) else None
    case Disabled(r, _, _) => if At(sys, r, Disabling(user)) then Some(r) else None
    case _ => None
  }

  /** What a request in flight was told about the factor. */
  function Told(f: Flight): (on: bool) {
    match f
    case Asked(l) => Verified(l.lookup)
    case Loaded(l, _) => Verified(l.lookup)
    case Enrolling(_) => true
    case Disabling(_) => false
  }

  lemma MirrorNext(sys: Sys, op: Op, n: nat, user: string)
    requires Known(sys.store.users, user)
    ensures var sys' := Next(sys, op, n); var w := Writer(sys, op, user);
      && Known(sys'.store.users, user)
      && Mirror(sys'.store.users, user)
         == if w.Some? then Told(sys.flights[w.value]) else Mirror(sys.store.users, user)
  {
    hide Key, Unused, Spent, WithMirror, Mirror, Known, Decide, TriesBackup, HasBackup;
    var users := sys.store.users;
    match op {
      case Check(r) =>
        if r in sys.flights && sys.flights[r].Asked? {
          MirrorAfterWrite(users, sys.flights[r].l.username, Verified(sys.flights[r].l.lookup), user);
        }
      case Enrolled(r, _) =>
        if r in sys.flights && sys.flights[r].Enrolling? {
          MirrorAfterWrite(users, sys.flights[r].user, true, user);
        }
      case Disabled(r, _, _) =>
        if r in sys.flights && sys.flights[r].Disabling? {
          MirrorAfterWrite(users, sys.flights[r].user, false, user);
        }
      case _ =>
    }
  }

  /** The step spends a backup code of the user. */
  predicate Spends(sys: Sys, op: Op, user: string) {
    && op.Consume? && op.r in sys.flights && sys.flights[op.r].Loaded?
    && sys.flights[op.r].l.codesSaved && sys.flights[op.r].l.username == user
  }

  predicate HandsOut(sys: Sys, op: Op, user: string) {
    op.Enrolled? && At(sys, op.r, Enrolling(user)) && op.keys.Some?
  }

  predicate Erases(sys: Sys, op: Op, user: string) {
    || (op.Disabled? && At(sys, op.r, Disabling(user)) && op.deleted)
    || (op.EmergencyReset? && op.user == user && op.deleted)
  }

  /** The step loads the user's codes and finds one that fits. */
  predicate Loads(sys: Sys, op: Op, user: string) {
    && op.Check? && op.r in sys.flights && sys.flights[op.r].Asked?
    && var l := sys.flights[op.r].l;
       l.username == user && TriesBackup(sys.store, l) && HasBackup(sys.store, l)
  }

  function CodesAfter(sys: Sys, op: Op, user: string): (codes: Codes) {
    if Spends(sys, op, user) then Spent(sys.flights[op.r].codes, Key(sys.flights[op.r].l.code))
    else if HandsOut(sys, op, user) then Fresh(op.keys.value)
    else if Erases(sys, op, user) then []
    else CodesOf(sys.store.codes, user)
  }

  lemma CodesNext(sys: Sys, op: Op, n: nat, user: string)
    ensures CodesOf(Next(sys, op, n).store.codes, user) == CodesAfter(sys, op, user)
  {
    hide Key, Unused, Spent, WithMirror, Decide, TriesBackup, HasBackup, Fresh;
  }

  lemma LoadedNext(sys: Sys, op: Op, n: nat, r: nat)
    requires r in Next(sys, op, n).flights && Next(sys, op, n).flights[r].Loaded?
    ensures var f := Next(sys, op, n).flights[r];
      || At(sys, r, f)
      || (&& op == Check(r) && Loads(sys, op, f.l.username) && f.codes == CodesOf(sys.store.codes, f.l.username)
          && Unused(f.codes, Key(f.l.code)) > 0)
  {
    hide Key, Unused, Spent, WithMirror, Decide, Fresh;
  }

  /** A run changes mirror, codes and requests step by step. */
  lemma RunNext(st: State, ops: seq<Op>)
    requires ops != []
    ensures var n := |ops| - 1; var next := Next(Run(st, ops[..n]), ops[n], n);
      && Run(st, ops).flights == next.flights && Run(st, ops).store.users == next.store.users
      && Run(st, ops).store.codes == next.store.codes
      && (!ops[n].StaleDevices? ==> Run(st, ops) == next)
  {
  }

  // ---------------------------------------------------------------- the mirror

  /** What the provider says about a user at this step. */
  function Word(op: Op, user: string): (on: Option<bool>) {
    match op
    case Ask(l) =>
      if l.admitted && l.session && l.lookup.Factor? && l.username == user then Some(Verified(l.lookup)) else None
    case FactorVerified(u) => if u == user then Some(true) else None
    case FactorDeleted(u) => if u == user then Some(false) else None
    case EmergencyReset(u, _) => if u == user then Some(false) else None
    case _ => None
  }

  /** The step at which the provider last said anything about a user. */
  function LastHeard(ops: seq<Op>, user: string): (k: Option<nat>)
    ensures k.Some? ==> k.value < |ops| && Word(ops[k.value], user).Some?
  {
    if ops == [] then None
    else if Word(ops[|ops| - 1], user).Some? then Some(|ops| - 1)
    else LastHeard(ops[..|ops| - 1], user)
  }

  /** The request that last wrote the mirror of a user, known by the step at which the provider spoke to it. */
  function LastWritten(st: State, ops: seq<Op>, user: string): (k: Option<nat>) {
    if ops == [] then None
    else
      var w := Writer(Run(st, ops[..|ops| - 1]), ops[|ops| - 1], user);
      if w.Some? then w else LastWritten(st, ops[..|ops| - 1], user)
  }

  function Said(ops: seq<Op>, k: Option<nat>, user: string, initially: bool): (on: bool) {
    if k.Some? && k.value < |ops| && Word(ops[k.value], user).Some? then Word(ops[k.value], user).value else initially
  }

  /** The provider's last word about a user. */
  function LastWord(ops: seq<Op>, user: string, initially: bool): (on: bool) {
    Said(ops, LastHeard(ops, user), user, initially)
  }

  /** The request that heard the provider's last word has written it down, and none has written since. */
  predicate Settled(st: State, ops: seq<Op>, user: string) {
    LastWritten(st, ops, user) == LastHeard(ops, user)
  }

  /** What a request in flight carries is what the step that started it brought. */
  predicate Remembers(f: Flight, op: Op) {
    match f
    case Asked(l) => op == Ask(l) && l.admitted
    case Loaded(l, _) => op == Ask(l) && l.admitted
    case Enrolling(user) => op == FactorVerified(user)
    case Disabling(user) => op == FactorDeleted(user)
  }

  lemma FlightNext(sys: Sys, op: Op, n: nat, r: nat)
    requires r in Next(sys, op, n).flights
    ensures || (r in sys.flights && forall o :: Remembers(sys.flights[r], o) ==> Remembers(Next(sys, op, n).flights[r], o))
            || (r == n && Remembers(Next(sys, op, n).flights[r], op))
  {
    hide Key, Unused, Spent, WithMirror, Decide, TriesBackup, HasBackup, Fresh;
  }

  lemma {:induction false} FlightsRemember(st: State, ops: seq<Op>, r: nat)
    requires r in Run(st, ops).flights
    ensures r < |ops| && Remembers(Run(st, ops).flights[r], ops[r])
  {
    hide Run, Next, Remembers;
    if ops == [] {
      NothingYet(st);
    } else {
      var n := |ops| - 1;
      RunNext(st, ops);
      FlightNext(Run(st, ops[..n]), ops[n], n, r);
      if r in Run(st, ops[..n]).flights {
        FlightsRemember(st, ops[..n], r);
      }
    }
  }

  /** In every run a token goes only to a login that limits, lockout and password had let through. */
  lemma OnlyTheAdmittedGetIn(st: State, ops: seq<Op>, op: Op)
    requires Opens(Run(st, ops), op)
    ensures op.r < |ops| && ops[op.r].Ask? && ops[op.r].l.admitted && ops[op.r].l.issued
  {
    hide Run, Decide, TriesBackup, HasBackup;
    FlightsRemember(st, ops, op.r);
  }

  lemma NothingYet(st: State)
    ensures Run(st, []) == Sys(st, map[])
  {
  }

  lemma ToldIsSaid(st: State, ops: seq<Op>, op: Op, user: string)
    requires Writer(Run(st, ops), op, user).Some?
    ensures var w := Writer(Run(st, ops), op, user).value;
      w < |ops| && Word(ops[w], user) == Some(Told(Run(st, ops).flights[w]))
  {
    hide Run;
    FlightsRemember(st, ops, Writer(Run(st, ops), op, user).value);
  }

  /** In every run the mirror of a configured user is what the last request to write it had been told. */
  lemma {:induction false} MirrorIsWhatWasWritten(st: State, ops: seq<Op>, user: string)
    requires Known(st.users, user)
    ensures Known(Run(st, ops).store.users, user)
    ensures Mirror(Run(st, ops).store.users, user)
         == Said(ops, LastWritten(st, ops, user), user, Mirror(st.users, user))
    ensures LastWritten(st, ops, user).Some? ==> LastWritten(st, ops, user).value < |ops|
  {
    hide Run, Next, Mirror, Known, Word, Writer, Told;
    if ops == [] {
      NothingYet(st);
    } else {
      var n := |ops| - 1;
      var before := ops[..n];
      MirrorIsWhatWasWritten(st, before, user);
      RunNext(st, ops);
      MirrorNext(Run(st, before), ops[n], n, user);
      if Writer(Run(st, before), ops[n], user).Some? {
        ToldIsSaid(st, before, ops[n], user);
      }
    }
  }

  /** The mirror is the provider's last word whenever that word is settled; otherwise exactly if the request that wrote
      last had been told the same. */
  lemma MirrorIsTheLastWord(st: State, ops: seq<Op>, user: string)
    requires Known(st.users, user)
    ensures Settled(st, ops, user) ==>
              Mirror(Run(st, ops).store.users, user) == LastWord(ops, user, Mirror(st.users, user))
    ensures Mirror(Run(st, ops).store.users, user) == LastWord(ops, user, Mirror(st.users, user)) <==>
              Said(ops, LastWritten(st, ops, user), user, Mirror(st.users, user))
              == Said(ops, LastHeard(ops, user), user, Mirror(st.users, user))
  {
    hide Run, Mirror, Known;
    MirrorIsWhatWasWritten(st, ops, user);
  }

  /** A login whose own lookup fails is let in exactly if the request that last wrote the mirror had been told that there
      is no factor; once the provider's last word is settled, exactly if that word was "no factor". */
  lemma FailsClosed(st: State, ops: seq<Op>, r: nat, l: Login)
    requires At(Run(st, ops), r, Asked(l)) && l.session && l.lookup.LookupFailed? && Known(st.users, l.username)
    ensures Opens(Run(st, ops), Check(r)) <==>
              l.issued && !Said(ops, LastWritten(st, ops, l.username), l.username, Mirror(st.users, l.username))
    ensures Settled(st, ops, l.username) ==>
              (Opens(Run(st, ops), Check(r)) <==>
                 l.issued && !LastWord(ops, l.username, Mirror(st.users, l.username)))
  {
    hide Run, Mirror, Known, LastWritten, Said;
    MirrorIsWhatWasWritten(st, ops, l.username);
  }

  // ---------------------------------------------------------------- when the last word is settled

  /** The request has heard about the user and has yet to write it down. */
  predicate Pending(f: Flight, user: string) {
    match f
    case Asked(l) => l.session && l.lookup.Factor? && l.username == user
    case Loaded(_, _) => false
    case Enrolling(u) => u == user
    case Disabling(u) => u == user
  }

  ghost predicate Quiet(sys: Sys, user: string) {
    forall r | r in sys.flights :: !Pending(sys.flights[r], user)
  }

  /** The provider is not asked about a user while a request has yet to write down what it said before. */
  ghost predicate InTurn(st: State, ops: seq<Op>, user: string) {
    ops == [] ||
    var before, op := ops[..|ops| - 1], ops[|ops| - 1];
    InTurn(st, before, user) && (Word(op, user).Some? ==> Quiet(Run(st, before), user))
  }

  /** The step ends an enrolment without saving its codes, or resets the factor behind the panel's back. */
  predicate Loses(sys: Sys, op: Op, user: string) {
    (op.Enrolled? && At(sys, op.r, Enrolling(user)) && op.keys.None?) || (op.EmergencyReset? && op.user == user)
  }

  /** That has happened since the mirror was last written. */
  predicate WordLost(st: State, ops: seq<Op>, user: string) {
    && ops != []
    && var before, op := ops[..|ops| - 1], ops[|ops| - 1];
       || Loses(Run(st, before), op, user)
       || (WordLost(st, before, user) && Writer(Run(st, before), op, user).None?)
  }

  lemma PendingNext(sys: Sys, op: Op, n: nat, user: string)
    ensures forall r | r in Next(sys, op, n).flights && Pending(Next(sys, op, n).flights[r], user) ::
              || (r == n && Word(op, user).Some?)
              || (&& r in sys.flights && Pending(sys.flights[r], user)
                  && Writer(sys, op, user) != Some(r) && !(op.Enrolled? && op.r == r && Loses(sys, op, user)))
    ensures Writer(sys, op, user).Some? ==>
              Writer(sys, op, user).value in sys.flights && Pending(sys.flights[Writer(sys, op, user).value], user)
    ensures n !in sys.flights && Quiet(Next(sys, op, n), user) ==>
              && (Word(op, user).Some? ==> op.EmergencyReset?)
              && (Quiet(sys, user) || Writer(sys, op, user).Some? || Loses(sys, op, user))
  {
    hide Key, Unused, Spent, WithMirror, Decide, TriesBackup, HasBackup, Fresh;
    var sys' := Next(sys, op, n);
    forall r | n !in sys.flights && r in sys.flights && Pending(sys.flights[r], user)
      ensures || (r in sys'.flights && Pending(sys'.flights[r], user))
              || Writer(sys, op, user).Some? || Loses(sys, op, user)
    {
      assert r in sys'.flights ==> sys'.flights[r] == sys.flights[r] || op == Check(r);
    }
    if Word(op, user).Some? && !op.EmergencyReset? {
      assert n in sys'.flights && Pending(sys'.flights[n], user);
    }
  }

  /** While requests about a user take turns, the last word is settled exactly if no enrolment failed to save its codes,
      and no emergency reset happened, since the mirror was last written; a request under way is the one that heard it. */
  lemma {:induction false} SettledIff(st: State, ops: seq<Op>, user: string)
    requires InTurn(st, ops, user)
    ensures forall r | r in Run(st, ops).flights && Pending(Run(st, ops).flights[r], user) ::
              LastHeard(ops, user) == Some(r) && LastWritten(st, ops, user) != Some(r)
    ensures LastWritten(st, ops, user).Some? ==> LastWritten(st, ops, user).value < |ops|
    ensures Quiet(Run(st, ops), user) ==> (Settled(st, ops, user) <==> !WordLost(st, ops, user))
  {
    hide Run, Next, Word, Writer, Pending, Loses;
    if ops == [] {
      NothingYet(st);
    } else {
      var n := |ops| - 1;
      var before, op := ops[..n], ops[n];
      var sys := Run(st, before);
      SettledIff(st, before, user);
      RunNext(st, ops);
      PendingNext(sys, op, n, user);
      LosesOnly(sys, op, user);
      if n in sys.flights {
        FlightsRemember(st, before, n);
      }
    }
  }

  lemma LosesOnly(sys: Sys, op: Op, user: string)
    ensures Loses(sys, op, user) ==>
              && Writer(sys, op, user).None?
              && (Word(op, user).Some? || (op.Enrolled? && op.r in sys.flights && Pending(sys.flights[op.r], user)))
    ensures Word(op, user).Some? ==> Writer(sys, op, user).None? && (op.EmergencyReset? <==> Loses(sys, op, user))
  {
  }

  lemma RunAppend(st: State, ops: seq<Op>, op: Op)
    requires !op.StaleDevices?
    ensures Run(st, ops + [op]) == Next(Run(st, ops), op, |ops|)
  {
    assert (ops + [op])[..|ops|] == ops;
  }

  lemma LastWordAppend(ops: seq<Op>, op: Op, user: string, initially: bool)
    ensures LastWord(ops + [op], user, initially)
         == if Word(op, user).Some? then Word(op, user).value else LastWord(ops, user, initially)
  {
    assert (ops + [op])[..|ops|] == ops;
  }

  /** After any run that left the mirror off: an enrolment that the provider has verified but whose codes were not saved
      leaves it off, and a login whose lookup fails is then let in without the factor. */
  lemma UnsavedEnrolmentIsForgotten(st: State, ops: seq<Op>, l: Login, initially: bool)
    requires !Mirror(Run(st, ops).store.users, l.username)
    requires l.admitted && l.session && l.lookup.LookupFailed? && l.issued
    ensures var after := ops + [FactorVerified(l.username)] + [Enrolled(|ops|, None)] + [Ask(l)];
      && LastWord(after, l.username, initially) && !Mirror(Run(st, after).store.users, l.username)
      && Opens(Run(st, after), Check(|ops| + 2))
  {
    hide Run, LastWord, Mirror;
    var a := ops + [FactorVerified(l.username)];
    var b := a + [Enrolled(|ops|, None)];
    RunAppend(st, ops, FactorVerified(l.username));
    RunAppend(st, a, Enrolled(|ops|, None));
    RunAppend(st, b, Ask(l));
    LastWordAppend(ops, FactorVerified(l.username), l.username, initially);
    LastWordAppend(a, Enrolled(|ops|, None), l.username, initially);
    LastWordAppend(b, Ask(l), l.username, initially);
  }

  /** Nor do turns go without saying: a login that asked before an enrolment and writes after it takes the mirror back. */
  lemma StaleLookupTakesTheMirrorBack(st: State, ops: seq<Op>, l: Login, keys: seq<string>, initially: bool)
    requires Known(Run(st, ops).store.users, l.username)
    requires l.admitted && l.session && l.lookup.Factor? && !Verified(l.lookup)
    ensures var n := |ops|;
      var after := ops + [Ask(l)] + [FactorVerified(l.username)] + [Enrolled(n + 1, Some(keys))] + [Check(n)];
      LastWord(after, l.username, initially) && !Mirror(Run(st, after).store.users, l.username)
  {
    hide Run, LastWord, Mirror, Known, Next;
    var n := |ops|;
    var a := ops + [Ask(l)];
    var b := a + [FactorVerified(l.username)];
    var c := b + [Enrolled(n + 1, Some(keys))];
    RunAppend(st, ops, Ask(l));
    RunAppend(st, a, FactorVerified(l.username));
    RunAppend(st, b, Enrolled(n + 1, Some(keys)));
    RunAppend(st, c, Check(n));
    FourSteps(Run(st, ops), l, n, keys);
    LastWordAppend(ops, Ask(l), l.username, initially);
    LastWordAppend(a, FactorVerified(l.username), l.username, initially);
    LastWordAppend(b, Enrolled(n + 1, Some(keys)), l.username, initially);
    LastWordAppend(c, Check(n), l.username, initially);
  }

  lemma FourSteps(sys: Sys, l: Login, n: nat, keys: seq<string>)
    requires Known(sys.store.users, l.username)
    requires l.admitted && l.session && l.lookup.Factor? && !Verified(l.lookup)
    ensures var c := Next(Next(Next(sys, Ask(l), n), FactorVerified(l.username), n + 1), Enrolled(n + 1, Some(keys)), n + 2);
      !Mirror(Next(c, Check(n), n + 3).store.users, l.username)
  {
    hide Mirror, WithMirror, Known, Fresh;
    var c := Next(Next(Next(sys, Ask(l), n), FactorVerified(l.username), n + 1), Enrolled(n + 1, Some(keys)), n + 2);
    MirrorAfterWrite(sys.store.users, l.username, true, l.username);
    MirrorAfterWrite(c.store.users, l.username, false, l.username);
  }

  // ---------------------------------------------------------------- backup codes

  /** How often a code of a user has opened a login. */
  function Uses(st: State, ops: seq<Op>, user: string, key: string): (n: nat) {
    if ops == [] then 0
    else
      var sys, op := Run(st, ops[..|ops| - 1]), ops[|ops| - 1];
      Uses(st, ops[..|ops| - 1], user, key)
      + if Spends(sys, op, user) && Key(sys.flights[op.r].l.code) == key then 1 else 0
  }

  /** How often it was handed out: on file at the start, and at each enrolment that saved its codes. */
  function Handed(st: State, ops: seq<Op>, user: string, key: string): (n: nat) {
    if ops == [] then Unused(CodesOf(st.codes, user), key)
    else
      var sys, op := Run(st, ops[..|ops| - 1]), ops[|ops| - 1];
      Handed(st, ops[..|ops| - 1], user, key)
      + if HandsOut(sys, op, user) then Occurrences(op.keys.value, key) else 0
  }

  function OnFile(st: State, ops: seq<Op>, user: string, key: string): (n: nat) {
    Unused(CodesOf(Run(st, ops).store.codes, user), key)
  }

  /** At every point of the run the code has been used at most once, and once used it cannot be used again. */
  predicate OneShot(st: State, ops: seq<Op>, user: string, key: string) {
    && Uses(st, ops, user, key) + OnFile(st, ops, user, key) <= 1
    && (ops == [] || OneShot(st, ops[..|ops| - 1], user, key))
  }

  /** At some point a login saved a file that it had loaded with the code unused, although the code had been used. */
  predicate SavedStale(st: State, ops: seq<Op>, user: string, key: string) {
    && ops != []
    && var before, op := ops[..|ops| - 1], ops[|ops| - 1];
       var sys := Run(st, before);
       || SavedStale(st, before, user, key)
       || (Spends(sys, op, user) && Unused(sys.flights[op.r].codes, key) > 0 && Uses(st, before, user, key) > 0)
  }

  lemma CodesOfRun(st: State, ops: seq<Op>, user: string)
    requires ops != []
    ensures CodesOf(Run(st, ops).store.codes, user) == CodesAfter(Run(st, ops[..|ops| - 1]), ops[|ops| - 1], user)
  {
    hide Run, Next;
    RunNext(st, ops);
    CodesNext(Run(st, ops[..|ops| - 1]), ops[|ops| - 1], |ops| - 1, user);
  }

  /** Neither the file nor what a login has loaded of it offers a code more often than it was handed out. */
  lemma {:induction false} NothingBeyondHandOuts(st: State, ops: seq<Op>, user: string, key: string)
    ensures OnFile(st, ops, user, key) <= Handed(st, ops, user, key)
    ensures forall r | r in Run(st, ops).flights && Run(st, ops).flights[r].Loaded?
                     && Run(st, ops).flights[r].l.username == user ::
              var f := Run(st, ops).flights[r];
              Unused(f.codes, key) <= Handed(st, ops, user, key) && Unused(f.codes, Key(f.l.code)) > 0
  {
    hide Run, Next, Key, Unused, Spent, Fresh, CodesOf;
    if ops == [] {
      NothingYet(st);
    } else {
      var n := |ops| - 1;
      var before, op := ops[..n], ops[n];
      var sys := Run(st, before);
      NothingBeyondHandOuts(st, before, user, key);
      CodesOfRun(st, ops, user);
      RunNext(st, ops);
      NoCodes(key);
      if Spends(sys, op, user) {
        SpentCounts(sys.flights[op.r].codes, Key(sys.flights[op.r].l.code), key);
      } else if HandsOut(sys, op, user) {
        FreshCounts(op.keys.value, key);
      }
      forall r | r in Run(st, ops).flights && Run(st, ops).flights[r].Loaded? && Run(st, ops).flights[r].l.username == user
        ensures var f := Run(st, ops).flights[r];
          Unused(f.codes, key) <= Handed(st, ops, user, key) && Unused(f.codes, Key(f.l.code)) > 0
      {
        LoadedNext(sys, op, n, r);
      }
    }
  }

  /** One step of the law, from the point where it still holds. */
  lemma OneShotStep(st: State, ops: seq<Op>, user: string, key: string)
    requires ops != [] && Handed(st, ops, user, key) <= 1
    requires var before := ops[..|ops| - 1];
      && Uses(st, before, user, key) + OnFile(st, before, user, key) <= 1
      && Uses(st, before, user, key) <= Handed(st, before, user, key)
    ensures Uses(st, ops, user, key) <= Handed(st, ops, user, key)
            || Uses(st, ops, user, key) + OnFile(st, ops, user, key) > 1
    ensures var before, op := ops[..|ops| - 1], ops[|ops| - 1];
      var sys := Run(st, before);
      Uses(st, ops, user, key) + OnFile(st, ops, user, key) <= 1 <==>
        !(Spends(sys, op, user) && Unused(sys.flights[op.r].codes, key) > 0 && Uses(st, before, user, key) > 0)
  {
    hide Run, Next, Key, Unused, Spent, Fresh, CodesOf;
    var before, op := ops[..|ops| - 1], ops[|ops| - 1];
    var sys := Run(st, before);
    NothingBeyondHandOuts(st, before, user, key);
    CodesOfRun(st, ops, user);
    NoCodes(key);
    if Spends(sys, op, user) {
      SpentCounts(sys.flights[op.r].codes, Key(sys.flights[op.r].l.code), key);
    } else if HandsOut(sys, op, user) {
      FreshCounts(op.keys.value, key);
    }
  }

  /** In every run, for a code that was handed out once: it stays one-shot if and only if no login saves a file that it
      loaded before the code was used. */
  lemma {:induction false} OneShotIff(st: State, ops: seq<Op>, user: string, key: string)
    requires Handed(st, ops, user, key) <= 1
    ensures OneShot(st, ops, user, key) <==> !SavedStale(st, ops, user, key)
    ensures OneShot(st, ops, user, key) ==> Uses(st, ops, user, key) <= Handed(st, ops, user, key)
  {
    hide Run, Next, Key, Unused, Spends, HandsOut;
    NothingBeyondHandOuts(st, ops, user, key);
    if ops != [] {
      OneShotIff(st, ops[..|ops| - 1], user, key);
      if OneShot(st, ops[..|ops| - 1], user, key) {
        OneShotStep(st, ops, user, key);
      }
    }
  }

  /** The request is between its load and its save of a user's codes. */
  predicate InWindow(f: Flight, user: string) { f.Loaded? && f.l.username == user }

  /** The step loads the user's codes to spend one, or writes them. */
  predicate Touches(sys: Sys, op: Op, user: string) {
    Loads(sys, op, user) || Spends(sys, op, user) || HandsOut(sys, op, user) || Erases(sys, op, user)
  }

  /** Between the load and the save of one request no other touches the user's codes. */
  ghost predicate OneAtATime(st: State, ops: seq<Op>, user: string) {
    ops == [] ||
    var before, op := ops[..|ops| - 1], ops[|ops| - 1];
    var sys := Run(st, before);
    && OneAtATime(st, before, user)
    && (Touches(sys, op, user) ==>
          forall r | r in sys.flights && InWindow(sys.flights[r], user) :: op == Consume(r))
  }

  /** Then what a request has loaded is what is on file. */
  lemma {:induction false} LoadedIsCurrent(st: State, ops: seq<Op>, user: string)
    requires OneAtATime(st, ops, user)
    ensures var sys := Run(st, ops);
      forall r | r in sys.flights && InWindow(sys.flights[r], user) ::
        sys.flights[r].codes == CodesOf(sys.store.codes, user)
  {
    hide Run, Next, Key, Unused, Spent, Fresh, CodesOf, TriesBackup, HasBackup;
    if ops == [] {
      NothingYet(st);
    } else {
      var n := |ops| - 1;
      var before, op := ops[..n], ops[n];
      LoadedIsCurrent(st, before, user);
      CodesOfRun(st, ops, user);
      RunNext(st, ops);
      forall r | r in Run(st, ops).flights && InWindow(Run(st, ops).flights[r], user)
        ensures Run(st, ops).flights[r].codes == CodesOf(Run(st, ops).store.codes, user)
      {
        LoadedNext(Run(st, before), op, n, r);
        SpenderLeaves(Run(st, before), op, n, user);
      }
    }
  }

  lemma SpenderLeaves(sys: Sys, op: Op, n: nat, user: string)
    ensures Spends(sys, op, user) ==> op.r !in Next(sys, op, n).flights
  {
    hide Key, Unused, Spent;
  }

  /** One at a time, every code opens at most as many logins as it was handed out, however often that was. */
  lemma {:induction false} OneAtATimeIsOneShot(st: State, ops: seq<Op>, user: string, key: string)
    requires OneAtATime(st, ops, user)
    ensures Uses(st, ops, user, key) + OnFile(st, ops, user, key) <= Handed(st, ops, user, key)
  {
    hide Run, Next, Key, Unused, Spent, Fresh, CodesOf, TriesBackup, HasBackup;
    if ops == [] {
      NothingYet(st);
    } else {
      var before, op := ops[..|ops| - 1], ops[|ops| - 1];
      var sys := Run(st, before);
      OneAtATimeIsOneShot(st, before, user, key);
      LoadedIsCurrent(st, before, user);
      NothingBeyondHandOuts(st, before, user, key);
      CodesOfRun(st, ops, user);
      NoCodes(key);
      if Spends(sys, op, user) {
        SpentCounts(sys.flights[op.r].codes, Key(sys.flights[op.r].l.code), key);
      } else if HandsOut(sys, op, user) {
        FreshCounts(op.keys.value, key);
      }
    }
  }

  /** Two logins that reach the backup codes with the same code. */
  predicate SameCode(st: State, l1: Login, l2: Login) {
    && l1.username == l2.username && Key(l1.code) == Key(l2.code)
    && (forall l | l in {l1, l2} ::
          l.admitted && l.issued && l.codesSaved && TriesBackup(st, l) && HasBackup(st, l))
  }

  lemma BothLoad(st: State, l1: Login, l2: Login)
    requires SameCode(st, l1, l2)
    ensures var asked := Next(Next(Sys(st, map[]), Ask(l1), 0), Ask(l2), 1);
      var loaded := Next(Next(asked, Check(0), 2), Check(1), 3);
      var codes := CodesOf(st.codes, l1.username);
      At(loaded, 0, Loaded(l1, codes)) && At(loaded, 1, Loaded(l2, codes))
  {
    hide Key, Unused, Spent, WithMirror, TriesBackup, HasBackup;
    var asked := Next(Next(Sys(st, map[]), Ask(l1), 0), Ask(l2), 1);
    assert At(asked, 0, Asked(l1)) && At(asked, 1, Asked(l2)) && asked.store == st;
    var first := Next(asked, Check(0), 2);
    assert l1 in {l1, l2} && l2 in {l1, l2};
    SyncKeepsTheRest(st, l1, l2);
    assert first.store == Synced(st, l1) && At(first, 1, Asked(l2));
  }

  lemma BothSpend(sys: Sys, l1: Login, l2: Login, codes: Codes, n: nat)
    requires At(sys, 0, Loaded(l1, codes)) && At(sys, 1, Loaded(l2, codes))
    requires l1.username == l2.username && l1.issued && l2.issued && l1.codesSaved && l2.codesSaved
    ensures var mid := Next(sys, Consume(0), n);
      && Opens(sys, Consume(0)) && Spends(sys, Consume(0), l1.username)
      && Opens(mid, Consume(1)) && Spends(mid, Consume(1), l1.username) && mid.flights[1] == sys.flights[1]
  {
    hide Key, Spent;
  }

  /** Both load before either saves: the one code issues two tokens. */
  lemma OverlapOpensTwice(st: State, l1: Login, l2: Login)
    requires SameCode(st, l1, l2)
    ensures var before := [Ask(l1)] + [Ask(l2)] + [Check(0)] + [Check(1)];
      && Opens(Run(st, before), Consume(0)) && Opens(Run(st, before + [Consume(0)]), Consume(1))
      && Uses(st, before + [Consume(0)] + [Consume(1)], l1.username, Key(l1.code)) >= 2
  {
    hide Key, Next, Run, Uses, TriesBackup, HasBackup, Opens, Spends;
    NothingYet(st);
    RunAppend(st, [], Ask(l1));
    assert [] + [Ask(l1)] == [Ask(l1)];
    RunAppend(st, [Ask(l1)], Ask(l2));
    RunAppend(st, [Ask(l1)] + [Ask(l2)], Check(0));
    RunAppend(st, [Ask(l1)] + [Ask(l2)] + [Check(0)], Check(1));
    var before := [Ask(l1)] + [Ask(l2)] + [Check(0)] + [Check(1)];
    RunAppend(st, before, Consume(0));
    BothLoad(st, l1, l2);
    assert l1 in {l1, l2} && l2 in {l1, l2};
    BothSpend(Run(st, before), l1, l2, CodesOf(st.codes, l1.username), 4);
    UsesAppend(st, before, Consume(0), l1.username, Key(l1.code));
    UsesAppend(st, before + [Consume(0)], Consume(1), l1.username, Key(l1.code));
  }

  lemma SyncKeepsTheRest(st: State, l: Login, other: Login)
    ensures TriesBackup(Synced(st, l), other) == TriesBackup(st, other)
    ensures HasBackup(Synced(st, l), other) == HasBackup(st, other)
  {
    hide WithMirror, Unused, Key;
  }

  lemma UsesAppend(st: State, ops: seq<Op>, op: Op, user: string, key: string)
    ensures Uses(st, ops + [op], user, key)
         == Uses(st, ops, user, key)
            + if Spends(Run(st, ops), op, user) && Key(Run(st, ops).flights[op.r].l.code) == key then 1 else 0
  {
    hide Run, Key;
    assert (ops + [op])[..|ops|] == ops;
  }

  /** Logins with different codes need not even meet over the same one: whatever the state, a login that saves after
      another has used its code, and had loaded before that, puts the other's code back on file. */
  lemma OtherCodeBringsItBack(sys: Sys, r1: nat, r2: nat, n: nat)
    requires r1 != r2 && r1 in sys.flights && r2 in sys.flights && sys.flights[r1].Loaded?
    requires Spends(sys, Consume(r1), sys.flights[r1].l.username)
    requires Spends(sys, Consume(r2), sys.flights[r1].l.username)
    requires var key := Key(sys.flights[r1].l.code);
      Key(sys.flights[r2].l.code) != key && Unused(sys.flights[r2].codes, key) > 0
    ensures var user, key := sys.flights[r1].l.username, Key(sys.flights[r1].l.code);
      var after := Next(Next(sys, Consume(r1), n), Consume(r2), n + 1);
      Unused(CodesOf(after.store.codes, user), key) > 0
  {
    hide Key, Unused, Spent;
    var user, key := sys.flights[r1].l.username, Key(sys.flights[r1].l.code);
    var mid := Next(sys, Consume(r1), n);
    CodesNext(mid, Consume(r2), n + 1, user);
    SpentCounts(sys.flights[r2].codes, Key(sys.flights[r2].l.code), key);
  }

  // ---------------------------------------------------------------- trusted devices

  /** The step is where a login of the user passes by a code or a backup code. */
  predicate Proves(sys: Sys, op: Op, user: string) {
    || Spends(sys, op, user)
    || (&& op.Check? && op.r in sys.flights && sys.flights[op.r].Asked? && sys.flights[op.r].l.username == user
        && Decide(sys.store, sys.flights[op.r].l) == CodeVerified)
  }

  predicate HasProven(st: State, ops: seq<Op>, user: string) {
    && ops != []
    && var before, op := ops[..|ops| - 1], ops[|ops| - 1];
       HasProven(st, before, user) || Proves(Run(st, before), op, user)
  }

  lemma DevicesNext(sys: Sys, op: Op, n: nat, user: string)
    ensures Of(sys.store.devices, user) == {} && Of(Next(sys, op, n).store.devices, user) != {} ==> Proves(sys, op, user)
  {
    hide Key, Unused, Spent, WithMirror, Mirror, Fresh;
  }

  lemma {:induction false} ProvenStays(st: State, ops: seq<Op>, k: nat, user: string)
    requires k <= |ops| && HasProven(st, ops[..k], user)
    ensures HasProven(st, ops, user)
  {
    hide Run, Proves;
    if k == |ops| {
      assert ops[..k] == ops;
    } else {
      assert ops[..|ops| - 1][..k] == ops[..k];
      ProvenStays(st, ops[..|ops| - 1], k, user);
    }
  }

  /** From a start without trusted devices, a user has one only after proving a second factor, even when overlapping
      requests write old device files back: trust never starts from trust. */
  lemma {:induction false} TrustIsEarned(st: State, ops: seq<Op>, user: string)
    requires Of(st.devices, user) == {}
    ensures Of(Run(st, ops).store.devices, user) != {} ==> HasProven(st, ops, user)
    decreases |ops|
  {
    hide Next, Proves;
    if ops != [] {
      var n := |ops| - 1;
      TrustIsEarned(st, ops[..n], user);
      DevicesNext(Run(st, ops[..n]), ops[n], n, user);
      if ops[n].StaleDevices? && ops[n].k <= n {
        TrustIsEarned(st, ops[..ops[n].k], user);
        if HasProven(st, ops[..ops[n].k], user) {
          ProvenStays(st, ops, ops[n].k, user);
        }
      }
    }
  }
}
