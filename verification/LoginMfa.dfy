/**
 internal/api/handlers_auth.go and internal/api/api.go: the second-factor decision
 of a password login, with the local mirror of who has a factor, the trusted
 devices and the backup codes (internal/auth), first for one login and then for
 runs of overlapping requests. Passwords, rate limits, lockout and the provider's
 answers are inputs; hashes are taken as injective.
 */
module LoginMfa {
  import opened Options
  import opened BackupCodes

  datatype User = User(username: string, mfa: bool)

  // ---------------------------------------------------------------- the mirror

  function Mirror(users: seq<User>, name: string): (on: bool) {
    if name == "" || users == [] then false
    else if users[0].username == name then users[0].mfa
    else Mirror(users[1..], name)
  }

  /** Only the first user of that name is written, the one that is read. */
  function WithMirror(users: seq<User>, name: string, on: bool): (users': seq<User>)
    ensures |users'| == |users|
    ensures forall i | 0 <= i < |users| :: users'[i].username == users[i].username
  {
    if name == "" || users == [] then users
    else if users[0].username == name then [users[0].(mfa := on)] + users[1..]
    else [users[0]] + WithMirror(users[1..], name, on)
  }

  predicate Known(users: seq<User>, name: string) {
    name != "" && exists i | 0 <= i < |users| :: users[i].username == name
  }

  lemma {:induction false} MirrorAfterWrite(users: seq<User>, name: string, on: bool, other: string)
    ensures Mirror(WithMirror(users, name, on), other)
         == if other == name && Known(users, name) then on else Mirror(users, other)
    ensures Known(WithMirror(users, name, on), other) <==> Known(users, other)
  {
    if users != [] && name != "" {
      var rest := users[1..];
      if users[0].username == name {
        assert ([users[0].(mfa := on)] + rest)[1..] == rest;
      } else {
        MirrorAfterWrite(rest, name, on, other);
        assert ([users[0]] + WithMirror(rest, name, on))[1..] == WithMirror(rest, name, on);
        KnownTail(users, name);
        KnownTail(users, other);
      }
    }
  }

  lemma KnownTail(users: seq<User>, name: string)
    requires users != []
    ensures Known(users, name) <==> name != "" && (users[0].username == name || Known(users[1..], name))
  {
    if Known(users, name) && users[0].username != name {
      var i :| 0 <= i < |users| && users[i].username == name;
      assert users[1..][i - 1].username == name;
    }
    if Known(users[1..], name) {
      var i :| 0 <= i < |users| - 1 && users[1..][i].username == name;
      assert users[i + 1].username == name;
    }
  }

  lemma WriteNobody(users: seq<User>, on: bool)
    ensures WithMirror(users, "", on) == users
  {
  }

  lemma {:induction false} WriteFirst(users: seq<User>, name: string, on: bool, i: nat)
    requires name != "" && i <= |users| && forall j | 0 <= j < i :: users[j].username != name
    requires i < |users| ==> users[i].username == name
    ensures WithMirror(users, name, on) == if i < |users| then users[i := users[i].(mfa := on)] else users
  {
    if i > 0 {
      WriteFirst(users[1..], name, on, i - 1);
      assert users == [users[0]] + users[1..];
    }
  }

  // ---------------------------------------------------------------- one login

  datatype Lookup = LookupFailed | Factor(id: string, status: string)

  predicate Verified(l: Lookup) { l.Factor? && l.id != "" && l.status == "verified" }

  /** A login attempt and everything the outside answers to it. */
  datatype Login = Login(
    username: string,
    admitted: bool,         // the limiter, the app-only gate, the lockout and the password all let it through
    session: bool,          // the provider returned a session
    lookup: Lookup,         // the provider's factor lookup
    cookie: string,         // the device cookie
    deviceReadable: bool,   // the device store works and the entry of the cookie has not expired
    code: string,           // the one-time code typed in
    codeAccepted: bool,     // the provider accepts that code
    codesReadable: bool,    // the backup codes load
    codesSaved: bool,       // and a save of them works
    remember: bool,         // "trust this device" is ticked
    minted: Option<string>, // the new device secret, if minting works
    issued: bool)           // the session token can be issued

  datatype Verdict = NotRequired | UnavailableDenied | TrustedDevice | CodeRequired | CodeVerified | BackupUsed | CodeInvalid

  datatype State = State(users: seq<User>, devices: map<string, set<string>>, codes: map<string, Codes>)

  function Of(m: map<string, set<string>>, user: string): (s: set<string>) {
    if user in m then m[user] else {}
  }

  function CodesOf(m: map<string, Codes>, user: string): (codes: Codes) {
    if user in m then m[user] else []
  }

  predicate Trusted(st: State, l: Login) {
    l.cookie != "" && l.deviceReadable && l.cookie in Of(st.devices, l.username)
  }

  /** The code typed in is an unused backup code of the file as it is loaded. */
  predicate HasBackup(st: State, l: Login) {
    l.codesReadable && Unused(CodesOf(st.codes, l.username), Key(l.code)) > 0
  }

  /** The decision comes down to the backup codes. */
  predicate TriesBackup(st: State, l: Login) {
    l.session && Verified(l.lookup) && !Trusted(st, l) && l.code != "" && !l.codeAccepted
  }

  function Decide(st: State, l: Login): (v: Verdict) {
    if !l.session then NotRequired
    else if l.lookup.LookupFailed? then (if Mirror(st.users, l.username) then UnavailableDenied else NotRequired)
    else if !Verified(l.lookup) then NotRequired
    else if Trusted(st, l) then TrustedDevice
    else if l.code == "" then CodeRequired
    else if l.codeAccepted then CodeVerified
    else if HasBackup(st, l) && l.codesSaved then BackupUsed
    else CodeInvalid
  }

  /** The mirror follows every lookup that worked. */
  function Synced(st: State, l: Login): (st': State) {
    if l.session && l.lookup.Factor?
    then st.(users := WithMirror(st.users, l.username, Verified(l.lookup))) else st
  }

  function WithCodes(st: State, user: string, codes: Codes): (st': State) {
    st.(codes := st.codes[user := codes])
  }

  /** What deciding does to the stores, `meanwhile` being the codes file as other requests leave it between this
      one's load and its save: the save goes over it. */
  function AfterDecision(st: State, l: Login, meanwhile: Codes): (st': State) {
    if TriesBackup(st, l) && HasBackup(st, l)
    then WithCodes(Synced(st, l), l.username,
                   if l.codesSaved then Spent(CodesOf(st.codes, l.username), Key(l.code)) else meanwhile)
    else Synced(st, l)
  }

  predicate LetsIn(v: Verdict) { v.NotRequired? || v.TrustedDevice? || v.CodeVerified? || v.BackupUsed? }

  /** A second factor was in play and satisfied. */
  predicate FactorMet(v: Verdict) { v.TrustedDevice? || v.CodeVerified? || v.BackupUsed? }

  /** A device to trust is minted only after a second factor. */
  function Minted(st: State, l: Login, v: Verdict): (st': State) {
    if FactorMet(v) && l.remember && l.minted.Some?
    then st.(devices := st.devices[l.username := Of(st.devices, l.username) + {l.minted.value}])
    else st
  }

  predicate Issues(st: State, l: Login) { l.admitted && LetsIn(Decide(st, l)) && l.issued }

  function AfterLogin(st: State, l: Login, meanwhile: Codes): (st': State) {
    if l.admitted then Minted(AfterDecision(st, l, meanwhile), l, Decide(st, l)) else st
  }

  class Panel {
    var users: seq<User>
    var devices: map<string, set<string>>
    var codes: map<string, Codes>

    ghost function View(): (st: State)
      reads this
    {
      State(users, devices, codes)
    }

    method UserHasMFA(name: string) returns (on: bool)
      ensures on == Mirror(users, name)
    {
      if name == "" { return false; }
      for i := 0 to |users|
        invariant Mirror(users, name) == Mirror(users[i..], name)
      {
        if users[i].username == name {
          return users[i].mfa;
        }
        assert users[i..][1..] == users[i + 1..];
      }
      return false;
    }

    method SetUserMFA(name: string, on: bool)
      modifies this
      ensures users == WithMirror(old(users), name, on)
      ensures devices == old(devices) && codes == old(codes)
    {
      hide WithMirror;
      if name == "" {
        WriteNobody(users, on);
        return;
      }
      var i := 0;
      while i < |users| && users[i].username != name
        invariant 0 <= i <= |users|
        invariant forall j | 0 <= j < i :: users[j].username != name
      {
        i := i + 1;
      }
      WriteFirst(users, name, on, i);
      if i < |users| {
        users := users[i := users[i].(mfa := on)];
      }
    }

    method VerifyLoginMFA(l: Login, meanwhile: Codes) returns (v: Verdict)
      modifies this
      ensures v == Decide(old(View()), l)
      ensures View() == AfterDecision(old(View()), l, meanwhile)
    {
      hide Key, Unused, Spent, Mirror, WithMirror;
      if !l.session { return NotRequired; }
      if l.lookup.Factor? {
        SetUserMFA(l.username, Verified(l.lookup));
      } else {
        var enrolled := UserHasMFA(l.username);
        return if enrolled then UnavailableDenied else NotRequired;
      }
      if !Verified(l.lookup) { return NotRequired; }
      if l.cookie != "" && l.deviceReadable && l.cookie in Of(devices, l.username) { return TrustedDevice; }
      if l.code == "" { return CodeRequired; }
      if l.codeAccepted { return CodeVerified; }
      var store := new Store(CodesOf(codes, l.username));
      var consumed := store.TryConsume(l.code, l.codesReadable, meanwhile, l.codesSaved);
      NoCodes(Key(l.code));
      if l.username in codes {
        codes := codes[l.username := store.codes];
      }
      return if consumed then BackupUsed else CodeInvalid;
    }

    method HandleLogin(l: Login, meanwhile: Codes) returns (token: bool)
      modifies this
      ensures token == Issues(old(View()), l)
      ensures View() == AfterLogin(old(View()), l, meanwhile)
    {
      hide Decide, AfterDecision;
      if !l.admitted { return false; }
      var v := VerifyLoginMFA(l, meanwhile);
      if v.UnavailableDenied? || v.CodeRequired? || v.CodeInvalid? { return false; }
      if FactorMet(v) && l.remember && l.minted.Some? {
        devices := devices[l.username := Of(devices, l.username) + {l.minted.value}];
      }
      return l.issued;
    }
  }

  lemma NoCodes(key: string)
    ensures Unused([], key) == 0
  {
  }

  /** Who gets in, for every state and every login. A password without a provider session is enough. With one, a failed
      lookup lets in whom the mirror does not list with a factor; an answered lookup lets in everybody without a verified
      factor; and a verified factor takes a trusted device, a code the provider accepts or an unused backup code. */
  lemma WhoGetsIn(st: State, l: Login)
    ensures Issues(st, l) <==>
      && l.admitted && l.issued
      && (|| !l.session
          || (l.lookup.LookupFailed? && !Mirror(st.users, l.username))
          || (l.lookup.Factor? && (l.lookup.id == "" || l.lookup.status != "verified"))
          || (&& l.lookup.Factor?
              && (|| (l.cookie != "" && l.deviceReadable && l.username in st.devices && l.cookie in st.devices[l.username])
                  || (l.code != "" && l.codeAccepted)
                  || (&& l.code != "" && l.codesReadable && l.codesSaved && l.username in st.codes
                      && Unused(st.codes[l.username], Key(l.code)) > 0))))
  {
    hide Key, Unused, Mirror;
    NoCodes(Key(l.code));
  }

  /** Without a provider session, and for a user the configuration does not list, a failed lookup lets anyone in whose
      password is right. */
  lemma OutsideTheMirror(st: State, l: Login)
    requires l.lookup.LookupFailed? && (!l.session || !Known(st.users, l.username))
    ensures Issues(st, l) <==> l.admitted && l.issued
  {
    if !Known(st.users, l.username) {
      UnknownHasNoMirror(st.users, l.username);
    }
  }

  /** Why a login is refused, for the answer it gets. */
  lemma WhyNot(st: State, l: Login)
    ensures Decide(st, l) == UnavailableDenied <==>
              l.session && l.lookup.LookupFailed? && Mirror(st.users, l.username)
    ensures Decide(st, l) == CodeRequired ==> l.code == "" && Verified(l.lookup) && !Trusted(st, l)
    ensures Decide(st, l) == CodeInvalid ==> l.code != "" && !l.codeAccepted && Verified(l.lookup) && !Trusted(st, l)
    ensures LetsIn(Decide(st, l)) || Decide(st, l) in {UnavailableDenied, CodeRequired, CodeInvalid}
  {
    hide Key, Unused, Mirror;
  }

  /** A device is trusted after a login exactly if it was before, or if that login met a verified factor and was asked to
      remember it; the next login with its cookie then needs no code. */
  lemma RememberedDevice(st: State, l: Login, meanwhile: Codes, user: string, cookie: string)
    ensures cookie in Of(AfterLogin(st, l, meanwhile).devices, user) <==>
      || cookie in Of(st.devices, user)
      || (&& user == l.username && l.minted == Some(cookie) && l.remember && l.admitted && l.session && Verified(l.lookup)
          && LetsIn(Decide(st, l)))
  {
    hide Key, Unused, Spent, WithMirror, Mirror;
  }

  lemma RememberedNeedsNoCode(st: State, l: Login, meanwhile: Codes, again: Login)
    requires l.admitted && l.session && Verified(l.lookup) && l.remember && LetsIn(Decide(st, l))
    requires l.minted == Some(again.cookie) && again.cookie != "" && again.deviceReadable && again.username == l.username
    requires again.session && Verified(again.lookup)
    ensures Decide(AfterLogin(st, l, meanwhile), again) == TrustedDevice
    ensures Issues(AfterLogin(st, l, meanwhile), again) <==> again.admitted && again.issued
  {
    hide AfterLogin, Key, Unused, Mirror;
    RememberedDevice(st, l, meanwhile, l.username, again.cookie);
  }

  /** A login whose lookup is answered leaves the answer in the mirror, for its own user only; any other leaves it. */
  lemma LoginSyncsTheMirror(st: State, l: Login, meanwhile: Codes, user: string)
    ensures Mirror(AfterLogin(st, l, meanwhile).users, user)
         == if l.admitted && l.session && l.lookup.Factor? && l.username == user && Known(st.users, user)
            then l.lookup.id != "" && l.lookup.status == "verified" else Mirror(st.users, user)
  {
    hide Key, Unused, Spent, WithMirror, Mirror, Known, Decide, TriesBackup, HasBackup;
    MirrorAfterWrite(st.users, l.username, Verified(l.lookup), user);
  }

  lemma {:induction false} UnknownHasNoMirror(users: seq<User>, name: string)
    requires !Known(users, name)
    ensures !Mirror(users, name)
  {
    if users != [] && name != "" {
      KnownTail(users, name);
      UnknownHasNoMirror(users[1..], name);
    }
  }
}
