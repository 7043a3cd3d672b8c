/** internal/api/agent_status.go: the session status store. Clock readings are parameters. */
module AgentStatus {
  import opened Options
  import opened AgentCost

  const IDLE := "idle"
  const STALE_AFTER := 24 * 60 * 60

  datatype Status = Status(state: string, updated: int, ccSession: string, tokens: Option<Tokens>, cost: real)

  /** What a Go map lookup yields for a session that has no entry yet. */
  const NO_STATUS := Status("", 0, "", None, 0.0)

  function Lookup(m: map<string, Status>, session: string): (s: Status) {
    if session in m then m[session] else NO_STATUS
  }

  function WithState(s: Status, state: string, cc: string, now: int): (s': Status)
    // the figures of a session survive its state changes
    ensures s'.state == state && s'.tokens == s.tokens && s'.cost == s.cost && s'.updated == now && !Stale(s', now)
    ensures (cc == "" ==> s'.ccSession == s.ccSession) && (cc != "" ==> s'.ccSession == cc)
  {
    s.(state := state, updated := now, ccSession := if cc != "" then cc else s.ccSession)
  }

  /** `updated` moves only when the totals moved, so that an idle session ages. */
  function WithTokens(s: Status, tokens: Tokens, cost: real, cc: string, now: int): (s': Status)
    ensures s'.tokens == Some(tokens) && s'.cost == cost
    ensures (s.state != "" ==> s'.state == s.state) && (s.state == "" ==> s'.state == "idle")
    ensures (cc == "" ==> s'.ccSession == s.ccSession) && (cc != "" ==> s'.ccSession == cc)
    ensures s'.updated == if s.tokens == Some(tokens) && s.updated != 0 then s.updated else now
  {
    var changed := s.tokens == None || s.tokens.value != tokens;
    Status(if s.state == "" then IDLE else s.state,
           if changed || s.updated == 0 then now else s.updated,
           if cc != "" then cc else s.ccSession,
           Some(tokens), cost)
  }

  predicate Stale(s: Status, now: int) {
    s.updated != 0 && s.updated < now - STALE_AFTER
  }

  function Pruned(m: map<string, Status>, known: set<string>, now: int): (kept: map<string, Status>) {
    map name | name in m && name in known && !Stale(m[name], now) :: m[name]
  }

  class StatusStore {
    var m: map<string, Status>

    constructor ()
      ensures m == map[]
    {
      m := map[];
    }

    method SetState(session: string, state: string, cc: string, now: int)
      modifies this
      ensures m == if session == "" then old(m)
                   else old(m)[session := WithState(Lookup(old(m), session), state, cc, now)]
    {
      if session == "" { return; }
      m := m[session := WithState(Lookup(m, session), state, cc, now)];
    }

    method SetTokens(session: string, tokens: Tokens, cost: real, cc: string, now: int)
      modifies this
      ensures m == if session == "" then old(m)
                   else old(m)[session := WithTokens(Lookup(old(m), session), tokens, cost, cc, now)]
    {
      if session == "" { return; }
      m := m[session := WithTokens(Lookup(m, session), tokens, cost, cc, now)];
    }

    /** Deletes while it walks the map, in any order. */
    method Prune(known: set<string>, now: int)
      modifies this
      ensures m == Pruned(old(m), known, now)
      // a session stays if it is known and was touched within the last day, or never
      ensures forall name :: name in m <==>
                name in old(m) && name in known && (old(m)[name].updated == 0 || now - old(m)[name].updated <= 86400)
      ensures forall name | name in m :: m[name] == old(m)[name]
    {
      var todo := m.Keys;
      while todo != {}
        invariant todo <= m.Keys <= old(m).Keys
        invariant forall name | name in m :: m[name] == old(m)[name]
        invariant forall name | name in old(m) && name !in todo ::
                    name in m <==> name in known && !Stale(old(m)[name], now)
        decreases |todo|
      {
        var name :| name in todo;
        if name !in known || Stale(m[name], now) {
          m := m - {name};
        }
        todo := todo - {name};
      }
    }
  }
}
