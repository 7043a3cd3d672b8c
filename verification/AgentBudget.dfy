/** internal/api/agent_budget.go: spend ceilings that alert once per breach and period. */
module AgentBudget {
  import opened Seqs

  /** USD; a cap that is not positive is off. */
  datatype Caps = Caps(daily: real, monthly: real, session: real)

  function DailyKey(day: string): (k: string) { "agent-budget:daily:" + day }
  function MonthlyKey(month: string): (k: string) { "agent-budget:monthly:" + month }
  function SessionKey(name: string, day: string): (k: string) { "agent-budget:session:" + name + ":" + day }

  datatype Totals = Totals(day: real, month: real, perSession: map<string, real>)

  /** When the check runs: the caps in force, the rolled-up totals and the period. */
  datatype Check = Check(caps: Caps, available: bool, totals: Totals, day: string, month: string)

  function DailyDue(c: Check): (due: set<string>) {
    if c.caps.daily > 0.0 && c.totals.day > c.caps.daily then {DailyKey(c.day)} else {}
  }

  function MonthlyDue(c: Check): (due: set<string>) {
    if c.caps.monthly > 0.0 && c.totals.month > c.caps.monthly then {MonthlyKey(c.month)} else {}
  }

  function SessionsOver(c: Check): (names: set<string>) {
    set name | name in c.totals.perSession && c.caps.session > 0.0 && c.totals.perSession[name] > c.caps.session
  }

  function SessionsDue(names: set<string>, day: string): (due: set<string>) {
    set name | name in names :: SessionKey(name, day)
  }

  /** The alert keys of every positive cap that is exceeded. */
  function Due(c: Check): (due: set<string>) {
    if c.available then DailyDue(c) + MonthlyDue(c) + SessionsDue(SessionsOver(c), c.day) else {}
  }

  /** Keys tell breaches apart: by kind, by period and by session, even for names with colons. */
  lemma KeysTellBreachesApart(day1: string, day2: string, month: string, n1: string, n2: string)
    requires |day1| == |day2| == 10
    ensures DailyKey(day1) != MonthlyKey(month) && DailyKey(day1) != SessionKey(n1, day2)
    ensures MonthlyKey(month) != SessionKey(n1, day1)
    ensures SessionKey(n1, day1) == SessionKey(n2, day2) <==> n1 == n2 && day1 == day2
  {
    var d, m, s := DailyKey(day1), MonthlyKey(month), SessionKey(n1, day2);
    assert d[13] == 'd' && m[13] == 'm' && s[13] == 's' && SessionKey(n1, day1)[13] == 's';
    if SessionKey(n1, day1) == SessionKey(n2, day2) {
      var k1, k2 := SessionKey(n1, day1), SessionKey(n2, day2);
      assert k1[21..|k1| - 11] == n1 && k2[21..|k2| - 11] == n2;
      assert k1[|k1| - 10..] == day1 && k2[|k2| - 10..] == day2;
    }
  }

  /** What is due, key by key, with the caps and totals that decide it: each kind of key for its own cap, and no other. */
  lemma DueExactly(c: Check, day: string, month: string, name: string, key: string)
    requires |c.day| == |day| == 10
    ensures "agent-budget:daily:" + day in Due(c) <==>
              c.available && day == c.day && c.caps.daily > 0.0 && c.totals.day > c.caps.daily
    ensures "agent-budget:monthly:" + month in Due(c) <==>
              c.available && month == c.month && c.caps.monthly > 0.0 && c.totals.month > c.caps.monthly
    ensures "agent-budget:session:" + name + ":" + day in Due(c) <==>
              && c.available && day == c.day && c.caps.session > 0.0
              && name in c.totals.perSession && c.totals.perSession[name] > c.caps.session
    ensures key in Due(c) ==>
              || key == "agent-budget:daily:" + c.day || key == "agent-budget:monthly:" + c.month
              || exists n :: n in c.totals.perSession && key == "agent-budget:session:" + n + ":" + c.day
  {
    SameKey(day, c.day, month, c.month);
    KeysTellBreachesApart(day, c.day, c.month, name, name);
    KeysTellBreachesApart(c.day, day, month, name, name);
    forall n ensures
      && SessionKey(n, c.day) != DailyKey(day) && SessionKey(n, c.day) != MonthlyKey(month)
      && (SessionKey(name, day) == SessionKey(n, c.day) <==> name == n && day == c.day)
    {
      KeysTellBreachesApart(day, c.day, month, n, n);
      KeysTellBreachesApart(c.day, day, month, n, name);
    }
    hide DailyKey, MonthlyKey, SessionKey;
    if key in SessionsDue(SessionsOver(c), c.day) {
      var n :| n in SessionsOver(c) && key == SessionKey(n, c.day);
      assert n in c.totals.perSession;
    }
  }

  lemma SameKey(d1: string, d2: string, m1: string, m2: string)
    ensures DailyKey(d1) == DailyKey(d2) <==> d1 == d2
    ensures MonthlyKey(m1) == MonthlyKey(m2) <==> m1 == m2
  {
    assert DailyKey(d1)[19..] == d1 && DailyKey(d2)[19..] == d2;
    assert MonthlyKey(m1)[21..] == m1 && MonthlyKey(m2)[21..] == m2;
  }

  /** The once-per-process memory and everything handed to the notifier, in order. */
  datatype Alerts = Alerts(notified: set<string>, dispatched: seq<string>)

  const NO_ALERTS := Alerts({}, [])

  /** Nothing is remembered that was not dispatched, and nothing was dispatched twice. */
  ghost predicate OncePerKey(a: Alerts) {
    && Distinct(a.dispatched)
    && a.notified == ToSet(a.dispatched)
  }

  /** The alerts went from `a` to `a'` by firing every key of `due` that had not fired, and no other, in some order. */
  ghost predicate Fired(a: Alerts, due: set<string>, a': Alerts) {
    && a'.notified == a.notified + due
    && a.dispatched <= a'.dispatched
    && (OncePerKey(a) ==> OncePerKey(a'))
  }

  lemma FiredInTurn(a: Alerts, d1: set<string>, b: Alerts, d2: set<string>, c: Alerts)
    requires Fired(a, d1, b) && Fired(b, d2, c)
    ensures Fired(a, d1 + d2, c)
  {
  }

  class BudgetAlerts {
    var notified: set<string>
    var dispatched: seq<string>

    ghost function View(): (a: Alerts)
      reads this
    {
      Alerts(notified, dispatched)
    }

    constructor ()
      ensures View() == NO_ALERTS
    {
      notified, dispatched := {}, [];
    }

    method FireOnce(key: string)
      modifies this
      ensures Fired(old(View()), {key}, View())
    {
      if key in notified { return; }
      notified := notified + {key};
      dispatched := dispatched + [key];
      assert OncePerKey(old(View())) ==> ToSet(dispatched) == old(notified) + {key};
    }

    method FireSessions(c: Check)
      requires c.caps.session > 0.0
      modifies this
      ensures Fired(old(View()), SessionsDue(SessionsOver(c), c.day), View())
    {
      var todo := c.totals.perSession.Keys;
      while todo != {}
        invariant todo <= c.totals.perSession.Keys
        invariant Fired(old(View()), SessionsDue(SessionsOver(c) - todo, c.day), View())
        decreases |todo|
      {
        var name :| name in todo;
        ghost var before, done := View(), SessionsOver(c) - todo;
        todo := todo - {name};
        if c.totals.perSession[name] > c.caps.session {
          FireOnce(SessionKey(name, c.day));
          FiredInTurn(old(View()), SessionsDue(done, c.day), before, {SessionKey(name, c.day)}, View());
          assert SessionsOver(c) - todo == done + {name};
          assert SessionsDue(done + {name}, c.day) == SessionsDue(done, c.day) + {SessionKey(name, c.day)};
        } else {
          assert SessionsOver(c) - todo == done;
        }
      }
      assert SessionsOver(c) - todo == SessionsOver(c);
    }

    method CheckBudgets(c: Check)
      modifies this
      ensures Fired(old(View()), Due(c), View())
    {
      if !c.available { return; }
      if c.caps.daily <= 0.0 && c.caps.monthly <= 0.0 && c.caps.session <= 0.0 {
        assert SessionsDue(SessionsOver(c), c.day) == {};
        return;
      }
      ghost var v0 := View();
      if c.caps.daily > 0.0 && c.totals.day > c.caps.daily {
        FireOnce(DailyKey(c.day));
      }
      ghost var v1 := View();
      if c.caps.monthly > 0.0 && c.totals.month > c.caps.monthly {
        FireOnce(MonthlyKey(c.month));
      }
      ghost var v2 := View();
      FiredInTurn(v0, DailyDue(c), v1, MonthlyDue(c), v2);
      if c.caps.session > 0.0 {
        FireSessions(c);
      } else {
        assert SessionsDue(SessionsOver(c), c.day) == {};
      }
      FiredInTurn(v0, DailyDue(c) + MonthlyDue(c), v2, SessionsDue(SessionsOver(c), c.day), View());
    }
  }

  // ---------------------------------------------------------------- whole runs

  /** states[i] is the alert state before check i; the process starts with nothing fired. */
  ghost predicate IsRun(states: seq<Alerts>, checks: seq<Check>) {
    && |states| == |checks| + 1
    && states[0] == NO_ALERTS
    && forall i | 0 <= i < |checks| :: Fired(states[i], Due(checks[i]), states[i + 1])
  }

  /** At every point of every run no key has been dispatched twice. */
  lemma {:induction false} NeverTwice(states: seq<Alerts>, checks: seq<Check>, i: nat)
    requires IsRun(states, checks) && i < |states|
    ensures OncePerKey(states[i])
  {
    if i > 0 {
      NeverTwice(states, checks, i - 1);
      assert Fired(states[i - 1], Due(checks[i - 1]), states[i]);
    }
  }

  /** A key has been dispatched by some point of a run exactly if an earlier check found its cap exceeded. */
  lemma {:induction false} DispatchedIffBreached(states: seq<Alerts>, checks: seq<Check>, i: nat, key: string)
    requires IsRun(states, checks) && i < |states|
    ensures key in states[i].dispatched <==> exists j :: 0 <= j < i && key in Due(checks[j])
  {
    NeverTwice(states, checks, i);
    if i > 0 {
      NeverTwice(states, checks, i - 1);
      DispatchedIffBreached(states, checks, i - 1, key);
      assert Fired(states[i - 1], Due(checks[i - 1]), states[i]);
      assert key in states[i].notified <==> key in states[i - 1].notified || key in Due(checks[i - 1]);
    }
  }
}
