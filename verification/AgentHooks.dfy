/**
 internal/api/agent_hook.go: merging this panel's hook command into a
 settings.json without disturbing what else is there. JSON text is taken as
 parsed; reading and writing the file are the caller's.
 */
module AgentHooks {
  import opened Options
  import Text

  datatype Json = Null | Bool(b: bool) | Num(n: real) | Str(s: string) | Arr(items: seq<Json>) | Obj(fields: map<string, Json>)

  const MARKER := "/api/agent/hook"
  const EVENTS := ["Notification", "Stop", "SessionStart"]

  /** A missing key reads like null: no type assertion succeeds on it. */
  function Field(fields: map<string, Json>, key: string): (v: Json) {
    if key in fields then fields[key] else Null
  }

  function ItemsOf(v: Json): (items: seq<Json>) {
    if v.Arr? then v.items else []
  }

  function FieldsOf(v: Json): (fields: map<string, Json>) {
    if v.Obj? then v.fields else map[]
  }

  /** A hook entry this panel installed. */
  predicate IsOurs(h: Json) {
    h.Obj? && Field(h.fields, "command").Str? && Text.Contains(h.fields["command"].s, MARKER)
  }

  function Foreign(hooks: seq<Json>): (kept: seq<Json>) {
    if hooks == [] then []
    else
      var before, h := Foreign(hooks[..|hooks| - 1]), hooks[|hooks| - 1];
      if IsOurs(h) then before else before + [h]
  }

  predicate OnlyHooks(group: map<string, Json>) {
    forall k | k in group :: k == "hooks"
  }

  /** A group without our entries; nothing when it held nothing else. Anything that is not an object stays. */
  function StripGroup(g: Json): (g': Option<Json>) {
    if !g.Obj? then Some(g)
    else
      var kept := Foreign(ItemsOf(Field(g.fields, "hooks")));
      if kept == [] && OnlyHooks(g.fields) then None else Some(Obj(g.fields["hooks" := Arr(kept)]))
  }

  function Stripped(groups: seq<Json>): (out: seq<Json>) {
    if groups == [] then []
    else
      var before, g := Stripped(groups[..|groups| - 1]), StripGroup(groups[|groups| - 1]);
      if g.Some? then before + [g.value] else before
  }

  function HookEntry(cmd: string): (h: Json) {
    Obj(map["type" := Str("command"), "command" := Str(cmd)])
  }

  function FreshGroup(cmd: string): (g: Json) {
    Obj(map["hooks" := Arr([HookEntry(cmd)])])
  }

  function WithAgentHook(existing: Json, cmd: string): (groups: seq<Json>) {
    Stripped(ItemsOf(existing)) + [FreshGroup(cmd)]
  }

  function MergedHooks(hooks: map<string, Json>, cmd: string): (merged: map<string, Json>) {
    map e | e in hooks.Keys + {EVENTS[0], EVENTS[1], EVENTS[2]}
      :: if e in EVENTS then Arr(WithAgentHook(Field(hooks, e), cmd)) else hooks[e]
  }

  function Merge(root: map<string, Json>, cmd: string): (merged: map<string, Json>) {
    root["hooks" := Obj(MergedHooks(FieldsOf(Field(root, "hooks")), cmd))]
  }

  // ---------------------------------------------------------------- the loops

  method FilterOurHooks(field: Json) returns (kept: seq<Json>)
    ensures kept == Foreign(ItemsOf(field))
  {
    kept := [];
    if !field.Arr? { return; }
    for i := 0 to |field.items|
      invariant kept == Foreign(field.items[..i])
    {
      assert field.items[..i + 1][..i] == field.items[..i];
      if !IsOurs(field.items[i]) {
        kept := kept + [field.items[i]];
      }
    }
    assert field.items[..|field.items|] == field.items;
  }

  method InstallHook(existing: Json, cmd: string) returns (out: seq<Json>)
    ensures out == WithAgentHook(existing, cmd)
  {
    out := [];
    if existing.Arr? {
      var groups := existing.items;
      for i := 0 to |groups|
        invariant out == Stripped(groups[..i])
      {
        assert groups[..i + 1][..i] == groups[..i];
        var g := groups[i];
        if !g.Obj? {
          out := out + [g];
        } else {
          var kept := FilterOurHooks(Field(g.fields, "hooks"));
          if kept != [] || !OnlyHooks(g.fields) {
            out := out + [Obj(g.fields["hooks" := Arr(kept)])];
          }
        }
      }
      assert groups[..|groups|] == groups;
    }
    out := out + [FreshGroup(cmd)];
  }

  datatype Settings = Missing | Malformed | Parsed(v: Json)
  datatype Outcome = Refused | Panics | Written(root: map<string, Json>)

  /** A missing or empty file starts from nothing and a malformed or non-object one is left alone. A file that says
      null makes the decoded map nil, and storing into it panics. */
  function MergeOutcome(file: Settings, cmd: string): (o: Outcome) {
    match file
    case Missing => Written(Merge(map[], cmd))
    case Malformed => Refused
    case Parsed(v) => if v.Null? then Panics else if v.Obj? then Written(Merge(v.fields, cmd)) else Refused
  }

  method MergeAgentHooks(file: Settings, cmd: string) returns (o: Outcome)
    ensures o == MergeOutcome(file, cmd)
  {
    hide WithAgentHook;
    var root := map[];
    match file {
      case Missing =>
      case Malformed => return Refused;
      case Parsed(v) =>
        if v.Null? { return Panics; }
        if !v.Obj? { return Refused; }
        root := v.fields;
    }
    var hooks := InstallEvents(FieldsOf(Field(root, "hooks")), cmd);
    o := Written(root["hooks" := Obj(hooks)]);
  }

  function Install(hooks: map<string, Json>, event: string, cmd: string): (hooks': map<string, Json>) {
    hooks[event := Arr(WithAgentHook(Field(hooks, event), cmd))]
  }

  method InstallEvents(hooks: map<string, Json>, cmd: string) returns (merged: map<string, Json>)
    ensures merged == MergedHooks(hooks, cmd)
  {
    hide WithAgentHook, MergedHooks;
    merged := hooks;
    for i := 0 to |EVENTS|
      invariant i == 0 ==> merged == hooks
      invariant i == 1 ==> merged == Install(hooks, EVENTS[0], cmd)
      invariant i == 2 ==> merged == Install(Install(hooks, EVENTS[0], cmd), EVENTS[1], cmd)
      invariant i == 3 ==> merged == Install(Install(Install(hooks, EVENTS[0], cmd), EVENTS[1], cmd), EVENTS[2], cmd)
    {
      var groups := InstallHook(Field(merged, EVENTS[i]), cmd);
      merged := merged[EVENTS[i] := Arr(groups)];
    }
    EventByEvent(hooks, cmd);
  }

  /** The events are different keys, so installing one after the other is installing all at once. */
  lemma EventByEvent(hooks: map<string, Json>, cmd: string)
    ensures Install(Install(Install(hooks, EVENTS[0], cmd), EVENTS[1], cmd), EVENTS[2], cmd) == MergedHooks(hooks, cmd)
  {
    hide WithAgentHook;
    assert |EVENTS[0]| == 12 && |EVENTS[1]| == 4 && EVENTS[0][0] == 'N' && EVENTS[2][0] == 'S' && |EVENTS[2]| == 12;
    assert forall e | e in EVENTS :: e == EVENTS[0] || e == EVENTS[1] || e == EVENTS[2];
  }

  // ---------------------------------------------------------------- stripping

  lemma {:induction false} ForeignTwice(hooks: seq<Json>)
    ensures Foreign(Foreign(hooks)) == Foreign(hooks)
    ensures forall h | h in Foreign(hooks) :: !IsOurs(h)
  {
    hide IsOurs;
    if hooks != [] {
      var before, h := Foreign(hooks[..|hooks| - 1]), hooks[|hooks| - 1];
      ForeignTwice(hooks[..|hooks| - 1]);
      if !IsOurs(h) {
        assert (before + [h])[..|before|] == before;
      }
    }
  }

  /** What survives the strip of a group survives it again unchanged. */
  lemma StripGroupTwice(g: Json)
    ensures StripGroup(g).Some? ==> StripGroup(StripGroup(g).value) == StripGroup(g)
  {
    hide Foreign;
    if g.Obj? && StripGroup(g).Some? {
      var g' := StripGroup(g).value;
      ForeignTwice(ItemsOf(Field(g.fields, "hooks")));
      assert OnlyHooks(g'.fields) <==> OnlyHooks(g.fields) by {
        assert forall k | k != "hooks" :: k in g'.fields <==> k in g.fields;
      }
      assert g'.fields["hooks" := g'.fields["hooks"]] == g'.fields;
    }
  }

  /** A group goes only if it held our entries and no other key; one that stays keeps every other key. */
  lemma StripGroupKeeps(g: Json)
    ensures StripGroup(g).None? <==>
              g.Obj? && (forall k | k in g.fields :: k == "hooks") && (forall h | h in HooksOf(g) :: IsOurs(h))
    ensures !g.Obj? ==> StripGroup(g) == Some(g)
    ensures StripGroup(g).Some? && g.Obj? ==>
              && StripGroup(g).value.Obj?
              && Field(StripGroup(g).value.fields, "hooks") == Arr(Foreign(HooksOf(g)))
              && forall k | k != "hooks" :: Field(StripGroup(g).value.fields, k) == Field(g.fields, k)
  {
    hide IsOurs;
    NoForeignIff(HooksOf(g));
  }

  lemma {:induction false} NoForeignIff(hooks: seq<Json>)
    ensures Foreign(hooks) == [] <==> forall h | h in hooks :: IsOurs(h)
  {
    hide IsOurs;
    if hooks != [] {
      var init, last := hooks[..|hooks| - 1], hooks[|hooks| - 1];
      NoForeignIff(init);
      assert hooks == init + [last];
      assert last in hooks;
    }
  }

  lemma StrippedAppend(groups: seq<Json>, g: Json)
    ensures Stripped(groups + [g])
         == if StripGroup(g).Some? then Stripped(groups) + [StripGroup(g).value] else Stripped(groups)
  {
    assert (groups + [g])[..|groups|] == groups;
  }

  lemma {:induction false} StrippedTwice(groups: seq<Json>)
    ensures Stripped(Stripped(groups)) == Stripped(groups)
  {
    hide StripGroup;
    if groups != [] {
      var before, g := groups[..|groups| - 1], groups[|groups| - 1];
      StrippedTwice(before);
      StripGroupTwice(g);
      if StripGroup(g).Some? {
        StrippedAppend(Stripped(before), StripGroup(g).value);
      }
    }
  }

  lemma StripFreshGroup(cmd: string)
    ensures StripGroup(FreshGroup(cmd)) == if Text.Contains(cmd, MARKER) then None else Some(FreshGroup(cmd))
  {
    var h := HookEntry(cmd);
    assert [h][..0] == [];
    assert Foreign([h]) == if IsOurs(h) then [] else [h];
    var fields := FreshGroup(cmd).fields;
    assert fields["hooks" := Arr([h])] == fields;
  }

  // ---------------------------------------------------------------- last writer wins

  /** Installing one command over another leaves no trace of the first, exactly when the first carries the marker. */
  lemma InstallOverInstall(existing: Json, c1: string, c2: string)
    ensures WithAgentHook(Arr(WithAgentHook(existing, c1)), c2) == WithAgentHook(existing, c2)
            <==> Text.Contains(c1, MARKER)
  {
    hide Stripped, StripGroup, FreshGroup;
    var kept := Stripped(ItemsOf(existing));
    StrippedAppend(kept, FreshGroup(c1));
    StrippedTwice(ItemsOf(existing));
    StripFreshGroup(c1);
    var twice, once := WithAgentHook(Arr(WithAgentHook(existing, c1)), c2), WithAgentHook(existing, c2);
    if !Text.Contains(c1, MARKER) {
      assert |twice| == |once| + 1;
    }
  }

  lemma MergedTwice(hooks: map<string, Json>, c1: string, c2: string)
    ensures MergedHooks(MergedHooks(hooks, c1), c2) == MergedHooks(hooks, c2) <==> Text.Contains(c1, MARKER)
  {
    hide WithAgentHook;
    var one, two := MergedHooks(hooks, c1), MergedHooks(hooks, c2);
    var both := MergedHooks(one, c2);
    forall e ensures e in EVENTS ==> (both[e] == two[e] <==> Text.Contains(c1, MARKER)) {
      InstallOverInstall(Field(hooks, e), c1, c2);
    }
    assert EVENTS[0] in EVENTS;
    if Text.Contains(c1, MARKER) {
      assert both == two;
    } else {
      assert both["Notification"] != two["Notification"];
    }
  }

  /** For every settings tree: merging twice is merging the last command once, if and only if the first command
      carries the marker. In particular a re-run is idempotent. */
  lemma LastWriterWins(root: map<string, Json>, c1: string, c2: string)
    ensures Merge(Merge(root, c1), c2) == Merge(root, c2) <==> Text.Contains(c1, MARKER)
  {
    hide MergedHooks;
    MergedTwice(FieldsOf(Field(root, "hooks")), c1, c2);
    var a, b := Merge(Merge(root, c1), c2), Merge(root, c2);
    assert a == b <==> a["hooks"] == b["hooks"] by {
      if a["hooks"] == b["hooks"] {
        assert a == b;
      }
    }
  }

  // ---------------------------------------------------------------- what is there afterwards

  function OursIn(hooks: seq<Json>): (n: nat) {
    if hooks == [] then 0 else OursIn(hooks[..|hooks| - 1]) + (if IsOurs(hooks[|hooks| - 1]) then 1 else 0)
  }

  function HooksOf(g: Json): (hooks: seq<Json>) {
    if g.Obj? then ItemsOf(Field(g.fields, "hooks")) else []
  }

  /** How many of our entries an event's groups hold. */
  function CountOurs(groups: seq<Json>): (n: nat) {
    if groups == [] then 0 else CountOurs(groups[..|groups| - 1]) + OursIn(HooksOf(groups[|groups| - 1]))
  }

  /** Everybody else's entries in an event's groups, in order. */
  function AllForeign(groups: seq<Json>): (hooks: seq<Json>) {
    if groups == [] then [] else AllForeign(groups[..|groups| - 1]) + Foreign(HooksOf(groups[|groups| - 1]))
  }

  lemma {:induction false} ForeignHasNoneOfOurs(hooks: seq<Json>)
    requires forall h | h in hooks :: !IsOurs(h)
    ensures OursIn(hooks) == 0
  {
    if hooks != [] {
      ForeignHasNoneOfOurs(hooks[..|hooks| - 1]);
    }
  }

  lemma StripGroupContents(g: Json)
    ensures StripGroup(g).Some? ==> OursIn(HooksOf(StripGroup(g).value)) == 0
                                    && Foreign(HooksOf(StripGroup(g).value)) == Foreign(HooksOf(g))
    ensures StripGroup(g).None? ==> Foreign(HooksOf(g)) == []
  {
    hide Foreign, OursIn, IsOurs;
    ForeignTwice(HooksOf(g));
    ForeignHasNoneOfOurs(Foreign(HooksOf(g)));
    ForeignHasNoneOfOurs([]);
    NothingIsForeign();
  }

  lemma NothingIsForeign()
    ensures Foreign([]) == []
  {
  }

  lemma {:induction false} StrippedContents(groups: seq<Json>)
    ensures CountOurs(Stripped(groups)) == 0
    ensures AllForeign(Stripped(groups)) == AllForeign(groups)
  {
    hide StripGroup, HooksOf, OursIn, Foreign;
    if groups != [] {
      var before, g := groups[..|groups| - 1], groups[|groups| - 1];
      StrippedContents(before);
      StripGroupContents(g);
      if StripGroup(g).Some? {
        var out := Stripped(before);
        assert (out + [StripGroup(g).value])[..|out|] == out;
      }
    }
  }

  /** Every event ends with exactly one entry of ours, ours alone in the last group, and every foreign entry of the
      old groups is still there in its old order. */
  lemma InstalledContents(existing: Json, cmd: string)
    ensures var groups := WithAgentHook(existing, cmd);
      && CountOurs(groups) == (if Text.Contains(cmd, MARKER) then 1 else 0)
      && AllForeign(groups) == AllForeign(ItemsOf(existing))
                               + (if Text.Contains(cmd, MARKER) then [] else [HookEntry(cmd)])
      && groups[|groups| - 1] == FreshGroup(cmd)
  {
    hide Stripped;
    var kept, last := Stripped(ItemsOf(existing)), FreshGroup(cmd);
    StrippedContents(ItemsOf(existing));
    assert (kept + [last])[..|kept|] == kept;
    var h := HookEntry(cmd);
    assert HooksOf(last) == [h] && [h][..0] == [];
    assert IsOurs(h) <==> Text.Contains(cmd, MARKER);
    assert OursIn([h]) == if IsOurs(h) then 1 else 0;
    assert Foreign([h]) == if IsOurs(h) then [] else [h];
  }

  /** A merge touches nothing but the three events: every other key of the file and every other event keeps its value. */
  lemma MergeLeavesTheRest(root: map<string, Json>, cmd: string)
    ensures var merged := Merge(root, cmd);
      && merged.Keys == root.Keys + {"hooks"}
      && (forall k | k in root && k != "hooks" :: merged[k] == root[k])
      && merged["hooks"].Obj?
      && (forall e | e !in EVENTS :: Field(merged["hooks"].fields, e) == Field(FieldsOf(Field(root, "hooks")), e))
      && (forall e | e in EVENTS :: Field(merged["hooks"].fields, e)
                                    == Arr(WithAgentHook(Field(FieldsOf(Field(root, "hooks")), e), cmd)))
  {
    hide WithAgentHook;
    assert forall e | e in EVENTS :: e == EVENTS[0] || e == EVENTS[1] || e == EVENTS[2];
  }

  // ---------------------------------------------------------------- the outcome, file by file

  /** What counts as foreign, entry by entry and in order: all but objects whose command is a text with the marker. */
  lemma {:induction false} ForeignExactly(a: seq<Json>, b: seq<Json>, h: Json)
    ensures Foreign(a + b) == Foreign(a) + Foreign(b)
    ensures Foreign([h])
         == if h.Obj? && "command" in h.fields && h.fields["command"].Str?
               && Text.Contains(h.fields["command"].s, "/api/agent/hook") then [] else [h]
  {
    hide Text.Contains;
    assert [h][..0] == [];
    if b == [] {
      assert a + b == a;
    } else {
      ForeignExactly(a, b[..|b| - 1], h);
      assert (a + b)[..|a + b| - 1] == a + b[..|b| - 1];
    }
  }

  /** The groups of one event after a merge: the old ones without our entries, then one of our own with one command. */
  ghost predicate Installed(before: Json, after: Json, cmd: string) {
    && after.Arr? && after.items != []
    && after.items[..|after.items| - 1] == Stripped(ItemsOf(before))
    && after.items[|after.items| - 1]
       == Obj(map["hooks" := Arr([Obj(map["type" := Str("command"), "command" := Str(cmd)])])])
  }

  /** The value at a path of two keys, null when it is not there. */
  function At(root: map<string, Json>, k1: string, k2: string): (v: Json) {
    Field(FieldsOf(Field(root, k1)), k2)
  }

  /** A file with an object is rewritten with the three events installed and every other key and event as it was. */
  lemma MergeInstalls(fields: map<string, Json>, cmd: string)
    ensures var o := MergeOutcome(Parsed(Obj(fields)), cmd);
      && o.Written?
      && o.root.Keys == fields.Keys + {"hooks"} && (forall k | k in fields && k != "hooks" :: o.root[k] == fields[k])
      && o.root["hooks"].Obj?
      && o.root["hooks"].fields.Keys
         == FieldsOf(Field(fields, "hooks")).Keys + {"Notification", "Stop", "SessionStart"}
      && (forall e | e in ["Notification", "Stop", "SessionStart"] ::
            Installed(At(fields, "hooks", e), At(o.root, "hooks", e), cmd))
      && (forall e | e !in ["Notification", "Stop", "SessionStart"] :: At(o.root, "hooks", e) == At(fields, "hooks", e))
  {
    hide Stripped;
    var hooks := FieldsOf(Field(fields, "hooks"));
    MergeLeavesTheRest(fields, cmd);
    assert EVENTS == ["Notification", "Stop", "SessionStart"];
    assert forall e :: e in EVENTS <==> e == "Notification" || e == "Stop" || e == "SessionStart";
    forall e ensures Installed(Field(hooks, e), Arr(WithAgentHook(Field(hooks, e), cmd)), cmd) {
      var groups := WithAgentHook(Field(hooks, e), cmd);
      assert groups[..|groups| - 1] == Stripped(ItemsOf(Field(hooks, e)));
    }
  }

  /** With the marker in the command each event then has exactly one entry of ours, and all foreign ones in order. */
  lemma InstalledMeans(before: Json, after: Json, cmd: string)
    requires Installed(before, after, cmd) && Text.Contains(cmd, "/api/agent/hook")
    ensures CountOurs(after.items) == 1 && AllForeign(after.items) == AllForeign(ItemsOf(before))
  {
    hide Stripped, Text.Contains, CountOurs, AllForeign;
    InstalledContents(before, cmd);
    assert after.items == after.items[..|after.items| - 1] + [after.items[|after.items| - 1]];
  }

  /** A missing file is created with the three events and nothing else; what is not an object is left alone, except
      that null panics. */
  lemma OtherFiles(cmd: string, v: Json)
    ensures MergeOutcome(Missing, cmd) == MergeOutcome(Parsed(Obj(map[])), cmd)
    ensures MergeOutcome(Malformed, cmd) == Refused
    ensures !v.Obj? ==> MergeOutcome(Parsed(v), cmd) == if v.Null? then Panics else Refused
  {
    hide Merge;
  }

  /** Merging into what a merge has written: the last command wins, if and only if the first carries the marker. */
  lemma LastMergeWins(file: Settings, c1: string, c2: string)
    requires MergeOutcome(file, c1).Written?
    ensures MergeOutcome(Parsed(Obj(MergeOutcome(file, c1).root)), c2) == MergeOutcome(file, c2) <==>
              Text.Contains(c1, "/api/agent/hook")
  {
    hide Merge, Text.Contains;
    LastWriterWins(if file.Missing? then map[] else file.v.fields, c1, c2);
  }
}
