/**
 internal/aiprompts/prompts.go: the registry of editable prompts and the splicing
 of the locked output contract. The compiled-in texts are a parameter: everything
 is proved for all texts. The JSON file is a map of strings, or absent when it is
 missing or corrupt; a save may fail. An edit changes the memory under the lock and
 saves its snapshot after giving the lock up, so edits may overlap.
 */
module Prompts {
  import opened Options
  import Text

  const CONTRACT_MARK := "{{OUTPUT_CONTRACT}}"
  const THRESHOLD_MARK := "{{THRESHOLD}}"

  datatype Id = Audit | Refine | Verify | Work

  function Name(id: Id): (s: string) {
    match id case Audit => "audit" case Refine => "refine" case Verify => "verify" case Work => "work"
  }

  function IdOf(name: string): (id: Option<Id>)
    ensures id.Some? ==> Name(id.value) == name
    ensures forall i: Id :: Name(i) == name ==> id == Some(i)
  {
    if name == "audit" then Some(Audit) else if name == "refine" then Some(Refine)
    else if name == "verify" then Some(Verify) else if name == "work" then Some(Work) else None
  }

  datatype Texts = Texts(auditDefault: string, refineDefault: string, verifyDefault: string, workDefault: string,
                         auditContract: string, verifyContract: string)

  datatype Spec = Spec(default: string, contract: string, requireContract: bool)

  function SpecOf(t: Texts, id: Id): (s: Spec) {
    match id
    case Audit => Spec(t.auditDefault, t.auditContract, true)
    case Refine => Spec(t.refineDefault, t.auditContract, true)
    case Verify => Spec(t.verifyDefault, t.verifyContract, true)
    case Work => Spec(t.workDefault, "", false)
  }

  // ---------------------------------------------------------------- assembling

  predicate IsDigit(c: char) { '0' <= c <= '9' }

  function Decimal(n: nat): (s: string)
    ensures s != "" && forall c | c in s :: IsDigit(c)
  {
    if n < 10 then [('0' as int + n) as char] else Decimal(n / 10) + [('0' as int + n % 10) as char]
  }

  /** The locked contract with the threshold filled in. */
  function Contract(s: Spec, threshold: int): (c: string) {
    if threshold > 0 then Text.ReplaceAll(s.contract, THRESHOLD_MARK, Decimal(threshold)) else s.contract
  }

  predicate IsNewline(c: char) { c == '\n' }

  function Assemble(template: string, s: Spec, threshold: int): (p: string) {
    if s.contract == "" then template
    else
      var c := Contract(s, threshold);
      if Text.Contains(template, CONTRACT_MARK) then Text.ReplaceAll(template, CONTRACT_MARK, c)
      else Text.TrimRight(template, IsNewline) + "\n\n" + c
  }

  lemma NothingToReplace(mark: string, by_: string)
    requires mark != ""
    ensures Text.ReplaceAll("", mark, by_) == "" && Text.Contains("", "")
  {
    assert Text.At("", 0, "");
  }

  /** Whatever the template says, the whole contract is in the prompt as one contiguous block. */
  lemma ContractIsThere(template: string, s: Spec, threshold: int)
    ensures Text.Contains(Assemble(template, s, threshold), Contract(s, threshold))
  {
    var c := Contract(s, threshold);
    if s.contract == "" {
      NothingToReplace(THRESHOLD_MARK, if threshold > 0 then Decimal(threshold) else "");
      assert Text.At(template, 0, "");
    } else if Text.Contains(template, CONTRACT_MARK) {
      Text.ReplaceAllInserts(template, CONTRACT_MARK, c);
    } else {
      var before := Text.TrimRight(template, IsNewline) + "\n\n";
      Text.ContainsBlock(before, c, "");
      assert before + c + "" == before + c;
    }
  }

  /** Without the mark the contract goes to the end, after a blank line; only newlines are cut for it. */
  lemma AppendedForm(template: string, s: Spec, threshold: int) returns (text: string)
    requires s.contract != "" && !Text.Contains(template, "{{OUTPUT_CONTRACT}}")
    ensures Assemble(template, s, threshold) == text + "\n\n" + Contract(s, threshold)
    ensures text <= template && (forall i | |text| <= i < |template| :: template[i] == '\n')
    ensures text == "" || text[|text| - 1] != '\n'
  {
    hide Text.Contains, Contract;
    text := Text.TrimRight(template, IsNewline);
  }

  /** The number a text of digits stands for. */
  function Value(s: string): (n: nat)
    requires forall c | c in s :: IsDigit(c)
  {
    if s == "" then 0
    else
      assert IsDigit(s[|s| - 1]);
      10 * Value(s[..|s| - 1]) + (s[|s| - 1] as int - '0' as int)
  }

  /** The threshold is written as the number it is, without leading zeros. */
  lemma {:induction false} DecimalIsTheNumber(n: nat)
    ensures Value(Decimal(n)) == n
    ensures n > 0 ==> Decimal(n)[0] != '0'
  {
    var s := Decimal(n);
    if n >= 10 {
      DecimalIsTheNumber(n / 10);
      assert s[..|s| - 1] == Decimal(n / 10);
    } else {
      assert s[..0] == "";
    }
  }

  /** Which prompt carries which contract: auditing and refining share one, verifying has its own with the threshold
      filled in, and the work instruction is the template and nothing else. */
  lemma WhichContract(t: Texts, template: string, threshold: int)
    ensures Text.Contains(Assemble(template, SpecOf(t, Audit), 0), t.auditContract)
    ensures Text.Contains(Assemble(template, SpecOf(t, Refine), 0), t.auditContract)
    ensures threshold > 0 ==>
      Text.Contains(Assemble(template, SpecOf(t, Verify), threshold),
                    Text.ReplaceAll(t.verifyContract, "{{THRESHOLD}}", Decimal(threshold)))
    ensures Assemble(template, SpecOf(t, Work), threshold) == template
  {
    hide Text.Contains, Assemble;
    ContractIsThere(template, SpecOf(t, Audit), 0);
    ContractIsThere(template, SpecOf(t, Refine), 0);
    ContractIsThere(template, SpecOf(t, Verify), threshold);
    NoContractNoChange(template, SpecOf(t, Work), threshold);
  }

  lemma NoContractNoChange(template: string, s: Spec, threshold: int)
    requires s.contract == ""
    ensures Assemble(template, s, threshold) == template
  {
  }

  /** The edited text survives word for word: the prompt is the template with every mark, and nothing else, replaced. */
  lemma EditedTextSurvives(template: string, s: Spec, threshold: int)
    requires s.contract != "" && Text.Contains(template, CONTRACT_MARK)
    ensures var parts := Text.Pieces(template, CONTRACT_MARK);
      && |parts| >= 2 && (forall p | p in parts :: !Text.Contains(p, CONTRACT_MARK))
      && Text.Weave(parts, CONTRACT_MARK) == template
      && Assemble(template, s, threshold) == Text.Weave(parts, Contract(s, threshold))
  {
    Text.PiecesSeparate(template, CONTRACT_MARK);
    Text.ReplaceAllWeaves(template, CONTRACT_MARK, Contract(s, threshold));
    Text.ReplaceAllWeaves(template, CONTRACT_MARK, CONTRACT_MARK);
    Text.ReplaceAllBySelf(template, CONTRACT_MARK);
  }

  /** A pattern cannot straddle glue that shares no character with it. */
  lemma OverlapIsNoMatch(a: string, glue: string, b: string, p: string, i: int)
    requires p != "" && glue != "" && forall c | c in glue :: c !in p
    requires i < |a| + |glue| && i + |p| > |a|
    ensures !Text.At(a + glue + b, i, p)
  {
    var t := a + glue + b;
    if 0 <= i && i + |p| <= |t| {
      var k := if i < |a| then |a| else i;
      assert t[k] == glue[k - |a|] && glue[k - |a|] in glue;
      assert t[i..i + |p|][k - i] == t[k];
      assert p[k - i] in p;
    }
  }

  lemma SameWindow(t: string, from: nat, to: nat, i: nat, n: nat)
    requires from <= i && i + n <= to <= |t|
    ensures t[from..to][i - from..i - from + n] == t[i..i + n]
  {
    var inner, outer := t[from..to][i - from..i - from + n], t[i..i + n];
    forall k | 0 <= k < n ensures inner[k] == outer[k] {
      assert t[from..to][i - from + k] == t[i + k];
    }
  }

  lemma NoStraddle(a: string, glue: string, b: string, p: string)
    requires p != "" && glue != "" && forall c | c in glue :: c !in p
    ensures Text.Contains(a + glue + b, p) ==> Text.Contains(a, p) || Text.Contains(b, p)
  {
    var t := a + glue + b;
    if Text.Contains(t, p) {
      var i :| 0 <= i <= |t| && Text.At(t, i, p);
      var k := |a| + |glue|;
      assert t[..|a|] == a && t[k..] == b;
      if i + |p| <= |a| {
        SameWindow(t, 0, |a|, i, |p|);
        assert Text.At(a, i, p);
      } else if i >= k {
        SameWindow(t, k, |t|, i, |p|);
        assert Text.At(b, i - k, p);
      } else {
        OverlapIsNoMatch(a, glue, b, p, i);
      }
    }
  }

  lemma {:induction false} WovenHasNone(parts: seq<string>, glue: string, p: string)
    requires |parts| >= 1 && p != "" && glue != "" && forall c | c in glue :: c !in p
    requires forall q | q in parts :: !Text.Contains(q, p)
    ensures !Text.Contains(Text.Weave(parts, glue), p)
  {
    hide Text.Contains;
    if |parts| > 1 {
      WovenHasNone(parts[1..], glue, p);
      NoStraddle(parts[0], glue, Text.Weave(parts[1..], glue), p);
    }
  }

  /** With a positive threshold no threshold mark is left in the contract. */
  lemma ThresholdIsFilledIn(s: Spec, threshold: int)
    requires threshold > 0
    ensures !Text.Contains(Contract(s, threshold), THRESHOLD_MARK)
  {
    hide Text.Contains;
    var digits := Decimal(threshold);
    Text.ReplaceAllWeaves(s.contract, THRESHOLD_MARK, digits);
    Text.PiecesSeparate(s.contract, THRESHOLD_MARK);
    assert forall c | c in THRESHOLD_MARK :: !IsDigit(c);
    WovenHasNone(Text.Pieces(s.contract, THRESHOLD_MARK), digits, THRESHOLD_MARK);
  }

  // ---------------------------------------------------------------- the registry

  datatype Failure = UnknownPrompt | EmptyPrompt | MissingContract | StrayThreshold | NotSaved

  function Validate(s: Spec, candidate: string): (fails: seq<Failure>) {
    if Text.TrimSpace(candidate) == "" then [EmptyPrompt]
    else
      (if s.requireContract && !Text.Contains(candidate, CONTRACT_MARK) then [MissingContract] else [])
      + (if Text.Contains(candidate, THRESHOLD_MARK) then [StrayThreshold] else [])
  }

  type File = Option<map<string, string>>
  type Overrides = map<Id, string>

  /** What a load takes from the file: known prompts that are not blank. */
  function Loaded(file: File): (o: Overrides) {
    if file.None? then map[]
    else map id: Id | Name(id) in file.value && Text.TrimSpace(file.value[Name(id)]) != "" :: file.value[Name(id)]
  }

  function Saved(o: Overrides): (file: map<string, string>) {
    map name | name in NamesOf(o) :: o[IdOf(name).value]
  }

  function NamesOf(o: Overrides): (names: set<string>)
    ensures forall name | name in names :: IdOf(name).Some? && IdOf(name).value in o
    ensures forall id | id in o :: Name(id) in names
  {
    set id | id in o :: Name(id)
  }

  function Template(t: Texts, o: Overrides, id: Id): (s: string) {
    if id in o then o[id] else SpecOf(t, id).default
  }

  /** The exact default, or nothing, resets to the default. */
  predicate Resets(s: Spec, candidate: string) {
    Text.TrimSpace(candidate) == "" || Text.TrimSpace(candidate) == Text.TrimSpace(s.default)
  }

  /** The overrides after an edit, or nothing when the edit is refused. */
  function Edited(t: Texts, o: Overrides, name: string, candidate: string): (o': Option<Overrides>) {
    if IdOf(name).None? then None
    else
      var id := IdOf(name).value;
      var s := SpecOf(t, id);
      if Resets(s, candidate) then Some(o - {id})
      else if Validate(s, candidate) != [] then None
      else Some(o[id := candidate])
  }

  datatype State = State(overrides: Overrides, file: File)

  /** What an edit leaves, `meanwhile` being the state as other edits leave it before this one saves its snapshot. The
      memory keeps the edit even when the save fails. */
  function AfterSet(t: Texts, st: State, name: string, candidate: string, meanwhile: State, saveWorks: bool)
    : (st': State)
  {
    var edited := Edited(t, st.overrides, name, candidate);
    if edited.None? then st
    else State(meanwhile.overrides, if saveWorks then Some(Saved(edited.value)) else meanwhile.file)
  }

  /** The default of a prompt, by its name in the file and the interface. */
  function DefaultOf(t: Texts, name: string): (d: Option<string>) {
    if name == "audit" then Some(t.auditDefault) else if name == "refine" then Some(t.refineDefault)
    else if name == "verify" then Some(t.verifyDefault) else if name == "work" then Some(t.workDefault) else None
  }

  /** The template in force under a name. */
  function Current(t: Texts, o: Overrides, name: string): (s: Option<string>) {
    if IdOf(name).Some? then Some(Template(t, o, IdOf(name).value)) else None
  }

  /** Which edits are accepted and what they do, for every name and text: blank text and the default reset to the default;
      other text must carry the contract mark, except for the work instruction, and no threshold mark, and is then in
      force; nothing else changes. */
  lemma EditExactly(t: Texts, o: Overrides, name: string, candidate: string)
    ensures Edited(t, o, name, candidate).Some? <==>
      && DefaultOf(t, name).Some?
      && (|| Text.TrimSpace(candidate) == "" || Text.TrimSpace(candidate) == Text.TrimSpace(DefaultOf(t, name).value)
          || (&& (name == "work" || Text.Contains(candidate, "{{OUTPUT_CONTRACT}}"))
              && !Text.Contains(candidate, "{{THRESHOLD}}")))
    ensures Edited(t, o, name, candidate).Some? ==>
      Current(t, Edited(t, o, name, candidate).value, name)
      == if Text.TrimSpace(candidate) == "" || Text.TrimSpace(candidate) == Text.TrimSpace(DefaultOf(t, name).value)
         then DefaultOf(t, name) else Some(candidate)
    ensures Edited(t, o, name, candidate).Some? ==>
      forall other | other != name :: Current(t, Edited(t, o, name, candidate).value, other) == Current(t, o, other)
  {
    hide Text.Contains, Text.TrimSpace;
  }

  /** Loading takes exactly the known names with text that is not blank; all other prompts have their default. */
  lemma LoadExactly(t: Texts, file: File, name: string)
    ensures Current(t, Loaded(file), name)
         == if DefaultOf(t, name).Some? && file.Some? && name in file.value && Text.TrimSpace(file.value[name]) != ""
            then Some(file.value[name]) else DefaultOf(t, name)
  {
    hide Text.TrimSpace;
  }

  class Registry {
    const texts: Texts
    var overrides: Overrides
    var file: File

    ghost function View(): (st: State)
      reads this
    {
      State(overrides, file)
    }

    constructor (texts: Texts, file: File)
      ensures this.texts == texts && View() == State(Loaded(file), file)
    {
      this.texts := texts;
      this.file := file;
      overrides := Loaded(file);
    }

    method Set(name: string, candidate: string, meanwhile: State, saveWorks: bool) returns (fails: seq<Failure>)
      modifies this
      ensures View() == AfterSet(texts, old(View()), name, candidate, meanwhile, saveWorks)
      ensures fails == [] <==> Edited(texts, old(overrides), name, candidate).Some? && saveWorks
    {
      hide Text.Contains, Text.TrimSpace;
      var id := IdOf(name);
      if id.None? { return [UnknownPrompt]; }
      var s := SpecOf(texts, id.value);
      var reset := Resets(s, candidate);
      if !reset {
        fails := Validate(s, candidate);
        if fails != [] { return; }
      }
      overrides := if reset then overrides - {id.value} else overrides[id.value := candidate];
      var snapshot := overrides;
      overrides, file := meanwhile.overrides, meanwhile.file;
      if !saveWorks { return [NotSaved]; }
      file := Some(Saved(snapshot));
      fails := [];
    }

    method Preamble(id: Id, threshold: int) returns (p: string)
      ensures p == Assemble(Template(texts, overrides, id), SpecOf(texts, id), threshold)
      ensures Text.Contains(p, Contract(SpecOf(texts, id), threshold))
    {
      p := Assemble(Template(texts, overrides, id), SpecOf(texts, id), threshold);
      ContractIsThere(Template(texts, overrides, id), SpecOf(texts, id), threshold);
    }
  }

  // ---------------------------------------------------------------- whole runs

  /** An edit is known by the step that applied it. */
  datatype Op = Apply(name: string, candidate: string) | Persist(r: nat, works: bool) | Reopen

  /** The state, and the snapshots that are still to be saved. */
  datatype Sys = Sys(st: State, snapshots: map<nat, Overrides>)

  function Next(t: Texts, sys: Sys, op: Op, n: nat): (sys': Sys) {
    match op
    case Apply(name, candidate) =>
      var edited := Edited(t, sys.st.overrides, name, candidate);
      if edited.None? then sys else Sys(sys.st.(overrides := edited.value), sys.snapshots[n := edited.value])
    case Persist(r, works) =>
      if r !in sys.snapshots then sys
      else Sys(if works then sys.st.(file := Some(Saved(sys.snapshots[r]))) else sys.st, sys.snapshots - {r})
    case Reopen => Sys(State(Loaded(sys.st.file), sys.st.file), map[])
  }

  function Run(t: Texts, file: File, ops: seq<Op>): (sys: Sys) {
    if ops == [] then Sys(State(Loaded(file), file), map[])
    else Next(t, Run(t, file, ops[..|ops| - 1]), ops[|ops| - 1], |ops| - 1)
  }

  /** The two steps of an edit are the edit: applied at `sys` and saved at `later`, it leaves what `Set` leaves. */
  lemma SetInSteps(t: Texts, sys: Sys, name: string, candidate: string, n: nat, later: Sys, works: bool)
    requires Edited(t, sys.st.overrides, name, candidate).Some?
    requires n in later.snapshots && later.snapshots[n] == Next(t, sys, Apply(name, candidate), n).st.overrides
    ensures Next(t, later, Persist(n, works), n).st == AfterSet(t, sys.st, name, candidate, later.st, works)
  {
    hide Edited, Saved;
  }

  /** For every file, every run of edits and restarts and every threshold, each assembled prompt holds its whole
      contract in one block; with a positive threshold the mark is gone from it. */
  lemma EveryPromptCarriesItsContract(t: Texts, file: File, ops: seq<Op>, id: Id, threshold: int)
    ensures var p := Assemble(Template(t, Run(t, file, ops).st.overrides, id), SpecOf(t, id), threshold);
            Text.Contains(p, Contract(SpecOf(t, id), threshold))
    ensures threshold > 0 ==> !Text.Contains(Contract(SpecOf(t, id), threshold), THRESHOLD_MARK)
  {
    ContractIsThere(Template(t, Run(t, file, ops).st.overrides, id), SpecOf(t, id), threshold);
    if threshold > 0 {
      ThresholdIsFilledIn(SpecOf(t, id), threshold);
    }
  }

  /** No override is blank: that is what a load would drop. */
  ghost predicate NoneBlank(o: Overrides) {
    forall id | id in o :: Text.TrimSpace(o[id]) != ""
  }

  lemma SavedLoadsBack(o: Overrides)
    requires NoneBlank(o)
    ensures Loaded(Some(Saved(o))) == o
  {
    hide Text.TrimSpace;
    var file := Saved(o);
    forall id: Id ensures Name(id) in file <==> id in o {
      if Name(id) in file {
        assert IdOf(Name(id)) == Some(id);
      }
    }
  }

  lemma {:induction false} RunKeepsNoneBlank(t: Texts, file: File, ops: seq<Op>)
    ensures NoneBlank(Run(t, file, ops).st.overrides)
    ensures forall r | r in Run(t, file, ops).snapshots :: NoneBlank(Run(t, file, ops).snapshots[r])
  {
    hide Text.TrimSpace, Text.Contains;
    if ops != [] {
      RunKeepsNoneBlank(t, file, ops[..|ops| - 1]);
    }
  }

  /** The edit that last changed the memory, and the edit whose snapshot was last saved; a restart goes back to the
      latter. */
  function LastEdit(t: Texts, file: File, ops: seq<Op>): (k: Option<nat>) {
    if ops == [] then None
    else
      var before, op := ops[..|ops| - 1], ops[|ops| - 1];
      match op
      case Apply(name, candidate) =>
        if Edited(t, Run(t, file, before).st.overrides, name, candidate).Some? then Some(|ops| - 1)
        else LastEdit(t, file, before)
      case Persist(_, _) => LastEdit(t, file, before)
      case Reopen => LastSaved(t, file, before)
  }

  function LastSaved(t: Texts, file: File, ops: seq<Op>): (k: Option<nat>) {
    if ops == [] then None
    else
      var before, op := ops[..|ops| - 1], ops[|ops| - 1];
      if op.Persist? && op.works && op.r in Run(t, file, before).snapshots then Some(op.r) else LastSaved(t, file, before)
  }

  /** The overrides as an edit left them. */
  function LeftBy(t: Texts, file: File, ops: seq<Op>, k: Option<nat>): (o: Overrides) {
    if k.Some? && k.value < |ops| then Run(t, file, ops[..k.value + 1]).st.overrides else Loaded(file)
  }

  lemma LeftByEarlier(t: Texts, file: File, ops: seq<Op>, k: Option<nat>)
    requires ops != [] && (k.Some? ==> k.value < |ops| - 1)
    ensures LeftBy(t, file, ops, k) == LeftBy(t, file, ops[..|ops| - 1], k)
  {
    hide Run;
    if k.Some? {
      assert ops[..|ops| - 1][..k.value + 1] == ops[..k.value + 1];
    }
  }

  lemma NextWrites(t: Texts, sys: Sys, op: Op, n: nat)
    ensures var sys' := Next(t, sys, op, n);
      && (op.Persist? && op.works && op.r in sys.snapshots ==> sys'.st.file == Some(Saved(sys.snapshots[op.r])))
      && (!(op.Persist? && op.works && op.r in sys.snapshots) ==> sys'.st.file == sys.st.file)
      && (op.Persist? ==> sys'.st.overrides == sys.st.overrides)
      && (op.Reopen? ==> sys'.st.overrides == Loaded(sys.st.file))
      && (op.Apply? ==> sys'.st.overrides == if Edited(t, sys.st.overrides, op.name, op.candidate).Some?
                                              then Edited(t, sys.st.overrides, op.name, op.candidate).value
                                              else sys.st.overrides)
      && (forall r | r in sys'.snapshots ::
            (r in sys.snapshots && sys'.snapshots[r] == sys.snapshots[r])
            || (r == n && sys'.snapshots[r] == sys'.st.overrides))
  {
    hide Edited, Saved, Loaded;
  }

  lemma {:induction false} WhoLeftWhat(t: Texts, file: File, ops: seq<Op>)
    ensures var sys := Run(t, file, ops); var edit, saved := LastEdit(t, file, ops), LastSaved(t, file, ops);
      && (edit.Some? ==> edit.value < |ops|) && (saved.Some? ==> saved.value < |ops|)
      && sys.st.overrides == LeftBy(t, file, ops, edit)
      && Loaded(sys.st.file) == LeftBy(t, file, ops, saved)
      && forall r | r in sys.snapshots :: r < |ops| && sys.snapshots[r] == LeftBy(t, file, ops, Some(r))
  {
    hide Edited, Saved, Loaded, Next, LeftBy, NoneBlank;
    if ops == [] {
      NothingLeft(t, file);
    } else {
      var n := |ops| - 1;
      var before, op := ops[..n], ops[n];
      var sys := Run(t, file, before);
      WhoLeftWhat(t, file, before);
      NextWrites(t, sys, op, n);
      LeftNow(t, file, ops);
      LeftByEarlier(t, file, ops, LastEdit(t, file, before));
      LeftByEarlier(t, file, ops, LastSaved(t, file, before));
      RunKeepsNoneBlank(t, file, before);
      if op.Persist? && op.works && op.r in sys.snapshots {
        SavedLoadsBack(sys.snapshots[op.r]);
      }
      forall r | r in sys.snapshots ensures LeftBy(t, file, ops, Some(r)) == LeftBy(t, file, before, Some(r)) {
        LeftByEarlier(t, file, ops, Some(r));
      }
    }
  }

  lemma NothingLeft(t: Texts, file: File)
    ensures Run(t, file, []) == Sys(State(Loaded(file), file), map[]) && LeftBy(t, file, [], None) == Loaded(file)
  {
  }

  lemma LeftNow(t: Texts, file: File, ops: seq<Op>)
    requires ops != []
    ensures LeftBy(t, file, ops, Some(|ops| - 1)) == Run(t, file, ops).st.overrides
  {
    assert ops[..|ops|] == ops;
  }

  /** After any run of overlapping edits, a restart brings back exactly the memory if and only if the last snapshot saved
      left the overrides that the last edit left; nothing is lost when those are the same edit. */
  lemma RestartKeepsSavedEdits(t: Texts, file: File, ops: seq<Op>)
    ensures Run(t, file, ops + [Reopen]).st.overrides == Run(t, file, ops).st.overrides <==>
              LeftBy(t, file, ops, LastSaved(t, file, ops)) == LeftBy(t, file, ops, LastEdit(t, file, ops))
    ensures LastSaved(t, file, ops) == LastEdit(t, file, ops) ==>
              Run(t, file, ops + [Reopen]).st.overrides == Run(t, file, ops).st.overrides
    ensures forall r, works :: Run(t, file, ops + [Reopen] + [Persist(r, works)]) == Run(t, file, ops + [Reopen])
  {
    hide LeftBy, LastSaved, LastEdit;
    assert (ops + [Reopen])[..|ops|] == ops;
    forall r, works ensures Run(t, file, ops + [Reopen] + [Persist(r, works)]) == Run(t, file, ops + [Reopen]) {
      assert (ops + [Reopen] + [Persist(r, works)])[..|ops| + 1] == ops + [Reopen];
    }
    WhoLeftWhat(t, file, ops);
  }

  /** So an edit that nothing overlaps is never lost once its save has worked. */
  lemma EditAloneIsKept(t: Texts, file: File, ops: seq<Op>, name: string, candidate: string)
    requires Edited(t, Run(t, file, ops).st.overrides, name, candidate).Some?
    ensures var after := ops + [Apply(name, candidate)] + [Persist(|ops|, true)];
      && Run(t, file, after + [Reopen]).st.overrides == Run(t, file, after).st.overrides
      && Some(Run(t, file, after).st.overrides) == Edited(t, Run(t, file, ops).st.overrides, name, candidate)
  {
    hide Edited, Saved, Loaded;
    var applied := ops + [Apply(name, candidate)];
    var after := applied + [Persist(|ops|, true)];
    assert applied[..|ops|] == ops && after[..|applied|] == applied;
    RestartKeepsSavedEdits(t, file, after);
  }

  /** Two edits that save in the opposite order of their snapshots: after any run, for any two edits that are accepted
      and of which the second changes anything, both saves work and a restart loses the second. */
  lemma OverlapLosesAnEdit(t: Texts, file: File, ops: seq<Op>, n1: string, c1: string, n2: string, c2: string)
    requires var o := Edited(t, Run(t, file, ops).st.overrides, n1, c1);
      o.Some? && Edited(t, o.value, n2, c2).Some? && Edited(t, o.value, n2, c2) != o
    ensures var k := |ops|;
      var after := ops + [Apply(n1, c1)] + [Apply(n2, c2)] + [Persist(k + 1, true)] + [Persist(k, true)];
      var first := Edited(t, Run(t, file, ops).st.overrides, n1, c1).value;
      && Some(Run(t, file, after).st.overrides) == Edited(t, first, n2, c2)
      && Run(t, file, after + [Reopen]).st.overrides == first != Run(t, file, after).st.overrides
  {
    hide Edited, Saved, Loaded, Run, NoneBlank;
    var k := |ops|;
    var a := ops + [Apply(n1, c1)];
    var b := a + [Apply(n2, c2)];
    var c := b + [Persist(k + 1, true)];
    var after := c + [Persist(k, true)];
    RunAppend(t, file, ops, Apply(n1, c1));
    RunAppend(t, file, a, Apply(n2, c2));
    RunAppend(t, file, b, Persist(k + 1, true));
    RunAppend(t, file, c, Persist(k, true));
    RunAppend(t, file, after, Reopen);
    RunKeepsNoneBlank(t, file, a);
    SavedLoadsBack(Run(t, file, a).st.overrides);
  }

  lemma RunAppend(t: Texts, file: File, ops: seq<Op>, op: Op)
    ensures Run(t, file, ops + [op]) == Next(t, Run(t, file, ops), op, |ops|)
  {
    assert (ops + [op])[..|ops|] == ops;
  }

  /** Every template that needs the contract mark has it, and no override carries a threshold mark. */
  ghost predicate AllMarked(t: Texts, o: Overrides) {
    && (forall id: Id | SpecOf(t, id).requireContract :: Text.Contains(Template(t, o, id), CONTRACT_MARK))
    && (forall id | id in o :: !Text.Contains(o[id], THRESHOLD_MARK))
  }

  ghost predicate FileMarked(t: Texts, file: File) {
    AllMarked(t, Loaded(file)) && AllMarked(t, map[])
  }

  lemma EditedMarked(t: Texts, o: Overrides, name: string, candidate: string)
    requires AllMarked(t, o) && AllMarked(t, map[])
    ensures Edited(t, o, name, candidate).Some? ==> AllMarked(t, Edited(t, o, name, candidate).value)
  {
    hide Text.Contains, Text.TrimSpace;
    var edited := Edited(t, o, name, candidate);
    if edited.Some? {
      forall i: Id | SpecOf(t, i).requireContract
        ensures Text.Contains(Template(t, edited.value, i), CONTRACT_MARK)
      {
        assert Text.Contains(Template(t, o, i), CONTRACT_MARK);
        assert Text.Contains(Template(t, map[], i), CONTRACT_MARK);
      }
    }
  }

  /** Editing never removes the place of the contract: if the defaults and the file carry the mark, then in every
      reachable state, overlapping edits included, the contract is spliced where the mark stands and never appended; nor
      does an edit bring in a threshold mark, which nothing would fill in. */
  lemma {:induction false} EditsKeepTheMark(t: Texts, file: File, ops: seq<Op>)
    requires FileMarked(t, file)
    ensures AllMarked(t, Run(t, file, ops).st.overrides) && FileMarked(t, Run(t, file, ops).st.file)
    ensures forall r | r in Run(t, file, ops).snapshots :: AllMarked(t, Run(t, file, ops).snapshots[r])
  {
    hide AllMarked, Edited, Loaded, Saved, NoneBlank;
    if ops != [] {
      var before, op := ops[..|ops| - 1], ops[|ops| - 1];
      EditsKeepTheMark(t, file, before);
      var sys := Run(t, file, before);
      if op.Apply? {
        EditedMarked(t, sys.st.overrides, op.name, op.candidate);
      } else if op.Persist? && op.r in sys.snapshots {
        RunKeepsNoneBlank(t, file, before);
        SavedLoadsBack(sys.snapshots[op.r]);
      }
    }
  }
}
