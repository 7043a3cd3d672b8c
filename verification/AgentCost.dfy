/**
 internal/api/agent_cost.go: prices, the transcript parser and the bill.

 Money is exact (`real`): the rounding of float64 sums is not modelled. A
 transcript is the sequence of its scanned lines; JSON decoding is taken as done.
 A character of a timestamp stands for one byte.
 */
module AgentCost {
  import opened Options
  import opened MapSum
  import Text

  // ---------------------------------------------------------------- prices

  /** USD per million tokens. */
  datatype Price = Price(input: real, output: real, write5m: real, write1h: real, read: real)

  const CURRENT_OPUS := Price(5.0, 25.0, 6.25, 10.0, 0.50)
  const LEGACY_OPUS := Price(15.0, 75.0, 18.75, 30.0, 1.50)
  const OPUS_5_5 := Price(4.0, 20.0, 5.0, 8.0, 0.20)

  const PRICE_TABLE: seq<(string, Price)> := [
    ("opus-5-5", OPUS_5_5),
    ("opus-5", CURRENT_OPUS), ("opus-4-8", CURRENT_OPUS), ("opus-4-7", CURRENT_OPUS),
    ("opus-4-6", CURRENT_OPUS), ("opus-4-5", CURRENT_OPUS),
    ("opus-4-1", LEGACY_OPUS), ("opus-4", LEGACY_OPUS), ("opus-3", LEGACY_OPUS),
    ("sonnet", Price(3.0, 15.0, 3.75, 6.0, 0.30)),
    ("haiku", Price(1.0, 5.0, 1.25, 2.0, 0.10))]

  function FirstMatch(rows: seq<(string, Price)>, model: string): (p: Price)
    ensures p == OPUS_5_5 || exists i :: 0 <= i < |rows| && p == rows[i].1
  {
    if rows == [] then OPUS_5_5
    else if Text.Contains(model, rows[0].0) then rows[0].1
    else FirstMatch(rows[1..], model)
  }

  function PriceForModel(model: string): (p: Price)
    // whatever the model is called, output bills at 5 times the input rate, writes at 1.25 and 2 times
    ensures p.output == 5.0 * p.input && p.write5m == 1.25 * p.input && p.write1h == 2.0 * p.input && p.input > 0.0
    // and reads at a tenth of it, except for Opus 5.5, which is also the default
    ensures p.read == 0.1 * p.input || p == OPUS_5_5
  {
    FirstMatch(PRICE_TABLE, Text.ToLower(model))
  }

  /** The first row whose needle the model holds decides; without one the default does. */
  lemma {:induction false} FirstMatchWins(rows: seq<(string, Price)>, model: string, i: nat)
    requires i <= |rows| && forall j | 0 <= j < i :: !Text.Contains(model, rows[j].0)
    requires i < |rows| ==> Text.Contains(model, rows[i].0)
    ensures FirstMatch(rows, model) == if i < |rows| then rows[i].1 else OPUS_5_5
  {
    hide Text.Contains;
    if i > 0 {
      FirstMatchWins(rows[1..], model, i - 1);
    }
  }

  /** The input rate of each family, for every name in any case: a row decides unless an earlier one does. */
  lemma FamilyRates(model: string)
    ensures var m, usd := Text.ToLower(model), PriceForModel(model).input;
      if Text.Contains(m, "opus-5-5") then usd == 4.0
      else if Text.Contains(m, "opus-5") || Text.Contains(m, "opus-4-8") || Text.Contains(m, "opus-4-7")
              || Text.Contains(m, "opus-4-6") || Text.Contains(m, "opus-4-5") then usd == 5.0
      else if Text.Contains(m, "opus-4-1") || Text.Contains(m, "opus-4") || Text.Contains(m, "opus-3") then usd == 15.0
      else if Text.Contains(m, "sonnet") then usd == 3.0
      else if Text.Contains(m, "haiku") then usd == 1.0
      else usd == 4.0
  {
    hide Text.Contains, Text.ToLower;
    var m, t := Text.ToLower(model), PRICE_TABLE;
    var i := FirstRow(t, m);
    FirstMatchWins(t, m, i);
    assert |t| == 11 && t[0].0 == "opus-5-5" && t[1].0 == "opus-5" && t[2].0 == "opus-4-8" && t[3].0 == "opus-4-7";
    assert t[4].0 == "opus-4-6" && t[5].0 == "opus-4-5" && t[6].0 == "opus-4-1" && t[7].0 == "opus-4";
    assert t[8].0 == "opus-3" && t[9].0 == "sonnet" && t[10].0 == "haiku";
  }

  lemma {:induction false} FirstRow(rows: seq<(string, Price)>, m: string) returns (i: nat)
    ensures i <= |rows| && forall j | 0 <= j < i :: !Text.Contains(m, rows[j].0)
    ensures i < |rows| ==> Text.Contains(m, rows[i].0)
  {
    hide Text.Contains;
    i := 0;
    if rows != [] && !Text.Contains(m, rows[0].0) {
      i := FirstRow(rows[1..], m);
      i := i + 1;
    }
  }

  // ---------------------------------------------------------------- tokens and their cost

  datatype Tokens = Tokens(input: int, output: int, cacheRead: int, cacheCreation: int, cacheCreation1h: int)

  const NO_TOKENS := Tokens(0, 0, 0, 0, 0)

  function Add(a: Tokens, b: Tokens): (t: Tokens) {
    Tokens(a.input + b.input, a.output + b.output, a.cacheRead + b.cacheRead,
           a.cacheCreation + b.cacheCreation, a.cacheCreation1h + b.cacheCreation1h)
  }

  /** The 1h slice that is billed: at most the total, never negative. */
  function Billed1h(t: Tokens): (n: int) {
    var n := if t.cacheCreation1h > t.cacheCreation then t.cacheCreation else t.cacheCreation1h;
    if n < 0 then 0 else n
  }

  /** What `n` tokens cost at a rate per million. */
  function Rated(n: int, rate: real): (usd: real) {
    n as real / 1000000.0 * rate
  }

  function CostForModel(model: string, t: Tokens): (usd: real) {
    var p := PriceForModel(model);
    var cc1h := Billed1h(t);
    var cc5m := t.cacheCreation - cc1h;
    Rated(t.input, p.input) + Rated(t.output, p.output) + Rated(cc5m, p.write5m) + Rated(cc1h, p.write1h)
    + Rated(t.cacheRead, p.read)
  }

  /** The split between the two rates makes sense, so no clamp acts on `t`. */
  predicate Coherent(t: Tokens) {
    0 <= t.cacheCreation1h <= t.cacheCreation
  }

  lemma RatedSum(a: int, b: int, rate: real)
    ensures Rated(a + b, rate) == Rated(a, rate) + Rated(b, rate)
  {
    var u, v := a as real / 1000000.0, b as real / 1000000.0;
    assert (a + b) as real / 1000000.0 == u + v;
  }

  /** What moving `n` cache-write tokens from the 5m to the 1h rate adds to a bill. */
  function Surcharge(model: string, n: int): (usd: real) {
    Rated(n, PriceForModel(model).write1h) - Rated(n, PriceForModel(model).write5m)
  }

  lemma SurchargeSum(model: string, a: int, b: int)
    ensures Surcharge(model, a + b) == Surcharge(model, a) + Surcharge(model, b)
  {
    hide Rated, PriceForModel;
    RatedSum(a, b, PriceForModel(model).write1h);
    RatedSum(a, b, PriceForModel(model).write5m);
  }

  lemma SurchargeZero(model: string, n: int)
    ensures Surcharge(model, n) == 0.0 <==> n == 0
  {
    hide PriceForModel;
    var p := PriceForModel(model);
    var u := n as real / 1000000.0;
    assert u * p.write1h == u * p.write5m + u * (p.write1h - p.write5m);
    assert p.write1h - p.write5m == 0.75 * p.input;
    if n > 0 {
      assert u * (p.write1h - p.write5m) > 0.0;
    } else if n < 0 {
      assert (-u) * (p.write1h - p.write5m) > 0.0;
    }
  }

  /** Two bills differ from the bill of their sum by exactly what the clamp moved between the rates. */
  lemma CostOfSum(model: string, a: Tokens, b: Tokens)
    ensures CostForModel(model, Add(a, b))
         == CostForModel(model, a) + CostForModel(model, b)
            + Surcharge(model, Billed1h(Add(a, b)) - Billed1h(a) - Billed1h(b))
  {
    hide Rated, PriceForModel, Billed1h;
    var p := PriceForModel(model);
    var x, y, z := Billed1h(a), Billed1h(b), Billed1h(Add(a, b));
    RatedSum(a.input, b.input, p.input);
    RatedSum(a.output, b.output, p.output);
    RatedSum(a.cacheRead, b.cacheRead, p.read);
    RatedSum(a.cacheCreation - x, b.cacheCreation - y, p.write5m);
    RatedSum(a.cacheCreation + b.cacheCreation - z, z - x - y, p.write5m);
    RatedSum(x, y, p.write1h);
    RatedSum(x + y, z - x - y, p.write1h);
  }

  lemma NothingCostsNothing(model: string)
    ensures CostForModel(model, NO_TOKENS) == 0.0
  {
    hide PriceForModel;
    var p := PriceForModel(model);
    assert 0.0 * p.input == 0.0 && 0.0 * p.output == 0.0 && 0.0 * p.read == 0.0;
  }

  /** What one more token of each kind adds; with the zero bill this fixes the cost of every coherent count. */
  lemma MarginalRates(model: string, t: Tokens)
    requires Coherent(t)
    ensures var p, usd := PriceForModel(model), CostForModel(model, t);
      && CostForModel(model, t.(input := t.input + 1)) == usd + Rated(1, p.input)
      && CostForModel(model, t.(output := t.output + 1)) == usd + Rated(1, p.output)
      && CostForModel(model, t.(cacheRead := t.cacheRead + 1)) == usd + Rated(1, p.read)
      && CostForModel(model, t.(cacheCreation := t.cacheCreation + 1)) == usd + Rated(1, p.write5m)
      && CostForModel(model, t.(cacheCreation := t.cacheCreation + 1, cacheCreation1h := t.cacheCreation1h + 1))
         == usd + Rated(1, p.write1h)
  {
    hide Rated, PriceForModel;
    var p := PriceForModel(model);
    RatedSum(t.input, 1, p.input);
    RatedSum(t.output, 1, p.output);
    RatedSum(t.cacheRead, 1, p.read);
    RatedSum(t.cacheCreation - t.cacheCreation1h, 1, p.write5m);
    RatedSum(t.cacheCreation1h, 1, p.write1h);
  }

  /** A split that makes no sense is billed as the nearest one that does: no more 1h than was written, none below zero. */
  lemma MalformedSplit(model: string, t: Tokens)
    ensures t.cacheCreation >= 0 && t.cacheCreation1h > t.cacheCreation ==>
              CostForModel(model, t) == CostForModel(model, t.(cacheCreation1h := t.cacheCreation))
    ensures t.cacheCreation < 0 || t.cacheCreation1h < 0 ==>
              CostForModel(model, t) == CostForModel(model, t.(cacheCreation1h := 0))
  {
    hide Rated, PriceForModel;
  }

  lemma NewOpusRow(model: string)
    requires Text.Contains(model, "opus-5-5")
    ensures FirstMatch(PRICE_TABLE, model) == OPUS_5_5
  {
    hide Text.Contains;
    FirstMatchWins(PRICE_TABLE, model, 0);
  }

  lemma OpusRow(model: string)
    requires Text.Contains(model, "opus-5") && !Text.Contains(model, "opus-5-5")
    ensures FirstMatch(PRICE_TABLE, model) == CURRENT_OPUS
  {
    hide Text.Contains;
    FirstMatchWins(PRICE_TABLE, model, 1);
  }

  lemma MeasuredPrices()
    ensures PriceForModel("claude-opus-5[1m]") == CURRENT_OPUS && PriceForModel("claude-opus-5-5[1m]") == OPUS_5_5
  {
    hide Text.Contains;
    var five, newer := "claude-opus-5[1m]", "claude-opus-5-5[1m]";
    assert Text.ToLower(five) == five && Text.ToLower(newer) == newer;
    assert five == "claude-" + "opus-5" + "[1m]" && newer == "claude-" + "opus-5-5" + "[1m]";
    Text.ContainsBlock("claude-", "opus-5", "[1m]");
    Text.ContainsBlock("claude-", "opus-5-5", "[1m]");
    NewOpusRow(newer);
    NotTheNewer();
    OpusRow(five);
  }

  lemma NotTheNewer()
    ensures !Text.Contains("claude-opus-5[1m]", "opus-5-5")
  {
    var five := "claude-opus-5[1m]";
    forall i | 0 <= i <= |five| ensures !Text.At(five, i, "opus-5-5") {
      if i + 8 <= |five| {
        assert five[i..i + 8][0] == five[i] && five[i..i + 8][7] == five[i + 7];
      }
    }
  }

  /** The two invoices quoted beside the price table come out exactly. */
  lemma MeasuredBills()
    ensures CostForModel("claude-opus-5[1m]", Tokens(2, 4, 0, 78592, 78592)) == 0.78603
    ensures CostForModel("claude-opus-5-5[1m]", Tokens(2, 4, 0, 58850, 58850)) == 0.470888
  {
    hide PriceForModel;
    MeasuredPrices();
  }

  // ---------------------------------------------------------------- transcript lines

  datatype Breakdown = Breakdown(ephemeral1h: int, ephemeral5m: int)

  datatype Usage = Usage(input: int, output: int, cacheRead: int, cacheCreation: int, breakdown: Option<Breakdown>) {
    /** The 1h slice of this line's cache writes, cut to the reported total. */
    function Cache1h(): (n: int)
      ensures cacheCreation >= 0 ==> 0 <= n <= cacheCreation
    {
      if breakdown.None? then 0
      else
        var n := breakdown.value.ephemeral1h;
        if n < 0 then 0 else if n > cacheCreation then cacheCreation else n
    }

    function ToTokens(): (t: Tokens) {
      Tokens(input, output, cacheRead, cacheCreation, Cache1h())
    }
  }

  datatype Envelope = Envelope(model: string, usage: Option<Usage>)

  datatype Line =
    | Blank
    | Malformed
    | Record(kind: string, timestamp: string, message: Option<Envelope>)  // None: the message did not decode

  predicate Counts(l: Line) {
    l.Record? && l.kind == "assistant" && l.message.Some? && l.message.value.usage.Some?
  }

  datatype Charge = Charge(model: string, tokens: Tokens, timestamp: string)

  function ChargeOf(l: Line): (c: Charge)
    requires Counts(l)
  {
    var env := l.message.value;
    Charge(env.model, env.usage.value.ToTokens(), l.timestamp)
  }

  /** The assistant lines with a usage block, in order. */
  function Charges(lines: seq<Line>): (cs: seq<Charge>) {
    if lines == [] then []
    else
      var before := Charges(lines[..|lines| - 1]);
      var l := lines[|lines| - 1];
      if Counts(l) then before + [ChargeOf(l)] else before
  }

  predicate Dated(c: Charge) { |c.timestamp| >= 10 }

  function DateOf(c: Charge): (date: string)
    requires Dated(c)
    ensures |date| == 10
  {
    c.timestamp[..10]
  }

  // ---------------------------------------------------------------- what the maps accumulate

  function TotalOf(cs: seq<Charge>): (t: Tokens) {
    if cs == [] then NO_TOKENS else Add(TotalOf(cs[..|cs| - 1]), cs[|cs| - 1].tokens)
  }

  type PerModel = map<string, Tokens>

  function AddTo(g: PerModel, c: Charge): (g': PerModel)
    ensures g'.Keys == g.Keys + {c.model}
  {
    g[c.model := Add(if c.model in g then g[c.model] else NO_TOKENS, c.tokens)]
  }

  function Group(cs: seq<Charge>): (g: PerModel) {
    if cs == [] then map[] else AddTo(Group(cs[..|cs| - 1]), cs[|cs| - 1])
  }

  type PerDay = map<string, PerModel>

  function AddToDay(days: PerDay, c: Charge): (days': PerDay) {
    if !Dated(c) then days
    else
      var date := DateOf(c);
      days[date := AddTo(if date in days then days[date] else map[], c)]
  }

  function GroupByDay(cs: seq<Charge>): (days: PerDay) {
    if cs == [] then map[] else AddToDay(GroupByDay(cs[..|cs| - 1]), cs[|cs| - 1])
  }

  ghost function CostPerModel(g: PerModel): (costs: map<string, real>) {
    map model | model in g :: CostForModel(model, g[model])
  }

  /** What the per-model totals cost, over all models. */
  ghost function Bill(g: PerModel): (usd: real) {
    Sum(CostPerModel(g))
  }

  ghost function BillPerDay(days: PerDay): (costs: map<string, real>) {
    map date | date in days :: Bill(days[date])
  }

  datatype Summary = Summary(total: Tokens, cost: real, byDay: map<string, real>)

  /** What parsing these lines yields. */
  ghost function Parsed(lines: seq<Line>): (s: Summary) {
    var cs := Charges(lines);
    Summary(TotalOf(cs), Bill(Group(cs)), BillPerDay(GroupByDay(cs)))
  }

  datatype Transcript = Unopenable | Scanned(lines: seq<Line>, scanFailed: bool)

  ghost function ParseResult(t: Transcript): (r: Result<Summary>) {
    if t.Unopenable? || t.scanFailed then Err else Ok(Parsed(t.lines))
  }

  // ---------------------------------------------------------------- the parser's loops

  method BillOf(g: PerModel) returns (usd: real)
    ensures usd == Bill(g)
  {
    hide CostForModel;
    ghost var costs := CostPerModel(g);
    var todo := g.Keys;
    usd := 0.0;
    assert costs - todo == map[];
    while todo != {}
      invariant todo <= g.Keys && usd == Sum(costs - todo)
      decreases |todo|
    {
      var model :| model in todo;
      SumStep(costs, todo, model);
      usd := usd + CostForModel(model, g[model]);
      todo := todo - {model};
    }
    assert costs - todo == costs;
  }

  method BillDays(days: PerDay) returns (byDay: map<string, real>)
    ensures byDay == BillPerDay(days)
  {
    hide Bill;
    byDay := map[];
    var todo := days.Keys;
    while todo != {}
      invariant todo <= days.Keys
      invariant byDay == BillPerDay(days) - todo
      decreases |todo|
    {
      var date :| date in todo;
      var usd := BillOf(days[date]);
      byDay := byDay[date := usd];
      todo := todo - {date};
    }
  }

  lemma ChargesStep(lines: seq<Line>, i: nat)
    requires i < |lines|
    ensures Charges(lines[..i + 1])
         == if Counts(lines[i]) then Charges(lines[..i]) + [ChargeOf(lines[i])] else Charges(lines[..i])
  {
    assert lines[..i + 1][..i] == lines[..i];
  }

  lemma GroupStep(cs: seq<Charge>, c: Charge)
    ensures TotalOf(cs + [c]) == Add(TotalOf(cs), c.tokens)
    ensures Group(cs + [c]) == AddTo(Group(cs), c)
    ensures GroupByDay(cs + [c]) == AddToDay(GroupByDay(cs), c)
  {
    assert (cs + [c])[..|cs|] == cs;
  }

  method ParseTranscript(t: Transcript) returns (r: Result<Summary>)
    ensures r == ParseResult(t)
    ensures r.Err? <==> t.Unopenable? || t.scanFailed
    ensures r.Ok? ==> r.value == Parsed(t.lines)
  {
    hide Bill, BillPerDay;
    if t.Unopenable? {
      return Err;
    }
    var perModel: PerModel := map[];
    var perDayModel: PerDay := map[];
    var total := NO_TOKENS;
    for i := 0 to |t.lines|
      invariant total == TotalOf(Charges(t.lines[..i]))
      invariant perModel == Group(Charges(t.lines[..i]))
      invariant perDayModel == GroupByDay(Charges(t.lines[..i]))
    {
      ChargesStep(t.lines, i);
      if Counts(t.lines[i]) {
        var c := ChargeOf(t.lines[i]);
        GroupStep(Charges(t.lines[..i]), c);
        total := Add(total, c.tokens);
        perModel := AddTo(perModel, c);
        perDayModel := AddToDay(perDayModel, c);
      }
    }
    assert t.lines[..|t.lines|] == t.lines;
    if t.scanFailed {
      return Err;
    }
    var cost := BillOf(perModel);
    var byDay := BillDays(perDayModel);
    return Ok(Summary(total, cost, byDay));
  }

  // ---------------------------------------------------------------- grouping never changes the bill

  /** The reference: every counted line priced on its own. */
  function LineCosts(cs: seq<Charge>): (usd: real) {
    if cs == [] then 0.0 else LineCosts(cs[..|cs| - 1]) + CostForModel(cs[|cs| - 1].model, cs[|cs| - 1].tokens)
  }

  predicate AllCoherent(cs: seq<Charge>) {
    forall c | c in cs :: Coherent(c.tokens)
  }

  /** No counted line reports a negative number of cache writes. */
  predicate NonNegative(lines: seq<Line>) {
    forall l | l in lines && Counts(l) :: l.message.value.usage.value.cacheCreation >= 0
  }

  /** A transcript whose cache_creation counters are not negative yields coherent charges only. */
  lemma {:induction false} NonNegativeIsCoherent(lines: seq<Line>)
    requires NonNegative(lines)
    ensures AllCoherent(Charges(lines))
  {
    if lines != [] {
      NonNegativeIsCoherent(lines[..|lines| - 1]);
    }
  }

  lemma BillAfterCharge(g: PerModel, c: Charge)
    requires Coherent(c.tokens) && (c.model in g ==> Coherent(g[c.model]))
    ensures Bill(AddTo(g, c)) == Bill(g) + CostForModel(c.model, c.tokens)
  {
    hide CostForModel, Surcharge, Bill;
    BillStep(g, c);
    SurchargeZero(c.model, 0);
  }

  lemma {:induction false} GroupStaysCoherent(cs: seq<Charge>)
    requires AllCoherent(cs)
    ensures forall model | model in Group(cs) :: Coherent(Group(cs)[model])
  {
    if cs != [] {
      GroupStaysCoherent(cs[..|cs| - 1]);
    }
  }

  /** Pricing per-model totals gives exactly what pricing line by line gives. */
  lemma {:induction false} GroupingKeepsTheBill(cs: seq<Charge>)
    requires AllCoherent(cs)
    ensures Bill(Group(cs)) == LineCosts(cs)
  {
    if cs != [] {
      var before := cs[..|cs| - 1];
      GroupingKeepsTheBill(before);
      GroupStaysCoherent(before);
      BillAfterCharge(Group(before), cs[|cs| - 1]);
    }
  }

  function Billed1hByLine(cs: seq<Charge>): (n: int) {
    if cs == [] then 0 else Billed1hByLine(cs[..|cs| - 1]) + Billed1h(cs[|cs| - 1].tokens)
  }

  /** The lines of one model, in order. */
  function OfModel(cs: seq<Charge>, model: string): (own: seq<Charge>) {
    if cs == [] then []
    else
      var before, c := OfModel(cs[..|cs| - 1], model), cs[|cs| - 1];
      if c.model == model then before + [c] else before
  }

  /** How many more 1h tokens of a model the clamp on its total bills than the clamps on its lines. */
  function ExtraBilled1h(cs: seq<Charge>, model: string): (n: int) {
    Billed1h(TotalOf(OfModel(cs, model))) - Billed1hByLine(OfModel(cs, model))
  }

  ghost function SurchargePerModel(cs: seq<Charge>): (usd: map<string, real>) {
    map model | model in Group(cs) :: Surcharge(model, ExtraBilled1h(cs, model))
  }

  lemma Billed1hByLineStep(cs: seq<Charge>, c: Charge)
    ensures Billed1hByLine(cs + [c]) == Billed1hByLine(cs) + Billed1h(c.tokens)
  {
    hide Billed1h;
    assert (cs + [c])[..|cs|] == cs;
  }

  /** A model's totals are those of its own lines. */
  lemma {:induction false} GroupIsPerModel(cs: seq<Charge>, model: string)
    ensures model in Group(cs) <==> OfModel(cs, model) != []
    ensures model in Group(cs) ==> Group(cs)[model] == TotalOf(OfModel(cs, model))
  {
    if cs != [] {
      GroupIsPerModel(cs[..|cs| - 1], model);
      GroupStep(OfModel(cs[..|cs| - 1], model), cs[|cs| - 1]);
    }
  }

  lemma NothingBilled(model: string)
    ensures Billed1h(NO_TOKENS) == 0 && Billed1hByLine([]) == 0
    ensures TotalOf([]) == NO_TOKENS && CostForModel(model, NO_TOKENS) == 0.0 && Surcharge(model, 0) == 0.0
  {
    NothingCostsNothing(model);
    SurchargeZero(model, 0);
  }

  /** What one more line does to the clamps of its own model. */
  lemma ExtraStep(cs: seq<Charge>, c: Charge)
    ensures var before := TotalOf(OfModel(cs, c.model));
      ExtraBilled1h(cs + [c], c.model)
      == ExtraBilled1h(cs, c.model) + (Billed1h(Add(before, c.tokens)) - Billed1h(before) - Billed1h(c.tokens))
    ensures forall model | model != c.model :: ExtraBilled1h(cs + [c], model) == ExtraBilled1h(cs, model)
  {
    hide Billed1h;
    assert (cs + [c])[..|cs|] == cs;
    GroupStep(OfModel(cs, c.model), c);
    Billed1hByLineStep(OfModel(cs, c.model), c);
  }

  lemma BillStep(g: PerModel, c: Charge)
    ensures Bill(AddTo(g, c)) == Bill(g) + CostForModel(c.model, c.tokens)
      + var before := if c.model in g then g[c.model] else NO_TOKENS;
        Surcharge(c.model, Billed1h(Add(before, c.tokens)) - Billed1h(before) - Billed1h(c.tokens))
  {
    hide CostForModel, Surcharge, Billed1h;
    var before := if c.model in g then g[c.model] else NO_TOKENS;
    NothingBilled(c.model);
    CostOfSum(c.model, before, c.tokens);
    var after := CostForModel(c.model, Add(before, c.tokens));
    SumUpdate(CostPerModel(g), c.model, after);
    assert CostPerModel(AddTo(g, c)) == CostPerModel(g)[c.model := after];
  }

  lemma SurchargeStep(cs: seq<Charge>, c: Charge)
    ensures Sum(SurchargePerModel(cs + [c]))
         == Sum(SurchargePerModel(cs)) + Surcharge(c.model, ExtraBilled1h(cs + [c], c.model) - ExtraBilled1h(cs, c.model))
  {
    hide Surcharge, ExtraBilled1h, Group, GroupByDay, AddToDay, TotalOf, Billed1h, Sum;
    var before, after := ExtraBilled1h(cs, c.model), ExtraBilled1h(cs + [c], c.model);
    GroupStep(cs, c);
    ExtraStep(cs, c);
    SumUpdate(SurchargePerModel(cs), c.model, Surcharge(c.model, after));
    assert SurchargePerModel(cs + [c]) == SurchargePerModel(cs)[c.model := Surcharge(c.model, after)];
    SurchargeSum(c.model, before, after - before);
    if c.model !in Group(cs) {
      NoLinesNoExtra(cs, c.model);
    }
  }

  lemma NoLinesNoExtra(cs: seq<Charge>, model: string)
    requires model !in Group(cs)
    ensures Surcharge(model, ExtraBilled1h(cs, model)) == 0.0
  {
    hide Surcharge;
    GroupIsPerModel(cs, model);
    NothingBilled(model);
  }

  /** The exact gap for a whole transcript, with no assumption on the counters: per model, what its clamps bill at the
      1h rate on the total and not on the lines. */
  lemma {:induction false} GroupingGap(cs: seq<Charge>)
    ensures Bill(Group(cs)) == LineCosts(cs) + Sum(SurchargePerModel(cs))
  {
    hide CostForModel, Surcharge, ExtraBilled1h, Bill, Billed1h, Sum, TotalOf, OfModel;
    if cs == [] {
      EmptyBill();
      SumZero(SurchargePerModel([]));
    } else {
      var before, c := cs[..|cs| - 1], cs[|cs| - 1];
      assert cs == before + [c];
      GroupingGap(before);
      BillStep(Group(before), c);
      GroupIsPerModel(before, c.model);
      NothingBilled(c.model);
      ExtraStep(before, c);
      SurchargeStep(before, c);
    }
  }

  lemma {:induction false} SumZero(m: map<string, real>)
    requires forall k | k in m :: m[k] == 0.0
    ensures Sum(m) == 0.0
    decreases |m|
  {
    if m != map[] {
      var k :| k in m;
      SumWithout(m, k);
      SumZero(m - {k});
    }
  }

  /** With any counters, a transcript's bill equals the bills of its lines if the clamp on each model's total bills as
      many 1h tokens as the clamps on its lines; with one model, if and only if. */
  lemma GroupingExact(cs: seq<Charge>)
    ensures Bill(Group(cs)) == LineCosts(cs) <==> Sum(SurchargePerModel(cs)) == 0.0
    ensures (forall model | model in Group(cs) :: ExtraBilled1h(cs, model) == 0) ==> Bill(Group(cs)) == LineCosts(cs)
    ensures forall model | Group(cs).Keys == {model} ::
              Bill(Group(cs)) == LineCosts(cs) <==> ExtraBilled1h(cs, model) == 0
  {
    hide CostForModel, Surcharge, ExtraBilled1h, Bill;
    GroupingGap(cs);
    var extra := SurchargePerModel(cs);
    if forall model | model in Group(cs) :: ExtraBilled1h(cs, model) == 0 {
      forall model | model in extra ensures extra[model] == 0.0 {
        SurchargeZero(model, 0);
      }
      SumZero(extra);
    }
    forall model | Group(cs).Keys == {model}
      ensures Bill(Group(cs)) == LineCosts(cs) <==> ExtraBilled1h(cs, model) == 0
    {
      SumWithout(extra, model);
      assert extra - {model} == map[];
      SurchargeZero(model, ExtraBilled1h(cs, model));
    }
  }

  lemma TwoLines(a: Charge, b: Charge)
    requires a.model == b.model
    ensures Bill(Group([a, b])) == LineCosts([a, b]) <==>
              Billed1h(Add(a.tokens, b.tokens)) == Billed1h(a.tokens) + Billed1h(b.tokens)
  {
    hide ExtraBilled1h, Billed1h, Add, Bill, LineCosts, SurchargePerModel, Sum;
    OneLine(a);
    assert [a] + [b] == [a, b];
    GroupStep([a], b);
    ExtraStep([a], b);
    GroupingExact([a, b]);
    assert Group([a, b]).Keys == {a.model};
    assert Bill(Group([a, b])) == LineCosts([a, b]) <==> ExtraBilled1h([a, b], a.model) == 0;
  }

  lemma OneLine(a: Charge)
    ensures Group([a]).Keys == {a.model} && TotalOf(OfModel([a], a.model)) == a.tokens
    ensures ExtraBilled1h([a], a.model) == 0
  {
    hide Billed1h;
    assert [a][..0] == [];
    assert OfModel([a], a.model) == [a] && TotalOf([a]) == a.tokens && Billed1hByLine([a]) == Billed1h(a.tokens);
  }

  /** A negative counter does move the bill: any refund after a 1h write shrinks what the clamp lets through at the 1h
      rate. */
  lemma NegativeCounterMovesTheBill(a: Charge, b: Charge)
    requires a.model == b.model && 0 < a.tokens.cacheCreation1h == a.tokens.cacheCreation
    requires b.tokens.cacheCreation < 0 == b.tokens.cacheCreation1h
    ensures Bill(Group([a, b])) != LineCosts([a, b])
  {
    hide Bill, LineCosts, Group;
    TwoLines(a, b);
  }

  // ---------------------------------------------------------------- days

  /** The charges of one day, and the charges of no day, in order. */
  function OnDay(cs: seq<Charge>, date: string): (day: seq<Charge>) {
    if cs == [] then []
    else
      var before, c := OnDay(cs[..|cs| - 1], date), cs[|cs| - 1];
      if Dated(c) && DateOf(c) == date then before + [c] else before
  }

  function Undated(cs: seq<Charge>): (rest: seq<Charge>) {
    if cs == [] then []
    else
      var before, c := Undated(cs[..|cs| - 1]), cs[|cs| - 1];
      if Dated(c) then before else before + [c]
  }

  /** There is a bucket for exactly the days that occur, and each is the grouping of that day's charges alone. */
  lemma {:induction false} DayBuckets(cs: seq<Charge>, date: string)
    ensures date in GroupByDay(cs) <==> OnDay(cs, date) != []
    ensures date in GroupByDay(cs) ==> GroupByDay(cs)[date] == Group(OnDay(cs, date))
  {
    if cs != [] {
      var before, c := cs[..|cs| - 1], cs[|cs| - 1];
      DayBuckets(before, date);
      GroupStep(OnDay(before, date), c);
      if OnDay(before, date) == [] {
        assert Group(OnDay(before, date)) == map[];
      }
    }
  }

  lemma {:induction false} OnDayCoherent(cs: seq<Charge>, date: string)
    requires AllCoherent(cs)
    ensures AllCoherent(OnDay(cs, date))
  {
    if cs != [] {
      OnDayCoherent(cs[..|cs| - 1], date);
    }
  }

  /** A day's bucket costs what its own lines cost, one by one. */
  lemma DayCostsItsLines(cs: seq<Charge>, date: string)
    requires AllCoherent(cs) && date in GroupByDay(cs)
    ensures BillPerDay(GroupByDay(cs))[date] == LineCosts(OnDay(cs, date))
  {
    DayBuckets(cs, date);
    OnDayCoherent(cs, date);
    GroupingKeepsTheBill(OnDay(cs, date));
  }

  lemma EmptyBill()
    ensures Bill(map[]) == 0.0
  {
    assert CostPerModel(map[]) == map[];
  }

  lemma DaysAfterCharge(days: PerDay, c: Charge)
    requires Coherent(c.tokens)
    requires forall date, model | date in days && model in days[date] :: Coherent(days[date][model])
    ensures Sum(BillPerDay(AddToDay(days, c)))
         == Sum(BillPerDay(days)) + (if Dated(c) then CostForModel(c.model, c.tokens) else 0.0)
  {
    hide CostForModel, Bill;
    if Dated(c) {
      var date := DateOf(c);
      var before := if date in days then days[date] else map[];
      BillAfterCharge(before, c);
      EmptyBill();
      var after := Bill(AddTo(before, c));
      SumUpdate(BillPerDay(days), date, after);
      assert BillPerDay(AddToDay(days, c)) == BillPerDay(days)[date := after];
    }
  }

  lemma {:induction false} DayGroupsStayCoherent(cs: seq<Charge>)
    requires AllCoherent(cs)
    ensures forall date, model | date in GroupByDay(cs) && model in GroupByDay(cs)[date]
              :: Coherent(GroupByDay(cs)[date][model])
  {
    if cs != [] {
      DayGroupsStayCoherent(cs[..|cs| - 1]);
    }
  }

  lemma LineCostsStep(cs: seq<Charge>, c: Charge)
    ensures LineCosts(cs + [c]) == LineCosts(cs) + CostForModel(c.model, c.tokens)
  {
    hide CostForModel;
    assert (cs + [c])[..|cs|] == cs;
  }

  /** The day buckets and the undated lines together make up the whole cost: nothing is lost or billed twice. */
  lemma {:induction false} DaysConserveTheBill(cs: seq<Charge>)
    requires AllCoherent(cs)
    ensures Sum(BillPerDay(GroupByDay(cs))) + LineCosts(Undated(cs)) == Bill(Group(cs))
  {
    hide CostForModel, Bill;
    if cs != [] {
      var before, c := cs[..|cs| - 1], cs[|cs| - 1];
      DaysConserveTheBill(before);
      DayGroupsStayCoherent(before);
      DaysAfterCharge(GroupByDay(before), c);
      GroupStaysCoherent(before);
      BillAfterCharge(Group(before), c);
      LineCostsStep(Undated(before), c);
    } else {
      assert BillPerDay(map[]) == map[];
      EmptyBill();
    }
  }

  // ---------------------------------------------------------------- token totals

  datatype Counter = Input | Output | CacheRead | CacheCreation | CacheCreation1h

  function Count(t: Tokens, k: Counter): (n: int) {
    match k
    case Input => t.input
    case Output => t.output
    case CacheRead => t.cacheRead
    case CacheCreation => t.cacheCreation
    case CacheCreation1h => t.cacheCreation1h
  }

  ghost function CountPerModel(g: PerModel, k: Counter): (counts: map<string, real>) {
    map model | model in g :: Count(g[model], k) as real
  }

  /** Every counter of the session total is the sum of that counter over the models. */
  lemma {:induction false} TotalsSumOverModels(cs: seq<Charge>, k: Counter)
    ensures Sum(CountPerModel(Group(cs), k)) == Count(TotalOf(cs), k) as real
  {
    if cs != [] {
      var before, c := cs[..|cs| - 1], cs[|cs| - 1];
      TotalsSumOverModels(before, k);
      var g := Group(before);
      var after := AddTo(g, c)[c.model];
      SumUpdate(CountPerModel(g, k), c.model, Count(after, k) as real);
      assert CountPerModel(AddTo(g, c), k) == CountPerModel(g, k)[c.model := Count(after, k) as real];
    } else {
      assert CountPerModel(map[], k) == map[];
    }
  }

  /** All of it for a transcript as read: cost, day buckets and totals against its own counted lines. */
  lemma ParsedConserves(lines: seq<Line>)
    requires NonNegative(lines)
    ensures Parsed(lines).cost == LineCosts(Charges(lines))
    ensures Sum(Parsed(lines).byDay) + LineCosts(Undated(Charges(lines))) == Parsed(lines).cost
    ensures forall date | date in Parsed(lines).byDay ::
              Parsed(lines).byDay[date] == LineCosts(OnDay(Charges(lines), date))
  {
    var cs := Charges(lines);
    NonNegativeIsCoherent(lines);
    GroupingKeepsTheBill(cs);
    DaysConserveTheBill(cs);
    forall date | date in Parsed(lines).byDay
      ensures Parsed(lines).byDay[date] == LineCosts(OnDay(cs, date))
    {
      DayCostsItsLines(cs, date);
    }
  }

  // ---------------------------------------------------------------- one line more

  /** The line is an assistant's and carries this usage block. */
  predicate Reports(l: Line, env: Envelope, u: Usage) {
    l.Record? && l.kind == "assistant" && l.message == Some(env) && env.usage == Some(u)
  }

  lemma ChargesOfMore(lines: seq<Line>, l: Line)
    ensures Charges(lines + [l]) == if Counts(l) then Charges(lines) + [ChargeOf(l)] else Charges(lines)
  {
    assert (lines + [l])[..|lines|] == lines;
  }

  /** A line that is not an assistant's with a usage block changes nothing. */
  lemma OtherLinesAreSkipped(lines: seq<Line>, l: Line)
    requires forall env, u :: !Reports(l, env, u)
    ensures Parsed(lines + [l]) == Parsed(lines)
  {
    ChargesOfMore(lines, l);
    if Counts(l) {
      assert Reports(l, l.message.value, l.message.value.usage.value);
    }
  }

  /** One that is adds its own fields to the totals, counter by counter; of the 1h slice, what fits the reported total. */
  lemma LineAddsItsTokens(lines: seq<Line>, l: Line, env: Envelope, u: Usage)
    requires Reports(l, env, u)
    ensures var before, after := Parsed(lines).total, Parsed(lines + [l]).total;
      && after.input == before.input + u.input && after.output == before.output + u.output
      && after.cacheRead == before.cacheRead + u.cacheRead
      && after.cacheCreation == before.cacheCreation + u.cacheCreation
      && (u.breakdown.None? ==> after.cacheCreation1h == before.cacheCreation1h)
      && (u.breakdown.Some? ==>
            var n, growth := u.breakdown.value.ephemeral1h, after.cacheCreation1h - before.cacheCreation1h;
            && (n < 0 ==> growth == 0)
            && (0 <= n <= u.cacheCreation ==> growth == n)
            && (0 <= n && u.cacheCreation < n ==> growth == u.cacheCreation))
  {
    hide Bill, BillPerDay;
    ChargesOfMore(lines, l);
    GroupStep(Charges(lines), ChargeOf(l));
  }

  /** What a usage block costs on its own: each field at its own rate, the cache writes split by lifetime. */
  function PriceOfUsage(model: string, u: Usage): (usd: real) {
    var p := PriceForModel(model);
    var n := if u.breakdown.Some? then u.breakdown.value.ephemeral1h else 0;
    var long := if n < 0 then 0 else if n > u.cacheCreation then u.cacheCreation else n;
    Rated(u.input, p.input) + Rated(u.output, p.output) + Rated(u.cacheRead, p.read)
    + Rated(u.cacheCreation - long, p.write5m) + Rated(long, p.write1h)
  }

  lemma ChargeIsItsPrice(l: Line, env: Envelope, u: Usage)
    requires Reports(l, env, u) && u.cacheCreation >= 0
    ensures CostForModel(env.model, ChargeOf(l).tokens) == PriceOfUsage(env.model, u)
  {
    hide PriceForModel, Rated;
  }

  /** And it adds its own price to the cost and to the day that its timestamp starts with, and to no other day. */
  lemma LineAddsItsPrice(lines: seq<Line>, l: Line, env: Envelope, u: Usage)
    requires Reports(l, env, u) && NonNegative(lines) && u.cacheCreation >= 0
    ensures var before, after, usd := Parsed(lines), Parsed(lines + [l]), PriceOfUsage(env.model, u);
      && after.cost == before.cost + usd
      && (if |l.timestamp| < 10 then after.byDay == before.byDay
          else var day := l.timestamp[..10];
               after.byDay == before.byDay[day := (if day in before.byDay then before.byDay[day] else 0.0) + usd])
  {
    hide CostForModel, Bill, PriceOfUsage, BillPerDay, Group, GroupByDay, TotalOf;
    var cs, c := Charges(lines), ChargeOf(l);
    ChargesOfMore(lines, l);
    GroupStep(cs, c);
    ChargeIsItsPrice(l, env, u);
    NonNegativeIsCoherent(lines);
    GroupStaysCoherent(cs);
    BillAfterCharge(Group(cs), c);
    DayGroupsStayCoherent(cs);
    DayAfterCharge(GroupByDay(cs), c);
  }

  lemma DayAfterCharge(days: PerDay, c: Charge)
    requires Coherent(c.tokens)
    requires forall date, model | date in days && model in days[date] :: Coherent(days[date][model])
    ensures var before, after := BillPerDay(days), BillPerDay(AddToDay(days, c));
      if |c.timestamp| < 10 then after == before
      else var day := c.timestamp[..10];
           after == before[day := (if day in before then before[day] else 0.0) + CostForModel(c.model, c.tokens)]
  {
    hide CostForModel, Bill;
    if Dated(c) {
      BillAfterCharge(if DateOf(c) in days then days[DateOf(c)] else map[], c);
      EmptyBill();
    }
  }
}
