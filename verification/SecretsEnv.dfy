/**
 cmd/vpsmctl/secrets.go: `secrets export --format env` and the .env parser behind
 `secrets import-env`. Opening the file is the caller's; the text is given.
 */
module SecretsEnv {
  import opened Options
  import opened Seqs
  import Text

  datatype Pair = Pair(key: string, value: string)

  const MAX_LINE := 1024 * 1024

  // ---------------------------------------------------------------- parsing

  function Utf8Length(c: char): (n: nat)
    ensures 1 <= n <= 4 && (n == 1 <==> c as int <= 0x7F) && (n <= 2 <==> c as int <= 0x7FF) && (n <= 3 <==> c as int <= 0xFFFF)
  {
    if c < '\U{0080}' then 1 else if c < '\U{0800}' then 2 else if c < '\U{10000}' then 3 else 4
  }

  function ByteLength(s: string): (n: nat) {
    if s == "" then 0 else Utf8Length(s[0]) + ByteLength(s[1..])
  }

  /** The lines a bufio.Scanner yields, with their carriage returns still on: no empty line after the last newline. */
  function RawLines(text: string): (lines: seq<string>)
    ensures forall l | l in lines :: '\n' !in l
  {
    var parts := Text.Split(text, '\n');
    if parts[|parts| - 1] == "" then parts[..|parts| - 1] else parts
  }

  function DropCR(line: string): (l: string)
    ensures forall c | c in l :: c in line
  {
    if line != "" && line[|line| - 1] == '\r' then line[..|line| - 1] else line
  }

  /** A line the scanner's buffer can hold. */
  predicate Fits(line: string) { ByteLength(line) < MAX_LINE }

  function IndexOf(s: string, c: char): (i: int)
    ensures -1 <= i < |s|
    ensures i >= 0 ==> s[i] == c && c !in s[..i]
    ensures i < 0 ==> c !in s
  {
    if s == "" then -1
    else if s[0] == c then 0
    else
      var i := IndexOf(s[1..], c);
      assert i >= 0 ==> s[..i + 1] == [s[0]] + s[1..][..i];
      if i < 0 then -1 else i + 1
  }

  predicate Quoted(v: string) {
    |v| >= 2 && (v[0] == '"' || v[0] == '\'') && v[|v| - 1] == v[0]
  }

  function Unquote(v: string): (u: string)
    ensures forall c | c in u :: c in v
  {
    if Quoted(v) then v[1..|v| - 1] else v
  }

  function TrimExport(line: string): (l: string)
    ensures forall c | c in l :: c in line
  {
    if "export " <= line then line[7..] else line
  }

  function ParseLine(raw: string): (p: Option<Pair>) {
    var line := Text.TrimSpace(DropCR(raw));
    if line == "" || line[0] == '#' then None
    else
      var body := TrimExport(line);
      var eq := IndexOf(body, '=');
      if eq <= 0 then None
      else
        var key := Text.TrimSpace(body[..eq]);
        if key == "" then None else Some(Pair(key, Unquote(Text.TrimSpace(body[eq + 1..]))))
  }

  function Collect(lines: seq<string>): (pairs: seq<Pair>) {
    if lines == [] then []
    else
      var before, p := Collect(lines[..|lines| - 1]), ParseLine(lines[|lines| - 1]);
      if p.Some? then before + [p.value] else before
  }

  function Parse(text: string): (r: Result<seq<Pair>>) {
    var lines := RawLines(text);
    if forall l | l in lines :: Fits(l) then Ok(Collect(lines)) else Err
  }

  method ParseEnvFile(text: string) returns (r: Result<seq<Pair>>)
    ensures r == Parse(text)
    ensures r.Err? <==> exists l :: l in RawLines(text) && ByteLength(l) >= 1048576
  {
    hide ByteLength, ParseLine, RawLines;
    var lines := RawLines(text);
    var out := [];
    for i := 0 to |lines|
      invariant out == Collect(lines[..i])
      invariant forall l | l in lines[..i] :: Fits(l)
    {
      assert lines[..i + 1] == lines[..i] + [lines[i]] && lines[..i + 1][..i] == lines[..i];
      if !Fits(lines[i]) {
        return Err;
      }
      var p := ParseLine(lines[i]);
      if p.Some? {
        out := out + [p.value];
      }
    }
    assert lines[..|lines|] == lines;
    return Ok(out);
  }

  // ---------------------------------------------------------------- exporting

  /** Go's order on strings: by the first character that differs, a prefix first. */
  predicate Before(a: string, b: string) {
    b != "" && (a == "" || a[0] < b[0] || (a[0] == b[0] && Before(a[1..], b[1..])))
  }

  lemma {:induction false} BeforeIsTransitive(a: string, b: string, c: string)
    requires Before(a, b) && Before(b, c)
    ensures Before(a, c)
  {
    if a != "" && a[0] == b[0] == c[0] {
      BeforeIsTransitive(a[1..], b[1..], c[1..]);
    }
  }

  lemma {:induction false} BeforeIsTotal(a: string, b: string)
    ensures Before(a, b) || a == b || Before(b, a)
  {
    if a != "" && b != "" && a[0] == b[0] {
      BeforeIsTotal(a[1..], b[1..]);
      assert a == [a[0]] + a[1..] && b == [b[0]] + b[1..];
    }
  }

  ghost predicate Sorted(keys: seq<string>) {
    forall i, j | 0 <= i < j < |keys| :: Before(keys[i], keys[j])
  }

  lemma InsertKeepsSorted(keys: seq<string>, i: nat, k: string)
    requires Sorted(keys) && i <= |keys| && k !in keys
    requires forall j | 0 <= j < i :: Before(keys[j], k)
    requires i < |keys| ==> !Before(keys[i], k)
    ensures Sorted(keys[..i] + [k] + keys[i..])
  {
    hide Before;
    var r := keys[..i] + [k] + keys[i..];
    assert forall n | 0 <= n < |r| :: r[n] == if n < i then keys[n] else if n == i then k else keys[n - 1];
    forall j | i <= j < |keys| ensures Before(k, keys[j]) {
      BeforeIsTotal(keys[i], k);
      if j > i {
        BeforeIsTransitive(k, keys[i], keys[j]);
      }
    }
  }

  method SortedKeys(m: map<string, string>) returns (keys: seq<string>)
    ensures Distinct(keys) && ToSet(keys) == m.Keys && Sorted(keys)
  {
    hide Before;
    keys := [];
    var todo := m.Keys;
    while todo != {}
      invariant todo <= m.Keys
      invariant Distinct(keys) && ToSet(keys) == m.Keys - todo && Sorted(keys)
      decreases |todo|
    {
      var k :| k in todo;
      assert k !in ToSet(keys);
      keys := InsertKey(keys, k);
      todo := todo - {k};
    }
  }

  method InsertKey(keys: seq<string>, k: string) returns (keys': seq<string>)
    requires Distinct(keys) && Sorted(keys) && k !in keys
    ensures Distinct(keys') && Sorted(keys') && ToSet(keys') == ToSet(keys) + {k}
  {
    hide Before, Sorted, Distinct;
    var i := 0;
    while i < |keys| && Before(keys[i], k)
      invariant 0 <= i <= |keys|
      invariant forall j | 0 <= j < i :: Before(keys[j], k)
    {
      i := i + 1;
    }
    keys' := keys[..i] + [k] + keys[i..];
    ToSetInsert(keys, i, k);
    InsertKeepsSorted(keys, i, k);
  }

  function Line(p: Pair): (l: string) { p.key + "=" + p.value }

  function Render(pairs: seq<Pair>): (text: string) {
    if pairs == [] then "" else Render(pairs[..|pairs| - 1]) + Line(pairs[|pairs| - 1]) + "\n"
  }

  function PairsOf(m: map<string, string>, keys: seq<string>): (pairs: seq<Pair>)
    requires forall k | k in keys :: k in m
    ensures |pairs| == |keys| && forall i | 0 <= i < |keys| :: pairs[i] == Pair(keys[i], m[keys[i]])
  {
    seq(|keys|, i requires 0 <= i < |keys| => Pair(keys[i], m[keys[i]]))
  }

  /** The export: every key of the map once, in order, one line each. */
  method ExportEnv(m: map<string, string>) returns (text: string, keys: seq<string>)
    ensures Distinct(keys) && ToSet(keys) == m.Keys && Sorted(keys)
    ensures forall k | k in keys :: k in m
    ensures text == Render(PairsOf(m, keys))
  {
    keys := SortedKeys(m);
    assert forall k | k in keys :: k in ToSet(keys);
    text := "";
    for i := 0 to |keys|
      invariant text == Render(PairsOf(m, keys)[..i])
    {
      var pairs := PairsOf(m, keys);
      assert pairs[..i + 1][..i] == pairs[..i];
      text := text + Line(Pair(keys[i], m[keys[i]])) + "\n";
    }
    assert PairsOf(m, keys)[..|keys|] == PairsOf(m, keys);
  }

  // ---------------------------------------------------------------- one line

  /** The pairs one line can carry and bring back. */
  predicate Survives(p: Pair) {
    && p.key != "" && Text.Trimmed(p.key, Text.IsSpace) && '=' !in p.key
    && p.key[0] != '#' && !("export " <= p.key)
    && Text.Trimmed(p.value, Text.IsSpace) && !Quoted(p.value)
  }

  lemma TrimAfterDropCR(s: string)
    ensures Text.TrimSpace(DropCR(s)) == Text.TrimSpace(s)
  {
    hide Text.Trim;
    if s != "" && s[|s| - 1] == '\r' {
      assert Text.IsSpace('\r');
      Text.TrimIgnoresEnd(s[..|s| - 1], '\r', Text.IsSpace);
      assert s == s[..|s| - 1] + ['\r'];
    }
  }

  /** With a key that starts with something visible, only the end of the value is cut. */
  lemma TrimOfLine(p: Pair)
    requires p.key != "" && !Text.IsSpace(p.key[0])
    ensures Text.TrimSpace(Line(p)) == p.key + "=" + Text.TrimRight(p.value, Text.IsSpace)
  {
    var line := Line(p);
    assert line[0] == p.key[0];
    assert Text.TrimLeft(line, Text.IsSpace) == line;
    Text.TrimRightConcat(p.key + "=", p.value, Text.IsSpace);
    assert line == (p.key + "=") + p.value;
  }

  lemma {:induction false} IndexInLine(key: string, rest: string)
    requires '=' !in key
    ensures IndexOf(key + "=" + rest, '=') == |key|
  {
    var s := key + "=" + rest;
    if key != "" {
      assert s[0] == key[0] && s[1..] == key[1..] + "=" + rest;
      IndexInLine(key[1..], rest);
    }
  }

  lemma TrimOfTrimmedRight(v: string)
    ensures Text.TrimSpace(Text.TrimRight(v, Text.IsSpace)) == v <==> Text.Trimmed(v, Text.IsSpace)
    ensures |Text.TrimSpace(Text.TrimRight(v, Text.IsSpace))| <= |v|
  {
    var r := Text.TrimRight(v, Text.IsSpace);
    if Text.Trimmed(v, Text.IsSpace) {
      assert r == v by { if v != "" { assert !Text.IsSpace(v[|v| - 1]); } }
      Text.TrimFixedPoint(v, Text.IsSpace);
    }
  }

  lemma ExportPrefix(key: string, rest: string)
    ensures "export " <= key + "=" + rest <==> "export " <= key
  {
    var line := key + "=" + rest;
    if |key| >= 7 {
      assert line[..7] == key[..7];
    } else {
      assert line[|key|] == '=' && "export "[|key|] != '=';
    }
  }

  /** The key and value read from the line of a pair whose key is clean. */
  lemma CleanKeyLine(p: Pair)
    requires p.key != "" && Text.Trimmed(p.key, Text.IsSpace) && '=' !in p.key
    requires p.key[0] != '#' && !("export " <= p.key)
    ensures ParseLine(Line(p)) == Some(Pair(p.key, Unquote(Text.TrimSpace(Text.TrimRight(p.value, Text.IsSpace)))))
  {
    hide Text.Trim;
    TrimAfterDropCR(Line(p));
    TrimOfLine(p);
    var rest := Text.TrimRight(p.value, Text.IsSpace);
    var line := p.key + "=" + rest;
    ExportPrefix(p.key, rest);
    IndexInLine(p.key, rest);
    assert line[..|p.key|] == p.key && line[|p.key| + 1..] == rest;
    Text.TrimFixedPoint(p.key, Text.IsSpace);
  }

  /** A key that comes out of the parser is clean. */
  lemma ParsedKeyIsClean(raw: string)
    requires ParseLine(raw).Some?
    ensures var k := ParseLine(raw).value.key; k != "" && Text.Trimmed(k, Text.IsSpace) && '=' !in k
  {
    hide Text.IsSpace, IndexOf, TrimExport, DropCR, Unquote;
    var body := TrimExport(Text.TrimSpace(DropCR(raw)));
    var eq := IndexOf(body, '=');
    assert '=' !in body[..eq];
  }

  /** A line brings its pair back if and only if the pair survives. */
  lemma LineRoundTrip(p: Pair)
    ensures ParseLine(Line(p)) == Some(p) <==> Survives(p)
  {
    hide ParseLine, Line, Text.TrimSpace;
    if p.key != "" && Text.Trimmed(p.key, Text.IsSpace) && '=' !in p.key {
      if p.key[0] == '#' || "export " <= p.key {
        HashAndExportAreRead(p);
      } else {
        CleanKeyLine(p);
        ValueRoundTrip(p.value);
      }
    } else if ParseLine(Line(p)).Some? {
      ParsedKeyIsClean(Line(p));
    }
  }

  lemma UnquoteShortens(v: string)
    ensures |Unquote(v)| <= |v| && (|Unquote(v)| == |v| <==> !Quoted(v))
  {
  }

  lemma ValueRoundTrip(v: string)
    ensures Unquote(Text.TrimSpace(Text.TrimRight(v, Text.IsSpace))) == v <==> Text.Trimmed(v, Text.IsSpace) && !Quoted(v)
  {
    hide Quoted, Text.TrimSpace;
    var t := Text.TrimSpace(Text.TrimRight(v, Text.IsSpace));
    TrimOfTrimmedRight(v);
    UnquoteShortens(t);
  }

  /** A key with a comment sign or an export prefix does not come back. */
  lemma HashAndExportAreRead(p: Pair)
    requires p.key != "" && Text.Trimmed(p.key, Text.IsSpace) && '=' !in p.key
    requires p.key[0] == '#' || "export " <= p.key
    ensures ParseLine(Line(p)) != Some(p)
  {
    hide Text.Trim;
    TrimAfterDropCR(Line(p));
    TrimOfLine(p);
    var rest := Text.TrimRight(p.value, Text.IsSpace);
    var line := p.key + "=" + rest;
    if p.key[0] == '#' {
      assert line[0] == '#';
    } else {
      assert "export " <= line && line[7..] == p.key[7..] + "=" + rest;
      IndexInLine(p.key[7..], rest);
      var body := line[7..];
      assert body[..|p.key| - 7] == p.key[7..];
      assert |Text.TrimSpace(p.key[7..])| <= |p.key| - 7;
    }
  }

  // ---------------------------------------------------------------- the whole file

  function Lines(pairs: seq<Pair>): (lines: seq<string>)
    ensures |lines| == |pairs| && forall i | 0 <= i < |pairs| :: lines[i] == Line(pairs[i])
  {
    if pairs == [] then [] else Lines(pairs[..|pairs| - 1]) + [Line(pairs[|pairs| - 1])]
  }

  lemma {:induction false} RenderIsJoin(pairs: seq<Pair>)
    ensures Render(pairs) == Text.Join(Lines(pairs) + [""], '\n')
  {
    hide Text.Join;
    if pairs != [] {
      var before, last := pairs[..|pairs| - 1], pairs[|pairs| - 1];
      RenderIsJoin(before);
      assert Lines(pairs) + [""] == Lines(before) + [Line(last), ""];
      JoinLast(Lines(before), Line(last));
    } else {
      JoinNothing();
    }
  }

  lemma JoinNothing()
    ensures Text.Join([] + [""], '\n') == ""
  {
    assert [] + [""] == [""];
  }

  lemma JoinLast(a: seq<string>, l: string)
    ensures Text.Join(a + [l, ""], '\n') == Text.Join(a + [""], '\n') + l + "\n"
  {
    assert [l, ""][1..] == [""];
    assert Text.Join([l, ""], '\n') == l + "\n";
    if a == [] {
      assert a + [l, ""] == [l, ""] && a + [""] == [""];
    } else {
      Text.JoinConcat(a, [l, ""], '\n');
      Text.JoinConcat(a, [""], '\n');
    }
  }

  predicate OneLine(p: Pair) { '\n' !in p.key && '\n' !in p.value }

  /** Pairs without newlines come out as their own lines. */
  lemma RenderedLines(pairs: seq<Pair>)
    requires forall p | p in pairs :: OneLine(p)
    ensures RawLines(Render(pairs)) == Lines(pairs)
  {
    RenderIsJoin(pairs);
    var all := Lines(pairs) + [""];
    forall l | l in all ensures '\n' !in l {
      if l in Lines(pairs) {
        var i :| 0 <= i < |pairs| && l == Lines(pairs)[i];
        assert OneLine(pairs[i]);
      }
    }
    Text.SplitJoin(all, '\n');
    assert all[..|all| - 1] == Lines(pairs);
  }

  /** Everything the parser returns is on one line. */
  lemma ParsedIsOneLine(raw: string)
    requires '\n' !in raw && ParseLine(raw).Some?
    ensures OneLine(ParseLine(raw).value)
  {
    hide Text.Trim, IndexOf, DropCR, Unquote, TrimExport;
    var line := Text.TrimSpace(DropCR(raw));
    assert forall c | c in line :: c in raw;
    var body := TrimExport(line);
    var eq := IndexOf(body, '=');
    assert '\n' !in body[..eq] && '\n' !in body[eq + 1..];
  }

  lemma {:induction false} CollectedIsOneLine(lines: seq<string>)
    requires forall l | l in lines :: '\n' !in l
    ensures forall p | p in Collect(lines) :: OneLine(p)
  {
    hide ParseLine, OneLine;
    if lines != [] {
      var last := lines[|lines| - 1];
      CollectedIsOneLine(lines[..|lines| - 1]);
      if ParseLine(last).Some? {
        ParsedIsOneLine(last);
      }
    }
  }

  /** As many pairs as lines come back only if every line yields its own. */
  lemma {:induction false} CollectAll(lines: seq<string>)
    ensures |Collect(lines)| <= |lines|
    ensures |Collect(lines)| == |lines| ==> forall i | 0 <= i < |lines| :: ParseLine(lines[i]) == Some(Collect(lines)[i])
  {
    hide ParseLine;
    if lines != [] {
      CollectAll(lines[..|lines| - 1]);
    }
  }

  lemma {:induction false} CollectSurvivors(pairs: seq<Pair>)
    requires forall p | p in pairs :: ParseLine(Line(p)) == Some(p)
    ensures Collect(Lines(pairs)) == pairs
  {
    hide ParseLine, Line;
    if pairs != [] {
      var before, last := pairs[..|pairs| - 1], pairs[|pairs| - 1];
      CollectSurvivors(before);
      assert Lines(pairs)[..|pairs| - 1] == Lines(before);
      assert pairs == before + [last];
    }
  }

  predicate Representable(p: Pair) { OneLine(p) && Fits(Line(p)) && Survives(p) }

  lemma RepresentableComeBack(pairs: seq<Pair>)
    requires forall p | p in pairs :: Representable(p)
    ensures Parse(Render(pairs)) == Ok(pairs)
  {
    hide ParseLine, Line, Survives, OneLine, Fits, Collect, RawLines;
    RenderedLines(pairs);
    forall p | p in pairs ensures ParseLine(Line(p)) == Some(p) {
      LineRoundTrip(p);
    }
    forall l | l in Lines(pairs) ensures Fits(l) {
      var i :| 0 <= i < |pairs| && Lines(pairs)[i] == l;
      assert Representable(pairs[i]);
    }
    CollectSurvivors(pairs);
  }

  lemma ParsedMeans(text: string, pairs: seq<Pair>)
    ensures Parse(text) == Ok(pairs) <==> Collect(RawLines(text)) == pairs && forall l | l in RawLines(text) :: Fits(l)
  {
    hide Collect, RawLines, Fits;
  }

  lemma WhatComesBackIsRepresentable(pairs: seq<Pair>, i: nat)
    requires Parse(Render(pairs)) == Ok(pairs) && i < |pairs|
    ensures Representable(pairs[i])
  {
    hide ParseLine, Line, Survives, OneLine, Fits, Collect, RawLines, Render, Parse;
    ParsedMeans(Render(pairs), pairs);
    CollectedIsOneLine(RawLines(Render(pairs)));
    RenderedLines(pairs);
    CollectAll(Lines(pairs));
    assert Lines(pairs)[i] == Line(pairs[i]);
    LineRoundTrip(pairs[i]);
  }

  /** Exporting and parsing brings back exactly the exported pairs in their order, if and only if every pair is on one
      line, fits the scanner and survives its line. */
  lemma RoundTrip(pairs: seq<Pair>)
    ensures Parse(Render(pairs)) == Ok(pairs) <==> forall p | p in pairs :: Representable(p)
  {
    hide Parse, Render, Representable;
    if Parse(Render(pairs)) == Ok(pairs) {
      forall i: nat | i < |pairs| ensures Representable(pairs[i]) {
        WhatComesBackIsRepresentable(pairs, i);
      }
    } else if forall p | p in pairs :: Representable(p) {
      RepresentableComeBack(pairs);
    }
  }

  /** For a map of secrets: the import of the export is the sorted list of its pairs exactly when all of them are
      representable. */
  lemma ExportRoundTrip(m: map<string, string>, keys: seq<string>)
    requires Distinct(keys) && ToSet(keys) == m.Keys && Sorted(keys)
    requires forall k | k in keys :: k in m
    ensures Parse(Render(PairsOf(m, keys))) == Ok(PairsOf(m, keys)) <==>
              forall k | k in m :: Representable(Pair(k, m[k]))
  {
    hide Parse, Render, Representable;
    var pairs := PairsOf(m, keys);
    RoundTrip(pairs);
    forall k | k in m ensures Pair(k, m[k]) in pairs {
      assert k in ToSet(keys);
      var i :| 0 <= i < |keys| && keys[i] == k;
      assert pairs[i] == Pair(k, m[k]);
    }
    forall p | p in pairs ensures p.key in m && p == Pair(p.key, m[p.key]) {
      var i :| 0 <= i < |keys| && pairs[i] == p;
      assert keys[i] in ToSet(keys);
    }
  }

  // ---------------------------------------------------------------- what the parser makes of any line

  predicate Blank(s: string) { forall c | c in s :: Text.IsSpace(c) }

  predicate CleanKey(key: string) {
    && key != "" && Text.Trimmed(key, Text.IsSpace) && '=' !in key && key[0] != '#' && !("export " <= key)
  }

  /** White space around key and value, an "export " in front and matching quotes around the value make no difference:
      the key and the bare value come out. */
  lemma AnyLine(s1: string, exported: bool, key: string, s2: string, s3: string, value: string, s4: string)
    requires Blank(s1) && Blank(s2) && Blank(s3) && Blank(s4) && CleanKey(key) && Text.Trimmed(value, Text.IsSpace)
    requires exported || !("export " <= key + s2)
    ensures var line := s1 + (if exported then "export " else "") + key + s2 + "=" + s3 + value + s4;
      ParseLine(line)
      == Some(Pair(key, if |value| >= 2 && value[0] == value[|value| - 1] && (value[0] == '\'' || value[0] == '"')
                        then value[1..|value| - 1] else value))
  {
    hide Text.IsSpace, Text.TrimSpace, ParseLine, CleanKey;
    var front := if exported then "export " else "";
    var raw := s1 + front + key + s2 + "=" + s3 + value + s4;
    var pad, rest, tail := if value == "" then "" else s3, if value == "" then "" else s3 + value,
                           if value == "" then s3 + s4 else s4;
    assert raw == s1 + (front + (key + s2 + "=" + rest)) + tail;
    PaddedLine(s1, front, key, s2, rest, tail);
    assert rest == pad + value;
    LineParses(raw, front, key, s2, pad, value);
  }

  /** Padding around a line goes. */
  lemma PaddedLine(s1: string, front: string, key: string, s2: string, rest: string, tail: string)
    requires Blank(s1) && Blank(tail) && CleanKey(key) && (front == "" || front == "export ")
    requires rest == "" || !Text.IsSpace(rest[|rest| - 1])
    ensures var line := front + (key + s2 + "=" + rest); Text.TrimSpace(DropCR(s1 + line + tail)) == line
  {
    hide Text.IsSpace, Text.Trim;
    var line := front + (key + s2 + "=" + rest);
    FrontIsVisible(front, key);
    EqualsIsVisible();
    assert line[0] == (front + key)[0];
    assert line[|line| - 1] == if rest == "" then '=' else rest[|rest| - 1];
    Text.TrimPadded(s1, line, tail, Text.IsSpace);
    TrimAfterDropCR(s1 + line + tail);
  }

  lemma LineParses(raw: string, front: string, key: string, s2: string, pad: string, value: string)
    requires CleanKey(key) && Blank(s2) && Blank(pad) && Text.Trimmed(value, Text.IsSpace)
    requires front == "export " || (front == "" && !("export " <= key + s2))
    requires Text.TrimSpace(DropCR(raw)) == front + (key + s2 + "=" + (pad + value))
    ensures ParseLine(raw) == Some(Pair(key, Unquote(value)))
  {
    hide Text.IsSpace, Text.Trim, Unquote, TrimExport, IndexOf, DropCR;
    var rest := pad + value;
    var body := key + s2 + "=" + rest;
    FrontIsVisible(front, key);
    assert (front + body)[0] == (front + key)[0];
    ExportIsCut(front, key, s2, rest);
    EqualsNotIn(key, s2);
    IndexInLine(key + s2, rest);
    assert body[..|key + s2|] == key + s2 && body[|key + s2| + 1..] == rest;
    Text.TrimPadded("", key, s2, Text.IsSpace);
    assert "" + key + s2 == key + s2;
    Text.TrimPadded(pad, value, "", Text.IsSpace);
    assert pad + value + "" == rest;
  }

  lemma FrontIsVisible(front: string, key: string)
    requires (front == "" || front == "export ") && CleanKey(key)
    ensures !Text.IsSpace((front + key)[0]) && (front + key)[0] != '#'
  {
  }

  lemma EqualsIsVisible()
    ensures !Text.IsSpace('=')
  {
  }

  lemma EqualsNotIn(key: string, s2: string)
    requires '=' !in key && Blank(s2)
    ensures '=' !in key + s2
  {
    EqualsIsVisible();
  }

  lemma ExportIsCut(front: string, key: string, s2: string, rest: string)
    requires front == "export " || (front == "" && !("export " <= key + s2))
    ensures TrimExport(front + (key + s2 + "=" + rest)) == key + s2 + "=" + rest
  {
    ExportPrefix(key + s2, rest);
    if front == "" {
      assert front + (key + s2 + "=" + rest) == key + s2 + "=" + rest;
    } else {
      assert (front + (key + s2 + "=" + rest))[7..] == key + s2 + "=" + rest;
    }
  }

  /** Blank lines, comments, lines without "=" and lines with nothing before it are passed over. */
  lemma Skipped(a: string, b: string)
    requires Blank(a)
    ensures ParseLine(a) == None && ParseLine(a + "#" + b) == None && ParseLine(a + "=" + b) == None
    ensures '=' !in b ==> ParseLine(b) == None
  {
    TrimAfterDropCR(a);
    TrimAfterDropCR(a + "#" + b);
    TrimAfterDropCR(a + "=" + b);
    TrimAfterDropCR(b);
    Text.TrimPadded(a, "", "", Text.IsSpace);
    assert a + "" + "" == a;
    StartsWith(a, '#', b);
    StartsWith(a, '=', b);
    if '=' !in b {
      var line := Text.TrimSpace(b);
      assert '=' !in TrimExport(line);
    }
    var l := Text.TrimSpace(a + "=" + b);
    assert TrimExport(l) == l && IndexOf(l, '=') == 0;
  }

  lemma StartsWith(a: string, c: char, b: string)
    requires Blank(a) && (c == '#' || c == '=')
    ensures Text.TrimSpace(a + [c] + b) != "" && Text.TrimSpace(a + [c] + b)[0] == c
  {
    assert a + [c] + b == a + ([c] + b);
    Text.TrimLeftSkips(a, [c] + b, Text.IsSpace);
    assert Text.TrimLeft([c] + b, Text.IsSpace) == [c] + b;
    Text.TrimRightConcat([c], b, Text.IsSpace);
  }

  /** The lines of a file, whether or not the last one ends with a newline. */
  lemma LinesOfFile(lines: seq<string>)
    requires forall l | l in lines :: '\n' !in l
    ensures RawLines(Text.Join(lines + [""], '\n')) == lines
    ensures lines != [] && lines[|lines| - 1] != "" ==> RawLines(Text.Join(lines, '\n')) == lines
  {
    Text.SplitJoin(lines + [""], '\n');
    assert (lines + [""])[..|lines|] == lines;
    if lines != [] {
      Text.SplitJoin(lines, '\n');
    }
  }

  /** The order of the export is that of the first difference, and a prefix comes first. */
  lemma {:induction false} OrderOfKeys(common: string, c: char, d: char, x: string, y: string)
    ensures Before(common + [c] + x, common + [d] + y) <== c < d
    ensures Before(common, common + [d] + y) && !Before(common + [d] + y, common)
  {
    var a, b := common + [c] + x, common + [d] + y;
    if common == "" {
      assert a[0] == c && b[0] == d;
    } else {
      OrderOfKeys(common[1..], c, d, x, y);
      assert a[1..] == common[1..] + [c] + x && b[1..] == common[1..] + [d] + y;
    }
  }

  /** The text of the export: one line per pair, in order. */
  lemma {:induction false} RenderExactly(a: seq<Pair>, b: seq<Pair>, p: Pair)
    ensures Render([]) == "" && Render([p]) == p.key + "=" + p.value + "\n"
    ensures Render(a + b) == Render(a) + Render(b)
  {
    assert [p][..0] == [];
    assert Render([p]) == "" + Line(p) + "\n";
    if b == [] {
      assert a + b == a;
    } else {
      RenderExactly(a, b[..|b| - 1], p);
      assert (a + b)[..|a + b| - 1] == a + b[..|b| - 1];
    }
  }
}
