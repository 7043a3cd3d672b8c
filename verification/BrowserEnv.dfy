/**
 internal/api/handlers_browser.go: setting VNC_RESOLUTION in a browser instance's
 .env and reading it back. A file that cannot be read counts as empty; the
 directory check and the atomic replacement are the caller's.
 */
module BrowserEnv {
  import Text

  const PREFIX := "VNC_RESOLUTION="

  predicate IsResolution(line: string) { PREFIX <= Text.TrimSpace(line) }

  /** The lines kept so far: every resolution line is rewritten, and empty lines before the first line go. */
  function Rewritten(lines: seq<string>, res: string): (out: seq<string>) {
    if lines == [] then []
    else
      var before, line := Rewritten(lines[..|lines| - 1], res), lines[|lines| - 1];
      if IsResolution(line) then before + [PREFIX + res]
      else if line != "" || (Text.TrimSpace(line) == "" && before != []) then before + [line]
      else before
  }

  ghost predicate HasResolution(lines: seq<string>) {
    exists l :: l in lines && IsResolution(l)
  }

  ghost function OutLines(lines: seq<string>, res: string): (out: seq<string>) {
    if HasResolution(lines) then Rewritten(lines, res) else Rewritten(lines, res) + [PREFIX + res]
  }

  predicate EndsWithNewline(s: string) { s != "" && s[|s| - 1] == '\n' }

  function Terminated(s: string): (t: string) {
    if EndsWithNewline(s) then s else s + "\n"
  }

  /** The file after setting the resolution. */
  ghost function Write(existing: string, res: string): (text: string) {
    Terminated(Text.Join(OutLines(Text.Split(existing, '\n'), res), '\n'))
  }

  method WriteBrowserEnv(existing: string, res: string) returns (text: string)
    ensures text == Write(existing, res)
  {
    hide IsResolution;
    var lines := Text.Split(existing, '\n');
    var out := [];
    var replaced := false;
    for i := 0 to |lines|
      invariant out == Rewritten(lines[..i], res)
      invariant replaced <==> HasResolution(lines[..i])
    {
      var line := lines[i];
      assert lines[..i + 1] == lines[..i] + [line] && lines[..i + 1][..i] == lines[..i];
      if IsResolution(line) {
        assert line in lines[..i + 1];
        out := out + [PREFIX + res];
        replaced := true;
      } else if line != "" || (Text.TrimSpace(line) == "" && |out| > 0) {
        out := out + [line];
      }
    }
    assert lines[..|lines|] == lines;
    if !replaced {
      out := out + [PREFIX + res];
    }
    text := Terminated(Text.Join(out, '\n'));
  }

  predicate IsQuote(c: char) { c == '"' || c == '\'' }

  function ValueOf(line: string): (v: string)
    requires IsResolution(line)
  {
    Text.Trim(Text.TrimSpace(line)[|PREFIX|..], IsQuote)
  }

  function FirstValue(lines: seq<string>): (v: string) {
    if lines == [] then ""
    else if IsResolution(lines[0]) then ValueOf(lines[0])
    else FirstValue(lines[1..])
  }

  function Read(text: string): (v: string) { FirstValue(Text.Split(text, '\n')) }

  method ReadResolution(text: string) returns (v: string)
    ensures v == Read(text)
  {
    hide IsResolution, ValueOf;
    var lines := Text.Split(text, '\n');
    for i := 0 to |lines|
      invariant FirstValue(lines) == FirstValue(lines[i..])
    {
      if IsResolution(lines[i]) {
        return ValueOf(lines[i]);
      }
      assert lines[i..][1..] == lines[i + 1..];
    }
    return "";
  }

  // ---------------------------------------------------------------- the lines of the written file

  ghost predicate Clean(lines: seq<string>) {
    forall l | l in lines :: '\n' !in l
  }

  /** A line list that ends with an empty line, so that its text ends with a newline. */
  function Closed(lines: seq<string>): (c: seq<string>)
    requires lines != []
  {
    if lines[|lines| - 1] == "" then lines else lines + [""]
  }

  lemma {:induction false} JoinEnd(lines: seq<string>)
    requires lines != [] && Clean(lines) && lines != [""]
    ensures EndsWithNewline(Text.Join(lines, '\n')) <==> lines[|lines| - 1] == ""
  {
    if |lines| == 1 {
      var l := lines[0];
      assert l in lines;
      assert l[|l| - 1] in l;
    } else {
      var init, last := lines[..|lines| - 1], lines[|lines| - 1];
      Text.JoinConcat(init, [last], '\n');
      assert lines == init + [last];
      if last != "" {
        assert last[|last| - 1] in last;
      }
    }
  }

  lemma TerminatedJoin(lines: seq<string>)
    requires lines != [] && Clean(lines) && lines != [""]
    ensures Terminated(Text.Join(lines, '\n')) == Text.Join(Closed(lines), '\n')
  {
    hide Text.Join;
    JoinEnd(lines);
    if lines[|lines| - 1] != "" {
      Text.JoinConcat(lines, [""], '\n');
      JoinBlank();
    }
  }

  lemma JoinBlank()
    ensures Text.Join([""], '\n') == ""
  {
  }

  lemma WrittenLineIsResolution(res: string)
    ensures IsResolution(PREFIX + res) && Text.TrimSpace(PREFIX + res) == PREFIX + Text.TrimRight(res, Text.IsSpace)
  {
    var line := PREFIX + res;
    assert PREFIX[0] == 'V' && line[0] == 'V' && PREFIX[|PREFIX| - 1] == '=';
    assert Text.TrimLeft(line, Text.IsSpace) == line;
    Text.TrimRightConcat(PREFIX, res, Text.IsSpace);
  }

  lemma WrittenLineIsClean(res: string)
    requires '\n' !in res
    ensures '\n' !in PREFIX + res && PREFIX + res != ""
  {
    assert '\n' !in PREFIX;
  }

  lemma BlankIsNoResolution()
    ensures !IsResolution("")
  {
  }

  lemma {:induction false} RewrittenIsClean(lines: seq<string>, res: string)
    requires Clean(lines) && '\n' !in res
    ensures Clean(Rewritten(lines, res))
    ensures Rewritten(lines, res) != [] ==> Rewritten(lines, res)[0] != ""
  {
    hide IsResolution;
    if lines != [] {
      RewrittenIsClean(lines[..|lines| - 1], res);
      assert lines[|lines| - 1] in lines;
      WrittenLineIsClean(res);
    }
  }

  lemma HasResolutionAppend(lines: seq<string>, l: string)
    ensures HasResolution(lines + [l]) <==> HasResolution(lines) || IsResolution(l)
  {
    hide IsResolution;
    assert forall x :: x in lines + [l] <==> x in lines || x == l;
  }

  lemma {:induction false} RewrittenKeepsResolution(lines: seq<string>, res: string)
    ensures HasResolution(lines) <==> HasResolution(Rewritten(lines, res))
  {
    hide IsResolution, HasResolution;
    if lines != [] {
      var init, last := lines[..|lines| - 1], lines[|lines| - 1];
      RewrittenKeepsResolution(init, res);
      assert lines == init + [last];
      WrittenLineIsResolution(res);
      HasResolutionAppend(init, last);
      HasResolutionAppend(Rewritten(init, res), last);
      HasResolutionAppend(Rewritten(init, res), PREFIX + res);
    }
  }

  lemma ResolutionMeansLines(lines: seq<string>)
    requires HasResolution(lines)
    ensures lines != []
  {
  }

  lemma OutShape(lines: seq<string>, res: string)
    requires Clean(lines) && '\n' !in res
    ensures var out := OutLines(lines, res); out != [] && Clean(out) && out[0] != "" && HasResolution(out)
  {
    hide IsResolution, HasResolution, Rewritten;
    RewrittenIsClean(lines, res);
    RewrittenKeepsResolution(lines, res);
    if HasResolution(lines) {
      ResolutionMeansLines(Rewritten(lines, res));
    } else {
      WrittenLineIsResolution(res);
      HasResolutionAppend(Rewritten(lines, res), PREFIX + res);
      WrittenLineIsClean(res);
    }
  }

  /** The lines of the written file are the rewritten lines, closed by an empty one. */
  lemma WrittenLines(existing: string, res: string)
    requires '\n' !in res
    ensures OutLines(Text.Split(existing, '\n'), res) != []
    ensures Text.Split(Write(existing, res), '\n') == Closed(OutLines(Text.Split(existing, '\n'), res))
  {
    hide OutLines, Text.Join;
    var out := OutLines(Text.Split(existing, '\n'), res);
    OutShape(Text.Split(existing, '\n'), res);
    TerminatedJoin(out);
    Text.SplitJoin(Closed(out), '\n');
  }

  // ---------------------------------------------------------------- last writer wins

  /** Every resolution line set to `res`, nothing else touched. */
  function Reset(lines: seq<string>, res: string): (out: seq<string>)
    ensures |out| == |lines|
    ensures forall i | 0 <= i < |lines| :: out[i] == if IsResolution(lines[i]) then PREFIX + res else lines[i]
  {
    seq(|lines|, i requires 0 <= i < |lines| => if IsResolution(lines[i]) then PREFIX + res else lines[i])
  }

  /** Without an empty first line a rewrite is a reset. */
  lemma {:induction false} RewrittenIsReset(lines: seq<string>, res: string)
    requires lines != [] ==> lines[0] != ""
    ensures Rewritten(lines, res) == Reset(lines, res)
  {
    hide IsResolution;
    if lines != [] {
      var init, last := lines[..|lines| - 1], lines[|lines| - 1];
      RewrittenIsReset(init, res);
      assert Reset(lines, res) == Reset(init, res) + [if IsResolution(last) then PREFIX + res else last];
      assert last == "" ==> Text.TrimSpace(last) == "";
    }
  }

  /** Resetting what was written for one resolution gives what would have been written for the other. */
  lemma {:induction false} ResetRewritten(lines: seq<string>, a: string, b: string)
    ensures Reset(Rewritten(lines, a), b) == Rewritten(lines, b)
  {
    hide IsResolution;
    if lines != [] {
      var init, last := lines[..|lines| - 1], lines[|lines| - 1];
      ResetRewritten(init, a, b);
      WrittenLineIsResolution(a);
      assert |Rewritten(init, a)| == |Rewritten(init, b)|;
      assert Reset(Rewritten(init, a) + [last], b)
          == Reset(Rewritten(init, a), b) + [if IsResolution(last) then PREFIX + b else last];
      assert Reset(Rewritten(init, a) + [PREFIX + a], b) == Reset(Rewritten(init, a), b) + [PREFIX + b];
    }
  }

  lemma ResetOut(lines: seq<string>, a: string, b: string)
    ensures Reset(OutLines(lines, a), b) == OutLines(lines, b)
  {
    hide IsResolution;
    ResetRewritten(lines, a, b);
    WrittenLineIsResolution(a);
    if !HasResolution(lines) {
      assert Reset(Rewritten(lines, a) + [PREFIX + a], b) == Reset(Rewritten(lines, a), b) + [PREFIX + b];
    }
  }

  lemma ResetClosed(lines: seq<string>, b: string)
    requires lines != []
    ensures Reset(Closed(lines), b) == Closed(Reset(lines, b))
  {
    hide IsResolution;
    BlankIsNoResolution();
    var last := lines[|lines| - 1];
    assert Reset(lines, b)[|lines| - 1] == if IsResolution(last) then PREFIX + b else last;
    assert |PREFIX + b| > 0;
    if last != "" {
      assert Reset(lines + [""], b) == Reset(lines, b) + [""];
    }
  }

  lemma ClosedTwice(lines: seq<string>)
    requires lines != []
    ensures Closed(Closed(lines)) == Closed(lines)
  {
  }

  lemma OutOfClosed(out: seq<string>, b: string)
    requires out != [] && out[0] != "" && HasResolution(out)
    ensures OutLines(Closed(out), b) == Closed(Reset(out, b))
  {
    hide IsResolution;
    var l :| l in out && IsResolution(l);
    assert l in Closed(out);
    RewrittenIsReset(Closed(out), b);
    ResetClosed(out, b);
  }

  /** For every file: writing one resolution after another leaves exactly what writing the second alone leaves. */
  lemma LastResolutionWins(existing: string, a: string, b: string)
    requires '\n' !in a && '\n' !in b
    ensures Write(Write(existing, a), b) == Write(existing, b)
  {
    hide OutLines, IsResolution, Reset;
    var lines := Text.Split(existing, '\n');
    var out := OutLines(lines, a);
    OutShape(lines, a);
    OutShape(lines, b);
    WrittenLines(existing, a);
    OutOfClosed(out, b);
    ResetOut(lines, a, b);
    assert OutLines(Closed(out), b) == Closed(OutLines(lines, b));
    TerminatedJoin(OutLines(lines, b));
    OutShape(Closed(out), b);
    TerminatedJoin(Closed(OutLines(lines, b)));
    ClosedTwice(OutLines(lines, b));
  }

  // ---------------------------------------------------------------- the other lines stay

  function Others(lines: seq<string>): (kept: seq<string>) {
    if lines == [] then []
    else
      var before, line := Others(lines[..|lines| - 1]), lines[|lines| - 1];
      if line == "" || IsResolution(line) then before else before + [line]
  }

  lemma OthersAppend(lines: seq<string>, l: string)
    ensures Others(lines + [l]) == if l == "" || IsResolution(l) then Others(lines) else Others(lines) + [l]
  {
    assert (lines + [l])[..|lines|] == lines;
  }

  lemma {:induction false} OthersRewritten(lines: seq<string>, res: string)
    ensures Others(Rewritten(lines, res)) == Others(lines)
  {
    hide IsResolution;
    if lines != [] {
      var init, last := lines[..|lines| - 1], lines[|lines| - 1];
      OthersRewritten(init, res);
      WrittenLineIsResolution(res);
      OthersAppend(Rewritten(init, res), last);
      OthersAppend(Rewritten(init, res), PREFIX + res);
    }
  }

  /** Every line that is neither empty nor a resolution line is kept, in order, and none is added. */
  lemma OtherLinesStay(existing: string, res: string)
    requires '\n' !in res
    ensures Others(Text.Split(Write(existing, res), '\n')) == Others(Text.Split(existing, '\n'))
  {
    hide IsResolution, Write;
    var lines := Text.Split(existing, '\n');
    WrittenLines(existing, res);
    OthersRewritten(lines, res);
    WrittenLineIsResolution(res);
    OthersAppend(Rewritten(lines, res), PREFIX + res);
    OthersAppend(OutLines(lines, res), "");
  }

  // ---------------------------------------------------------------- reading back

  lemma {:induction false} FirstOfSame(lines: seq<string>, line: string)
    requires HasResolution(lines) && IsResolution(line)
    requires forall l | l in lines && IsResolution(l) :: l == line
    ensures FirstValue(lines) == ValueOf(line)
  {
    hide IsResolution, ValueOf;
    if !IsResolution(lines[0]) {
      var l :| l in lines && IsResolution(l);
      assert lines == [lines[0]] + lines[1..];
      assert l in lines[1..];
      FirstOfSame(lines[1..], line);
    }
  }

  lemma {:induction false} RewrittenHasOneValue(lines: seq<string>, res: string)
    ensures forall l | l in Rewritten(lines, res) && IsResolution(l) :: l == PREFIX + res
  {
    hide IsResolution;
    if lines != [] {
      RewrittenHasOneValue(lines[..|lines| - 1], res);
    }
  }

  /** What is read back is the written resolution without trailing space and surrounding quotes. */
  lemma ReadAfterWrite(existing: string, res: string)
    requires '\n' !in res
    ensures Read(Write(existing, res)) == Text.Trim(Text.TrimRight(res, Text.IsSpace), IsQuote)
  {
    hide IsResolution, Write;
    var lines := Text.Split(existing, '\n');
    var out := OutLines(lines, res);
    WrittenLines(existing, res);
    OutShape(lines, res);
    RewrittenHasOneValue(lines, res);
    WrittenLineIsResolution(res);
    BlankIsNoResolution();
    assert HasResolution(Closed(out)) by {
      var l :| l in out && IsResolution(l);
      assert l in Closed(out);
    }
    FirstOfSame(Closed(out), PREFIX + res);
  }

  /** The resolutions that can be written and read: no space at the end, no quote at either end. */
  predicate Plain(res: string) {
    res == "" || (!Text.IsSpace(res[|res| - 1]) && !IsQuote(res[|res| - 1]) && !IsQuote(res[0]))
  }

  /** Reading returns the resolution that was written, for every file, if and only if the resolution is plain. */
  lemma ReadsWhatWasWritten(existing: string, res: string)
    requires '\n' !in res
    ensures Read(Write(existing, res)) == res <==> Plain(res)
  {
    hide Read, Write, Text.IsSpace;
    ReadAfterWrite(existing, res);
    var r := Text.TrimRight(res, Text.IsSpace);
    Text.TrimFixedPoint(res, IsQuote);
    if res != "" && !Text.IsSpace(res[|res| - 1]) {
      assert r == res;
    } else if res != "" {
      assert |r| < |res|;
    }
  }

  // ---------------------------------------------------------------- which lines, and what becomes of them

  predicate Blank(s: string) { forall c | c in s :: Text.IsSpace(c) }

  /** A resolution line is one that starts with the key, after any white space. */
  lemma ResolutionIff(line: string)
    ensures IsResolution(line) <==> exists a: string, v: string :: Blank(a) && line == a + "VNC_RESOLUTION=" + v
  {
    hide Text.IsSpace, Text.Trim;
    if IsResolution(line) {
      var a, b := Text.TrimParts(line, Text.IsSpace);
      var v := Text.TrimSpace(line)[|PREFIX|..] + b;
      assert Text.TrimSpace(line) == PREFIX + Text.TrimSpace(line)[|PREFIX|..];
      assert Blank(a) && line == a + "VNC_RESOLUTION=" + v;
    }
    if a: string, v: string :| Blank(a) && line == a + "VNC_RESOLUTION=" + v {
      ValueOnLine(a, v);
    }
  }

  /** What such a line says: the value without white space behind it and without quotes around it. */
  lemma ValueOnLine(a: string, v: string)
    requires Blank(a)
    ensures var line := a + "VNC_RESOLUTION=" + v;
      IsResolution(line) && ValueOf(line) == Text.Trim(Text.TrimRight(v, Text.IsSpace), c => c == '"' || c == '\'')
  {
    var line := a + "VNC_RESOLUTION=" + v;
    assert line == a + (PREFIX + v);
    Text.TrimLeftSkips(a, PREFIX + v, Text.IsSpace);
    WrittenLineIsResolution(v);
    assert Text.TrimLeft(PREFIX + v, Text.IsSpace) == PREFIX + v;
    assert Text.TrimSpace(line) == PREFIX + Text.TrimRight(v, Text.IsSpace);
    SameTrim(Text.TrimRight(v, Text.IsSpace));
  }

  lemma SameTrim(s: string)
    ensures Text.Trim(s, IsQuote) == Text.Trim(s, c => c == '"' || c == '\'')
  {
    var a, b := Text.TrimParts(s, IsQuote);
    Text.TrimPadded(a, Text.Trim(s, IsQuote), b, c => c == '"' || c == '\'');
  }

  /** The first resolution line is the one that is read; without one nothing is. */
  lemma {:induction false} FirstIsRead(before: seq<string>, line: string, after: seq<string>)
    requires forall l | l in before :: !IsResolution(l)
    ensures FirstValue(before) == "" && (IsResolution(line) ==> FirstValue(before + [line] + after) == ValueOf(line))
  {
    hide IsResolution, ValueOf;
    var all := before + [line] + after;
    if before != [] {
      assert before[0] in before && all[0] == before[0];
      assert all[1..] == before[1..] + [line] + after;
      FirstIsRead(before[1..], line, after);
    }
  }

  /** The lines without the empty ones at the front. */
  function FromFirst(lines: seq<string>): (rest: seq<string>) {
    if lines != [] && lines[0] == "" then FromFirst(lines[1..]) else lines
  }

  lemma {:induction false} FromFirstAppend(init: seq<string>, last: string)
    ensures FromFirst(init + [last]) == if FromFirst(init) == [] && last == "" then [] else FromFirst(init) + [last]
  {
    if init == [] {
      assert init + [last] == [last] && [last][1..] == [];
    } else {
      assert (init + [last])[0] == init[0] && (init + [last])[1..] == init[1..] + [last];
      FromFirstAppend(init[1..], last);
    }
  }

  /** Line by line what a write leaves: empty lines at the front go, every resolution line is replaced where it stands,
      and all other lines, the empty ones between them included, stay; a new line is added only if there was none. */
  lemma {:induction false} WrittenExactly(lines: seq<string>, res: string)
    ensures Rewritten(lines, res) == Reset(FromFirst(lines), res)
  {
    hide IsResolution, Reset;
    if lines == [] {
      assert Reset([], res) == [];
    } else {
      var init, last := lines[..|lines| - 1], lines[|lines| - 1];
      WrittenExactly(init, res);
      assert lines == init + [last];
      FromFirstAppend(init, last);
      BlankIsNoResolution();
      ResetLengths(FromFirst(init), last, res);
      assert Text.TrimSpace("") == "";
    }
  }

  lemma ResetLengths(lines: seq<string>, last: string, res: string)
    ensures Reset(lines, res) == [] <==> lines == []
    ensures Reset(lines + [last], res) == Reset(lines, res) + [if IsResolution(last) then "VNC_RESOLUTION=" + res else last]
    ensures Reset([], res) == []
  {
    hide IsResolution;
  }
}
