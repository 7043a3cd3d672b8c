/**
 The string operations of Go's `strings` package that the modelled code calls,
 on sequences of characters, with the laws the other modules use.
 */
module Text {

  /** Go's unicode.IsSpace, the set strings.TrimSpace cuts. */
  predicate IsSpace(c: char) {
    || '\t' <= c <= '\r' || c == ' ' || c == '\U{0085}' || c == '\U{00A0}' || c == '\U{1680}'
    || '\U{2000}' <= c <= '\U{200A}' || c == '\U{2028}' || c == '\U{2029}'
    || c == '\U{202F}' || c == '\U{205F}' || c == '\U{3000}'
  }

  /** strings.ToLower as far as ASCII letters can come out of it; nothing else is ever matched against the result. */
  function LowerChar(c: char): (l: char)
    ensures 'A' <= c <= 'Z' ==> 'a' <= l <= 'z' && l as int - 'a' as int == c as int - 'A' as int
    ensures c < 'A' || 'Z' < c < '\U{0130}' ==> l == c
  {
    if 'A' <= c <= 'Z' then ((c as int) + 32) as char
    else if c == '\U{0130}' then 'i'
    else if c == '\U{212A}' then 'k'
    else c
  }

  function ToLower(s: string): (l: string) {
    seq(|s|, i requires 0 <= i < |s| => LowerChar(s[i]))
  }

  function TrimLeft(s: string, cut: char -> bool): (r: string)
    ensures |r| <= |s| && (|r| == |s| ==> r == s) && forall c | c in r :: c in s
    ensures if r == "" then forall c | c in s :: cut(c) else !cut(r[0])
  {
    if s != "" && cut(s[0]) then TrimLeft(s[1..], cut) else s
  }

  function TrimRight(s: string, cut: char -> bool): (r: string)
    ensures |r| <= |s| && r == s[..|r|]
    ensures r == "" || !cut(r[|r| - 1])
    ensures forall i :: |r| <= i < |s| ==> cut(s[i])
  {
    if s != "" && cut(s[|s| - 1]) then TrimRight(s[..|s| - 1], cut) else s
  }

  function Trim(s: string, cut: char -> bool): (r: string)
    ensures |r| <= |s|
    ensures forall c | c in r :: c in s
    ensures r == "" || (!cut(r[0]) && !cut(r[|r| - 1]))
  {
    TrimRight(TrimLeft(s, cut), cut)
  }

  /** Trimming cuts the same characters at both ends and nothing else, and all of a text made of them. */
  lemma TrimParts(s: string, cut: char -> bool) returns (a: string, b: string)
    ensures s == a + Trim(s, cut) + b
    ensures (forall c | c in a :: cut(c)) && (forall c | c in b :: cut(c))
    ensures Trim(s, cut) == "" <==> forall c | c in s :: cut(c)
  {
    var l := TrimLeft(s, cut);
    a := TrimLeftParts(s, cut);
    var r := TrimRight(l, cut);
    b := l[|r|..];
    assert l == r + b;
    if r == "" {
      assert s == a + b;
    } else {
      assert r[0] == s[|a|];
    }
  }

  lemma {:induction false} TrimLeftParts(s: string, cut: char -> bool) returns (a: string)
    ensures s == a + TrimLeft(s, cut) && forall c | c in a :: cut(c)
  {
    if s != "" && cut(s[0]) {
      var rest := TrimLeftParts(s[1..], cut);
      a := [s[0]] + rest;
    } else {
      a := "";
    }
  }

  lemma {:induction false} TrimLeftSkips(a: string, s: string, cut: char -> bool)
    requires forall c | c in a :: cut(c)
    ensures TrimLeft(a + s, cut) == TrimLeft(s, cut)
  {
    if a == "" {
      assert a + s == s;
    } else {
      assert (a + s)[1..] == a[1..] + s;
      TrimLeftSkips(a[1..], s, cut);
    }
  }

  lemma {:induction false} TrimRightSkips(s: string, b: string, cut: char -> bool)
    requires forall c | c in b :: cut(c)
    ensures TrimRight(s + b, cut) == TrimRight(s, cut)
  {
    if b == "" {
      assert s + b == s;
    } else {
      assert (s + b)[..|s + b| - 1] == s + b[..|b| - 1];
      TrimRightSkips(s, b[..|b| - 1], cut);
    }
  }

  /** What is trimmed already comes out of any padding. */
  lemma TrimPadded(a: string, s: string, b: string, cut: char -> bool)
    requires (forall c | c in a :: cut(c)) && (forall c | c in b :: cut(c))
    requires s == "" || (!cut(s[0]) && !cut(s[|s| - 1]))
    ensures Trim(a + s + b, cut) == s
  {
    assert a + s + b == a + (s + b);
    TrimLeftSkips(a, s + b, cut);
    if s == "" {
      assert s + b == b;
    } else {
      assert (s + b)[0] == s[0];
      TrimRightSkips(s, b, cut);
    }
  }

  /** The white space of Go, character by character. */
  lemma Spaces(c: char)
    ensures IsSpace(c) <==>
              c in "\t\n\U{000B}\U{000C}\r \U{0085}\U{00A0}\U{1680}\U{2000}\U{2001}\U{2002}\U{2003}\U{2004}\U{2005}\U{2006}"
                   + "\U{2007}\U{2008}\U{2009}\U{200A}\U{2028}\U{2029}\U{202F}\U{205F}\U{3000}"
  {
    var all := "\t\n\U{000B}\U{000C}\r \U{0085}\U{00A0}\U{1680}\U{2000}\U{2001}\U{2002}\U{2003}\U{2004}\U{2005}\U{2006}"
               + "\U{2007}\U{2008}\U{2009}\U{200A}\U{2028}\U{2029}\U{202F}\U{205F}\U{3000}";
    assert |all| == 25;
    assert all[0] == '\t' && all[1] == '\n' && all[2] == '\U{000B}' && all[3] == '\U{000C}' && all[4] == '\r';
    assert all[5] == ' ' && all[6] == '\U{0085}' && all[7] == '\U{00A0}' && all[8] == '\U{1680}';
    assert forall i | 9 <= i < 20 :: all[i] as int == 0x2000 + i - 9;
    assert all[20] == '\U{2028}' && all[21] == '\U{2029}' && all[22] == '\U{202F}' && all[23] == '\U{205F}' && all[24] == '\U{3000}';
    if '\U{2000}' <= c <= '\U{200A}' {
      assert all[9 + (c as int - 0x2000)] == c;
    }
  }

  predicate Trimmed(s: string, cut: char -> bool) {
    s == "" || (!cut(s[0]) && !cut(s[|s| - 1]))
  }

  lemma TrimFixedPoint(s: string, cut: char -> bool)
    ensures Trim(s, cut) == s <==> Trimmed(s, cut)
  {
    if Trimmed(s, cut) && s != "" {
      assert TrimLeft(s, cut) == s;
    }
  }

  function TrimSpace(s: string): (t: string) { Trim(s, IsSpace) }

  /** Nothing is cut before a character that stays. */
  lemma {:induction false} TrimRightConcat(a: string, b: string, cut: char -> bool)
    requires a != "" && !cut(a[|a| - 1])
    ensures TrimRight(a + b, cut) == a + TrimRight(b, cut)
  {
    if b == "" {
      assert a + b == a;
    } else if cut(b[|b| - 1]) {
      TrimRightConcat(a, b[..|b| - 1], cut);
      assert (a + b)[..|a + b| - 1] == a + b[..|b| - 1];
    }
  }

  lemma TrimLeftCons(c: char, s: string, cut: char -> bool)
    ensures TrimLeft([c] + s, cut) == if cut(c) then TrimLeft(s, cut) else [c] + s
  {
    assert ([c] + s)[1..] == s;
  }

  lemma {:induction false} TrimLeftAppend(s: string, c: char, cut: char -> bool)
    requires cut(c)
    ensures TrimLeft(s + [c], cut) == if TrimLeft(s, cut) == "" then "" else TrimLeft(s, cut) + [c]
  {
    if s == "" {
      assert s + [c] == [c] + "";
      TrimLeftCons(c, "", cut);
    } else {
      hide TrimLeft;
      TrimLeftAppend(s[1..], c, cut);
      assert s == [s[0]] + s[1..] && s + [c] == [s[0]] + (s[1..] + [c]);
      TrimLeftCons(s[0], s[1..], cut);
      TrimLeftCons(s[0], s[1..] + [c], cut);
    }
  }

  /** A character that is cut makes no difference at the end. */
  lemma TrimIgnoresEnd(s: string, c: char, cut: char -> bool)
    requires cut(c)
    ensures Trim(s + [c], cut) == Trim(s, cut)
  {
    hide TrimLeft;
    TrimLeftAppend(s, c, cut);
    var t := TrimLeft(s, cut);
    if t != "" {
      assert (t + [c])[..|t + [c]| - 1] == t;
    }
  }

  /** `p` occurs in `s` at index `i`. */
  predicate At(s: string, i: int, p: string) {
    0 <= i && i + |p| <= |s| && s[i..i + |p|] == p
  }

  predicate Contains(s: string, p: string) {
    exists i | 0 <= i <= |s| :: At(s, i, p)
  }

  lemma ContainsBlock(before: string, p: string, after: string)
    ensures Contains(before + p + after, p)
  {
    assert At(before + p + after, |before|, p);
  }

  lemma ContainsExtends(before: string, s: string, after: string, p: string)
    requires Contains(s, p)
    ensures Contains(before + s + after, p)
  {
    var i :| 0 <= i <= |s| && At(s, i, p);
    var t := before + s + after;
    assert t[|before| + i..|before| + i + |p|] == s[i..i + |p|];
    assert At(t, |before| + i, p);
  }

  // ---------------------------------------------------------------- Split and Join

  /** One more character in front of a split text. */
  function Prepend(c: char, parts: seq<string>, sep: char): (r: seq<string>)
    requires |parts| >= 1
    ensures |r| >= 1
    ensures (forall p | p in parts :: sep !in p) ==> forall p | p in r :: sep !in p
  {
    if c == sep then [""] + parts else [[c] + parts[0]] + parts[1..]
  }

  function Split(s: string, sep: char): (parts: seq<string>)
    ensures |parts| >= 1
    ensures forall p | p in parts :: sep !in p
  {
    if s == "" then [""] else Prepend(s[0], Split(s[1..], sep), sep)
  }

  function Join(parts: seq<string>, sep: char): (s: string) {
    if |parts| == 0 then ""
    else if |parts| == 1 then parts[0]
    else parts[0] + [sep] + Join(parts[1..], sep)
  }

  lemma {:induction false} SplitNoSeparator(s: string, sep: char)
    requires sep !in s
    ensures Split(s, sep) == [s]
  {
    if s != "" {
      SplitNoSeparator(s[1..], sep);
      assert [s[0]] + s[1..] == s;
    }
  }

  lemma SplitCons(c: char, s: string, sep: char)
    ensures Split([c] + s, sep) == Prepend(c, Split(s, sep), sep)
  {
    assert ([c] + s)[1..] == s;
  }

  lemma PrependConcat(c: char, x: seq<string>, y: seq<string>, sep: char)
    requires |x| >= 1
    ensures Prepend(c, x + y, sep) == Prepend(c, x, sep) + y
  {
    assert (x + y)[1..] == x[1..] + y;
  }

  lemma SplitEmpty(sep: char)
    ensures Split("", sep) == [""]
  {
  }

  lemma {:induction false} SplitConcat(a: string, b: string, sep: char)
    ensures Split(a + [sep] + b, sep) == Split(a, sep) + Split(b, sep)
  {
    if a == "" {
      assert a + [sep] + b == [sep] + b;
      SplitCons(sep, b, sep);
      SplitEmpty(sep);
    } else {
      hide Split, Prepend;
      var c, tail := a[0], a[1..];
      SplitConcat(tail, b, sep);
      assert a + [sep] + b == [c] + (tail + [sep] + b) && a == [c] + tail;
      SplitCons(c, tail + [sep] + b, sep);
      SplitCons(c, tail, sep);
      PrependConcat(c, Split(tail, sep), Split(b, sep), sep);
    }
  }

  lemma {:induction false} SplitJoin(parts: seq<string>, sep: char)
    requires |parts| >= 1 && forall p | p in parts :: sep !in p
    ensures Split(Join(parts, sep), sep) == parts
  {
    SplitNoSeparator(parts[0], sep);
    if |parts| > 1 {
      SplitJoin(parts[1..], sep);
      SplitConcat(parts[0], Join(parts[1..], sep), sep);
    }
  }

  lemma {:induction false} JoinConcat(a: seq<string>, b: seq<string>, sep: char)
    requires |a| >= 1 && |b| >= 1
    ensures Join(a + b, sep) == Join(a, sep) + [sep] + Join(b, sep)
  {
    if |a| == 1 {
      assert (a + b)[1..] == b;
    } else {
      JoinConcat(a[1..], b, sep);
      assert (a + b)[1..] == a[1..] + b;
    }
  }

  // ---------------------------------------------------------------- ReplaceAll

  /** strings.ReplaceAll for a non-empty pattern: leftmost, non-overlapping, never rescanned. */
  function ReplaceAll(s: string, old_: string, new_: string): (r: string)
    requires old_ != ""
    decreases |s|
  {
    if |s| < |old_| then s
    else if s[..|old_|] == old_ then new_ + ReplaceAll(s[|old_|..], old_, new_)
    else [s[0]] + ReplaceAll(s[1..], old_, new_)
  }

  /** The text around the leftmost non-overlapping occurrences of `p`. */
  function Pieces(s: string, p: string): (parts: seq<string>)
    requires p != ""
    ensures |parts| >= 1
    decreases |s|
  {
    if |s| < |p| then [s]
    else if s[..|p|] == p then [""] + Pieces(s[|p|..], p)
    else
      var rest := Pieces(s[1..], p);
      [[s[0]] + rest[0]] + rest[1..]
  }

  function Weave(parts: seq<string>, glue: string): (s: string)
    requires |parts| >= 1
  {
    if |parts| == 1 then parts[0] else parts[0] + glue + Weave(parts[1..], glue)
  }

  lemma WeaveHead(c: char, rest: seq<string>, glue: string)
    requires |rest| >= 1
    ensures Weave([[c] + rest[0]] + rest[1..], glue) == [c] + Weave(rest, glue)
  {
    assert ([[c] + rest[0]] + rest[1..])[1..] == rest[1..];
  }

  /** Replacing keeps the text between occurrences and puts `new_` where `p` stood. */
  lemma {:induction false} ReplaceAllWeaves(s: string, p: string, new_: string)
    requires p != ""
    ensures ReplaceAll(s, p, new_) == Weave(Pieces(s, p), new_)
    decreases |s|
  {
    if |s| < |p| {
    } else if s[..|p|] == p {
      ReplaceAllWeaves(s[|p|..], p, new_);
      assert ([""] + Pieces(s[|p|..], p))[1..] == Pieces(s[|p|..], p);
    } else {
      ReplaceAllWeaves(s[1..], p, new_);
      WeaveHead(s[0], Pieces(s[1..], p), new_);
    }
  }

  /** Replacing a pattern by itself changes nothing, so the pieces lose no text. */
  lemma {:induction false} ReplaceAllBySelf(s: string, p: string)
    requires p != ""
    ensures ReplaceAll(s, p, p) == s
    decreases |s|
  {
    if |s| < |p| {
    } else if s[..|p|] == p {
      ReplaceAllBySelf(s[|p|..], p);
      assert s == p + s[|p|..];
    } else {
      ReplaceAllBySelf(s[1..], p);
      assert s == [s[0]] + s[1..];
    }
  }

  lemma ContainsTail(s: string, p: string)
    requires p != "" && s != "" && !(p <= s)
    ensures Contains(s, p) <==> Contains(s[1..], p)
  {
    if Contains(s, p) {
      var i :| 0 <= i <= |s| && At(s, i, p);
      assert i > 0 && s[1..][i - 1..i - 1 + |p|] == s[i..i + |p|];
      assert At(s[1..], i - 1, p);
    }
    if Contains(s[1..], p) {
      assert s == [s[0]] + s[1..] + "";
      ContainsExtends([s[0]], s[1..], "", p);
    }
  }

  /** A pattern that occurs splits the text in at least two, and no piece holds it any more. */
  lemma {:induction false} PiecesSeparate(s: string, p: string)
    requires p != ""
    ensures Contains(s, p) <==> |Pieces(s, p)| >= 2
    ensures forall q | q in Pieces(s, p) :: !Contains(q, p)
    ensures Pieces(s, p)[0] <= s
    decreases |s|
  {
    if |s| < |p| {
    } else if s[..|p|] == p {
      PiecesSeparate(s[|p|..], p);
      assert At(s, 0, p);
      assert !Contains("", p);
    } else {
      PiecesSeparate(s[1..], p);
      ContainsTail(s, p);
      var rest := Pieces(s[1..], p);
      var head := [s[0]] + rest[0];
      assert head <= s;
      assert head[1..] == rest[0];
      ContainsTail(head, p);
    }
  }

  /** A replaced pattern leaves its replacement behind as one contiguous block. */
  lemma ReplaceAllInserts(s: string, p: string, new_: string)
    requires p != "" && Contains(s, p)
    ensures Contains(ReplaceAll(s, p, new_), new_)
  {
    PiecesSeparate(s, p);
    ReplaceAllWeaves(s, p, new_);
    var parts := Pieces(s, p);
    ContainsBlock(parts[0], new_, Weave(parts[1..], new_));
  }

  /** Replacement goes from left to right without looking back. */
  lemma ReplaceLeftmost(p: string, s: string, new_: string)
    requires p != ""
    ensures ReplaceAll(p + s, p, new_) == new_ + ReplaceAll(s, p, new_)
  {
    assert (p + s)[..|p|] == p && (p + s)[|p|..] == s;
  }
}
