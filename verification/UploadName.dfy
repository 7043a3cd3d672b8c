/**
 internal/api/api.go, safeUploadName: from a client's file name to a base name
 that is safe to write. Invalid UTF-8 reads as the replacement character; a
 result is ASCII, so its characters are its bytes.
 */
module UploadName {
  import Text

  const MAX_NAME := 96
  const MAX_EXT := 16

  predicate IsSeparator(c: char) { c == '/' || c == '\\' }

  /** The part after the last separator. */
  function Base(s: string): (b: string)
    ensures forall c | c in b :: !IsSeparator(c) && c in s
    ensures (forall c | c in s :: !IsSeparator(c)) ==> b == s
    ensures |b| <= |s| && b == s[|s| - |b|..] && (|b| < |s| ==> s[|s| - |b| - 1] == '/' || s[|s| - |b| - 1] == '\\')
    ensures '/' !in b && '\\' !in b
  {
    if s == "" then ""
    else if IsSeparator(s[|s| - 1]) then ""
    else Base(s[..|s| - 1]) + [s[|s| - 1]]
  }

  predicate SafeChar(c: char) {
    'a' <= c <= 'z' || 'A' <= c <= 'Z' || '0' <= c <= '9' || c == '.' || c == '-' || c == '_'
  }

  predicate IsControl(c: char) { c < ' ' || c == '\U{007F}' }

  function Sanitised(s: string): (t: string)
    ensures forall c | c in t :: SafeChar(c)
    ensures |t| <= |s|
  {
    if s == "" then ""
    else
      var before, c := Sanitised(s[..|s| - 1]), s[|s| - 1];
      if SafeChar(c) then before + [c] else if IsControl(c) then before else before + ['_']
  }

  predicate IsDot(c: char) { c == '.' }

  /** Each run of underscores cut down to one. */
  function Squeezed(s: string): (t: string)
    ensures |t| <= |s| && forall c | c in t :: c in s
    ensures s != "" ==> t != "" && t[0] == s[0] && t[|t| - 1] == s[|s| - 1]
  {
    if |s| <= 1 then s
    else if s[0] == '_' && s[1] == '_' then Squeezed(s[1..])
    else [s[0]] + Squeezed(s[1..])
  }

  /** The suffix from the last dot on, or nothing. */
  function Ext(s: string): (e: string)
    ensures |e| <= |s| && e == s[|s| - |e|..]
    ensures e != "" ==> e[0] == '.' && '.' !in e[1..]
    ensures e == "" ==> '.' !in s
  {
    if s == "" then ""
    else if s[|s| - 1] == '.' then "."
    else
      var e := Ext(s[..|s| - 1]);
      if e == "" then "" else e + [s[|s| - 1]]
  }

  /** At most MAX_NAME characters, the extension kept when it is not too long itself. */
  function Cut(s: string): (t: string)
    ensures |t| <= MAX_NAME && (|s| <= MAX_NAME ==> t == s)
  {
    if |s| <= MAX_NAME then s
    else
      var ext := if |Ext(s)| > MAX_EXT then "" else Ext(s);
      s[..MAX_NAME - |ext|] + ext
  }

  /** The clean name before the length cap. */
  function Normalised(name: string): (s: string) {
    Squeezed(Text.Trim(Sanitised(Base(Text.TrimSpace(name))), IsDot))
  }

  function SafeName(name: string): (s: string) { Cut(Normalised(name)) }

  // ---------------------------------------------------------------- collapsing underscores

  lemma SqueezedHead(c: char, x: string)
    ensures Squeezed([c] + x) == if c == '_' && x != "" && x[0] == '_' then Squeezed(x) else [c] + Squeezed(x)
  {
    assert ([c] + x)[1..] == x;
  }

  lemma ReplaceHead(s: string)
    ensures var r := Text.ReplaceAll(s, "__", "_"); (r == "" <==> s == "") && (s != "" ==> r[0] == s[0])
  {
  }

  /** Two names that start alike and squeeze alike still do behind one more character. */
  lemma SqueezedBehind(c: char, x: string, y: string)
    requires Squeezed(x) == Squeezed(y) && (x == "" <==> y == "") && (x != "" ==> x[0] == y[0])
    ensures Squeezed([c] + x) == Squeezed([c] + y)
  {
    hide Squeezed;
    SqueezedHead(c, x);
    SqueezedHead(c, y);
  }

  /** Replacing pairs never changes what the name squeezes to. */
  lemma {:induction false} ReplaceKeepsSqueezed(s: string)
    ensures Squeezed(Text.ReplaceAll(s, "__", "_")) == Squeezed(s)
    decreases |s|
  {
    hide Squeezed;
    if |s| >= 2 && s[..2] == "__" {
      var t := s[2..];
      ReplaceKeepsSqueezed(t);
      ReplaceHead(t);
      SqueezedBehind('_', Text.ReplaceAll(t, "__", "_"), t);
      SqueezedHead('_', ['_'] + t);
      assert s[0] == s[..2][0] && s[1] == s[..2][1];
      assert s == ['_'] + (['_'] + t);
      assert Text.ReplaceAll(s, "__", "_") == ['_'] + Text.ReplaceAll(t, "__", "_");
    } else if |s| >= 2 {
      var t := s[1..];
      ReplaceKeepsSqueezed(t);
      ReplaceHead(t);
      SqueezedBehind(s[0], Text.ReplaceAll(t, "__", "_"), t);
      assert s == [s[0]] + t;
    }
  }

  lemma {:induction false} ReplaceShortens(s: string)
    ensures |Text.ReplaceAll(s, "__", "_")| <= |s|
    ensures Text.Contains(s, "__") ==> |Text.ReplaceAll(s, "__", "_")| < |s|
    decreases |s|
  {
    hide Text.Contains;
    if |s| < 2 {
      ShortHasNoPair(s);
    } else if s[..2] == "__" {
      ReplaceShortens(s[2..]);
    } else {
      ReplaceShortens(s[1..]);
      Text.ContainsTail(s, "__");
    }
  }

  lemma ShortHasNoPair(s: string)
    requires |s| < 2
    ensures !Text.Contains(s, "__")
  {
  }

  /** A name is squeezed exactly when it holds no pair of underscores. */
  lemma {:induction false} SqueezedHasNoPair(s: string)
    ensures !Text.Contains(Squeezed(s), "__")
    ensures !Text.Contains(s, "__") ==> Squeezed(s) == s
  {
    hide Text.Contains;
    if |s| <= 1 {
      ShortHasNoPair(s);
    } else {
      var t := s[1..];
      SqueezedHasNoPair(t);
      if s[0] == '_' && s[1] == '_' {
        PairInFront(s);
      } else {
        var r := Squeezed(s);
        assert r == [s[0]] + Squeezed(t) && r[1..] == Squeezed(t);
        NoPairInFront(r);
        NoPairInFront(s);
        Text.ContainsTail(r, "__");
        Text.ContainsTail(s, "__");
        assert s == [s[0]] + t;
      }
    }
  }

  lemma NoPairInFront(s: string)
    requires |s| < 2 || s[0] != '_' || s[1] != '_'
    ensures !("__" <= s)
  {
  }

  lemma PairInFront(s: string)
    requires |s| >= 2 && s[0] == '_' && s[1] == '_'
    ensures Text.Contains(s, "__")
  {
    assert s[0..2] == "__";
    assert Text.At(s, 0, "__");
  }

  // ---------------------------------------------------------------- the function's own loops

  method Collapse(s: string) returns (t: string)
    ensures t == Squeezed(s)
  {
    hide Squeezed, Text.Contains;
    t := s;
    while Text.Contains(t, "__")
      invariant Squeezed(t) == Squeezed(s)
      decreases |t|
    {
      ReplaceKeepsSqueezed(t);
      ReplaceShortens(t);
      t := Text.ReplaceAll(t, "__", "_");
    }
    SqueezedHasNoPair(t);
  }

  method Sanitise(base: string) returns (b: string)
    ensures b == Sanitised(base)
  {
    hide SafeChar;
    b := "";
    for i := 0 to |base|
      invariant b == Sanitised(base[..i])
    {
      assert base[..i + 1][..i] == base[..i];
      var c := base[i];
      if SafeChar(c) {
        b := b + [c];
      } else if !IsControl(c) {
        b := b + ['_'];
      }
    }
    assert base[..|base|] == base;
  }

  method SafeUploadName(name: string) returns (out: string)
    ensures out == SafeName(name)
  {
    hide Squeezed, Sanitised, Text.Trim, Ext;
    var b := Sanitise(Base(Text.TrimSpace(name)));
    out := Collapse(Text.Trim(b, IsDot));
    if out == "" { return; }
    if |out| > MAX_NAME {
      var ext := Ext(out);
      if |ext| > MAX_EXT {
        ext := "";
      }
      var keep := MAX_NAME - |ext|;
      if keep < 1 {
        keep := 1;
      }
      out := out[..keep] + ext;
    }
  }

  // ---------------------------------------------------------------- what comes out

  /** What every result satisfies. */
  ghost predicate Safe(s: string) {
    && (forall c | c in s :: SafeChar(c))
    && (s != "" ==> s[0] != '.')
    && !Text.Contains(s, "__")
  }

  lemma NormalisedIsSafe(name: string)
    ensures Safe(Normalised(name))
    ensures Normalised(name) != "" ==> Normalised(name)[|Normalised(name)| - 1] != '.'
  {
    hide Text.Contains, SafeChar, Squeezed, Sanitised, Base, Text.Trim;
    var t := Text.Trim(Sanitised(Base(Text.TrimSpace(name))), IsDot);
    SqueezedHasNoPair(t);
    if t != "" {
      assert !IsDot(t[|t| - 1]);
    }
  }

  /** A prefix joined to a suffix that starts with a dot brings no new pair of underscores. */
  lemma NoPairInCut(s: string, k: nat, ext: string)
    requires !Text.Contains(s, "__") && k <= |s| - |ext| && ext == s[|s| - |ext|..]
    requires ext != "" ==> ext[0] == '.'
    ensures !Text.Contains(s[..k] + ext, "__")
  {
    var t := s[..k] + ext;
    forall i | 0 <= i <= |t| ensures !Text.At(t, i, "__") {
      if 0 <= i && i + 2 <= |t| && t[i..i + 2] == "__" {
        assert t[i] == t[i..i + 2][0] == '_' && t[i + 1] == t[i..i + 2][1] == '_';
        var j := if i + 1 < k then i else |s| - |t| + i;
        assert i + 1 != k;
        assert s[j] == t[i] && s[j + 1] == t[i + 1];
        assert s[j..j + 2] == "__";
        assert Text.At(s, j, "__");
      }
    }
  }

  /** The cut keeps the beginning, keeps an extension of up to MAX_EXT characters, and stays safe. */
  lemma CutIsSafe(s: string)
    requires Safe(s)
    ensures Safe(Cut(s))
    ensures |s| > 96 ==> |Cut(s)| == 96 && Cut(s)[..80] == s[..80]
    ensures |s| > 96 && |Ext(s)| <= 16 ==>
              Ext(s) == Cut(s)[96 - |Ext(s)|..] && Cut(s)[..96 - |Ext(s)|] == s[..96 - |Ext(s)|]
    ensures |s| > 96 && |Ext(s)| > 16 ==> Cut(s) == s[..96]
  {
    hide Text.Contains, SafeChar, Ext;
    if |s| > MAX_NAME {
      var ext := if |Ext(s)| > MAX_EXT then "" else Ext(s);
      var t := s[..MAX_NAME - |ext|] + ext;
      NoPairInCut(s, MAX_NAME - |ext|, ext);
      assert t[0] == s[0];
      assert forall c | c in t :: c in s;
      assert t[|t| - |ext|..] == ext;
    }
  }

  /** Every result: letters, digits, dots, dashes and underscores only, so no path separator; at most 96 of them; never
      starting with a dot; never two underscores in a row. */
  lemma ResultIsSafe(name: string)
    ensures Safe(SafeName(name)) && |SafeName(name)| <= 96
    ensures SafeName(name) !in {".", ".."} && forall c | c in SafeName(name) :: !IsSeparator(c)
  {
    hide Normalised, Text.Contains;
    NormalisedIsSafe(name);
    CutIsSafe(Normalised(name));
  }

  predicate AllDots(s: string) { forall c | c in s :: c == '.' }

  /** Dots and control characters only. */
  predicate Unusable(s: string) { forall c | c in s :: c == '.' || IsControl(c) }

  lemma {:induction false} SanitisedAllDots(s: string)
    ensures AllDots(Sanitised(s)) <==> Unusable(s)
  {
    if s != "" {
      var init, last := s[..|s| - 1], s[|s| - 1];
      SanitisedAllDots(init);
      assert s == init + [last];
      var before, t := Sanitised(init), Sanitised(s);
      if !IsControl(last) && last != '.' {
        assert last in s;
        assert t[|t| - 1] in t && t[|t| - 1] != '.';
      } else {
        if last == '.' {
          assert t == before + ['.'];
          assert forall c :: c in t <==> c in before || c == '.';
        } else {
          assert !SafeChar(last) && t == before;
        }
        assert forall c :: c in s <==> c in init || c == last;
      }
    }
  }

  lemma TrimToNothing(s: string)
    ensures Text.Trim(s, IsDot) == "" <==> AllDots(s)
  {
    var l := Text.TrimLeft(s, IsDot);
    if l != "" {
      assert l[0] in s && !IsDot(l[0]);
      var r := Text.TrimRight(l, IsDot);
      assert r != "";
    }
  }

  /** Nothing usable is left exactly when the base name is made of dots and control characters. */
  lemma EmptyIff(name: string)
    ensures SafeName(name) == "" <==> Unusable(Base(Text.TrimSpace(name)))
  {
    hide Text.Trim, Squeezed, Unusable, AllDots;
    var b := Base(Text.TrimSpace(name));
    SanitisedAllDots(b);
    TrimToNothing(Sanitised(b));
  }

  // ---------------------------------------------------------------- a second pass

  lemma SafeCharsAreVisible(c: char)
    requires SafeChar(c)
    ensures !Text.IsSpace(c) && !IsSeparator(c)
  {
  }

  lemma {:induction false} SanitisedSafe(s: string)
    requires forall c | c in s :: SafeChar(c)
    ensures Sanitised(s) == s
  {
    hide SafeChar;
    if s != "" {
      SanitisedSafe(s[..|s| - 1]);
      assert s[|s| - 1] in s;
    }
  }

  /** A safe name that does not end in a dot is left alone. */
  lemma NormalisedSafe(s: string)
    requires Safe(s) && (s != "" ==> s[|s| - 1] != '.')
    ensures Normalised(s) == s
  {
    hide SafeChar, Text.Contains, Squeezed, Text.IsSpace, Base, Sanitised, Text.Trim;
    forall c | c in s ensures !Text.IsSpace(c) && !IsSeparator(c) {
      SafeCharsAreVisible(c);
    }
    if s != "" {
      assert s[0] in s && s[|s| - 1] in s;
    }
    Text.TrimFixedPoint(s, Text.IsSpace);
    SanitisedSafe(s);
    Text.TrimFixedPoint(s, IsDot);
    SqueezedHasNoPair(s);
  }

  /** The cut can leave a dot at the end in one situation only: a long name, an extension over the limit, and a dot
      as its last character that fits. */
  predicate CutAtDot(s: string) {
    |s| > MAX_NAME && |Ext(s)| > MAX_EXT && s[MAX_NAME - 1] == '.'
  }

  lemma CutEnd(s: string)
    requires s != "" ==> s[|s| - 1] != '.'
    ensures Cut(s) != "" && Cut(s)[|Cut(s)| - 1] == '.' <==> CutAtDot(s)
  {
    if |s| > MAX_NAME && |Ext(s)| <= MAX_EXT {
      var e := Ext(s);
      if e == "" {
        assert s[MAX_NAME - 1] in s;
      } else {
        assert Cut(s)[|Cut(s)| - 1] == e[|e| - 1] == s[|s| - 1];
      }
    }
  }

  /** Running a result through again changes nothing, unless the cut ended at a dot, which the second run strips. */
  lemma SecondPass(name: string)
    ensures SafeName(SafeName(name)) == SafeName(name) <==> !CutAtDot(Normalised(name))
  {
    hide Normalised, Ext, Safe;
    var r := SafeName(name);
    NormalisedIsSafe(name);
    CutIsSafe(Normalised(name));
    CutEnd(Normalised(name));
    if r == "" || r[|r| - 1] != '.' {
      NormalisedSafe(r);
    } else {
      NormalisedIsSafe(r);
      CutEnd(Normalised(r));
      ShorterAgain(r);
    }
  }

  /** A second pass over at most 96 characters cuts nothing more, and never leaves a dot at the end. */
  lemma ShorterAgain(r: string)
    requires |r| <= MAX_NAME
    ensures SafeName(r) == "" || SafeName(r)[|SafeName(r)| - 1] != '.'
  {
    hide Text.Contains, Squeezed, SafeChar, Normalised;
    NormalisedIsSafe(r);
    NormalisedIsNoLonger(r);
  }

  lemma NormalisedIsNoLonger(r: string)
    ensures |Normalised(r)| <= |r|
  {
    hide Squeezed, Sanitised, Base, Text.Trim;
  }

  /** Such a name exists. */
  lemma CutAtDotHappens()
    ensures exists name :: CutAtDot(Normalised(name))
  {
    var a, b := seq(95, _ => 'a'), seq(17, _ => 'b');
    var name := a + "." + b;
    ExtOf(a, b);
    assert name[0] == 'a' && name[|name| - 1] == 'b' && name[95] == '.';
    NoUnderscores(name);
    assert forall c | c in name :: SafeChar(c);
    NormalisedSafe(name);
    assert CutAtDot(Normalised(name));
  }

  lemma ExtAppend(s: string, c: char)
    requires c != '.'
    ensures Ext(s + [c]) == if Ext(s) == "" then "" else Ext(s) + [c]
  {
    assert (s + [c])[..|s|] == s;
  }

  lemma {:induction false} ExtOf(a: string, b: string)
    requires '.' !in b
    ensures Ext(a + "." + b) == "." + b
  {
    var s := a + "." + b;
    if b == "" {
      assert s[|s| - 1] == '.' && "." + b == ".";
    } else {
      hide Ext;
      var init, last := b[..|b| - 1], b[|b| - 1];
      ExtOf(a, init);
      assert last in b && last != '.';
      assert s == a + "." + init + [last] && "." + b == "." + init + [last];
      ExtAppend(a + "." + init, last);
    }
  }

  lemma NoUnderscores(s: string)
    requires '_' !in s
    ensures !Text.Contains(s, "__")
  {
    forall i | 0 <= i <= |s| ensures !Text.At(s, i, "__") {
      if i + 2 <= |s| {
        assert s[i] in s;
        assert s[i..i + 2][0] == s[i];
      }
    }
  }

  // ---------------------------------------------------------------- each step of the pipeline

  /** Character by character: the allowed ones stay, control characters go, everything else becomes an underscore. */
  lemma {:induction false} SanitisedExactly(a: string, b: string, c: char)
    ensures Sanitised(a + b) == Sanitised(a) + Sanitised(b)
    ensures Sanitised([c])
         == if 'a' <= c <= 'z' || 'A' <= c <= 'Z' || '0' <= c <= '9' || c in ".-_" then [c]
            else if c as int < 0x20 || c as int == 0x7F then "" else "_"
  {
    assert [c][..0] == "" && Sanitised("") == "";
    if b == "" {
      assert a + b == a;
    } else {
      SanitisedExactly(a, b[..|b| - 1], c);
      assert (a + b)[..|a + b| - 1] == a + b[..|b| - 1];
    }
  }

  /** White space around the name makes no difference. */
  lemma SpaceAround(a: string, name: string, b: string)
    requires forall c | c in a + b :: Text.IsSpace(c)
    ensures SafeName(a + name + b) == SafeName(name)
  {
    hide Text.IsSpace, Base, Sanitised, Squeezed, Cut, Text.Trim;
    var x, y := Text.TrimParts(name, Text.IsSpace);
    var t := Text.TrimSpace(name);
    assert (forall c | c in a :: c in a + b) && (forall c | c in b :: c in a + b);
    assert a + name + b == (a + x) + t + (y + b);
    Text.TrimPadded(a + x, t, y + b, Text.IsSpace);
  }
}
