/**
 Slash-separated path cleaning and joining by the rules Go documents for
 filepath.Clean and filepath.Join on Unix, and what they guarantee about
 containment.
 */
module Paths {
  import Text

  /** The components left after dropping "" and "." and resolving "..". */
  function Reduce(rooted: bool, parts: seq<string>): (stack: seq<string>) {
    if parts == [] then []
    else Push(rooted, Reduce(rooted, parts[..|parts| - 1]), parts[|parts| - 1])
  }

  function Push(rooted: bool, stack: seq<string>, c: string): (stack': seq<string>) {
    if c == "" || c == "." then stack
    else if c != ".." then stack + [c]
    else if stack != [] && stack[|stack| - 1] != ".." then stack[..|stack| - 1]
    else if rooted then stack
    else stack + [".."]
  }

  function ToPath(rooted: bool, stack: seq<string>): (p: string) {
    if rooted then "/" + Text.Join(stack, '/')
    else if stack == [] then "."
    else Text.Join(stack, '/')
  }

  predicate Rooted(p: string) { p != "" && p[0] == '/' }

  function Clean(p: string): (c: string) {
    if p == "" then "." else ToPath(Rooted(p), Reduce(Rooted(p), Text.Split(p, '/')))
  }

  /** filepath.Join: leading empty elements are skipped, the rest is joined and cleaned. */
  function JoinPath(elems: seq<string>): (p: string) {
    if elems == [] then ""
    else if elems[0] == "" then JoinPath(elems[1..])
    else Clean(Text.Join(elems, '/'))
  }

  // ---------------------------------------------------------------- canonical component lists

  /** An ordinary component: not empty, not ".", without a slash. */
  predicate Proper(c: string) { c != "" && c != "." && '/' !in c }

  /** What cleaning produces: proper components, ".." only at the front and never below a root. */
  ghost predicate Canonical(rooted: bool, stack: seq<string>) {
    && (forall c | c in stack :: Proper(c))
    && (rooted ==> ".." !in stack)
    && (forall i, j | 0 <= i < j < |stack| && stack[j] == ".." :: stack[i] == "..")
  }

  lemma PushKeepsCanonical(rooted: bool, stack: seq<string>, c: string)
    requires Canonical(rooted, stack) && '/' !in c
    ensures Canonical(rooted, Push(rooted, stack, c))
  {
    var stack' := Push(rooted, stack, c);
    if c == ".." && !rooted && stack' == stack + [".."] {
      assert forall i | 0 <= i < |stack| :: stack[i] == ".." by {
        if stack != [] {
          assert stack[|stack| - 1] == "..";
        }
      }
    }
    assert forall x | x in stack' :: x in stack || x == c;
  }

  lemma {:induction false} ReduceIsCanonical(rooted: bool, parts: seq<string>)
    requires forall c | c in parts :: '/' !in c
    ensures Canonical(rooted, Reduce(rooted, parts))
  {
    hide Canonical, Push;
    if parts != [] {
      ReduceIsCanonical(rooted, parts[..|parts| - 1]);
      PushKeepsCanonical(rooted, Reduce(rooted, parts[..|parts| - 1]), parts[|parts| - 1]);
    } else {
      NothingIsCanonical(rooted);
    }
  }

  lemma NothingIsCanonical(rooted: bool)
    ensures Canonical(rooted, [])
  {
  }

  /** The parts that stay as they are when there is no "..". */
  function Plain(parts: seq<string>): (kept: seq<string>) {
    if parts == [] then []
    else
      var before, c := Plain(parts[..|parts| - 1]), parts[|parts| - 1];
      if c == "" || c == "." then before else before + [c]
  }

  lemma {:induction false} ReduceBelow(rooted: bool, above: seq<string>, parts: seq<string>)
    requires ".." !in parts
    ensures Reduce(rooted, above + parts) == Reduce(rooted, above) + Plain(parts)
  {
    if parts == [] {
      assert above + parts == above;
    } else {
      var init, last := parts[..|parts| - 1], parts[|parts| - 1];
      ReduceBelow(rooted, above, init);
      assert (above + parts)[..|above + parts| - 1] == above + init;
      assert last in parts;
    }
  }

  lemma {:induction false} PlainOfProper(parts: seq<string>)
    requires forall c | c in parts :: Proper(c)
    ensures Plain(parts) == parts
  {
    if parts != [] {
      PlainOfProper(parts[..|parts| - 1]);
      assert parts[|parts| - 1] in parts;
    }
  }

  /** A canonical list is not reduced any further. */
  lemma {:induction false} ReduceFixed(rooted: bool, stack: seq<string>)
    requires Canonical(rooted, stack)
    ensures Reduce(rooted, stack) == stack
  {
    if stack != [] {
      var init, last := stack[..|stack| - 1], stack[|stack| - 1];
      ReduceFixed(rooted, init);
      assert Proper(last) && stack == init + [last];
      if last == ".." {
        assert init != [] ==> init[|init| - 1] == "..";
        assert !rooted;
      }
    }
  }

  lemma SplitOfPath(rooted: bool, stack: seq<string>)
    requires Canonical(rooted, stack)
    ensures Rooted(ToPath(rooted, stack)) == rooted && ToPath(rooted, stack) != ""
    ensures Text.Split(ToPath(rooted, stack), '/')
         == if stack == [] then (if rooted then ["", ""] else ["."]) else (if rooted then [""] else []) + stack
  {
    var body := Text.Join(stack, '/');
    if stack != [] {
      assert forall c | c in stack :: Proper(c);
      Text.SplitJoin(stack, '/');
      JoinStart(stack);
      if rooted {
        Text.SplitConcat("", body, '/');
        assert "" + ['/'] + body == "/" + body;
      }
    } else {
      Text.SplitNoSeparator(".", '/');
      Text.SplitConcat("", "", '/');
      assert "" + ['/'] + "" == "/";
    }
  }

  lemma JoinStart(stack: seq<string>)
    requires stack != [] && Proper(stack[0])
    ensures var body := Text.Join(stack, '/'); body != "" && body[0] != '/'
  {
    assert stack[0][0] in stack[0];
  }

  /** Cleaning a clean path changes nothing: the components come back as they were. */
  lemma ReducePath(rooted: bool, stack: seq<string>)
    requires Canonical(rooted, stack)
    ensures Reduce(rooted, Text.Split(ToPath(rooted, stack), '/')) == stack
  {
    hide Text.Split;
    SplitOfPath(rooted, stack);
    if stack == [] {
      assert Reduce(rooted, []) == [];
      assert ["", ""][..1] == [""] && [""][..0] == [] && ["."][..0] == [];
      assert Reduce(rooted, [""]) == [];
      assert Reduce(rooted, ["."]) == [];
    } else if rooted {
      ReduceFixed(rooted, stack);
      assert [""][..0] == [];
      assert Reduce(true, [""]) == [];
      ReduceBelow(true, [""], stack);
      PlainOfProper(stack);
    } else {
      ReduceFixed(rooted, stack);
      assert [] + stack == stack;
    }
  }

  lemma CleanIsCanonical(p: string)
    ensures var stack := if p == "" then [] else Reduce(Rooted(p), Text.Split(p, '/'));
      Canonical(Rooted(p), stack) && Clean(p) == ToPath(Rooted(p), stack)
  {
    if p != "" {
      ReduceIsCanonical(Rooted(p), Text.Split(p, '/'));
    } else {
      NothingIsCanonical(false);
    }
  }

  lemma CleanOfPath(rooted: bool, stack: seq<string>)
    requires Canonical(rooted, stack)
    ensures Clean(ToPath(rooted, stack)) == ToPath(rooted, stack)
  {
    hide ToPath, Canonical;
    SplitOfPath(rooted, stack);
    ReducePath(rooted, stack);
  }

  /** Cleaning is idempotent. */
  lemma CleanTwice(p: string)
    ensures Clean(Clean(p)) == Clean(p)
  {
    hide Clean, Canonical, ToPath;
    CleanIsCanonical(p);
    CleanOfPath(Rooted(p), if p == "" then [] else Reduce(Rooted(p), Text.Split(p, '/')));
  }

  /** A cleaned rooted path has no ".." component, whatever it was made from. */
  lemma RootedCleanHasNoDotDot(p: string)
    requires Rooted(p)
    ensures ".." !in Text.Split(Clean(p), '/')
  {
    hide Text.Split, ToPath;
    CleanIsCanonical(p);
    SplitOfPath(true, Reduce(true, Text.Split(p, '/')));
  }

  // ---------------------------------------------------------------- cleaning keeps the meaning

  /** Following components one by one from a directory, the parent of the root being the root. */
  function Walk(at: seq<string>, parts: seq<string>): (dest: seq<string>) {
    if parts == [] then at
    else
      var here, c := Walk(at, parts[..|parts| - 1]), parts[|parts| - 1];
      if c == "" || c == "." then here
      else if c != ".." then here + [c]
      else if here == [] then []
      else here[..|here| - 1]
  }

  /** The directory a path leads to from a working directory, given by its components. */
  function Target(at: seq<string>, p: string): (dest: seq<string>) {
    Walk(if Rooted(p) then [] else at, Text.Split(p, '/'))
  }

  lemma WalkOne(at: seq<string>, parts: seq<string>, c: string)
    ensures Walk(at, parts + [c])
         == var here := Walk(at, parts);
            if c == "" || c == "." then here else if c != ".." then here + [c]
            else if here == [] then [] else here[..|here| - 1]
  {
    assert (parts + [c])[..|parts|] == parts;
  }

  /** Pushing a component onto the reduced list is one step of the walk. */
  lemma WalkPush(rooted: bool, at: seq<string>, stack: seq<string>, c: string)
    requires rooted ==> at == []
    requires Canonical(rooted, stack)
    ensures Walk(at, Push(rooted, stack, c))
         == var here := Walk(at, stack);
            if c == "" || c == "." then here else if c != ".." then here + [c]
            else if here == [] then [] else here[..|here| - 1]
  {
    WalkOne(at, stack, c);
    if c == ".." {
      if stack != [] && stack[|stack| - 1] != ".." {
        var init, last := stack[..|stack| - 1], stack[|stack| - 1];
        assert Proper(last) && stack == init + [last];
        WalkOne(at, init, last);
      } else if rooted {
        assert stack == [];
      }
    }
  }

  lemma {:induction false} WalkReduced(rooted: bool, at: seq<string>, parts: seq<string>)
    requires rooted ==> at == []
    requires forall c | c in parts :: '/' !in c
    ensures Walk(at, Reduce(rooted, parts)) == Walk(at, parts)
  {
    hide Push, Canonical;
    if parts != [] {
      var init, last := parts[..|parts| - 1], parts[|parts| - 1];
      WalkReduced(rooted, at, init);
      ReduceIsCanonical(rooted, init);
      WalkPush(rooted, at, Reduce(rooted, init), last);
    }
  }

  lemma WalkOfPath(rooted: bool, at: seq<string>, stack: seq<string>)
    requires (rooted ==> at == []) && Canonical(rooted, stack)
    ensures Walk(at, Text.Split(ToPath(rooted, stack), '/')) == Walk(at, stack)
  {
    hide Canonical, ToPath;
    var parts := Text.Split(ToPath(rooted, stack), '/');
    ReducePath(rooted, stack);
    WalkReduced(rooted, at, parts);
  }

  /** From every working directory, a cleaned path leads exactly where the path itself leads. */
  lemma CleanKeepsTheTarget(at: seq<string>, p: string)
    ensures Target(at, Clean(p)) == Target(at, p)
  {
    hide Canonical, ToPath, Text.Split;
    var from := if Rooted(p) then [] else at;
    CleanIsCanonical(p);
    if p == "" {
      NothingIsCanonical(false);
      SplitOfPath(false, []);
      WalkOfPath(false, at, []);
      Text.SplitEmpty('/');
      WalkOne(at, [], "");
      assert [] + [""] == [""];
    } else {
      var stack := Reduce(Rooted(p), Text.Split(p, '/'));
      SplitOfPath(Rooted(p), stack);
      WalkOfPath(Rooted(p), from, stack);
      WalkReduced(Rooted(p), from, Text.Split(p, '/'));
    }
  }

  // ---------------------------------------------------------------- containment

  /** `p` is the directory or lies below it. */
  predicate Under(p: string, dir: string) { p == dir || dir + "/" <= p }

  lemma ToPathAppend(rooted: bool, dir: seq<string>, more: seq<string>)
    requires dir != []
    ensures ToPath(rooted, dir + more)
         == ToPath(rooted, dir) + (if more == [] then "" else "/" + Text.Join(more, '/'))
  {
    hide Text.Join;
    if more == [] {
      assert dir + more == dir;
    } else {
      Text.JoinConcat(dir, more, '/');
      var d, m := Text.Join(dir, '/'), Text.Join(more, '/');
      assert "/" + (d + ['/'] + m) == "/" + d + ("/" + m);
      assert d + ['/'] + m == d + ("/" + m);
    }
  }

  /** Joining a path without ".." to a clean directory appends its plain components and so stays under it. */
  lemma JoinBelow(rooted: bool, dir: seq<string>, extra: string)
    requires Canonical(rooted, dir) && dir != [] && ".." !in Text.Split(extra, '/')
    ensures Clean(ToPath(rooted, dir) + "/" + extra)
         == ToPath(rooted, dir) + (if Plain(Text.Split(extra, '/')) == [] then ""
                                   else "/" + Text.Join(Plain(Text.Split(extra, '/')), '/'))
  {
    hide Text.Split, Text.Join, Plain, Reduce, Canonical, ToPath;
    var base := ToPath(rooted, dir);
    SplitOfPath(rooted, dir);
    ReducePath(rooted, dir);
    Text.SplitConcat(base, extra, '/');
    assert base + ['/'] + extra == base + "/" + extra;
    assert Rooted(base + "/" + extra) == rooted;
    ReduceBelow(rooted, Text.Split(base, '/'), Text.Split(extra, '/'));
    ToPathAppend(rooted, dir, Plain(Text.Split(extra, '/')));
  }

  /** A directory named under some data directory is clean, has components and ends in the given names. */
  lemma NamedDirectory(dataDir: string, names: seq<string>) returns (rooted: bool, stack: seq<string>)
    requires names != [] && forall c | c in names :: Proper(c) && c != ".."
    ensures stack != [] && Canonical(rooted, stack)
    ensures JoinPath([dataDir] + names) == ToPath(rooted, stack)
  {
    hide ToPath, Canonical, Text.Split, Text.Join, Reduce;
    assert forall c | c in names :: '/' !in c;
    Text.SplitJoin(names, '/');
    PlainOfProper(names);
    var tail := Text.Join(names, '/');
    NamesStart(names);
    var p: string;
    if dataDir == "" {
      p := tail;
      assert ([dataDir] + names)[1..] == names;
      assert names[0] != "";
      rooted := Rooted(p);
      ReduceBelow(rooted, [], names);
      assert [] + names == names;
    } else {
      p := dataDir + "/" + tail;
      assert ([dataDir] + names)[0] == dataDir;
      NamesAfter(dataDir, names);
      rooted := Rooted(p);
      Text.SplitConcat(dataDir, tail, '/');
      assert dataDir + ['/'] + tail == p;
      ReduceBelow(rooted, Text.Split(dataDir, '/'), names);
    }
    CleanIsCanonical(p);
    stack := Reduce(rooted, Text.Split(p, '/'));
  }

  lemma NamesStart(names: seq<string>)
    requires names != [] && Proper(names[0])
    ensures Text.Join(names, '/') != ""
  {
  }

  lemma NamesAfter(dataDir: string, names: seq<string>)
    requires names != []
    ensures Text.Join([dataDir] + names, '/') == dataDir + "/" + Text.Join(names, '/')
  {
    assert ([dataDir] + names)[1..] == names;
  }
}
