/**
 The two callers that turn a name from outside into a path on disk:
 internal/api/handlers_fdroid.go and internal/androidupdate/manifest.go. Opening
 the file is left to them; what is proved is which path they would open. JSON is
 taken as parsed and the manifest's hashes as already trimmed and lower-cased.
 */
module FileServing {
  import opened Options
  import opened Paths
  import Text

  // ---------------------------------------------------------------- the F-Droid repository

  datatype Decision = BadRequest | NotFound | Serve(path: string)

  const FDROID_PREFIX := "/fdroid/repo/"

  function Relative(urlPath: string): (rel: string) {
    if FDROID_PREFIX <= urlPath then urlPath[|FDROID_PREFIX|..] else urlPath
  }

  function Cleaned(urlPath: string): (c: string) { Clean("/" + Relative(urlPath)) }

  lemma PrefixGoes(rel: string)
    ensures Relative("/fdroid/repo/" + rel) == rel
  {
    assert ("/fdroid/repo/" + rel)[|FDROID_PREFIX|..] == rel;
  }

  function RepoRoot(dataDir: string): (root: string) { JoinPath([dataDir, "fdroid", "repo"]) }

  /** A cleaned request path is "/" or a "/" before the request's own plain components. */
  lemma CleanedShape(urlPath: string) returns (stack: seq<string>)
    ensures Canonical(true, stack) && Cleaned(urlPath) == "/" + Text.Join(stack, '/')
    ensures (Cleaned(urlPath) == "/" <==> stack == []) && ".." !in Text.Split(Cleaned(urlPath), '/')
    ensures Plain(Text.Split(Cleaned(urlPath), '/')) == stack
  {
    var p := "/" + Relative(urlPath);
    CleanIsCanonical(p);
    RootedCleanHasNoDotDot(p);
    stack := Reduce(true, Text.Split(p, '/'));
    SplitOfPath(true, stack);
    if stack != [] {
      JoinStart(stack);
      PlainOfProper(stack);
      PlainAfterBlank(stack);
    } else {
      assert ["", ""][..1] == [""] && [""][..0] == [];
      assert Plain([""]) == [];
    }
  }

  lemma {:induction false} PlainAfterBlank(stack: seq<string>)
    ensures Plain([""] + stack) == Plain(stack)
  {
    if stack == [] {
      assert [""] + stack == [""] && [""][..0] == [];
    } else {
      PlainAfterBlank(stack[..|stack| - 1]);
      assert ([""] + stack)[..|stack|] == [""] + stack[..|stack| - 1];
    }
  }

  /** For every data directory and every request path, the joined path is the repository root with the cleaned path
      appended, so it never leaves the root. */
  lemma RepoPath(dataDir: string, urlPath: string)
    ensures JoinPath([RepoRoot(dataDir), Cleaned(urlPath)])
         == if Cleaned(urlPath) == "/" then RepoRoot(dataDir) else RepoRoot(dataDir) + Cleaned(urlPath)
    ensures Under(JoinPath([RepoRoot(dataDir), Cleaned(urlPath)]), RepoRoot(dataDir))
  {
    hide Clean, Plain, Text.Split, Canonical, ToPath;
    assert [dataDir] + ["fdroid", "repo"] == [dataDir, "fdroid", "repo"];
    var rooted, dir := NamedDirectory(dataDir, ["fdroid", "repo"]);
    var stack := CleanedShape(urlPath);
    var root, cleaned := RepoRoot(dataDir), Cleaned(urlPath);
    JoinBelow(rooted, dir, cleaned);
    SplitOfPath(rooted, dir);
    JoinTwo(root, cleaned);
  }

  lemma JoinTwo(a: string, b: string)
    requires a != ""
    ensures JoinPath([a, b]) == Clean(a + "/" + b)
  {
    assert [a, b][1..] == [b];
    assert Text.Join([a, b], '/') == a + "/" + b;
  }

  /** Below a clean data directory the two served directories are where one would look for them. */
  lemma ServedDirectories(rooted: bool, dir: seq<string>)
    requires Canonical(rooted, dir) && dir != []
    ensures RepoRoot(ToPath(rooted, dir)) == ToPath(rooted, dir) + "/fdroid/repo"
    ensures UpdatesDir(ToPath(rooted, dir)) == ToPath(rooted, dir) + "/android-updates"
  {
    hide Clean, Canonical, ToPath, Text.Join, Text.Split, Plain, JoinPath;
    var base := ToPath(rooted, dir);
    SplitOfPath(rooted, dir);
    NamesArePlain();
    JoinBelow(rooted, dir, "fdroid/repo");
    JoinBelow(rooted, dir, "android-updates");
    JoinNames(base);
    JoinTwo(base, "android-updates");
    assert base + ("/" + "fdroid/repo") == base + "/fdroid/repo";
    assert base + ("/" + "android-updates") == base + "/android-updates";
  }

  lemma NamesArePlain()
    ensures var parts := Text.Split("fdroid/repo", '/'); ".." !in parts && Plain(parts) == ["fdroid", "repo"]
    ensures var parts := Text.Split("android-updates", '/'); ".." !in parts && Plain(parts) == ["android-updates"]
  {
    hide Plain, Text.Split;
    Text.SplitNoSeparator("android-updates", '/');
    Text.SplitNoSeparator("fdroid", '/');
    Text.SplitNoSeparator("repo", '/');
    Text.SplitConcat("fdroid", "repo", '/');
    assert "fdroid" + ['/'] + "repo" == "fdroid/repo" && ["fdroid"] + ["repo"] == ["fdroid", "repo"];
    assert forall c | c in ["fdroid", "repo"] :: c == "fdroid" || c == "repo";
    PlainOfProper(["fdroid", "repo"]);
    PlainOfProper(["android-updates"]);
  }

  lemma JoinNames(a: string)
    requires a != ""
    ensures JoinPath([a, "fdroid", "repo"]) == Clean(a + "/" + "fdroid/repo")
    ensures Text.Join(["fdroid", "repo"], '/') == "fdroid/repo" && Text.Join(["android-updates"], '/') == "android-updates"
  {
    hide Clean;
    assert [a, "fdroid", "repo"][1..] == ["fdroid", "repo"] && ["fdroid", "repo"][1..] == ["repo"];
    assert Text.Join(["fdroid", "repo"], '/') == "fdroid" + ['/'] + "repo";
    assert Text.Join([a, "fdroid", "repo"], '/') == a + ['/'] + Text.Join(["fdroid", "repo"], '/');
    assert a + "/" + "fdroid/repo" == a + ['/'] + ("fdroid" + ['/'] + "repo");
  }

  /** The handler's decision. Neither of its two rejections is ever taken: only the bare root is refused, and every
      other request is answered from below the root. */
  method FdroidDecision(dataDir: string, urlPath: string) returns (d: Decision)
    ensures d == if Cleaned(urlPath) == "/" then NotFound else Serve(RepoRoot(dataDir) + Cleaned(urlPath))
    // the prefix of the route goes, and what follows it is cleaned from the root on
    ensures forall rel: string | urlPath == "/fdroid/repo/" + rel ::
              d == if Clean("/" + rel) == "/" then NotFound else Serve(RepoRoot(dataDir) + Clean("/" + rel))
  {
    forall rel: string | urlPath == "/fdroid/repo/" + rel ensures Cleaned(urlPath) == Clean("/" + rel) {
      PrefixGoes(rel);
    }
    hide Clean, Text.Split, JoinPath;
    var cleaned := Cleaned(urlPath);
    var parts := Text.Split(cleaned, '/');
    ghost var stack := CleanedShape(urlPath);
    for i := 0 to |parts| {
      if parts[i] == ".." {
        return BadRequest;
      }
    }
    if cleaned == "/" {
      return NotFound;
    }
    var root := RepoRoot(dataDir);
    var full := JoinPath([root, cleaned]);
    RepoPath(dataDir, urlPath);
    if full != root && !(root + "/" <= full) {
      return BadRequest;
    }
    return Serve(full);
  }

  // ---------------------------------------------------------------- the update catalogue

  datatype Artifact = Artifact(kind: string, file: string, size: int, sha: string, fromSha: string)
  datatype Manifest = Manifest(schema: int, latestSha: string, full: Artifact, patches: seq<Artifact>)

  function UpdatesDir(dataDir: string): (dir: string) { JoinPath([dataDir, "android-updates"]) }

  /** caminhoRelativoSeguro accepts. */
  predicate SafeRelative(p: string) {
    p != "" && !Rooted(p) && Clean(p) == p && p != ".." && !("../" <= p)
  }

  /** The accepted names are exactly the canonical relative paths without any "..". */
  lemma SafeRelativeIff(p: string)
    ensures SafeRelative(p) <==> exists stack :: Canonical(false, stack) && ".." !in stack && p == ToPath(false, stack)
  {
    hide Clean, ToPath, Text.Split;
    if SafeRelative(p) {
      CleanIsCanonical(p);
      var stack := Reduce(false, Text.Split(p, '/'));
      NoLeadingDotDot(stack);
      assert Canonical(false, stack) && ".." !in stack && p == ToPath(false, stack);
    }
    if stack: seq<string> :| Canonical(false, stack) && ".." !in stack && p == ToPath(false, stack) {
      SplitOfPath(false, stack);
      CleanOfPath(false, stack);
      NoLeadingDotDot(stack);
    }
  }

  /** A canonical relative path climbs exactly if it starts with "..". */
  lemma NoLeadingDotDot(stack: seq<string>)
    requires Canonical(false, stack)
    ensures ".." !in stack <==> ToPath(false, stack) != ".." && !("../" <= ToPath(false, stack))
  {
    if stack != [] {
      var p, first := ToPath(false, stack), stack[0];
      assert Proper(first);
      assert ".." in stack ==> first == "..";
      if first == ".." {
        if |stack| > 1 {
          assert p[..3] == "../";
        }
      } else {
        FirstComponent(stack);
      }
    }
  }

  lemma FirstComponent(stack: seq<string>)
    requires stack != [] && Proper(stack[0]) && stack[0] != ".."
    ensures Text.Join(stack, '/') != ".." && !("../" <= Text.Join(stack, '/'))
  {
    var p, first := Text.Join(stack, '/'), stack[0];
    assert first <= p;
    if |first| == 1 && |stack| > 1 {
      assert p[1] == '/';
    } else if |first| == 2 && |stack| > 1 {
      assert p[..2] == first;
    } else if |first| > 2 {
      assert p[..3] == first[..3];
      assert first[2] in first;
    } else if |stack| == 1 {
      assert p == first;
    }
  }

  /** Every accepted name joins to the updates directory itself or to a path below it. */
  lemma SafeRelativeStaysInside(dataDir: string, p: string)
    requires SafeRelative(p)
    ensures JoinPath([UpdatesDir(dataDir), p]) == if p == "." then UpdatesDir(dataDir) else UpdatesDir(dataDir) + "/" + p
    ensures Under(JoinPath([UpdatesDir(dataDir), p]), UpdatesDir(dataDir))
  {
    hide Clean, Plain, Text.Split, Text.Join, Canonical, JoinPath;
    SafeRelativeIff(p);
    var stack :| Canonical(false, stack) && ".." !in stack && p == ToPath(false, stack);
    assert [dataDir] + ["android-updates"] == [dataDir, "android-updates"];
    var rooted, dir := NamedDirectory(dataDir, ["android-updates"]);
    SplitOfPath(false, stack);
    SplitOfPath(rooted, dir);
    PlainOfPath(stack);
    NoSingleDot(stack);
    assert [] + stack == stack;
    JoinBelow(rooted, dir, p);
    JoinTwo(UpdatesDir(dataDir), p);
  }

  lemma PlainOfPath(stack: seq<string>)
    requires Canonical(false, stack)
    ensures Plain(stack) == stack && Plain(["."]) == []
  {
    PlainOfProper(stack);
    assert ["."][..0] == [];
  }

  lemma NoSingleDot(stack: seq<string>)
    requires Canonical(false, stack)
    ensures ToPath(false, stack) == "." <==> stack == []
  {
    if stack != [] {
      SplitOfPath(false, stack);
      Text.SplitNoSeparator(".", '/');
      assert Proper(stack[0]);
      assert [] + stack == stack;
    }
  }

  predicate ValidArtifact(a: Artifact, kind: string) {
    a.kind == kind && SafeRelative(a.file) && |a.sha| == 64 && a.size > 0
  }

  predicate ValidPatch(a: Artifact) { ValidArtifact(a, "patch") && |a.fromSha| == 64 }

  predicate Loads(m: Manifest) {
    m.schema == 1 && |m.latestSha| == 64 && ValidArtifact(m.full, "full") && forall a | a in m.patches :: ValidPatch(a)
  }

  datatype Source = NoFile | Unreadable | Malformed | Parsed(m: Manifest)

  /** A manifest is served if and only if it parses and every part of it is valid. */
  method Load(s: Source) returns (r: Option<Manifest>)
    ensures r == if s.Parsed? && Loads(s.m) then Some(s.m) else None
    ensures r.Some? <==>
      && s.Parsed? && s.m.schema == 1 && |s.m.latestSha| == 64
      && s.m.full.kind == "full" && SafeRelative(s.m.full.file) && |s.m.full.sha| == 64 && s.m.full.size > 0
      && (forall a | a in s.m.patches ::
            && a.kind == "patch" && SafeRelative(a.file) && |a.sha| == 64 && a.size > 0 && |a.fromSha| == 64)
  {
    hide SafeRelative;
    if !s.Parsed? { return None; }
    var m := s.m;
    if m.schema != 1 || |m.latestSha| != 64 { return None; }
    if !ValidArtifact(m.full, "full") { return None; }
    for i := 0 to |m.patches|
      invariant forall j | 0 <= j < i :: ValidPatch(m.patches[j])
    {
      if !ValidPatch(m.patches[i]) { return None; }
    }
    return Some(m);
  }

  predicate Declares(m: Manifest, a: Artifact) { a == m.full || a in m.patches }

  method ArtifactByFile(m: Manifest, file: string) returns (r: Option<Artifact>)
    ensures r.Some? <==> file != "" && exists a :: Declares(m, a) && a.file == file
    ensures r.Some? ==> Declares(m, r.value) && r.value.file == file
    // the full image first, then the first patch of that name
    ensures file != "" && m.full.file == file ==> r == Some(m.full)
    ensures forall k | 0 <= k < |m.patches| && m.patches[k].file == file != "" && m.full.file != file
                     && (forall j | 0 <= j < k :: m.patches[j].file != file) :: r == Some(m.patches[k])
  {
    if file == "" { return None; }
    if m.full.file == file {
      assert Declares(m, m.full);
      return Some(m.full);
    }
    for i := 0 to |m.patches|
      invariant forall j | 0 <= j < i :: m.patches[j].file != file
    {
      if m.patches[i].file == file {
        assert Declares(m, m.patches[i]);
        return Some(m.patches[i]);
      }
    }
    return None;
  }

  /** A name from the network is opened only if a valid catalogue declares it, and then inside the updates directory. */
  method OpenArtifact(dataDir: string, s: Source, file: string) returns (path: Option<string>)
    ensures path.Some? <==> s.Parsed? && Loads(s.m) && file != "" && exists a :: Declares(s.m, a) && a.file == file
    ensures path.Some? ==> Under(path.value, UpdatesDir(dataDir))
                           && path.value == if file == "." then UpdatesDir(dataDir) else UpdatesDir(dataDir) + "/" + file
  {
    hide SafeRelative, JoinPath, Under;
    var m := Load(s);
    if m.None? { return None; }
    var art := ArtifactByFile(m.value, file);
    if art.None? { return None; }
    assert ValidArtifact(art.value, "full") || ValidPatch(art.value);
    SafeRelativeStaysInside(dataDir, art.value.file);
    return Some(JoinPath([UpdatesDir(dataDir), art.value.file]));
  }
}
