/**
 scripts/check-docs-structure.py: the stack machine behind the documentation
 check, against a definition over the document tree. Tokenising HTML into tag and
 text events is the work of Python's html.parser and is taken as done; a missing
 id or class attribute is the empty string.
 */
module DocStructure {
  import Text

  const VOID := {"area", "base", "br", "col", "embed", "hr", "img", "input",
                 "link", "meta", "param", "source", "track", "wbr"}
  const CONTAINER_ID := "main-content"

  /** The white space Python's str.strip and str.split cut at. */
  predicate IsPySpace(c: char) {
    Text.IsSpace(c) || '\U{001C}' <= c <= '\U{001F}'
  }

  /** Python counts the four separator controls as white space as well. */
  lemma PySpaces(c: char)
    ensures IsPySpace(c) <==> Text.IsSpace(c) || c in "\U{001C}\U{001D}\U{001E}\U{001F}"
  {
    var more := "\U{001C}\U{001D}\U{001E}\U{001F}";
    assert more[0] == '\U{001C}' && more[1] == '\U{001D}' && more[2] == '\U{001E}' && more[3] == '\U{001F}';
  }

  function Strip(s: string): (t: string) { Text.Trim(s, IsPySpace) }

  /** Stripping cuts white space at both ends and nothing else; nothing is left exactly of blank text. */
  lemma StripExactly(s: string) returns (a: string, b: string)
    ensures s == a + Strip(s) + b && (forall c | c in a :: IsPySpace(c)) && (forall c | c in b :: IsPySpace(c))
    ensures Strip(s) != "" ==> !IsPySpace(Strip(s)[0]) && !IsPySpace(Strip(s)[|Strip(s)| - 1])
    ensures Strip(s) == "" <==> forall c | c in s :: IsPySpace(c)
  {
    a, b := Text.TrimParts(s, IsPySpace);
  }

  /** What a report shows of a text: its first 60 characters. */
  function Excerpt(t: string): (e: string)
    ensures e <= t && |e| == if |t| <= 60 then |t| else 60
  {
    if |t| > 60 then t[..60] else t
  }

  /** The elements without content of section 13.1.2 of the WHATWG HTML Living Standard. */
  const STANDARD_VOID := ["area", "base", "br", "col", "embed", "hr", "img", "input", "link", "meta", "source", "track", "wbr"]

  /** The checker passes over these and the obsolete "param". */
  lemma VoidIsTheStandard(tag: string)
    ensures tag in VOID <==> tag in STANDARD_VOID || tag == "param"
  {
    assert STANDARD_VOID == ["area", "base", "br", "col", "embed", "hr", "img", "input", "link", "meta", "source", "track", "wbr"];
  }

  function WordLength(s: string): (n: nat)
    ensures n <= |s|
    ensures forall i | 0 <= i < n :: !IsPySpace(s[i])
    ensures n < |s| ==> IsPySpace(s[n])
  {
    if s == "" || IsPySpace(s[0]) then 0 else 1 + WordLength(s[1..])
  }

  /** str.split(): the maximal runs without white space. */
  function Words(s: string): (words: seq<string>)
    decreases |s|
  {
    if s == "" then []
    else if IsPySpace(s[0]) then Words(s[1..])
    else [s[..WordLength(s)]] + Words(s[WordLength(s)..])
  }

  /** `w` stands in `s` at `i` as a whole word, between white space or the ends. */
  predicate WordAt(s: string, i: int, w: string) {
    && Text.At(s, i, w) && w != "" && (forall c | c in w :: !IsPySpace(c))
    && (i == 0 || IsPySpace(s[i - 1])) && (i + |w| == |s| || IsPySpace(s[i + |w|]))
  }

  ghost predicate HasWord(s: string, w: string) {
    exists i :: 0 <= i <= |s| && WordAt(s, i, w)
  }

  /** A word further on in a text is a word of the rest, and the other way round, past any cut at white space. */
  lemma WordInRest(s: string, n: nat, i: nat, w: string)
    requires n <= |s| && n <= i && (i == n ==> n == 0 || IsPySpace(s[n - 1]))
    ensures WordAt(s, i, w) <==> WordAt(s[n..], i - n, w)
  {
    hide IsPySpace;
    if i + |w| <= |s| {
      assert s[n..][i - n..i - n + |w|] == s[i..i + |w|];
    }
  }

  /** The first word is the only one that starts at the beginning. */
  lemma FirstWord(s: string, w: string)
    requires s != "" && !IsPySpace(s[0])
    ensures WordAt(s, 0, w) <==> w == s[..WordLength(s)]
  {
    hide IsPySpace;
    var n := WordLength(s);
    assert n > 0;
    assert s[0..n] == s[..n];
    assert |w| < n ==> !IsPySpace(s[|w|]);
    if n < |w| <= |s| && w == s[..|w|] {
      assert w[n] == s[n] && w[n] in w;
    }
  }

  lemma NoWordInside(s: string, i: nat, w: string)
    requires 0 < i <= WordLength(s)
    ensures !WordAt(s, i, w)
  {
    hide IsPySpace;
    assert !IsPySpace(s[i - 1]);
  }

  /** Splitting at white space yields exactly the words that stand in the text. */
  lemma {:induction false} WordsExact(s: string, w: string)
    ensures w in Words(s) <==> HasWord(s, w)
    decreases |s|
  {
    hide IsPySpace, WordAt, WordLength;
    if s == "" {
      NoWordInNothing(w);
    } else if IsPySpace(s[0]) {
      WordsExact(s[1..], w);
      CutWords(s, 1, w);
      NoWordAtSpace(s, w);
    } else {
      var n := WordLength(s);
      WordLengthPositive(s);
      WordsExact(s[n..], w);
      CutWords(s, n, w);
      FirstWord(s, w);
    }
  }

  lemma WordLengthPositive(s: string)
    requires s != "" && !IsPySpace(s[0])
    ensures WordLength(s) > 0
  {
  }

  lemma NoWordInNothing(w: string)
    ensures !HasWord("", w)
  {
  }

  lemma NoWordAtSpace(s: string, w: string)
    requires s != "" && IsPySpace(s[0])
    ensures !WordAt(s, 0, w)
  {
    hide IsPySpace;
    if w != "" && |w| <= |s| {
      assert s[0..|w|][0] == s[0] && w[0] in w;
    }
  }

  /** The words of the rest, after a leading space or the first word, are the words that do not start the text. */
  lemma CutWords(s: string, n: nat, w: string)
    requires s != "" && 0 < n <= |s|
    requires if IsPySpace(s[0]) then n == 1 else n == WordLength(s)
    ensures HasWord(s, w) <==> WordAt(s, 0, w) || HasWord(s[n..], w)
  {
    hide IsPySpace, WordLength, WordAt;
    forall i: nat | 0 < i <= |s| && WordAt(s, i, w) ensures HasWord(s[n..], w) {
      if i < n || (i == n && !IsPySpace(s[0])) {
        NoWordInside(s, i, w);
      } else {
        WordInRest(s, n, i, w);
        assert WordAt(s[n..], i - n, w);
      }
    }
    forall j: nat | j <= |s| - n && WordAt(s[n..], j, w) ensures HasWord(s, w) {
      if j == 0 && !IsPySpace(s[0]) {
        RestStartsWithSpace(s, n, w);
      } else {
        WordInRest(s, n, n + j, w);
        assert WordAt(s, n + j, w);
      }
    }
  }

  lemma RestStartsWithSpace(s: string, n: nat, w: string)
    requires s != "" && n == WordLength(s)
    ensures !WordAt(s[n..], 0, w)
  {
    if n < |s| {
      NoWordAtSpace(s[n..], w);
    }
  }

  predicate HasPageClass(cls: string) { "page" in Words(cls) }

  // ---------------------------------------------------------------- the machine

  datatype Open = Open(tag: string, id: string, cls: string, line: int)
  datatype Page = Page(id: string, openLine: int, closeLine: int)
  datatype Leak = LooseTag(line: int, tag: string, cls: string) | LooseText(line: int, text: string)
  datatype Event =
    | Start(tag: string, id: string, cls: string, line: int)
    | End(tag: string, line: int)
    | Data(text: string, line: int)

  datatype Doc = Doc(stack: seq<Open>, pages: seq<Page>, leaks: seq<Leak>)

  const EMPTY := Doc([], [], [])

  predicate InContainer(stack: seq<Open>) {
    stack != [] && stack[|stack| - 1].id == CONTAINER_ID
  }

  predicate IsOpenPage(el: Open) { el.tag == "div" && HasPageClass(el.cls) }

  function OnStart(d: Doc, tag: string, id: string, cls: string, line: int): (d': Doc) {
    if tag in VOID then d
    else d.(stack := d.stack + [Open(tag, id, cls, line)],
            leaks := if InContainer(d.stack) && !HasPageClass(cls) then d.leaks + [LooseTag(line, tag, cls)] else d.leaks)
  }

  /** The index of the innermost open element with this tag, or -1. */
  function Innermost(stack: seq<Open>, tag: string): (i: int)
    ensures -1 <= i < |stack|
    ensures i >= 0 ==> stack[i].tag == tag
    ensures forall j | i < j < |stack| :: stack[j].tag != tag
  {
    if stack == [] then -1
    else if stack[|stack| - 1].tag == tag then |stack| - 1
    else Innermost(stack[..|stack| - 1], tag)
  }

  /** The pages among elements that close together at `line`, outermost first. */
  function ClosedPages(els: seq<Open>, line: int): (pages: seq<Page>) {
    if els == [] then []
    else
      var el, before := els[|els| - 1], ClosedPages(els[..|els| - 1], line);
      if IsOpenPage(el) then before + [Page(el.id, el.line, line)] else before
  }

  function OnEnd(d: Doc, tag: string, line: int): (d': Doc) {
    var i := Innermost(d.stack, tag);
    if tag in VOID || i < 0 then d
    else d.(stack := d.stack[..i], pages := d.pages + ClosedPages(d.stack[i..], line))
  }

  function OnData(d: Doc, text: string, line: int): (d': Doc) {
    var t := Strip(text);
    if t != "" && InContainer(d.stack)
    then d.(leaks := d.leaks + [LooseText(line, Excerpt(t))])
    else d
  }

  function Step(d: Doc, e: Event): (d': Doc) {
    match e
    case Start(tag, id, cls, line) => OnStart(d, tag, id, cls, line)
    case End(tag, line) => OnEnd(d, tag, line)
    case Data(text, line) => OnData(d, text, line)
  }

  function Run(d: Doc, events: seq<Event>): (d': Doc) {
    if events == [] then d else Step(Run(d, events[..|events| - 1]), events[|events| - 1])
  }

  /** The elements whose missing end tag is reported. */
  predicate IsBlock(tag: string) { tag == "div" || tag == "section" || tag == "table" }

  /** No problem is reported: there is a page, nothing is loose and no block element was left open. */
  predicate Passes(d: Doc) {
    && d.pages != []
    && d.leaks == []
    && forall el | el in d.stack :: !IsBlock(el.tag)
  }

  class Checker {
    var stack: seq<Open>
    var pages: seq<Page>
    var leaks: seq<Leak>

    ghost function View(): (d: Doc)
      reads this
    {
      Doc(stack, pages, leaks)
    }

    constructor ()
      ensures View() == EMPTY
    {
      stack, pages, leaks := [], [], [];
    }

    method HandleStart(tag: string, id: string, cls: string, line: int)
      modifies this
      ensures View() == OnStart(old(View()), tag, id, cls, line)
    {
      if tag in VOID { return; }
      stack := stack + [Open(tag, id, cls, line)];
      if |stack| >= 2 && stack[|stack| - 2].id == CONTAINER_ID && !HasPageClass(cls) {
        leaks := leaks + [LooseTag(line, tag, cls)];
      }
    }

    method HandleEnd(tag: string, line: int)
      modifies this
      ensures View() == OnEnd(old(View()), tag, line)
    {
      if tag in VOID { return; }
      var i := |stack| - 1;
      while i >= 0 && stack[i].tag != tag
        invariant -1 <= i < |stack|
        invariant forall j | i < j < |stack| :: stack[j].tag != tag
      {
        i := i - 1;
      }
      if i < 0 { return; }
      RecordPages(i, line);
      stack := stack[..i];
    }

    method RecordPages(i: nat, line: int)
      requires i <= |stack|
      modifies this
      ensures stack == old(stack) && leaks == old(leaks)
      ensures pages == old(pages) + ClosedPages(stack[i..], line)
    {
      hide IsOpenPage;
      var els := stack[i..];
      for k := 0 to |els|
        invariant stack == old(stack) && leaks == old(leaks)
        invariant pages == old(pages) + ClosedPages(els[..k], line)
      {
        assert els[..k + 1][..k] == els[..k];
        if IsOpenPage(els[k]) {
          pages := pages + [Page(els[k].id, els[k].line, line)];
        }
      }
      assert els[..|els|] == els;
    }

    method HandleData(text: string, line: int)
      modifies this
      ensures View() == OnData(old(View()), text, line)
    {
      var t := Strip(text);
      if t != "" && stack != [] && stack[|stack| - 1].id == CONTAINER_ID {
        leaks := leaks + [LooseText(line, Excerpt(t))];
      }
    }

    method Feed(events: seq<Event>)
      modifies this
      ensures View() == Run(old(View()), events)
    {
      for i := 0 to |events|
        invariant View() == Run(old(View()), events[..i])
      {
        assert events[..i + 1][..i] == events[..i];
        match events[i] {
          case Start(tag, id, cls, line) => HandleStart(tag, id, cls, line);
          case End(tag, line) => HandleEnd(tag, line);
          case Data(text, line) => HandleData(text, line);
        }
      }
      assert events[..|events|] == events;
    }
  }

  method Check(events: seq<Event>) returns (ok: bool)
    ensures ok == Passes(Run(EMPTY, events))
    ensures var d := Run(EMPTY, events);
      ok <==> d.pages != [] && d.leaks == [] && forall el | el in d.stack :: el.tag !in ["div", "section", "table"]
  {
    hide Run;
    var p := new Checker();
    p.Feed(events);
    ok := p.pages != [] && p.leaks == [];
    var stack := p.stack;
    for i := 0 to |stack|
      invariant ok == (p.pages != [] && p.leaks == [] && forall j | 0 <= j < i :: !IsBlock(stack[j].tag))
    {
      ok := ok && !IsBlock(stack[i].tag);
    }
  }

  lemma {:induction false} RunConcat(d: Doc, a: seq<Event>, b: seq<Event>)
    ensures Run(d, a + b) == Run(Run(d, a), b)
  {
    if b == [] {
      assert a + b == a;
    } else {
      RunConcat(d, a, b[..|b| - 1]);
      assert (a + b)[..|a + b| - 1] == a + b[..|b| - 1];
    }
  }

  lemma RunOne(d: Doc, e: Event)
    ensures Run(d, [e]) == Step(d, e)
  {
    assert [e][..0] == [];
    assert Run(d, []) == d;
  }

  // ---------------------------------------------------------------- documents as trees

  datatype Node =
    | Element(tag: string, id: string, cls: string, openLine: int, closeLine: int, children: seq<Node>)
    | Void(tag: string, id: string, cls: string, line: int)
    | Chars(text: string, line: int)

  /** Elements with content have tags that take an end tag, empty ones do not. */
  ghost predicate WellFormed(ns: seq<Node>) {
    ns != [] ==>
      && (ns[0].Element? ==> ns[0].tag !in VOID && WellFormed(ns[0].children))
      && (ns[0].Void? ==> ns[0].tag in VOID)
      && WellFormed(ns[1..])
  }

  /** The events of a well-nested document, in document order. */
  function Events(ns: seq<Node>): (es: seq<Event>) {
    if ns == [] then [] else NodeEvents(ns[0]) + Events(ns[1..])
  }

  function NodeEvents(n: Node): (es: seq<Event>) {
    match n
    case Element(tag, id, cls, openLine, closeLine, children) =>
      [Start(tag, id, cls, openLine)] + Events(children) + [End(tag, closeLine)]
    case Void(tag, id, cls, line) => [Start(tag, id, cls, line)]
    case Chars(text, line) => [Data(text, line)]
  }

  predicate IsPage(n: Node) { n.Element? && n.tag == "div" && HasPageClass(n.cls) }
  predicate IsContainer(n: Node) { n.Element? && n.id == CONTAINER_ID }

  /** What may stand directly in the container: pages, void elements and blank text. */
  predicate Allowed(n: Node) {
    match n
    case Element(_, _, cls, _, _, _) => HasPageClass(cls)
    case Void(_, _, _, _) => true
    case Chars(text, _) => Strip(text) == ""
  }

  function LeakOf(n: Node): (l: Leak)
    requires !Allowed(n)
  {
    match n
    case Element(tag, _, cls, openLine, _, _) => LooseTag(openLine, tag, cls)
    case Chars(text, line) => var t := Strip(text); LooseText(line, Excerpt(t))
  }

  /** Everything that stands directly in a container without being allowed there, in document order. */
  function LeaksIn(ns: seq<Node>, inContainer: bool): (leaks: seq<Leak>) {
    if ns == [] then [] else NodeLeaks(ns[0], inContainer) + LeaksIn(ns[1..], inContainer)
  }

  function NodeLeaks(n: Node, inContainer: bool): (leaks: seq<Leak>) {
    (if inContainer && !Allowed(n) then [LeakOf(n)] else [])
    + (if n.Element? then LeaksIn(n.children, n.id == CONTAINER_ID) else [])
  }

  /** The pages, in the order they close. */
  function PagesIn(ns: seq<Node>): (pages: seq<Page>) {
    if ns == [] then [] else NodePages(ns[0]) + PagesIn(ns[1..])
  }

  function NodePages(n: Node): (pages: seq<Page>) {
    (if n.Element? then PagesIn(n.children) else [])
    + (if IsPage(n) then [Page(n.id, n.openLine, n.closeLine)] else [])
  }

  // ---------------------------------------------------------------- the machine computes the tree definition

  lemma CloseTop(stack: seq<Open>, el: Open, pages: seq<Page>, leaks: seq<Leak>, line: int)
    requires el.tag !in VOID
    ensures OnEnd(Doc(stack + [el], pages, leaks), el.tag, line)
         == Doc(stack, pages + (if IsOpenPage(el) then [Page(el.id, el.line, line)] else []), leaks)
  {
    var all := stack + [el];
    assert all[|stack|..] == [el] && all[..|stack|] == stack;
    assert [el][..0] == [];
    assert ClosedPages([el], line) == if IsOpenPage(el) then [Page(el.id, el.line, line)] else [];
  }

  ghost function Expected(d: Doc, ns: seq<Node>): (d': Doc) {
    Doc(d.stack, d.pages + PagesIn(ns), d.leaks + LeaksIn(ns, InContainer(d.stack)))
  }

  lemma OpenElement(d: Doc, n: Node)
    requires n.Element? && n.tag !in VOID
    ensures Run(d, [Start(n.tag, n.id, n.cls, n.openLine)])
         == Doc(d.stack + [Open(n.tag, n.id, n.cls, n.openLine)], d.pages,
                d.leaks + (if InContainer(d.stack) && !Allowed(n) then [LeakOf(n)] else []))
  {
    RunOne(d, Start(n.tag, n.id, n.cls, n.openLine));
  }

  /** One element, given that its children are read as expected. */
  lemma ReadElement(d: Doc, n: Node, d1: Doc)
    requires n.Element? && n.tag !in VOID
    requires d1 == Run(d, [Start(n.tag, n.id, n.cls, n.openLine)])
    requires Run(d1, Events(n.children)) == Expected(d1, n.children)
    ensures Run(d, NodeEvents(n)) == AfterNode(d, n)
  {
    hide HasPageClass, Strip, Run, Events, PagesIn, LeaksIn, OnEnd;
    var start, end := Start(n.tag, n.id, n.cls, n.openLine), End(n.tag, n.closeLine);
    OpenElement(d, n);
    RunConcat(d, [start], Events(n.children));
    var d2 := Expected(d1, n.children);
    RunConcat(d, [start] + Events(n.children), [end]);
    RunOne(d2, end);
    CloseTop(d.stack, Open(n.tag, n.id, n.cls, n.openLine), d2.pages, d2.leaks, n.closeLine);
  }

  ghost function AfterNode(d: Doc, n: Node): (d': Doc) {
    Doc(d.stack, d.pages + NodePages(n), d.leaks + NodeLeaks(n, InContainer(d.stack)))
  }

  lemma {:induction false} ReadNode(d: Doc, n: Node)
    requires n.Element? ==> n.tag !in VOID && WellFormed(n.children)
    requires n.Void? ==> n.tag in VOID
    ensures Run(d, NodeEvents(n)) == AfterNode(d, n)
    decreases n
  {
    hide HasPageClass, Strip, Run, Events, PagesIn, LeaksIn;
    match n {
      case Element(tag, id, cls, openLine, closeLine, children) =>
        var d1 := Run(d, [Start(tag, id, cls, openLine)]);
        WellNested(d1, children);
        ReadElement(d, n, d1);
      case Void(tag, id, cls, line) =>
        RunOne(d, Start(tag, id, cls, line));
      case Chars(text, line) =>
        RunOne(d, Data(text, line));
    }
  }

  /** Reading a well-nested document leaves the stack as it was, reports exactly the loose content of containers
      in document order and records exactly the pages in closing order. */
  lemma {:induction false} WellNested(d: Doc, ns: seq<Node>)
    requires WellFormed(ns)
    ensures Run(d, Events(ns)) == Expected(d, ns)
    decreases ns
  {
    hide Run, NodeEvents, NodePages, NodeLeaks;
    if ns != [] {
      var n, rest := ns[0], ns[1..];
      ReadNode(d, n);
      RunConcat(d, NodeEvents(n), Events(rest));
      WellNested(AfterNode(d, n), rest);
    } else {
      RunNothing(d);
    }
  }

  lemma RunNothing(d: Doc)
    ensures Run(d, []) == d
  {
  }

  // ---------------------------------------------------------------- the verdict

  /** `n` is a node of the forest, at any depth. */
  ghost predicate Occurs(n: Node, ns: seq<Node>) {
    && ns != []
    && (n == ns[0] || (ns[0].Element? && Occurs(n, ns[0].children)) || Occurs(n, ns[1..]))
  }

  lemma {:induction false} NoLeaksIff(ns: seq<Node>, inContainer: bool)
    ensures LeaksIn(ns, inContainer) == [] <==>
              && (inContainer ==> forall x | x in ns :: Allowed(x))
              && (forall c, x | Occurs(c, ns) && IsContainer(c) && x in c.children :: Allowed(x))
    decreases ns
  {
    hide Allowed, LeakOf;
    if ns != [] {
      var n, rest := ns[0], ns[1..];
      NoLeaksIff(rest, inContainer);
      if n.Element? {
        NoLeaksIff(n.children, n.id == CONTAINER_ID);
      }
      assert forall x :: x in ns <==> x == n || x in rest;
      assert forall c :: Occurs(c, ns) <==> c == n || (n.Element? && Occurs(c, n.children)) || Occurs(c, rest);
    }
  }

  lemma {:induction false} SomePageIff(ns: seq<Node>)
    ensures PagesIn(ns) != [] <==> exists p :: Occurs(p, ns) && IsPage(p)
    decreases ns
  {
    hide HasPageClass;
    if ns != [] {
      SomePageIff(ns[1..]);
      if ns[0].Element? {
        SomePageIff(ns[0].children);
      }
      assert forall c :: Occurs(c, ns) <==> c == ns[0] || (ns[0].Element? && Occurs(c, ns[0].children)) || Occurs(c, ns[1..]);
      if IsPage(ns[0]) {
        assert Occurs(ns[0], ns);
      }
    }
  }

  /** What may stand in the container, in the document's own terms: an element with the word "page" among its classes,
      a void element, or text made of white space. */
  ghost predicate Belongs(n: Node) {
    match n
    case Element(_, _, cls, _, _, _) => HasWord(cls, "page")
    case Void(_, _, _, _) => true
    case Chars(text, _) => forall c | c in text :: IsPySpace(c)
  }

  lemma AllowedIff(n: Node)
    ensures Allowed(n) <==> Belongs(n)
  {
    hide Strip, Words, HasWord, IsPySpace;
    match n {
      case Element(_, _, cls, _, _, _) => WordsExact(cls, "page");
      case Void(_, _, _, _) =>
      case Chars(text, _) => var _, _ := StripExactly(text);
    }
  }

  /** What counts as a page: a div with the word "page" among its classes. */
  lemma PageIff(n: Node)
    ensures IsPage(n) <==> n.Element? && n.tag == "div" && HasWord(n.cls, "page")
  {
    hide Words, HasWord;
    if n.Element? {
      WordsExact(n.cls, "page");
    }
  }

  /** A well-nested document passes if and only if somewhere in the tree there is a div with the class "page", and every
      child of every element with the id "main-content", anywhere in the tree, belongs there. */
  lemma PassesIff(ns: seq<Node>)
    requires WellFormed(ns)
    ensures Passes(Run(EMPTY, Events(ns))) <==>
      && (exists p :: Occurs(p, ns) && p.Element? && p.tag == "div" && HasWord(p.cls, "page"))
      && (forall c, x | Occurs(c, ns) && c.Element? && c.id == "main-content" && x in c.children :: Belongs(x))
  {
    hide Allowed, IsPage, Occurs, HasWord, Belongs;
    WellNested(EMPTY, ns);
    NoLeaksIff(ns, false);
    SomePageIff(ns);
    forall n ensures IsPage(n) <==> n.Element? && n.tag == "div" && HasWord(n.cls, "page") { PageIff(n); }
    forall n ensures Allowed(n) <==> Belongs(n) { AllowedIff(n); }
  }

  // ---------------------------------------------------------------- any events, well nested or not

  function OpenPages(els: seq<Open>): (n: nat) {
    if els == [] then 0 else OpenPages(els[..|els| - 1]) + (if IsOpenPage(els[|els| - 1]) then 1 else 0)
  }

  function PageStarts(events: seq<Event>): (n: nat) {
    if events == [] then 0
    else
      var e := events[|events| - 1];
      PageStarts(events[..|events| - 1]) + (if e.Start? && e.tag == "div" && HasPageClass(e.cls) then 1 else 0)
  }

  lemma {:induction false} OpenPagesSplit(els: seq<Open>, i: nat, line: int)
    requires i <= |els|
    ensures OpenPages(els) == OpenPages(els[..i]) + |ClosedPages(els[i..], line)|
  {
    hide IsOpenPage;
    if i == |els| {
      assert els[..i] == els && els[i..] == [];
    } else {
      var init := els[..|els| - 1];
      OpenPagesSplit(init, i, line);
      assert init[..i] == els[..i] && els[i..][..|els| - 1 - i] == init[i..];
    }
  }

  /** Whatever the markup, no page is lost or counted twice: every div.page that started is either still open or was
      recorded once when it closed, also when it closed implicitly. */
  lemma {:induction false} PagesAreConserved(d: Doc, events: seq<Event>)
    ensures |Run(d, events).pages| + OpenPages(Run(d, events).stack)
         == |d.pages| + OpenPages(d.stack) + PageStarts(events)
  {
    hide HasPageClass;
    if events != [] {
      var before, e := events[..|events| - 1], events[|events| - 1];
      PagesAreConserved(d, before);
      var mid := Run(d, before);
      match e {
        case Start(tag, id, cls, line) =>
          var el := Open(tag, id, cls, line);
          assert (mid.stack + [el])[..|mid.stack|] == mid.stack;
          assert tag == "div" ==> tag !in VOID;
        case End(tag, line) =>
          var i := Innermost(mid.stack, tag);
          if i >= 0 {
            OpenPagesSplit(mid.stack, i, line);
          }
        case Data(_, _) =>
      }
    }
  }

  /** A block element whose end tag is missing at the end of the file fails the check. */
  lemma UnclosedIsReported(before: seq<Event>, tag: string, id: string, cls: string, line: int, children: seq<Node>)
    requires tag in ["div", "section", "table"] && WellFormed(children)
    ensures !Passes(Run(EMPTY, before + ([Start(tag, id, cls, line)] + Events(children))))
  {
    hide HasPageClass, Strip, Run, Events, PagesIn, LeaksIn;
    var start, d := Start(tag, id, cls, line), Run(EMPTY, before);
    RunConcat(EMPTY, before, [start] + Events(children));
    RunConcat(d, [start], Events(children));
    RunOne(d, start);
    var d1 := Run(d, [start]);
    WellNested(d1, children);
    assert d1.stack[|d.stack|] == Open(tag, id, cls, line);
  }

  // ---------------------------------------------------------------- the defect it was written for

  lemma {:induction false} LeaksOnlyGrow(d: Doc, events: seq<Event>)
    ensures d.leaks <= Run(d, events).leaks
  {
    if events != [] {
      LeaksOnlyGrow(d, events[..|events| - 1]);
    }
  }

  /** A surplus `</div>` inside a page of the container closes that page early: what follows is read as content of
      the container, and reported as such. */
  lemma SurplusClose(d: Doc, outer: seq<Open>, main: Open, page: Open, c1: seq<Node>, line: int, c2: seq<Node>)
    requires d.stack == outer + [main, page] && main.id == CONTAINER_ID && page.tag == "div"
    requires WellFormed(c1) && WellFormed(c2)
    ensures
      var d' := Run(d, Events(c1) + [End("div", line)] + Events(c2));
      && d'.stack == outer + [main]
      && d'.leaks == d.leaks + LeaksIn(c1, page.id == CONTAINER_ID) + LeaksIn(c2, true)
  {
    hide HasPageClass, Strip, Events, LeaksIn, PagesIn, Run, OnEnd;
    WellNested(d, c1);
    var d1 := Expected(d, c1);
    RunConcat(d, Events(c1), [End("div", line)]);
    RunOne(d1, End("div", line));
    assert d.stack == (outer + [main]) + [page];
    CloseTop(outer + [main], page, d1.pages, d1.leaks, line);
    var d2 := OnEnd(d1, "div", line);
    RunConcat(d, Events(c1) + [End("div", line)], Events(c2));
    WellNested(d2, c2);
  }

  lemma {:induction false} ForbiddenLeaks(ns: seq<Node>, x: Node)
    requires x in ns && !Allowed(x)
    ensures LeaksIn(ns, true) != []
  {
    NoLeaksIff(ns, true);
  }

  /** So the check fails whenever anything not allowed in the container follows the surplus end tag, whatever came
      before and whatever comes after. */
  lemma SurplusCloseIsReported(before: seq<Event>, outer: seq<Open>, main: Open, page: Open, c1: seq<Node>, line: int,
                               c2: seq<Node>, x: Node, after: seq<Event>)
    requires Run(EMPTY, before).stack == outer + [main, page] && main.id == CONTAINER_ID && page.tag == "div"
    requires WellFormed(c1) && WellFormed(c2) && x in c2 && !Belongs(x)
    ensures !Passes(Run(EMPTY, before + (Events(c1) + [End("div", line)] + Events(c2)) + after))
  {
    hide Allowed, Belongs, Events, LeaksIn;
    AllowedIff(x);
    var middle := Events(c1) + [End("div", line)] + Events(c2);
    var d := Run(EMPTY, before);
    SurplusClose(d, outer, main, page, c1, line, c2);
    ForbiddenLeaks(c2, x);
    RunConcat(EMPTY, before, middle);
    RunConcat(EMPTY, before + middle, after);
    LeaksOnlyGrow(Run(d, middle), after);
  }

  /** The pages among elements that close together are recorded outermost first, each as its own element says. */
  lemma {:induction false} ClosedInOrder(a: seq<Open>, b: seq<Open>, el: Open, line: int)
    ensures ClosedPages(a + b, line) == ClosedPages(a, line) + ClosedPages(b, line)
    ensures ClosedPages([el], line)
         == if el.tag == "div" && HasWord(el.cls, "page") then [Page(el.id, el.line, line)] else []
  {
    hide Words, HasWord;
    assert [el][..0] == [];
    WordsExact(el.cls, "page");
    if b == [] {
      assert a + b == a;
    } else {
      ClosedInOrder(a, b[..|b| - 1], el, line);
      assert (a + b)[..|a + b| - 1] == a + b[..|b| - 1];
    }
  }

  /** An end tag that nothing open waits for, or of a void element, changes nothing. */
  lemma StrayEndIsIgnored(d: Doc, tag: string, line: int)
    requires tag in VOID || forall el | el in d.stack :: el.tag != tag
    ensures Step(d, End(tag, line)) == d
  {
    var i := Innermost(d.stack, tag);
    assert i >= 0 ==> d.stack[i] in d.stack;
  }
}
