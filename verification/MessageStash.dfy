/**
 cmd/wad/session.go and cmd/wad/mediastash.go: the FIFO-capped message stash and
 its durable second level on disk. Protobuf, base64 and JSON encoding round-trip
 and are not modelled: a file holds the record it was written from. A write may
 fail; a file's mtime is an input. In runs the write of a file is a step of its own,
 since it happens outside the lock, and the prune comes at any time.
 */
module MessageStash {
  import opened Options
  import opened Seqs

  const STASH_MAX := 3000
  const DISK_MAX := 8000
  const PRUNE_EVERY := 1000

  datatype Media = Media(mimetype: string, directPath: string, mediaKey: seq<int>)

  datatype Message =
    | NoMessage
    | Message(text: string, media: Option<Media>, viewOnce: Option<Message>, viewOnceV2: Option<Message>,
              viewOnceV2Extension: Option<Message>)

  /** The message inside a view-once wrapper, one level deep. */
  function Unwrap(m: Message): (u: Message) {
    if m.NoMessage? then m
    else if m.viewOnce.Some? && m.viewOnce.value.Message? then m.viewOnce.value
    else if m.viewOnceV2.Some? && m.viewOnceV2.value.Message? then m.viewOnceV2.value
    else if m.viewOnceV2Extension.Some? && m.viewOnceV2Extension.value.Message? then m.viewOnceV2Extension.value
    else m
  }

  predicate HasMedia(m: Message) {
    var u := Unwrap(m);
    u.Message? && u.media.Some?
  }

  /** Media in any of the three view-once wrappers counts like media sent plainly. */
  lemma ViewOnceKeepsMedia(m: Message, text: string)
    requires m.Message? && Unwrap(m) == m
    ensures HasMedia(Message(text, None, Some(m), None, None)) == HasMedia(m)
    ensures HasMedia(Message(text, None, None, Some(m), None)) == HasMedia(m)
    ensures HasMedia(Message(text, None, None, None, Some(m))) == HasMedia(m)
  {
  }

  /** What counts as media, looking into the first wrapper that holds a message and no deeper. */
  lemma HasMediaIff(m: Message)
    ensures HasMedia(m) <==>
      && m.Message?
      && (if m.viewOnce.Some? && m.viewOnce.value.Message? then m.viewOnce.value.media.Some?
          else if m.viewOnceV2.Some? && m.viewOnceV2.value.Message? then m.viewOnceV2.value.media.Some?
          else if m.viewOnceV2Extension.Some? && m.viewOnceV2Extension.value.Message?
          then m.viewOnceV2Extension.value.media.Some?
          else m.media.Some?)
  {
  }

  // ---------------------------------------------------------------- file names

  predicate SafeChar(c: char) {
    'a' <= c <= 'z' || 'A' <= c <= 'Z' || '0' <= c <= '9' || c == '-' || c == '_'
  }

  function Sanitised(id: string): (s: string)
    ensures |s| == |id|
    ensures forall i | 0 <= i < |id| :: s[i] == if SafeChar(id[i]) then id[i] else '_'
  {
    if id == "" then "" else [if SafeChar(id[0]) then id[0] else '_'] + Sanitised(id[1..])
  }

  function FileId(id: string): (f: string)
    ensures |f| <= 128 && forall c | c in f :: SafeChar(c)
    ensures |f| == (if |id| < 128 then |id| else 128)
    ensures forall i | 0 <= i < |f| ::
              f[i] == if 'a' <= id[i] <= 'z' || 'A' <= id[i] <= 'Z' || '0' <= id[i] <= '9' || id[i] == '-' || id[i] == '_'
                      then id[i] else '_'
  {
    var s := Sanitised(id);
    if |s| > 128 then s[..128] else s
  }

  function FileName(id: string): (f: string) { FileId(id) + ".json" }

  predicate SafeId(id: string) {
    |id| <= 128 && forall c | c in id :: SafeChar(c)
  }

  /** A file name belongs to one safe id only, and equals it exactly for the safe ones. */
  lemma SafeIdsKeepTheirName(a: string, b: string)
    ensures SafeId(a) <==> FileId(a) == a
    ensures SafeId(a) && SafeId(b) && FileName(a) == FileName(b) ==> a == b
  {
    if FileId(a) == a {
      assert forall c | c in a :: SafeChar(c);
    }
    if SafeId(a) {
      assert Sanitised(a) == a;
    }
    if SafeId(b) {
      assert Sanitised(b) == b;
    }
    if FileName(a) == FileName(b) {
      assert FileName(a)[..|FileName(a)| - 5] == FileId(a) && FileName(b)[..|FileName(b)| - 5] == FileId(b);
    }
  }

  // ---------------------------------------------------------------- the stash

  datatype Stashed = Stashed(msg: Message, sender: string, fromMe: bool)
  datatype File = File(mtime: int, record: Stashed)

  datatype Stash = Stash(msgs: map<string, Stashed>, order: seq<string>, mediaCount: nat, disk: map<string, File>)

  /** The order lists exactly the stashed ids, each once, and there are at most STASH_MAX. */
  ghost predicate Consistent(s: Stash) {
    && Distinct(s.order)
    && ToSet(s.order) == s.msgs.Keys
    && |s.order| <= STASH_MAX
  }

  /** A new id enters at the back and pushes the oldest out of a full stash. */
  function Admit(s: Stash, id: string, rec: Stashed): (s': Stash) {
    if |s.order| < STASH_MAX then s.(msgs := s.msgs[id := rec], order := s.order + [id])
    else s.(msgs := s.msgs[id := rec] - {s.order[0]}, order := s.order[1..] + [id])
  }

  /** Media is counted, and goes to disk when the write works. */
  function Persist(s: Stash, id: string, rec: Stashed, written: Option<int>): (s': Stash) {
    if !HasMedia(rec.msg) then s
    else if written.None? then s.(mediaCount := s.mediaCount + 1)
    else s.(mediaCount := s.mediaCount + 1, disk := s.disk[FileName(id) := File(written.value, rec)])
  }

  function AfterStash(s: Stash, id: string, rec: Stashed, written: Option<int>): (s': Stash) {
    if id in s.msgs then s else Persist(Admit(s, id, rec), id, rec, written)
  }

  function Get(s: Stash, id: string): (r: Option<Stashed>) {
    if id in s.msgs then Some(s.msgs[id])
    else if FileName(id) in s.disk then Some(s.disk[FileName(id)].record)
    else None
  }

  lemma AdmitKeepsConsistent(s: Stash, id: string, rec: Stashed)
    requires Consistent(s) && id !in s.msgs
    ensures Consistent(Admit(s, id, rec))
  {
    assert id !in ToSet(s.order);
    if |s.order| < STASH_MAX {
      ToSetAppend(s.order, id);
    } else {
      ToSetTail(s.order);
      assert s.order[0] in ToSet(s.order);
      ToSetAppend(s.order[1..], id);
    }
  }

  class Session {
    var msgs: map<string, Stashed>
    var order: seq<string>
    var mediaCount: nat
    var disk: map<string, File>

    ghost function View(): (s: Stash)
      reads this
    {
      Stash(msgs, order, mediaCount, disk)
    }

    /** A daemon starts with an empty memory over the files that are there. */
    constructor (files: map<string, File>)
      ensures View() == Stash(map[], [], 0, files) && Consistent(View())
    {
      msgs, order, mediaCount, disk := map[], [], 0, files;
    }

    method StashMsg(id: string, m: Message, sender: string, fromMe: bool, written: Option<int>) returns (prune: bool)
      requires Consistent(View())
      modifies this
      ensures Consistent(View())
      ensures View() == AfterStash(old(View()), id, Stashed(m, sender, fromMe), written)
      ensures mediaCount == old(mediaCount) + (if old(id !in msgs) && HasMedia(m) then 1 else 0)
      ensures prune <==> old(id !in msgs) && HasMedia(m) && mediaCount % 1000 == 0
      // a message without media never reaches the disk, nor does one whose id is in memory
      ensures old(id in msgs) || !HasMedia(m) || written.None? ==> disk == old(disk)
      ensures old(id !in msgs) && HasMedia(m) && written.Some? ==>
                disk == old(disk)[FileName(id) := File(written.value, Stashed(m, sender, fromMe))]
    {
      hide HasMedia, FileName;
      if id in msgs { return false; }
      AdmitKeepsConsistent(View(), id, Stashed(m, sender, fromMe));
      msgs := msgs[id := Stashed(m, sender, fromMe)];
      order := order + [id];
      ghost var all, queue := msgs, order;
      while |order| > STASH_MAX
        invariant mediaCount == old(mediaCount) && disk == old(disk)
        invariant || (order == queue && msgs == all)
                  || (|queue| == STASH_MAX + 1 && order == queue[1..] && msgs == all - {queue[0]})
      {
        var oldest := order[0];
        order := order[1..];
        msgs := msgs - {oldest};
      }
      assert |queue| == STASH_MAX + 1 ==> queue[1..] == old(order)[1..] + [id];
      prune := false;
      if HasMedia(m) {
        mediaCount := mediaCount + 1;
        prune := mediaCount % PRUNE_EVERY == 0;
        if written.Some? {
          disk := disk[FileName(id) := File(written.value, Stashed(m, sender, fromMe))];
        }
      }
    }

    method GetStashed(id: string) returns (r: Option<Stashed>)
      ensures r == Get(View(), id)
      ensures id in msgs ==> r == Some(msgs[id])
      ensures id !in msgs && FileId(id) + ".json" in disk ==> r == Some(disk[FileId(id) + ".json"].record)
      ensures r.None? <==> id !in msgs && FileId(id) + ".json" !in disk
    {
      if id in msgs { return Some(msgs[id]); }
      if FileName(id) in disk { return Some(disk[FileName(id)].record); }
      return None;
    }

    method PruneMediaStash()
      modifies this
      ensures msgs == old(msgs) && order == old(order) && mediaCount == old(mediaCount)
      ensures PruneOutcome(old(disk), disk)
    {
      if |disk| <= DISK_MAX { return; }
      var files := SortedNewestFirst(disk);
      DistinctSize(files);
      assert |disk| == |disk.Keys|;
      KeepsTheNewest(disk, files);
      disk := RemoveAll(disk, files[DISK_MAX..]);
    }
  }

  // ---------------------------------------------------------------- pruning the disk

  /** At most DISK_MAX files stay, none that stays is older than one that goes, and below the cap all stay. */
  ghost predicate PruneOutcome(disk: map<string, File>, disk': map<string, File>) {
    && disk'.Keys <= disk.Keys
    && (forall f | f in disk' :: disk'[f] == disk[f])
    && |disk'| == (if |disk| <= 8000 then |disk| else 8000)
    && (forall kept, gone | kept in disk' && gone in disk && gone !in disk' :: disk[kept].mtime >= disk[gone].mtime)
  }

  function ModTime(disk: map<string, File>, f: string): (t: int) {
    if f in disk then disk[f].mtime else 0
  }

  ghost predicate NewestFirst(files: seq<string>, disk: map<string, File>) {
    forall i, j | 0 <= i < j < |files| :: ModTime(disk, files[i]) >= ModTime(disk, files[j])
  }

  method InsertByAge(files: seq<string>, f: string, disk: map<string, File>) returns (files': seq<string>)
    requires Distinct(files) && NewestFirst(files, disk) && f !in files
    ensures Distinct(files') && NewestFirst(files', disk) && ToSet(files') == ToSet(files) + {f}
  {
    hide Distinct, NewestFirst;
    var i := 0;
    while i < |files| && ModTime(disk, files[i]) >= ModTime(disk, f)
      invariant 0 <= i <= |files|
      invariant forall j | 0 <= j < i :: ModTime(disk, files[j]) >= ModTime(disk, f)
    {
      i := i + 1;
    }
    files' := files[..i] + [f] + files[i..];
    ToSetInsert(files, i, f);
    InsertKeepsOrder(files, i, f, disk);
  }

  lemma InsertKeepsOrder(files: seq<string>, i: nat, f: string, disk: map<string, File>)
    requires NewestFirst(files, disk) && i <= |files|
    requires forall j | 0 <= j < i :: ModTime(disk, files[j]) >= ModTime(disk, f)
    requires i < |files| ==> ModTime(disk, files[i]) < ModTime(disk, f)
    ensures NewestFirst(files[..i] + [f] + files[i..], disk)
  {
    hide ModTime;
    var r := files[..i] + [f] + files[i..];
    assert forall k | 0 <= k < |r| :: r[k] == if k < i then files[k] else if k == i then f else files[k - 1];
  }

  /** The directory listing, sorted by mtime, newest first; ties in any order. */
  method SortedNewestFirst(disk: map<string, File>) returns (files: seq<string>)
    ensures Distinct(files) && ToSet(files) == disk.Keys
    ensures NewestFirst(files, disk)
  {
    hide NewestFirst, Distinct;
    files := SortedNothing(disk);
    var todo := disk.Keys;
    while todo != {}
      invariant todo <= disk.Keys
      invariant Distinct(files) && NewestFirst(files, disk) && ToSet(files) == disk.Keys - todo
      decreases |todo|
    {
      var f :| f in todo;
      assert f !in ToSet(files);
      files := InsertByAge(files, f, disk);
      todo := todo - {f};
    }
  }

  method SortedNothing(disk: map<string, File>) returns (files: seq<string>)
    ensures files == [] && Distinct(files) && NewestFirst(files, disk)
  {
    files := [];
  }

  method RemoveAll(disk: map<string, File>, doomed: seq<string>) returns (rest: map<string, File>)
    ensures rest == disk - ToSet(doomed)
  {
    rest := disk;
    for i := 0 to |doomed|
      invariant rest == disk - ToSet(doomed[..i])
    {
      assert doomed[..i + 1] == doomed[..i] + [doomed[i]];
      ToSetAppend(doomed[..i], doomed[i]);
      rest := rest - {doomed[i]};
    }
    assert doomed[..|doomed|] == doomed;
  }

  lemma EarlierIsNewer(disk: map<string, File>, files: seq<string>, n: nat, kept: string, gone: string)
    requires NewestFirst(files, disk) && n <= |files|
    requires kept in files[..n] && gone in files[n..]
    ensures ModTime(disk, kept) >= ModTime(disk, gone)
  {
    var i :| 0 <= i < n && files[..n][i] == kept;
    var j :| 0 <= j < |files| - n && files[n..][j] == gone;
    assert files[i] == kept && files[n + j] == gone;
  }

  lemma KeepsTheNewest(disk: map<string, File>, files: seq<string>)
    requires Distinct(files) && ToSet(files) == disk.Keys && |files| > DISK_MAX && |disk| == |files|
    requires NewestFirst(files, disk)
    ensures PruneOutcome(disk, disk - ToSet(files[DISK_MAX..]))
  {
    hide NewestFirst, Distinct;
    var kept, gone := files[..DISK_MAX], files[DISK_MAX..];
    var disk' := disk - ToSet(gone);
    DistinctSplit(files, DISK_MAX);
    assert disk'.Keys == ToSet(kept) && |disk'| == |disk'.Keys|;
    forall k, g | k in disk' && g in disk && g !in disk'
      ensures disk[k].mtime >= disk[g].mtime
    {
      assert k in ToSet(kept) && g in ToSet(gone);
      EarlierIsNewer(disk, files, DISK_MAX, k, g);
    }
  }

  // ---------------------------------------------------------------- whole runs

  datatype Op =
    | Insert(id: string, rec: Stashed)
    | Write(r: nat, written: Option<int>)   // the file of the message inserted at step r
    | Restart
    | Sweep(kept: set<string>)

  /** The stash, and the inserted media whose files are still to be written. */
  datatype Sys = Sys(s: Stash, writes: map<nat, Op>)

  function Next(sys: Sys, op: Op, n: nat): (sys': Sys) {
    var s := sys.s;
    match op
    case Insert(id, rec) =>
      if id in s.msgs then sys
      else Sys(Persist(Admit(s, id, rec), id, rec, None), if HasMedia(rec.msg) then sys.writes[n := op] else sys.writes)
    case Write(r, written) =>
      if !(r in sys.writes && sys.writes[r].Insert?) then sys
      else Sys(Landed(s, sys.writes[r].id, sys.writes[r].rec, written), sys.writes - {r})
    case Restart => Sys(Stash(map[], [], 0, s.disk), map[])
    case Sweep(kept) => sys.(s := s.(disk := map f | f in s.disk && f in kept :: s.disk[f]))
  }

  function Landed(s: Stash, id: string, rec: Stashed, written: Option<int>): (s': Stash) {
    if written.None? then s else s.(disk := s.disk[FileName(id) := File(written.value, rec)])
  }

  /** The daemon from an empty memory and an empty directory, through inserts, writes, restarts and disk prunes. */
  function Run(ops: seq<Op>): (sys: Sys) {
    if ops == [] then Sys(Stash(map[], [], 0, map[]), map[])
    else Next(Run(ops[..|ops| - 1]), ops[|ops| - 1], |ops| - 1)
  }

  /** The two steps of an insert that nothing overlaps are what `StashMsg` does. */
  lemma StashInSteps(sys: Sys, id: string, rec: Stashed, n: nat, written: Option<int>)
    requires n !in sys.writes
    ensures Next(Next(sys, Insert(id, rec), n), Write(n, written), n + 1) == Sys(AfterStash(sys.s, id, rec, written), sys.writes)
  {
    hide HasMedia, FileName, Admit;
    var mid := Next(sys, Insert(id, rec), n);
    assert n in mid.writes ==> mid.writes - {n} == sys.writes;
  }

  lemma NextKeepsConsistent(sys: Sys, op: Op, n: nat)
    requires Consistent(sys.s)
    ensures Consistent(Next(sys, op, n).s)
  {
    hide HasMedia, FileName, Admit;
    if op.Insert? && op.id !in sys.s.msgs {
      AdmitKeepsConsistent(sys.s, op.id, op.rec);
    }
  }

  /** The last operation inserted an id that was not in memory. */
  predicate Accepts(ops: seq<Op>) {
    ops != [] && ops[|ops| - 1].Insert? && ops[|ops| - 1].id !in Run(ops[..|ops| - 1]).s.msgs
  }

  /** The ids accepted since the last restart, in order. */
  function Accepted(ops: seq<Op>): (ids: seq<string>) {
    if ops == [] then []
    else
      var before, op := Accepted(ops[..|ops| - 1]), ops[|ops| - 1];
      if op.Restart? then [] else if Accepts(ops) then before + [op.id] else before
  }

  /** The step of the last accepted insert of an id, across restarts, and its record. */
  function LastAcceptedAt(ops: seq<Op>, id: string): (k: Option<nat>)
    ensures k.Some? ==> k.value < |ops| && ops[k.value].Insert? && ops[k.value].id == id
  {
    if ops == [] then None
    else if Accepts(ops) && ops[|ops| - 1].id == id then Some(|ops| - 1)
    else LastAcceptedAt(ops[..|ops| - 1], id)
  }

  function LastAccepted(ops: seq<Op>, id: string): (r: Option<Stashed>) {
    var k := LastAcceptedAt(ops, id);
    if k.Some? then Some(ops[k.value].rec) else None
  }

  /** The step writes the file of an id. */
  predicate Writes(sys: Sys, op: Op, id: string) {
    op.Write? && op.written.Some? && op.r in sys.writes && sys.writes[op.r].Insert? && sys.writes[op.r].id == id
  }

  /** The last accepted insert of an id was media, its file was the last one written under that id, and no prune has
      taken it since. */
  predicate Durable(ops: seq<Op>, id: string) {
    && ops != []
    && var before, op := ops[..|ops| - 1], ops[|ops| - 1];
       if Accepts(ops) && op.id == id then false
       else if Writes(Run(before), op, id) then LastAcceptedAt(before, id) == Some(op.r)
       else Durable(before, id) && (op.Sweep? ==> FileName(id) in op.kept)
  }

  lemma {:induction false} RunIsConsistent(ops: seq<Op>)
    ensures Consistent(Run(ops).s)
  {
    hide Next, Consistent;
    if ops == [] {
      StartsConsistent();
    } else {
      RunIsConsistent(ops[..|ops| - 1]);
      NextKeepsConsistent(Run(ops[..|ops| - 1]), ops[|ops| - 1], |ops| - 1);
    }
  }

  lemma StartsConsistent()
    ensures Consistent(Stash(map[], [], 0, map[]))
  {
  }

  lemma AdmitIsTheWindow(s: Stash, accepted: seq<string>, id: string, rec: Stashed)
    requires s.order == LastN(accepted, STASH_MAX)
    ensures Admit(s, id, rec).order == LastN(accepted + [id], STASH_MAX)
  {
    LastNAppend(accepted, STASH_MAX, id);
  }

  /** At every point of every run the memory is exactly the window of the last STASH_MAX accepted inserts, and that
      window never repeats an id. */
  lemma {:induction false} MemoryIsTheWindow(ops: seq<Op>)
    ensures Run(ops).s.order == LastN(Accepted(ops), 3000)
    ensures Distinct(Run(ops).s.order) && Run(ops).s.msgs.Keys == ToSet(Run(ops).s.order)
  {
    hide Next, Admit, LastN, Distinct;
    RunIsConsistent(ops);
    AfterRestart();
    if ops != [] {
      var before, op := ops[..|ops| - 1], ops[|ops| - 1];
      MemoryIsTheWindow(before);
      NextOrder(Run(before), op, |ops| - 1);
      if Accepts(ops) {
        AdmitIsTheWindow(Run(before).s, Accepted(before), op.id, op.rec);
      }
    }
  }

  lemma NextOrder(sys: Sys, op: Op, n: nat)
    ensures Next(sys, op, n).s.order
         == match op
            case Insert(id, rec) => if id in sys.s.msgs then sys.s.order else Admit(sys.s, id, rec).order
            case Restart => []
            case _ => sys.s.order
  {
    hide HasMedia, FileName, Admit;
  }

  /** A restart empties the memory, leaves the files, and forgets what was still to be written. */
  lemma RestartForgetsWrites(sys: Sys, r: nat, written: Option<int>, n: nat)
    ensures var after := Next(sys, Restart, n);
      && after.s == Stash(map[], [], 0, sys.s.disk)
      && Next(after, Write(r, written), n + 1) == after
  {
  }

  lemma AfterRestart()
    ensures LastN<string>([], STASH_MAX) == []
  {
  }

  lemma MemoryNext(sys: Sys, op: Op, n: nat, id: string)
    requires id in Next(sys, op, n).s.msgs
    ensures if op.Insert? && op.id == id && id !in sys.s.msgs then Next(sys, op, n).s.msgs[id] == op.rec
            else id in sys.s.msgs && Next(sys, op, n).s.msgs[id] == sys.s.msgs[id]
  {
    hide HasMedia, FileName;
  }

  /** And the memory holds for each id what was last accepted under it. */
  lemma {:induction false} MemoryHoldsTheLast(ops: seq<Op>, id: string)
    requires id in Run(ops).s.msgs
    ensures LastAccepted(ops, id) == Some(Run(ops).s.msgs[id]) == Get(Run(ops).s, id)
  {
    hide Next;
    var n := |ops| - 1;
    MemoryNext(Run(ops[..n]), ops[n], n, id);
    if !(Accepts(ops) && ops[n].id == id) {
      MemoryHoldsTheLast(ops[..n], id);
    }
  }

  /** What a step leaves of a file. */
  lemma NextOnDisk(sys: Sys, op: Op, n: nat, f: string)
    requires op.Write? && op.written.Some? && op.r in sys.writes && sys.writes[op.r].Insert? ==>
               FileName(sys.writes[op.r].id) != f
    requires op.Sweep? ==> f in op.kept
    requires f in sys.s.disk
    ensures f in Next(sys, op, n).s.disk && Next(sys, op, n).s.disk[f] == sys.s.disk[f]
  {
    hide HasMedia, FileName;
  }

  lemma WriteLands(sys: Sys, op: Op, n: nat, id: string)
    requires Writes(sys, op, id)
    ensures var disk := Next(sys, op, n).s.disk; FileName(id) in disk && disk[FileName(id)].record == sys.writes[op.r].rec
  {
    hide FileName;
  }

  lemma WritesNext(sys: Sys, op: Op, n: nat, r: nat)
    requires r in Next(sys, op, n).writes
    ensures || (r in sys.writes && Next(sys, op, n).writes[r] == sys.writes[r])
            || (r == n && op.Insert? && op.id !in sys.s.msgs && Next(sys, op, n).writes[r] == op)
  {
    hide HasMedia, FileName, Admit;
  }

  /** A file still to be written is that of an insert of the run. */
  lemma {:induction false} WritesAreInserts(ops: seq<Op>, r: nat)
    requires r in Run(ops).writes
    ensures r < |ops| && Run(ops).writes[r] == ops[r] && ops[r].Insert?
  {
    hide Next;
    var n := |ops| - 1;
    WritesNext(Run(ops[..n]), ops[n], n, r);
    if r in Run(ops[..n]).writes {
      WritesAreInserts(ops[..n], r);
    }
  }

  /** No other id of the run shares the file name of this one. */
  ghost predicate OwnFile(ops: seq<Op>, id: string) {
    forall op | op in ops && op.Insert? && op.id != id :: FileName(op.id) != FileName(id)
  }

  /** The file of a durable id holds what was last accepted under it. */
  lemma {:induction false} DurableIsOnDisk(ops: seq<Op>, id: string)
    requires Durable(ops, id) && OwnFile(ops, id)
    ensures LastAccepted(ops, id).Some?
    ensures FileName(id) in Run(ops).s.disk && Run(ops).s.disk[FileName(id)].record == LastAccepted(ops, id).value
  {
    hide FileName, Next;
    var n := |ops| - 1;
    var before, op := ops[..n], ops[n];
    var sys := Run(before);
    if op.Write? && op.r in sys.writes {
      WritesAreInserts(before, op.r);
    }
    if Writes(sys, op, id) {
      WriteLands(sys, op, n, id);
    } else {
      assert OwnFile(before, id);
      DurableIsOnDisk(before, id);
      NextOnDisk(sys, op, n, FileName(id));
    }
  }

  /** A media message whose file was the last one written under its id is found again after any evictions and restarts,
      until a prune takes the file, provided no other id shares its file name. */
  lemma DurableIsFound(ops: seq<Op>, id: string)
    requires Durable(ops, id) && OwnFile(ops, id)
    ensures LastAccepted(ops, id).Some? && Get(Run(ops).s, id) == LastAccepted(ops, id)
  {
    hide Durable, LastAccepted, OwnFile, Run, FileName;
    if id in Run(ops).s.msgs {
      MemoryHoldsTheLast(ops, id);
    }
    DurableIsOnDisk(ops, id);
  }

  /** The file of the last accepted insert was written and not pruned since, whatever else was written. */
  predicate WrittenAndKept(ops: seq<Op>, id: string) {
    && ops != []
    && var before, op := ops[..|ops| - 1], ops[|ops| - 1];
       if Accepts(ops) && op.id == id then false
       else if Writes(Run(before), op, id) && LastAcceptedAt(before, id) == Some(op.r) then true
       else WrittenAndKept(before, id) && (op.Sweep? ==> FileName(id) in op.kept)
  }

  /** Whenever an id is accepted, its earlier file is no longer waiting to be written. */
  ghost predicate WrittenInOrder(ops: seq<Op>, id: string) {
    ops == [] ||
    var before, op := ops[..|ops| - 1], ops[|ops| - 1];
    && WrittenInOrder(before, id)
    && (Accepts(ops) && op.id == id ==>
          var writes := Run(before).writes; forall r | r in writes && writes[r].Insert? :: writes[r].id != id)
  }

  lemma {:induction false} OnlyTheLastWaits(ops: seq<Op>, id: string, r: nat)
    requires WrittenInOrder(ops, id) && r in Run(ops).writes && Run(ops).writes[r].Insert? && Run(ops).writes[r].id == id
    ensures LastAcceptedAt(ops, id) == Some(r)
  {
    hide Next;
    var n := |ops| - 1;
    WritesNext(Run(ops[..n]), ops[n], n, r);
    if r in Run(ops[..n]).writes && Run(ops[..n]).writes[r] == Run(ops).writes[r] {
      OnlyTheLastWaits(ops[..n], id, r);
    }
  }

  /** Then a file that was written and kept is durable. */
  lemma {:induction false} KeptIsDurable(ops: seq<Op>, id: string)
    requires WrittenInOrder(ops, id) && WrittenAndKept(ops, id)
    ensures Durable(ops, id)
  {
    hide Next, FileName;
    var n := |ops| - 1;
    if Writes(Run(ops[..n]), ops[n], id) {
      OnlyTheLastWaits(ops[..n], id, ops[n].r);
    } else {
      KeptIsDurable(ops[..n], id);
    }
  }

  /** For runs over safe ids the file names never clash, so the guarantee needs nothing else. */
  lemma SafeRunsAreDurable(ops: seq<Op>, id: string)
    requires SafeId(id) && forall op | op in ops && op.Insert? :: SafeId(op.id)
    requires WrittenInOrder(ops, id) && WrittenAndKept(ops, id)
    ensures LastAccepted(ops, id).Some? && Get(Run(ops).s, id) == LastAccepted(ops, id)
  {
    hide LastAccepted, Get, Run, FileName, SafeId, WrittenInOrder, WrittenAndKept, Durable;
    forall op | op in ops && op.Insert? && op.id != id
      ensures FileName(op.id) != FileName(id)
    {
      SafeIdsKeepTheirName(op.id, id);
    }
    KeptIsDurable(ops, id);
    DurableIsFound(ops, id);
  }

  /** Without that it fails, for any two ids with one file name: the second is written over the first, and after a
      restart the first id brings back the second message. */
  lemma ClashingIdsLoseAMessage(a: string, b: string, first: Stashed, second: Stashed, t1: int, t2: int)
    requires a != b && FileName(a) == FileName(b)
    requires HasMedia(first.msg) && HasMedia(second.msg)
    ensures
      var ops := [Insert(a, first)] + [Write(0, Some(t1))] + [Insert(b, second)] + [Write(2, Some(t2))] + [Restart];
      Durable(ops, a) && LastAccepted(ops, a) == Some(first) && Get(Run(ops).s, a) == Some(second)
  {
    hide HasMedia, FileName, Run, Durable, LastAcceptedAt;
    var o0 := [Insert(a, first)];
    var o1 := o0 + [Write(0, Some(t1))];
    var o2 := o1 + [Insert(b, second)];
    var o3 := o2 + [Write(2, Some(t2))];
    var ops := o3 + [Restart];
    assert [] + o0 == o0;
    NothingYet();
    Append([], Insert(a, first), a);
    Append(o0, Write(0, Some(t1)), a);
    Append(o1, Insert(b, second), a);
    Append(o2, Write(2, Some(t2)), a);
    Append(o3, Restart, a);
    assert Run(o0).s.msgs.Keys == {a} && Run(o0).writes[0] == Insert(a, first);
    assert LastAcceptedAt(o0, a) == Some(0) && Durable(o1, a);
    assert Run(o1).s.msgs.Keys == {a};
    assert Run(o2).writes[2] == Insert(b, second);
    assert ops[0] == Insert(a, first);
  }

  lemma NothingYet()
    ensures Run([]) == Sys(Stash(map[], [], 0, map[]), map[])
  {
  }

  lemma Append(ops: seq<Op>, op: Op, id: string)
    ensures var ops' := ops + [op];
      && Run(ops') == Next(Run(ops), op, |ops|)
      && LastAcceptedAt(ops', id)
         == (if op.Insert? && op.id !in Run(ops).s.msgs && op.id == id then Some(|ops|) else LastAcceptedAt(ops, id))
      && Durable(ops', id)
         == (if op.Insert? && op.id !in Run(ops).s.msgs && op.id == id then false
             else if Writes(Run(ops), op, id) then LastAcceptedAt(ops, id) == Some(op.r)
             else Durable(ops, id) && (op.Sweep? ==> FileName(id) in op.kept))
  {
    hide Next, FileName;
    assert (ops + [op])[..|ops|] == ops;
  }

  /** The run inserts under these ids only. */
  ghost predicate Over(ops: seq<Op>, ids: set<string>) {
    forall op | op in ops && op.Insert? :: op.id in ids
  }

  /** Every run over these ids finds every durable message again. */
  ghost predicate AlwaysFound(ids: set<string>) {
    forall ops: seq<Op>, id: string | Over(ops, ids) && id in ids && Durable(ops, id) ::
      LastAccepted(ops, id).Some? && Get(Run(ops).s, id) == LastAccepted(ops, id)
  }

  /** The law over a set of ids: every run over them is durable if and only if no two of them share a file name. */
  lemma DurableIffNamesDiffer(ids: set<string>)
    ensures AlwaysFound(ids) <==> forall a, b | a in ids && b in ids && FileName(a) == FileName(b) :: a == b
  {
    hide Durable, LastAccepted, Get, Run, FileName;
    if forall a, b | a in ids && b in ids && FileName(a) == FileName(b) :: a == b {
      forall ops: seq<Op>, id: string | Over(ops, ids) && id in ids && Durable(ops, id)
        ensures LastAccepted(ops, id).Some? && Get(Run(ops).s, id) == LastAccepted(ops, id)
      {
        DurableIsFound(ops, id);
      }
    }
    if a, b :| a in ids && b in ids && FileName(a) == FileName(b) && a != b {
      var photo := Message("", Some(Media("image/jpeg", "", [])), None, None, None);
      var first, second := Stashed(photo, "first", false), Stashed(photo, "second", false);
      ClashingIdsLoseAMessage(a, b, first, second, 0, 1);
      var ops := [Insert(a, first)] + [Write(0, Some(0))] + [Insert(b, second)] + [Write(2, Some(1))] + [Restart];
      assert Over(ops, ids);
      assert !AlwaysFound(ids);
    }
  }

  /** Such ids exist: a character that is not safe becomes an underscore. */
  lemma ClashingIdsExist()
    ensures "a/b" != "a_b" && FileName("a/b") == FileName("a_b")
  {
    assert Sanitised("a/b") == Sanitised("a_b");
  }
}
