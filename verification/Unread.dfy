/**
 cmd/wad/session.go and cmd/wad/parity.go: the unread batches that a mark-read
 action sends receipts for. Which chats an eviction takes is up to Go's map order
 and is an input here; whether a sender's JID normalises is an input too.
 */
module Unread {
  import opened Options
  import opened Seqs

  const UNREAD_MAX := 200
  const CHATS_MAX := 5000
  const CHATS_KEEP := 4000

  datatype Inbound = Inbound(id: string, sender: string)
  datatype Inbox = Inbox(lastIn: map<string, Inbound>, unread: map<string, seq<string>>)

  const EMPTY := Inbox(map[], map[])

  function Batch(b: Inbox, chat: string): (ids: seq<string>) {
    if chat in b.unread then b.unread[chat] else []
  }

  function Received(b: Inbox, chat: string, m: Inbound): (b': Inbox) {
    Inbox(b.lastIn[chat := m], b.unread[chat := LastN(Batch(b, chat) + [m.id], UNREAD_MAX)])
  }

  function Without(b: Inbox, chats: set<string>): (b': Inbox) {
    Inbox(b.lastIn - chats, b.unread - chats)
  }

  /** Beyond 5000 chats, some are forgotten until 4000 are left; otherwise none. */
  ghost predicate MayEvict(b: Inbox, chats: set<string>) {
    if |b.lastIn| > 5000 then chats <= b.lastIn.Keys && |chats| == |b.lastIn| - 4000 else chats == {}
  }

  datatype Receipt = NoReceipt | Receipt(ids: seq<string>, sender: string)

  /** A receipt for the whole batch, to the author of the last message when that JID is usable. */
  function ReceiptFor(b: Inbox, chat: string, jid: Option<string>): (r: Receipt) {
    if Batch(b, chat) == [] then NoReceipt
    else Receipt(Batch(b, chat),
                 if chat in b.lastIn && b.lastIn[chat].sender != "" && jid.Some? then jid.value else chat)
  }

  class Session {
    var lastIn: map<string, Inbound>
    var unread: map<string, seq<string>>

    ghost function View(): (b: Inbox)
      reads this
    {
      Inbox(lastIn, unread)
    }

    constructor ()
      ensures View() == EMPTY
    {
      lastIn, unread := map[], map[];
    }

    method OnMessage(chat: string, id: string, sender: string, fromMe: bool) returns (ghost evicted: set<string>)
      modifies this
      ensures fromMe ==> View() == old(View())
      ensures !fromMe ==> MayEvict(Received(old(View()), chat, Inbound(id, sender)), evicted)
                          && View() == Without(Received(old(View()), chat, Inbound(id, sender)), evicted)
    {
      hide LastN;
      evicted := {};
      if fromMe { return; }
      Record(chat, id, sender);
      ghost var full := View();
      assert full == Without(full, {});
      if |lastIn| > CHATS_MAX {
        evicted := EvictSome();
      }
    }

    method Record(chat: string, id: string, sender: string)
      modifies this
      ensures View() == Received(old(View()), chat, Inbound(id, sender))
    {
      lastIn := lastIn[chat := Inbound(id, sender)];
      var ids := (if chat in unread then unread[chat] else []) + [id];
      if |ids| > UNREAD_MAX {
        ids := ids[|ids| - UNREAD_MAX..];
      }
      unread := unread[chat := ids];
    }

    method EvictSome() returns (ghost evicted: set<string>)
      requires |lastIn| > CHATS_MAX
      modifies this
      ensures evicted <= old(lastIn).Keys && |evicted| == |old(lastIn)| - CHATS_KEEP
      ensures View() == Without(old(View()), evicted)
    {
      evicted := {};
      var going := true;
      while going
        invariant evicted <= old(lastIn).Keys
        invariant lastIn == old(lastIn) - evicted && unread == old(unread) - evicted
        invariant |lastIn| == |old(lastIn)| - |evicted|
        invariant if going then |lastIn| > CHATS_KEEP else |lastIn| == CHATS_KEEP
        decreases going, |lastIn|
      {
        assert lastIn.Keys != {} by { assert |lastIn.Keys| == |lastIn|; }
        var k :| k in lastIn.Keys;
        ghost var before := lastIn;
        lastIn := lastIn - {k};
        unread := unread - {k};
        evicted := evicted + {k};
        OneFewer(before, k);
        going := |lastIn| > CHATS_KEEP;
      }
    }

    method MarkRead(chat: string, jid: Option<string>) returns (r: Receipt)
      modifies this
      ensures r == ReceiptFor(old(View()), chat, jid)
      ensures lastIn == old(lastIn) && unread == old(unread) - {chat}
    {
      var ids := if chat in unread then unread[chat] else [];
      unread := unread - {chat};
      if |ids| == 0 { return NoReceipt; }
      var sender := chat;
      if chat in lastIn && lastIn[chat].sender != "" && jid.Some? {
        sender := jid.value;
      }
      r := Receipt(ids, sender);
    }
  }

  lemma OneFewer<K, V>(m: map<K, V>, k: K)
    requires k in m
    ensures |m - {k}| == |m| - 1
  {
    assert (m - {k}).Keys == m.Keys - {k};
    assert |(m - {k}).Keys| == |m - {k}| && |m.Keys| == |m|;
  }

  // ---------------------------------------------------------------- whole runs

  datatype Op = Message(chat: string, m: Inbound, evicted: set<string>) | Mark(chat: string)

  function Next(b: Inbox, op: Op): (b': Inbox) {
    match op
    case Message(chat, m, evicted) => Without(Received(b, chat, m), evicted)
    case Mark(chat) => b.(unread := b.unread - {chat})
  }

  function Run(ops: seq<Op>): (b: Inbox) {
    if ops == [] then EMPTY else Next(Run(ops[..|ops| - 1]), ops[|ops| - 1])
  }

  /** Every eviction of the run is one the code may make. */
  ghost predicate Possible(ops: seq<Op>) {
    ops != [] ==>
      var before, op := ops[..|ops| - 1], ops[|ops| - 1];
      && Possible(before)
      && (op.Message? ==> MayEvict(Received(Run(before), op.chat, op.m), op.evicted))
  }

  /** The ids a chat received since it was last marked read or evicted, all of them. */
  function Since(ops: seq<Op>, chat: string): (ids: seq<string>) {
    if ops == [] then []
    else
      var before, op := Since(ops[..|ops| - 1], chat), ops[|ops| - 1];
      match op
      case Message(c, m, evicted) => if chat in evicted then [] else if c == chat then before + [m.id] else before
      case Mark(c) => if c == chat then [] else before
  }

  /** In every run each chat's batch is exactly the last 200 ids since its last mark-read or eviction, and a
      chat has an entry exactly if there are any. */
  lemma {:induction false} BatchIsTheWindow(ops: seq<Op>, chat: string)
    ensures Batch(Run(ops), chat) == LastN(Since(ops, chat), 200)
    ensures chat in Run(ops).unread <==> Since(ops, chat) != []
  {
    hide LastN, Next, Batch;
    NoneIsNone();
    if ops != [] {
      var before, op := ops[..|ops| - 1], ops[|ops| - 1];
      BatchIsTheWindow(before, chat);
      NextBatch(Run(before), op, chat);
      if op.Message? && op.chat == chat {
        LastNAppend(Since(before, chat), UNREAD_MAX, op.m.id);
      }
    } else {
      EmptyBatch(chat);
    }
  }

  lemma EmptyBatch(chat: string)
    ensures Batch(EMPTY, chat) == []
  {
  }

  lemma NextBatch(b: Inbox, op: Op, chat: string)
    ensures match op
      case Message(c, m, evicted) =>
        if chat in evicted then Batch(Next(b, op), chat) == [] && chat !in Next(b, op).unread
        else if c == chat then Batch(Next(b, op), chat) == LastN(Batch(b, chat) + [m.id], UNREAD_MAX)
                               && chat in Next(b, op).unread
        else Batch(Next(b, op), chat) == Batch(b, chat) && (chat in Next(b, op).unread <==> chat in b.unread)
      case Mark(c) =>
        if c == chat then Batch(Next(b, op), chat) == [] && chat !in Next(b, op).unread
        else Batch(Next(b, op), chat) == Batch(b, chat) && (chat in Next(b, op).unread <==> chat in b.unread)
  {
    hide LastN;
  }

  lemma NoneIsNone()
    ensures LastN<string>([], UNREAD_MAX) == []
  {
  }

  /** In every run a chat with unread messages has a last inbound message, and that is the last of its batch. */
  lemma {:induction false} BatchEndsWithTheLast(ops: seq<Op>, chat: string)
    requires chat in Run(ops).unread
    ensures chat in Run(ops).lastIn
    ensures Batch(Run(ops), chat) != [] && Batch(Run(ops), chat)[|Batch(Run(ops), chat)| - 1] == Run(ops).lastIn[chat].id
  {
    var before, op := ops[..|ops| - 1], ops[|ops| - 1];
    if !(op.Message? && op.chat == chat) {
      BatchEndsWithTheLast(before, chat);
    }
  }

  /** The last message a chat received. */
  function LastReceived(ops: seq<Op>, chat: string): (m: Option<Inbound>) {
    if ops == [] then None
    else
      var op := ops[|ops| - 1];
      if op.Message? && op.chat == chat then Some(op.m) else LastReceived(ops[..|ops| - 1], chat)
  }

  /** In every run the remembered message of a chat, and so the author a receipt goes to, is the last it received. */
  lemma {:induction false} RememberedIsTheLast(ops: seq<Op>, chat: string)
    requires chat in Run(ops).lastIn
    ensures LastReceived(ops, chat) == Some(Run(ops).lastIn[chat])
  {
    hide LastN;
    var before, op := ops[..|ops| - 1], ops[|ops| - 1];
    if !(op.Message? && op.chat == chat) {
      RememberedIsTheLast(before, chat);
    }
  }

  /** In every possible run there are never more than 5000 chats after a step. */
  lemma {:induction false} ChatsStayBounded(ops: seq<Op>)
    requires Possible(ops)
    ensures |Run(ops).lastIn| <= 5000
  {
    if ops != [] {
      var before, op := ops[..|ops| - 1], ops[|ops| - 1];
      ChatsStayBounded(before);
      if op.Message? {
        var full := Received(Run(before), op.chat, op.m);
        Removed(full.lastIn, op.evicted);
      }
    }
  }

  lemma Removed<K, V>(m: map<K, V>, ks: set<K>)
    requires ks <= m.Keys
    ensures |m - ks| == |m| - |ks|
  {
    assert (m - ks).Keys == m.Keys - ks;
    assert |(m - ks).Keys| == |m - ks| && |m.Keys| == |m|;
  }

  /** Marking a chat read acknowledges exactly those ids, once: nothing is sent when there are none, and a second
      mark-read right after sends nothing. */
  lemma MarkReadSendsTheBatch(ops: seq<Op>, chat: string, jid: Option<string>)
    ensures var r := ReceiptFor(Run(ops), chat, jid);
      && (r.Receipt? <==> Since(ops, chat) != [])
      && (r.Receipt? ==> r.ids == LastN(Since(ops, chat), 200) && LastReceived(ops, chat).Some?
                         && r.sender == if LastReceived(ops, chat).value.sender != "" && jid.Some? then jid.value else chat)
    ensures ReceiptFor(Run(ops + [Mark(chat)]), chat, jid) == NoReceipt
  {
    hide LastN, Next;
    BatchIsTheWindow(ops, chat);
    if chat in Run(ops).unread {
      BatchEndsWithTheLast(ops, chat);
      RememberedIsTheLast(ops, chat);
    } else {
      NoneIsNone();
    }
    var after := ops + [Mark(chat)];
    assert after[..|ops|] == ops;
    BatchIsTheWindow(after, chat);
    NoneIsNone();
  }
}
