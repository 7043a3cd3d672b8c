/**
 cmd/wad/push.go and cmd/wad/main.go: delivering one webhook event with retries,
 and re-reading the signing secret from disk when the server refuses it. The
 signature is a function of the secret and the body, so a reply is a function of
 the attempt and the secret it was signed with. Waiting is not modelled.
 */
module Push {
  import opened Options

  const ATTEMPTS := 6

  datatype Meta = Meta(apiKey: string, secret: string)
  datatype Disk = Unreadable | Malformed | Found(meta: Meta)
  datatype Reply = NoAnswer | Status(code: int)

  /** What happens around a delivery: the reply to each attempt, what meta.json holds then, and whether another
      delivery of the same user has changed the secret in memory just before it. */
  datatype World = World(reply: (nat, string) -> Reply, disk: nat -> Disk, others: nat -> Option<string>)

  // ---------------------------------------------------------------- re-reading the secret

  /** The in-memory entry moves only to a non-empty secret on disk that differs from it. */
  predicate Changes(mem: Meta, disk: Disk) {
    disk.Found? && disk.meta.secret != "" && disk.meta.secret != mem.secret
  }

  function Reloaded(mem: Meta, disk: Disk): (mem': Meta)
    ensures mem'.apiKey == mem.apiKey
    ensures mem' != mem ==> mem'.secret != "" && disk.Found? && mem'.secret == disk.meta.secret
  {
    if Changes(mem, disk) then mem.(secret := disk.meta.secret) else mem
  }

  /** A user that was never loaded reads as empty strings. */
  function MetaOf(metas: map<string, Meta>, user: string): (m: Meta) {
    if user in metas then metas[user] else Meta("", "")
  }

  class Manager {
    var metas: map<string, Meta>

    method ReloadSecret(user: string, disk: Disk) returns (secret: string, changed: bool)
      modifies this
      ensures changed == Changes(MetaOf(old(metas), user), disk)
      ensures changed ==> secret == disk.meta.secret && metas == old(metas)[user := Reloaded(MetaOf(old(metas), user), disk)]
      ensures !changed ==> metas == old(metas)
      ensures MetaOf(metas, user) == Reloaded(MetaOf(old(metas), user), disk)
    {
      if !disk.Found? { return "", false; }
      var current := MetaOf(metas, user);
      if disk.meta.secret == "" || disk.meta.secret == current.secret {
        return current.secret, false;
      }
      metas := metas[user := current.(secret := disk.meta.secret)];
      return disk.meta.secret, true;
    }

    /** Another delivery's reload, seen from this one. */
    method Interfere(user: string, other: Option<string>)
      modifies this
      ensures MetaOf(metas, user) == Refreshed(MetaOf(old(metas), user), other)
      ensures forall u | u != user :: MetaOf(metas, u) == MetaOf(old(metas), u)
    {
      if other.Some? {
        metas := metas[user := MetaOf(metas, user).(secret := other.value)];
      }
    }

    method Deliver(user: string, captured: string, urlOk: bool, w: World) returns (end: End, posts: nat)
      modifies this
      ensures !urlOk ==> end == Aborted && posts == 0 && metas == old(metas)
      ensures urlOk ==> Trace(end, posts, MetaOf(metas, user)) == DeliverFrom(w, 0, captured, MetaOf(old(metas), user))
      ensures forall u | u != user :: MetaOf(metas, u) == MetaOf(old(metas), u)
    {
      if !urlOk { return Aborted, 0; }
      var secret := captured;
      var i := 0;
      while i < ATTEMPTS
        invariant 0 <= i <= ATTEMPTS
        invariant DeliverFrom(w, 0, captured, MetaOf(old(metas), user)) == DeliverFrom(w, i, secret, MetaOf(metas, user))
        invariant forall u | u != user :: MetaOf(metas, u) == MetaOf(old(metas), u)
      {
        Interfere(user, w.others(i));
        var reply := w.reply(i, secret);
        i := i + 1;
        if reply.Status? {
          var code := reply.code;
          if 200 <= code < 300 {
            return Delivered, i;
          }
          if code == 401 || code == 403 {
            var fresher, changed := ReloadSecret(user, w.disk(i - 1));
            if changed {
              secret := fresher;
              continue;
            }
          }
          if code < 500 {
            return Dropped(code), i;
          }
        }
      }
      return Exhausted, ATTEMPTS;
    }
  }

  // ---------------------------------------------------------------- one delivery

  datatype End = Aborted | Delivered | Dropped(code: int) | Exhausted
  datatype Trace = Trace(end: End, posts: nat, mem: Meta)

  predicate Success(r: Reply) { r.Status? && 200 <= r.code < 300 }
  predicate Refusal(r: Reply) { r.Status? && (r.code == 401 || r.code == 403) }
  predicate Retryable(r: Reply) { r.NoAnswer? || r.code >= 500 }

  function Refreshed(mem: Meta, other: Option<string>): (mem': Meta) {
    if other.Some? then mem.(secret := other.value) else mem
  }

  /** The rest of a delivery from attempt `i` on. */
  function DeliverFrom(w: World, i: nat, secret: string, mem: Meta): (t: Trace)
    requires i <= ATTEMPTS
    ensures i <= t.posts <= 6 && t.end != Aborted && t.mem.apiKey == mem.apiKey
    ensures t.end == Exhausted ==> t.posts == 6
    ensures t.end.Dropped? ==> t.end.code < 500 && !(200 <= t.end.code < 300)
    decreases ATTEMPTS - i
  {
    if i == ATTEMPTS then Trace(Exhausted, ATTEMPTS, mem)
    else
      var now := Refreshed(mem, w.others(i));
      var r := w.reply(i, secret);
      if Success(r) then Trace(Delivered, i + 1, now)
      else if Refusal(r) && Changes(now, w.disk(i)) then
        DeliverFrom(w, i + 1, w.disk(i).meta.secret, Reloaded(now, w.disk(i)))
      else if Retryable(r) then DeliverFrom(w, i + 1, secret, now)
      else Trace(Dropped(r.code), i + 1, now)
  }

  /** A delivery changes the secret in memory only to a non-empty one it found on disk. */
  lemma {:induction false} MemoryMovesToDisk(w: World, i: nat, secret: string, mem: Meta)
    requires i <= ATTEMPTS
    ensures var after := DeliverFrom(w, i, secret, mem).mem.secret;
      || after == mem.secret
      || (exists j :: i <= j < ATTEMPTS && w.others(j) == Some(after))
      || (after != "" && exists j :: i <= j < ATTEMPTS && w.disk(j).Found? && w.disk(j).meta.secret == after)
    decreases ATTEMPTS - i
  {
    if i < ATTEMPTS {
      var now := Refreshed(mem, w.others(i));
      var r := w.reply(i, secret);
      assert now.secret == mem.secret || w.others(i) == Some(now.secret);
      if Success(r) {
      } else if Refusal(r) && Changes(now, w.disk(i)) {
        MemoryMovesToDisk(w, i + 1, w.disk(i).meta.secret, Reloaded(now, w.disk(i)));
      } else if Retryable(r) {
        MemoryMovesToDisk(w, i + 1, secret, now);
      }
    }
  }

  /** The memory entry after the other deliveries' changes before attempts `i` up to `k`. */
  function MemoryBefore(w: World, i: nat, k: nat, mem: Meta): (m: Meta)
    requires i <= k
    decreases k - i
  {
    if i == k then mem else MemoryBefore(w, i + 1, k, Refreshed(mem, w.others(i)))
  }

  /** The memory entry when attempt `k` is answered, if this delivery has not reloaded before. */
  function MemoryAt(w: World, k: nat, mem: Meta): (m: Meta) {
    Refreshed(MemoryBefore(w, 0, k, mem), w.others(k))
  }

  /** No answer, or a server error. */
  predicate Down(r: Reply) { r == NoAnswer || (r.Status? && r.code >= 500) }

  /** While the server is unreachable or failing, a delivery only waits. */
  lemma {:induction false} OutageIsRiddenOut(w: World, i: nat, k: nat, secret: string, mem: Meta)
    requires i <= k <= 6 && forall j | i <= j < k :: Down(w.reply(j, secret))
    ensures DeliverFrom(w, i, secret, mem) == DeliverFrom(w, k, secret, MemoryBefore(w, i, k, mem))
    decreases k - i
  {
    if i < k {
      OutageIsRiddenOut(w, i + 1, k, secret, Refreshed(mem, w.others(i)));
    }
  }

  /** The first answer that is no server error decides, after any outage: a success code ends the delivery; a code that
      is neither that nor a refusal drops the event; a refusal reloads the secret and goes on with it if there is a new
      one on disk, and drops the event otherwise; and six failures in a row exhaust it. */
  lemma FirstAnswerDecides(w: World, k: nat, captured: string, mem: Meta)
    requires k <= 6 && forall j | 0 <= j < k :: Down(w.reply(j, captured))
    requires k < 6 ==> w.reply(k, captured).Status? && w.reply(k, captured).code < 500
    ensures var t := DeliverFrom(w, 0, captured, mem);
      if k == 6 then t == Trace(Exhausted, 6, MemoryBefore(w, 0, 6, mem))
      else
        var code, now, disk := w.reply(k, captured).code, MemoryAt(w, k, mem), w.disk(k);
        if 200 <= code <= 299 then t == Trace(Delivered, k + 1, now)
        else if (code == 401 || code == 403) && disk.Found? && disk.meta.secret != "" && disk.meta.secret != now.secret
        then t == DeliverFrom(w, k + 1, disk.meta.secret, Meta(now.apiKey, disk.meta.secret))
        else t == Trace(Dropped(code), k + 1, now)
  {
    OutageIsRiddenOut(w, 0, k, captured, mem);
  }

  /** The first refusal, after any outage, with the server's secret on disk: the next post is delivered if and only if
      the secret in memory is not already that one; if it is, the event is dropped on the spot. */
  lemma RefusalRecoversIff(w: World, k: nat, captured: string, mem: Meta, server: string)
    requires k + 1 < 6 && forall j | 0 <= j < k :: Down(w.reply(j, captured))
    requires w.reply(k, captured) == Status(401) || w.reply(k, captured) == Status(403)
    requires w.disk(k).Found? && w.disk(k).meta.secret == server != ""
    requires w.reply(k + 1, server).Status? && 200 <= w.reply(k + 1, server).code <= 299
    ensures var t := DeliverFrom(w, 0, captured, mem);
      && (t.end == Delivered <==> MemoryAt(w, k, mem).secret != server)
      && (t.end == Delivered ==> t.posts == k + 2)
      && (t.end != Delivered ==> t.end == Dropped(w.reply(k, captured).code) && t.posts == k + 1)
  {
    OutageIsRiddenOut(w, 0, k, captured, mem);
    if MemoryAt(w, k, mem).secret != server {
      assert DeliverFrom(w, k + 1, server, Reloaded(MemoryAt(w, k, mem), w.disk(k))).end == Delivered;
    }
  }

  /** A refusal at the last attempt refreshes the memory but the event is given up. */
  lemma RefusalAtTheEnd(w: World, captured: string, mem: Meta)
    requires forall j | 0 <= j < 5 :: Down(w.reply(j, captured))
    requires w.reply(5, captured) == Status(401) || w.reply(5, captured) == Status(403)
    requires w.disk(5).Found? && w.disk(5).meta.secret != "" && w.disk(5).meta.secret != MemoryAt(w, 5, mem).secret
    ensures var t := DeliverFrom(w, 0, captured, mem);
      t.end == Exhausted && t.posts == 6 && t.mem.secret == w.disk(5).meta.secret
  {
    OutageIsRiddenOut(w, 0, 5, captured, mem);
  }

  // ---------------------------------------------------------------- a server that is up

  /** The server is up, refuses exactly the wrong signature, and its secret is on disk. */
  ghost predicate Healthy(w: World, server: string) {
    && server != ""
    && (forall j, s :: if s == server then w.reply(j, s).Status? && 200 <= w.reply(j, s).code <= 299 else w.reply(j, s) == Status(401))
    && (forall j :: w.disk(j).Found? && w.disk(j).meta.secret == server)
    && (forall j :: w.others(j) == None)
  }

  /** With a healthy server a delivery needs one post with the right secret; with a stale one it needs two, and gets
      through exactly if the memory was as stale as it. */
  lemma HealthyDelivery(w: World, captured: string, mem: Meta, server: string)
    requires Healthy(w, server)
    ensures var t := DeliverFrom(w, 0, captured, mem);
      if captured == server then t == Trace(Delivered, 1, mem)
      else if mem.secret != server then t == Trace(Delivered, 2, mem.(secret := server))
      else t == Trace(Dropped(401), 1, mem)
  {
    if captured != server {
      RefusalRecoversIff(w, 0, captured, mem, server);
    }
  }

  /** So of two events that captured the same stale secret the first gets through and, by refreshing the memory, makes
      the second be dropped. */
  lemma SecondStaleEventIsLost(w: World, stale: string, apiKey: string, server: string)
    requires Healthy(w, server) && stale != server
    ensures var first := DeliverFrom(w, 0, stale, Meta(apiKey, stale));
      && first.end == Delivered
      && DeliverFrom(w, 0, stale, first.mem).end == Dropped(401)
  {
    HealthyDelivery(w, stale, Meta(apiKey, stale), server);
    HealthyDelivery(w, stale, Meta(apiKey, server), server);
  }
}
