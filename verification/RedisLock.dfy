/** The owner-token lease of pkg/database/redis/redis_redsync.go. Each Lua script is one atomic
    step on the server; time is one clock in milliseconds. */
module RedisLock {
  import opened Common

  type Key = string
  type Id = string

  const TOLERANCE: nat := 500
  const MILLIS_PER_SECOND: nat := 1000
  const UINT32: nat := 0x1_0000_0000

  /** A key set with PX: it is gone once the clock reaches expireAt. */
  datatype Entry = Entry(value: Id, expireAt: nat)
  type Store = map<Key, Entry>

  function Get(store: Store, now: nat, key: Key): Option<Id> {
    if key in store && now < store[key].expireAt then Some(store[key].value) else None
  }

  /** lockCommand: renew a key that holds id, otherwise SET NX. */
  function LockScript(store: Store, now: nat, key: Key, id: Id, px: nat): (Store, bool) {
    if Get(store, now, key) == Some(id) then (store[key := Entry(id, now + px)], true)
    else if Get(store, now, key) == None then (store[key := Entry(id, now + px)], true)
    else (store, false)
  }

  /** delCommand: delete the key if it holds id. */
  function DelScript(store: Store, now: nat, key: Key, id: Id): (Store, bool) {
    if Get(store, now, key) == Some(id) then (store - {key}, true) else (store, false)
  }

  /** What becomes of a call: Eval returns an error when the request or the reply is lost. */
  datatype Net = Answered | RequestLost | ReplyLost

  datatype Reply = Done(ok: bool) | Failed

  function LockCall(store: Store, now: nat, key: Key, id: Id, px: nat, net: Net): (Store, Reply) {
    var (after, ok) := LockScript(store, now, key, id, px);
    match net
    case Answered => (after, Done(ok))
    case RequestLost => (store, Failed)
    case ReplyLost => (after, Failed)
  }

  function DelCall(store: Store, now: nat, key: Key, id: Id, net: Net): (Store, Reply) {
    var (after, ok) := DelScript(store, now, key, id);
    match net
    case Answered => (after, Done(ok))
    case RequestLost => (store, Failed)
    case ReplyLost => (after, Failed)
  }

  function LeaseMillis(seconds: nat): nat { seconds * MILLIS_PER_SECOND + TOLERANCE }

  // ----- the objects

  class Server {
    var now: nat
    var store: Store

    method EvalLock(key: Key, id: Id, px: nat) returns (ok: bool)
      modifies this`store
      ensures (store, ok) == LockScript(old(store), now, key, id, px)
    {
      if Get(store, now, key) == Some(id) {
        store := store[key := Entry(id, now + px)];
        ok := true;
      } else if key in store && now < store[key].expireAt {
        ok := false;
      } else {
        store := store[key := Entry(id, now + px)];
        ok := true;
      }
    }

    method EvalDel(key: Key, id: Id) returns (deleted: nat)
      modifies this`store
      ensures (store, deleted == 1) == DelScript(old(store), now, key, id)
    {
      if Get(store, now, key) == Some(id) {
        store := store - {key};
        deleted := 1;
      } else {
        deleted := 0;
      }
    }
  }

  class Lock {
    const server: Server
    const key: Key
    const id: Id
    var seconds: nat

    constructor (server: Server, key: Key, id: Id)
      ensures this.server == server && this.key == key && this.id == id && seconds == 0
    {
      this.server, this.key, this.id, this.seconds := server, key, id, 0;
    }

    method Acquire(net: Net) returns (ok: bool, err: bool)
      modifies server`store
      ensures var (store, reply) := LockCall(old(server.store), server.now, key, id, LeaseMillis(seconds), net);
        server.store == store && ok == (reply == Done(true)) && err == reply.Failed?
      ensures ok ==> server.store == old(server.store)[key := Entry(id, server.now + 1000 * seconds + 500)]
    {
      if net.RequestLost? {
        return false, true;
      }
      var resp := server.EvalLock(key, id, seconds * MILLIS_PER_SECOND + TOLERANCE);
      if net.ReplyLost? {
        return false, true;
      }
      return resp, false;
    }

    method Release(net: Net) returns (ok: bool, err: bool)
      modifies server`store
      ensures var (store, reply) := DelCall(old(server.store), server.now, key, id, net);
        server.store == store && ok == (reply == Done(true)) && err == reply.Failed?
    {
      if net.RequestLost? {
        return false, true;
      }
      var reply := server.EvalDel(key, id);
      if net.ReplyLost? {
        return false, true;
      }
      return reply == 1, false;
    }

    /** atomic.StoreUint32(&rl.seconds, uint32(seconds)): the conversion wraps around. */
    method SetExpire(s: int)
      modifies this`seconds
      ensures seconds == s % 4294967296
    {
      seconds := s % UINT32;
    }
  }

  // ----- runs of any number of clients

  datatype Client = Client(key: Key, id: Id)

  /** lease[c] is the instant until which client c may rely on its last successful Acquire; a client that
      has released, or whose last call failed, has no lease. The latter are unsure: they may hold the key. */
  datatype World = World(now: nat, store: Store, seconds: seq<nat>, lease: map<nat, nat>, unsure: set<nat>)

  datatype Step = Tick(millis: nat) | SetExpire(c: nat, s: int) | Acquire(c: nat, net: Net) | Release(c: nat, net: Net)

  predicate Allowed(clients: seq<Client>, step: Step) {
    step.Tick? || step.c < |clients|
  }

  function Init(clients: seq<Client>): World {
    World(0, map[], seq(|clients|, _ => 0), map[], {})
  }

  /** What a failed call leaves its caller. */
  function Unsure(w: World, store: Store, c: nat): World {
    w.(store := store, lease := w.lease - {c}, unsure := w.unsure + {c})
  }

  /** The world after a step, and the reply its caller gets. */
  function Next(clients: seq<Client>, w: World, step: Step): (World, Reply)
    requires Allowed(clients, step) && |w.seconds| == |clients|
  {
    match step
    case Tick(d) => (w.(now := w.now + d), Done(true))
    case SetExpire(c, s) => (w.(seconds := w.seconds[c := s % UINT32]), Done(true))
    case Acquire(c, net) =>
      var px := LeaseMillis(w.seconds[c]);
      var (store, reply) := LockCall(w.store, w.now, clients[c].key, clients[c].id, px, net);
      if reply.Failed? then (Unsure(w, store, c), reply)
      else
        var lease := if reply.ok then w.lease[c := w.now + px] else w.lease;
        (w.(store := store, lease := lease, unsure := w.unsure - {c}), reply)
    case Release(c, net) =>
      var (store, reply) := DelCall(w.store, w.now, clients[c].key, clients[c].id, net);
      if reply.Failed? then (Unsure(w, store, c), reply)
      else (w.(store := store, lease := w.lease - {c}, unsure := w.unsure - {c}), reply)
  }

  function Run(clients: seq<Client>, w: World, steps: seq<Step>): (w': World)
    requires |w.seconds| == |clients| && forall step <- steps :: Allowed(clients, step)
    ensures |w'.seconds| == |clients|
    decreases |steps|
  {
    if steps == [] then w else Run(clients, Next(clients, w, steps[0]).0, steps[1..])
  }

  predicate Running(w: World, c: nat) {
    c in w.lease && w.now < w.lease[c]
  }

  /** Random ids did not coincide on one key. */
  ghost predicate DistinctIds(clients: seq<Client>) {
    forall c, d | 0 <= c < d < |clients| && clients[c].key == clients[d].key :: clients[c].id != clients[d].id
  }

  /** Two clients never rely on the same key at once. */
  ghost predicate Exclusive(clients: seq<Client>, w: World) {
    forall c, d | 0 <= c < d < |clients| && clients[c].key == clients[d].key :: !(Running(w, c) && Running(w, d))
  }

  /** c may be the owner of a live entry. */
  predicate MayHold(w: World, c: nat) { Running(w, c) || c in w.unsure }

  ghost predicate Owned(clients: seq<Client>, w: World, k: Key, id: Id) {
    exists c :: 0 <= c < |clients| && clients[c] == Client(k, id) && MayHold(w, c)
  }

  /** The server and the clients agree: a running lease is a live entry that ends at the same instant, and
      the other live entries are those of unsure clients. */
  ghost predicate Agree(clients: seq<Client>, w: World) {
    && |w.seconds| == |clients|
    && (forall c | 0 <= c < |clients| && Running(w, c) ::
          clients[c].key in w.store && w.store[clients[c].key] == Entry(clients[c].id, w.lease[c]))
    && forall k | k in w.store && w.now < w.store[k].expireAt :: Owned(clients, w, k, w.store[k].value)
  }

  /** Entries and leases only end as time passes, both at the same instant. */
  lemma TickAgrees(clients: seq<Client>, w: World, millis: nat)
    requires Agree(clients, w)
    ensures Agree(clients, w.(now := w.now + millis))
  {
    var later := w.(now := w.now + millis);
    forall k | k in w.store && later.now < w.store[k].expireAt
      ensures Owned(clients, later, k, w.store[k].value)
    {
      assert Owned(clients, w, k, w.store[k].value);
      var c :| 0 <= c < |clients| && clients[c] == Client(k, w.store[k].value) && MayHold(w, c);
      assert MayHold(later, c);
    }
  }

  /** Entries of other keys keep their owners when c makes a call on its key. */
  lemma OthersKeepOwners(clients: seq<Client>, w: World, v: World, c: nat, k: Key)
    requires c < |clients| && v.now == w.now && (forall d | d != c :: Running(w, d) ==> Running(v, d))
    requires w.unsure - {c} <= v.unsure
    requires k in w.store && w.now < w.store[k].expireAt && (k != clients[c].key || w.store[k].value != clients[c].id)
    requires Agree(clients, w)
    ensures Owned(clients, v, k, w.store[k].value)
  {
    assert Owned(clients, w, k, w.store[k].value);
    var d :| 0 <= d < |clients| && clients[d] == Client(k, w.store[k].value) && MayHold(w, d);
    assert MayHold(v, d);
  }

  lemma AcquireAgrees(clients: seq<Client>, w: World, c: nat, net: Net)
    requires DistinctIds(clients) && Agree(clients, w) && c < |clients|
    ensures Agree(clients, Next(clients, w, Acquire(c, net)).0)
  {
    var key, id := clients[c].key, clients[c].id;
    var v := Next(clients, w, Acquire(c, net)).0;
    forall d | 0 <= d < |clients| && Running(v, d)
      ensures clients[d].key in v.store && v.store[clients[d].key] == Entry(clients[d].id, v.lease[d])
    {
      if d != c {
        assert Running(w, d);
        assert clients[d].key == key ==> Get(w.store, w.now, key) == Some(clients[d].id) != Some(id);
      }
    }
    forall k | k in v.store && v.now < v.store[k].expireAt
      ensures Owned(clients, v, k, v.store[k].value)
    {
      if k == key && v.store[k].value == id {
        assert MayHold(v, c);
      } else {
        OthersKeepOwners(clients, w, v, c, k);
      }
    }
  }

  lemma ReleaseAgrees(clients: seq<Client>, w: World, c: nat, net: Net)
    requires DistinctIds(clients) && Agree(clients, w) && c < |clients|
    ensures Agree(clients, Next(clients, w, Release(c, net)).0)
  {
    var key, id := clients[c].key, clients[c].id;
    var v := Next(clients, w, Release(c, net)).0;
    forall d | 0 <= d < |clients| && Running(v, d)
      ensures clients[d].key in v.store && v.store[clients[d].key] == Entry(clients[d].id, v.lease[d])
    {
      assert d != c && Running(w, d);
      assert clients[d].key == key ==> Get(w.store, w.now, key) == Some(clients[d].id) != Some(id);
    }
    forall k | k in v.store && v.now < v.store[k].expireAt
      ensures Owned(clients, v, k, v.store[k].value)
    {
      if k == key && v.store[k].value == id {
        assert MayHold(v, c);
      } else {
        OthersKeepOwners(clients, w, v, c, k);
      }
    }
  }

  lemma StepAgrees(clients: seq<Client>, w: World, step: Step)
    requires DistinctIds(clients) && Agree(clients, w) && Allowed(clients, step)
    ensures Agree(clients, Next(clients, w, step).0)
  {
    match step
    case Tick(d) => TickAgrees(clients, w, d);
    case SetExpire(c, s) =>
      var v := Next(clients, w, step).0;
      assert forall c :: MayHold(v, c) == MayHold(w, c);
      assert forall k, id :: Owned(clients, w, k, id) ==> Owned(clients, v, k, id);
    case Acquire(c, net) => AcquireAgrees(clients, w, c, net);
    case Release(c, net) => ReleaseAgrees(clients, w, c, net);
  }

  lemma {:induction false} RunAgrees(clients: seq<Client>, w: World, steps: seq<Step>)
    requires DistinctIds(clients) && Agree(clients, w)
    requires forall step <- steps :: Allowed(clients, step)
    ensures Agree(clients, Run(clients, w, steps))
    decreases |steps|
  {
    if steps != [] {
      StepAgrees(clients, w, steps[0]);
      RunAgrees(clients, Next(clients, w, steps[0]).0, steps[1..]);
    }
  }

  predicate Rivals(clients: seq<Client>, c: nat, d: nat)
    requires c < |clients|
  {
    d < |clients| && d != c && clients[d].key == clients[c].key
  }

  ghost predicate OtherRuns(clients: seq<Client>, w: World, c: nat)
    requires c < |clients|
  {
    exists d: nat :: Rivals(clients, c, d) && Running(w, d)
  }

  ghost predicate OtherMayHold(clients: seq<Client>, w: World, c: nat)
    requires c < |clients|
  {
    exists d: nat :: Rivals(clients, c, d) && MayHold(w, d)
  }

  /** At any point of any run, failures included: an answered Acquire is refused when another client of the
      key has a running lease, and only when another client may hold it; an answered Release deletes when
      the caller's lease is running, and only when the caller may hold the key; a Release of a client that
      cannot hold the key changes nothing on the server. */
  lemma RepliesAreBounded(clients: seq<Client>, steps: seq<Step>, c: nat)
    requires DistinctIds(clients) && c < |clients|
    requires forall step <- steps :: Allowed(clients, step)
    ensures var w := Run(clients, Init(clients), steps);
      var acquired := Next(clients, w, Acquire(c, Answered)).1;
      var released := Next(clients, w, Release(c, Answered)).1;
      && (OtherRuns(clients, w, c) ==> acquired == Done(false))
      && (acquired == Done(false) ==> OtherMayHold(clients, w, c))
      && (Running(w, c) ==> released == Done(true))
      && (released == Done(true) ==> MayHold(w, c))
      && (!MayHold(w, c) ==> forall net :: Next(clients, w, Release(c, net)).0.store == w.store)
  {
    RunAgrees(clients, Init(clients), steps);
    var w := Run(clients, Init(clients), steps);
    var k := clients[c].key;
    if k in w.store && w.now < w.store[k].expireAt {
      assert Owned(clients, w, k, w.store[k].value);
      var d :| 0 <= d < |clients| && clients[d] == Client(k, w.store[k].value) && MayHold(w, d);
      assert d != c ==> Rivals(clients, c, d);
    }
  }

  predicate AllAnswered(steps: seq<Step>) {
    forall step <- steps :: (step.Acquire? || step.Release?) ==> step.net.Answered?
  }

  lemma {:induction false} AnsweredIsSure(clients: seq<Client>, w: World, steps: seq<Step>)
    requires w.unsure == {} && |w.seconds| == |clients| && AllAnswered(steps)
    requires forall step <- steps :: Allowed(clients, step)
    ensures Run(clients, w, steps).unsure == {}
    decreases |steps|
  {
    if steps != [] {
      assert steps[0] in steps;
      AnsweredIsSure(clients, Next(clients, w, steps[0]).0, steps[1..]);
    }
  }

  /** Without failures: Acquire succeeds exactly when no other client of the key has a running lease, Release
      deletes exactly when the caller's own lease is running, and a Release that does not delete changes
      nothing on the server. */
  lemma RepliesAreExact(clients: seq<Client>, steps: seq<Step>, c: nat)
    requires DistinctIds(clients) && c < |clients| && AllAnswered(steps)
    requires forall step <- steps :: Allowed(clients, step)
    ensures var w := Run(clients, Init(clients), steps);
      && (Next(clients, w, Acquire(c, Answered)).1 == Done(!OtherRuns(clients, w, c)))
      && (Next(clients, w, Release(c, Answered)).1 == Done(Running(w, c)))
      && (!Running(w, c) ==> Next(clients, w, Release(c, Answered)).0.store == w.store)
  {
    RepliesAreBounded(clients, steps, c);
    AnsweredIsSure(clients, Init(clients), steps);
  }

  /** A running lease survives every step of every other client, failed ones included. */
  lemma OthersCannotEndALease(clients: seq<Client>, steps: seq<Step>, c: nat, step: Step)
    requires DistinctIds(clients) && c < |clients| && Allowed(clients, step)
    requires forall s <- steps :: Allowed(clients, s)
    requires !step.Tick? && step.c != c
    ensures var w := Run(clients, Init(clients), steps);
      Running(w, c) ==>
        var w' := Next(clients, w, step).0;
        Running(w', c) && Get(w'.store, w'.now, clients[c].key) == Some(clients[c].id)
  {
    RunAgrees(clients, Init(clients), steps);
    StepAgrees(clients, Run(clients, Init(clients), steps), step);
  }

  // ----- how long a lease runs

  /** The seconds that client c set last; none at first. */
  function LastExpire(steps: seq<Step>, c: nat): int {
    if steps == [] then 0
    else
      var last := steps[|steps| - 1];
      if last.SetExpire? && last.c == c then last.s else LastExpire(steps[..|steps| - 1], c)
  }

  lemma {:induction false} RunAppend(clients: seq<Client>, w: World, steps: seq<Step>, more: seq<Step>)
    requires |w.seconds| == |clients| && forall step <- steps + more :: Allowed(clients, step)
    ensures (forall step <- steps :: Allowed(clients, step)) && (forall step <- more :: Allowed(clients, step))
    ensures Run(clients, w, steps + more) == Run(clients, Run(clients, w, steps), more)
    decreases |steps|
  {
    assert forall step <- steps :: step in steps + more;
    assert forall step <- more :: step in steps + more;
    if steps == [] {
      NothingAdded(more);
    } else {
      TailOfSum(steps, more);
      RunAppend(clients, Next(clients, w, steps[0]).0, steps[1..], more);
    }
  }

  lemma {:induction false} RunOne(clients: seq<Client>, w: World, step: Step)
    requires |w.seconds| == |clients| && Allowed(clients, step)
    ensures Run(clients, w, [step]) == Next(clients, w, step).0
  {
    var next := Next(clients, w, step).0;
    assert [step][1..] == [] && Run(clients, next, []) == next;
  }

  lemma {:induction false} SecondsAreLast(clients: seq<Client>, steps: seq<Step>, c: nat)
    requires c < |clients| && forall step <- steps :: Allowed(clients, step)
    ensures Run(clients, Init(clients), steps).seconds[c] == LastExpire(steps, c) % 4294967296
    decreases |steps|
  {
    hide Next;
    if steps != [] {
      var init, last := steps[..|steps| - 1], steps[|steps| - 1];
      CutAt(steps, |steps| - 1);
      assert steps == init + [last];
      RunAppend(clients, Init(clients), init, [last]);
      SecondsAreLast(clients, init, c);
      var w := Run(clients, Init(clients), init);
      RunOne(clients, w, last);
      SecondsAfter(clients, w, last, c);
    }
  }

  lemma SecondsAfter(clients: seq<Client>, w: World, step: Step, c: nat)
    requires |w.seconds| == |clients| && c < |clients| && Allowed(clients, step)
    ensures Next(clients, w, step).0.seconds[c]
         == if step.SetExpire? && step.c == c then step.s % 4294967296 else w.seconds[c]
  {
  }

  predicate ByOthers(steps: seq<Step>, c: nat) { forall step <- steps :: step.Tick? || step.c != c }

  lemma {:induction false} OthersLeaveLease(clients: seq<Client>, w: World, steps: seq<Step>, c: nat)
    requires |w.seconds| == |clients| && forall step <- steps :: Allowed(clients, step)
    requires ByOthers(steps, c) && c in w.lease
    ensures var v := Run(clients, w, steps); c in v.lease && v.lease[c] == w.lease[c]
    decreases |steps|
  {
    if steps != [] {
      assert steps[0] in steps;
      OthersLeaveLease(clients, Next(clients, w, steps[0]).0, steps[1..], c);
    }
  }

  /** On every run: a lease that is acquired runs for 1000 milliseconds for every second that was set last
      (modulo 2 to the 32) and for 500 more. However often others call meanwhile, the key holds the client's
      id until then, and the client relies on it exactly so long. */
  lemma LeaseRunsItsTime(clients: seq<Client>, steps: seq<Step>, c: nat, later: seq<Step>)
    requires DistinctIds(clients) && c < |clients| && ByOthers(later, c)
    requires (forall step <- steps :: Allowed(clients, step)) && (forall step <- later :: Allowed(clients, step))
    ensures var w := Run(clients, Init(clients), steps);
      var (acquired, reply) := Next(clients, w, Acquire(c, Answered));
      var v := Run(clients, acquired, later);
      var end := w.now + 1000 * (LastExpire(steps, c) % 4294967296) + 500;
      reply == Done(true) ==>
        && (Running(v, c) <==> v.now < end)
        && (v.now < end ==> Get(v.store, v.now, clients[c].key) == Some(clients[c].id))
        && acquired.store[clients[c].key].expireAt == end
  {
    SecondsAreLast(clients, steps, c);
    RunAgrees(clients, Init(clients), steps);
    var w := Run(clients, Init(clients), steps);
    AcquireAgrees(clients, w, c, Answered);
    var (acquired, reply) := Next(clients, w, Acquire(c, Answered));
    RunAgrees(clients, acquired, later);
    hide Run, LastExpire, DistinctIds;
    if reply == Done(true) {
      OthersLeaveLease(clients, acquired, later, c);
    }
  }

  /** Mutual exclusion over every run, failures included, holds if and only if the random ids are distinct
      per key. */
  lemma ExclusiveIffDistinctIds(clients: seq<Client>)
    ensures DistinctIds(clients) <==>
      forall steps | forall step <- steps :: Allowed(clients, step) ::
        Exclusive(clients, Run(clients, Init(clients), steps))
  {
    if DistinctIds(clients) {
      forall steps | forall step <- steps :: Allowed(clients, step)
        ensures Exclusive(clients, Run(clients, Init(clients), steps))
      {
        RunAgrees(clients, Init(clients), steps);
      }
    } else {
      var c, d :| 0 <= c < d < |clients| && clients[c].key == clients[d].key && clients[c].id == clients[d].id;
      var first, second := Acquire(c, Answered), Acquire(d, Answered);
      var steps := [first, second];
      var w := Next(clients, Init(clients), first).0;
      var w' := Next(clients, w, second).0;
      assert Run(clients, Init(clients), steps) == w' by {
        assert steps[1..] == [second] && steps[1..][1..] == [];
        assert Run(clients, w', []) == w';
        assert Run(clients, w, [second]) == w';
      }
      assert Running(w', c) && Running(w', d);
    }
  }
}
