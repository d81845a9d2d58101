/** The Postgres job queue of pkg/event/pgsql.go as a table, a set of worker goroutines with one
    semaphore per subscription, and the steps that they and the database take. Database errors,
    lost replies and process crashes are steps too. */
module PgQueue {
  import opened Common

  const MAX_ATTEMPTS: nat := 5
  const LOCK_MILLIS: nat := 300_000

  datatype Status = Available | Locked | Failed

  datatype Row = Row(topic: string, status: Status, createdAt: int, lockedUntil: Option<int>, attempts: nat)
  type Table = map<nat, Row>

  // ----- the statements

  /** UPDATE ... SET status = 'locked', ... WHERE id = (the selected row). */
  function LockRow(rows: Table, id: nat, now: int): Table
    requires id in rows
  {
    rows[id := rows[id].(status := Locked, lockedUntil := Some(now + LOCK_MILLIS), attempts := rows[id].attempts + 1)]
  }

  /** The UPDATE of releaseOrMarkFailed; without a row of that id it changes nothing. */
  function ReleaseRow(rows: Table, id: nat, attempts: nat): Table {
    if id !in rows then rows
    else if attempts >= MAX_ATTEMPTS then rows[id := rows[id].(status := Failed)]
    else rows[id := rows[id].(status := Available, lockedUntil := None)]
  }

  predicate Selectable(rows: Table, topic: string, skipped: set<nat>, id: nat) {
    id in rows && rows[id].topic == topic && rows[id].status == Available && id !in skipped
  }

  /** What fetchAndLockJob does: some row is fetched exactly when one can be selected, and then an oldest
      one; it is locked, and its attempts are counted before it runs. */
  ghost predicate Fetches(before: Table, topic: string, skipped: set<nat>, now: int, job: Option<(nat, nat)>,
      after: Table) {
    && (job.None? <==> forall id :: !Selectable(before, topic, skipped, id))
    && (job.None? ==> after == before)
    && (job.Some? ==>
          var (id, attempts) := job.value;
          && IsOldest(before, topic, skipped, id)
          && after == LockRow(before, id, now)
          && attempts == before[id].attempts + 1)
  }

  /** ORDER BY created_at LIMIT 1 FOR UPDATE SKIP LOCKED, among the available rows of the topic. */
  ghost predicate IsOldest(rows: Table, topic: string, skipped: set<nat>, id: nat) {
    && Selectable(rows, topic, skipped, id)
    && forall k | Selectable(rows, topic, skipped, k) :: rows[id].createdAt <= rows[k].createdAt
  }

  lemma {:induction false} OldestExists(rows: Table, ids: set<nat>) returns (id: nat)
    requires ids != {} && ids <= rows.Keys
    ensures id in ids && forall k | k in ids :: rows[id].createdAt <= rows[k].createdAt
    decreases |ids|
  {
    var x :| x in ids;
    if ids == {x} {
      id := x;
    } else {
      var y := OldestExists(rows, ids - {x});
      id := if rows[x].createdAt <= rows[y].createdAt then x else y;
    }
  }

  /** The table that all workers share, with the client's statements as methods. */
  class EventTable {
    var rows: Table
    var nextId: nat

    ghost predicate Valid()
      reads this
    {
      forall id | id in rows :: id < nextId
    }

    method Pub(topic: string, at: int) returns (id: nat)
      requires Valid()
      modifies this
      ensures Valid() && id !in old(rows) && rows == old(rows)[id := Row(topic, Available, at, None, 0)]
    {
      id := nextId;
      rows := rows[id := Row(topic, Available, at, None, 0)];
      nextId := nextId + 1;
    }

    /** skipped are the rows that other open transactions have locked. */
    method FetchAndLockJob(topic: string, skipped: set<nat>, now: int) returns (job: Option<(nat, nat)>)
      requires Valid()
      modifies this`rows
      ensures Valid() && Fetches(old(rows), topic, skipped, now, job, rows)
    {
      var next := set id | id in rows && Selectable(rows, topic, skipped, id);
      if next == {} {
        assert forall id :: Selectable(rows, topic, skipped, id) ==> id in next;
        return None;
      }
      ghost var oldest := OldestExists(rows, next);
      var id :| id in next && forall k | k in next :: rows[id].createdAt <= rows[k].createdAt;
      assert forall k :: Selectable(rows, topic, skipped, k) ==> k in next;
      var row := rows[id];
      rows := rows[id := row.(status := Locked, lockedUntil := Some(now + LOCK_MILLIS), attempts := row.attempts + 1)];
      job := Some((id, row.attempts + 1));
    }

    method DeleteJob(id: nat)
      requires Valid()
      modifies this`rows
      ensures Valid() && rows == old(rows) - {id}
    {
      rows := rows - {id};
    }

    method ReleaseOrMarkFailed(id: nat, attempts: nat)
      requires Valid()
      modifies this`rows
      ensures Valid() && rows == ReleaseRow(old(rows), id, attempts)
      ensures rows.Keys == old(rows).Keys && forall k | k in rows && k != id :: rows[k] == old(rows)[k]
      ensures id in rows && attempts < 5 ==> rows[id] == old(rows)[id].(status := Available, lockedUntil := None)
      ensures id in rows && attempts >= 5 ==> rows[id] == old(rows)[id].(status := Failed)
    {
      var maxAttempts := MAX_ATTEMPTS;
      if id in rows {
        if attempts >= maxAttempts {
          rows := rows[id := rows[id].(status := Failed)];
        } else {
          rows := rows[id := rows[id].(status := Available, lockedUntil := None)];
        }
      }
    }
  }

  // ----- workers and their steps

  datatype Sub = Sub(topic: string, maxInFlight: nat)

  /** A worker goroutine holds a semaphore slot of its subscription in every phase. Picked is the
      database transaction between SELECT ... FOR UPDATE and its commit. */
  datatype Worker =
    | Fetching(sub: nat)
    | Picked(sub: nat, job: nat)
    | Handling(sub: nat, job: nat, attempts: nat)
    | Reporting(sub: nat, job: nat, attempts: nat, ok: bool)
  {
    predicate Holds(id: nat) { !Fetching? && job == id }
  }

  /** nextId, runs, total, done and deleted record history: the ids given out, how often each row's
      handler was started, and which rows were handled successfully and which were deleted. */
  datatype State = State(
    now: int, rows: Table, nextId: nat, subs: seq<Sub>, slots: seq<nat>, workers: map<nat, Worker>,
    runs: map<nat, nat>, total: nat, done: set<nat>, deleted: set<nat>)

  datatype Step =
    | Tick(millis: nat)
    | Pub(topic: string, createdAt: int)
    | Spawn(sub: nat, w: nat)
    | Pick(w: nat, id: nat)
    | GiveUp(w: nat)               // no row, or the query failed before its commit
    | Commit(w: nat)
    | CommitUnseen(w: nat)         // the commit took effect but its reply was lost
    | HandlerDone(w: nat, ok: bool)
    | Report(w: nat)
    | ReportLost(w: nat)           // the DELETE or UPDATE failed; the error is only logged
    | Crash(sub: nat)              // the process of a subscription dies with all its workers

  /** The rows that the workers hold, and other transactions skip. */
  function Held(s: State): set<nat> { set w | w in s.workers && !s.workers[w].Fetching? :: s.workers[w].job }

  ghost predicate Enabled(s: State, step: Step) {
    match step
    case Tick(_) => true
    case Pub(_, _) => true
    case Spawn(sub, w) => sub < |s.subs| == |s.slots| && s.slots[sub] < s.subs[sub].maxInFlight && w !in s.workers
    case Pick(w, id) =>
      && w in s.workers && s.workers[w].Fetching? && s.workers[w].sub < |s.subs|
      && IsOldest(s.rows, s.subs[s.workers[w].sub].topic, Held(s), id)
    case GiveUp(w) => w in s.workers && (s.workers[w].Fetching? || s.workers[w].Picked?)
    case Commit(w) => w in s.workers && s.workers[w].Picked? && s.workers[w].job in s.rows
    case CommitUnseen(w) => w in s.workers && s.workers[w].Picked? && s.workers[w].job in s.rows
    case HandlerDone(w, _) => w in s.workers && s.workers[w].Handling?
    case Report(w) => w in s.workers && s.workers[w].Reporting?
    case ReportLost(w) => w in s.workers && s.workers[w].Reporting?
    case Crash(sub) => sub < |s.slots|
  }

  /** The worker returns: its goroutine ends and `<-semaphore` frees its slot. */
  function Exit(s: State, w: nat): State
    requires w in s.workers
  {
    var sub := s.workers[w].sub;
    s.(workers := s.workers - {w},
       slots := if sub < |s.slots| && s.slots[sub] > 0 then s.slots[sub := s.slots[sub] - 1] else s.slots)
  }

  function RunsOf(s: State, id: nat): nat { if id in s.runs then s.runs[id] else 0 }

  ghost function Next(s: State, step: Step): State
    requires Enabled(s, step)
  {
    match step
    case Tick(d) => s.(now := s.now + d)
    case Pub(topic, at) =>
      s.(rows := s.rows[s.nextId := Row(topic, Available, at, None, 0)], nextId := s.nextId + 1)
    case Spawn(sub, w) =>
      s.(slots := s.slots[sub := s.slots[sub] + 1], workers := s.workers[w := Fetching(sub)])
    case Pick(w, id) => s.(workers := s.workers[w := Picked(s.workers[w].sub, id)])
    case GiveUp(w) => Exit(s, w)
    case Commit(w) =>
      var id := s.workers[w].job;
      s.(rows := LockRow(s.rows, id, s.now),
         workers := s.workers[w := Handling(s.workers[w].sub, id, s.rows[id].attempts + 1)],
         runs := s.runs[id := RunsOf(s, id) + 1],
         total := s.total + 1)
    case CommitUnseen(w) => Exit(s.(rows := LockRow(s.rows, s.workers[w].job, s.now)), w)
    case HandlerDone(w, ok) =>
      var h := s.workers[w];
      s.(workers := s.workers[w := Reporting(h.sub, h.job, h.attempts, ok)],
         done := if ok then s.done + {h.job} else s.done)
    case Report(w) =>
      var h := s.workers[w];
      if h.ok then Exit(s.(rows := s.rows - {h.job}, deleted := s.deleted + {h.job}), w)
      else Exit(s.(rows := ReleaseRow(s.rows, h.job, h.attempts)), w)
    case ReportLost(w) => Exit(s, w)
    case Crash(sub) =>
      s.(workers := map w | w in s.workers && s.workers[w].sub != sub :: s.workers[w], slots := s.slots[sub := 0])
  }

  function Init(subs: seq<Sub>): State {
    State(0, map[], 0, subs, seq(|subs|, _ => 0), map[], map[], 0, {}, {})
  }

  /** The states that a run of steps goes through, each step enabled where it is taken. */
  ghost predicate IsRun(s: State, steps: seq<Step>, t: State)
    decreases |steps|
  {
    if steps == [] then s == t
    else Enabled(s, steps[0]) && IsRun(Next(s, steps[0]), steps[1..], t)
  }

  /** A worker that picks a row and commits does to the table what fetchAndLockJob does. */
  lemma PickThenCommitFetches(s: State, w: nat, id: nat)
    requires Enabled(s, Pick(w, id))
    ensures var picked := Next(s, Pick(w, id));
      && picked.rows == s.rows
      && Enabled(picked, Commit(w))
      && var fetched := Next(picked, Commit(w));
         var h := fetched.workers[w];
         && h.Handling?
         && Fetches(s.rows, s.subs[s.workers[w].sub].topic, Held(s), s.now, Some((h.job, h.attempts)), fetched.rows)
  {
  }

  // ----- what every step keeps

  /** The table: ids are those given out, attempts are bounded, and handler runs are counted by them. */
  ghost predicate TableInv(s: State) {
    && (forall id | id in s.rows :: id < s.nextId && RunsOf(s, id) <= s.rows[id].attempts <= MAX_ATTEMPTS)
    && (forall id | id in s.rows && s.rows[id].status == Available :: s.rows[id].attempts < MAX_ATTEMPTS)
    && (forall id | id in s.runs :: id < s.nextId && s.runs[id] <= MAX_ATTEMPTS)
  }

  /** A worker's job is a row in the status its phase calls for, and no other worker's. */
  ghost predicate HolderInv(s: State) {
    && (forall w | w in s.workers && s.workers[w].Picked? ::
          s.workers[w].job in s.rows && s.rows[s.workers[w].job].status == Available)
    && (forall w | w in s.workers && (s.workers[w].Handling? || s.workers[w].Reporting?) ::
          s.workers[w].job in s.rows && s.rows[s.workers[w].job].status == Locked
          && s.rows[s.workers[w].job].attempts == s.workers[w].attempts)
    && (forall v, w | v in s.workers && w in s.workers && v != w && !s.workers[v].Fetching? ::
          !s.workers[w].Holds(s.workers[v].job))
  }

  /** Success is final: the row is gone, or locked for good in the hands of nobody who would run it. */
  ghost predicate DoneInv(s: State) {
    && (forall id | id in s.done :: id < s.nextId && (id in s.rows ==> s.rows[id].status == Locked))
    && (forall w | w in s.workers && s.workers[w].Handling? :: s.workers[w].job !in s.done)
    && (forall w | w in s.workers && s.workers[w].Reporting? :: s.workers[w].ok <==> s.workers[w].job in s.done)
  }

  /** Every id given out is in exactly one of the table and the deleted rows, and only a
      successfully handled row is ever deleted. */
  ghost predicate ConservationInv(s: State) {
    && s.deleted <= s.done
    && (forall id :: 0 <= id < s.nextId <==> (id in s.rows || id in s.deleted))
    && (forall id | id in s.rows :: id !in s.deleted)
  }

  function WorkersOf(workers: map<nat, Worker>, sub: nat): set<nat> {
    set w | w in workers && workers[w].sub == sub
  }

  /** The semaphore counts the goroutines that hold its slots. */
  ghost predicate SlotInv(s: State) {
    && |s.slots| == |s.subs|
    && (forall w | w in s.workers :: s.workers[w].sub < |s.subs|)
    && (forall i | 0 <= i < |s.subs| :: s.slots[i] == |WorkersOf(s.workers, i)| <= s.subs[i].maxInFlight)
  }

  ghost predicate Inv(s: State) {
    TableInv(s) && HolderInv(s) && DoneInv(s) && ConservationInv(s) && SlotInv(s)
  }

  lemma CommitKeepsTable(s: State, step: Step)
    requires TableInv(s) && HolderInv(s) && Enabled(s, step)
    requires (step.Commit? || step.CommitUnseen?)
    ensures TableInv(Next(s, step))
  {
  }

  lemma ReportKeepsTable(s: State, step: Step)
    requires TableInv(s) && HolderInv(s) && Enabled(s, step) && step.Report?
    ensures TableInv(Next(s, step))
  {
  }

  lemma OthersKeepTable(s: State, step: Step)
    requires TableInv(s) && HolderInv(s) && Enabled(s, step)
    requires !(step.Commit? || step.CommitUnseen? || step.Report?)
    ensures TableInv(Next(s, step))
  {
  }

  lemma StepKeepsTable(s: State, step: Step)
    requires TableInv(s) && HolderInv(s) && Enabled(s, step)
    ensures TableInv(Next(s, step))
  {
    if step.Commit? || step.CommitUnseen? {
      CommitKeepsTable(s, step);
    } else if step.Report? {
      ReportKeepsTable(s, step);
    } else {
      OthersKeepTable(s, step);
    }
  }

  lemma ReportKeepsHolders(s: State, w: nat)
    requires HolderInv(s) && Enabled(s, Report(w))
    ensures HolderInv(Next(s, Report(w)))
  {
    var id := s.workers[w].job;
    assert forall v | v in s.workers && v != w :: !s.workers[v].Holds(id);
  }

  lemma CommitKeepsHolders(s: State, step: Step)
    requires HolderInv(s) && Enabled(s, step)
    requires (step.Commit? || step.CommitUnseen?)
    ensures HolderInv(Next(s, step))
  {
    var id := s.workers[step.w].job;
    assert forall v | v in s.workers && v != step.w :: !s.workers[v].Holds(id);
  }

  lemma PickKeepsHolders(s: State, w: nat, id: nat)
    requires HolderInv(s) && Enabled(s, Pick(w, id))
    ensures HolderInv(Next(s, Pick(w, id)))
  {
    assert forall v | v in s.workers && !s.workers[v].Fetching? :: s.workers[v].job in Held(s);
  }

  lemma OthersKeepHolders(s: State, step: Step)
    requires TableInv(s) && HolderInv(s) && Enabled(s, step)
    requires !(step.Report? || step.Commit? || step.CommitUnseen? || step.Pick?)
    ensures HolderInv(Next(s, step))
  {
  }

  lemma StepKeepsHolders(s: State, step: Step)
    requires TableInv(s) && HolderInv(s) && Enabled(s, step)
    ensures HolderInv(Next(s, step))
  {
    match step
    case Report(w) => ReportKeepsHolders(s, w);
    case Commit(w) => CommitKeepsHolders(s, step);
    case CommitUnseen(w) => CommitKeepsHolders(s, step);
    case Pick(w, id) => PickKeepsHolders(s, w, id);
    case _ => OthersKeepHolders(s, step);
  }

  lemma CommitKeepsDone(s: State, step: Step)
    requires TableInv(s) && HolderInv(s) && DoneInv(s) && Enabled(s, step)
    requires (step.Commit? || step.CommitUnseen?)
    ensures DoneInv(Next(s, step))
  {
  }

  lemma ReportKeepsDone(s: State, step: Step)
    requires TableInv(s) && HolderInv(s) && DoneInv(s) && Enabled(s, step) && step.Report?
    ensures DoneInv(Next(s, step))
  {
  }

  lemma HandlerDoneKeepsDone(s: State, w: nat, ok: bool)
    requires TableInv(s) && HolderInv(s) && DoneInv(s) && Enabled(s, HandlerDone(w, ok))
    ensures DoneInv(Next(s, HandlerDone(w, ok)))
  {
  }

  lemma OthersKeepDone(s: State, step: Step)
    requires TableInv(s) && HolderInv(s) && DoneInv(s) && Enabled(s, step)
    requires !(step.Commit? || step.CommitUnseen? || step.Report? || step.HandlerDone?)
    ensures DoneInv(Next(s, step))
  {
  }

  lemma StepKeepsDone(s: State, step: Step)
    requires TableInv(s) && HolderInv(s) && DoneInv(s) && Enabled(s, step)
    ensures DoneInv(Next(s, step))
  {
    if step.Commit? || step.CommitUnseen? {
      CommitKeepsDone(s, step);
    } else if step.Report? {
      ReportKeepsDone(s, step);
    } else if step.HandlerDone? {
      HandlerDoneKeepsDone(s, step.w, step.ok);
    } else {
      OthersKeepDone(s, step);
    }
  }

  lemma CommitKeepsConservation(s: State, step: Step)
    requires HolderInv(s) && DoneInv(s) && ConservationInv(s) && Enabled(s, step)
    requires (step.Commit? || step.CommitUnseen?)
    ensures ConservationInv(Next(s, step))
  {
  }

  lemma ReportKeepsConservation(s: State, step: Step)
    requires HolderInv(s) && DoneInv(s) && ConservationInv(s) && Enabled(s, step) && step.Report?
    ensures ConservationInv(Next(s, step))
  {
  }

  lemma OthersKeepConservation(s: State, step: Step)
    requires HolderInv(s) && DoneInv(s) && ConservationInv(s) && Enabled(s, step)
    requires !(step.Commit? || step.CommitUnseen? || step.Report?)
    ensures ConservationInv(Next(s, step))
  {
  }

  lemma StepKeepsConservation(s: State, step: Step)
    requires HolderInv(s) && DoneInv(s) && ConservationInv(s) && Enabled(s, step)
    ensures ConservationInv(Next(s, step))
  {
    if step.Commit? || step.CommitUnseen? {
      CommitKeepsConservation(s, step);
    } else if step.Report? {
      ReportKeepsConservation(s, step);
    } else {
      OthersKeepConservation(s, step);
    }
  }

  lemma ExitKeepsSlots(s: State, w: nat)
    requires SlotInv(s) && w in s.workers
    ensures SlotInv(Exit(s, w))
  {
    var t := Exit(s, w);
    forall i | 0 <= i < |s.subs|
      ensures t.slots[i] == |WorkersOf(t.workers, i)| <= s.subs[i].maxInFlight
    {
      if i == s.workers[w].sub {
        assert w in WorkersOf(s.workers, i);
        assert WorkersOf(t.workers, i) == WorkersOf(s.workers, i) - {w};
      } else {
        assert WorkersOf(t.workers, i) == WorkersOf(s.workers, i);
      }
    }
  }

  lemma SameSlots(s: State, t: State)
    requires SlotInv(s) && t.subs == s.subs && t.slots == s.slots && t.workers.Keys == s.workers.Keys
    requires forall w | w in s.workers :: t.workers[w].sub == s.workers[w].sub
    ensures SlotInv(t)
  {
    forall i | 0 <= i < |s.subs|
      ensures WorkersOf(t.workers, i) == WorkersOf(s.workers, i)
    {
    }
  }

  lemma WorkersOfSpawned(before: map<nat, Worker>, after: map<nat, Worker>, w: nat, sub: nat, i: nat)
    requires w !in before && after == before[w := Fetching(sub)]
    ensures WorkersOf(after, i) == WorkersOf(before, i) + (if i == sub then {w} else {})
    ensures w !in WorkersOf(before, i)
  {
  }

  lemma SpawnKeepsSlots(s: State, t: State, sub: nat, w: nat)
    requires SlotInv(s) && sub < |s.subs| && s.slots[sub] < s.subs[sub].maxInFlight && w !in s.workers
    requires t == s.(slots := s.slots[sub := s.slots[sub] + 1], workers := s.workers[w := Fetching(sub)])
    ensures SlotInv(t)
  {
    forall i | 0 <= i < |t.subs|
      ensures t.slots[i] == |WorkersOf(t.workers, i)| <= t.subs[i].maxInFlight
    {
      WorkersOfSpawned(s.workers, t.workers, w, sub, i);
      if i == sub {
        assert WorkersOf(t.workers, i) == WorkersOf(s.workers, i) + {w};
      } else {
        assert WorkersOf(t.workers, i) == WorkersOf(s.workers, i);
      }
    }
  }

  lemma CrashKeepsSlots(s: State, sub: nat)
    requires SlotInv(s) && Enabled(s, Crash(sub))
    ensures SlotInv(Next(s, Crash(sub)))
  {
    var t := Next(s, Crash(sub));
    forall i | 0 <= i < |s.subs|
      ensures t.slots[i] == |WorkersOf(t.workers, i)| <= s.subs[i].maxInFlight
    {
      if i == sub {
        assert WorkersOf(t.workers, i) == {};
      } else {
        assert WorkersOf(t.workers, i) == WorkersOf(s.workers, i);
      }
    }
  }

  lemma StepKeepsSlots(s: State, step: Step)
    requires SlotInv(s) && Enabled(s, step)
    ensures SlotInv(Next(s, step))
  {
    var t := Next(s, step);
    match step
    case Spawn(sub, w) => SpawnKeepsSlots(s, t, sub, w);
    case Crash(sub) => CrashKeepsSlots(s, sub);
    case GiveUp(w) => ExitKeepsSlots(s, w);
    case CommitUnseen(w) => ExitKeepsSlots(s.(rows := t.rows), w);
    case Report(w) => ExitKeepsSlots(s.(rows := t.rows, deleted := t.deleted), w);
    case ReportLost(w) => ExitKeepsSlots(s, w);
    case Tick(_) => SameSlots(s, t);
    case Pub(_, _) => SameSlots(s, t);
    case Pick(_, _) => SameSlots(s, t);
    case Commit(_) => SameSlots(s, t);
    case HandlerDone(_, _) => SameSlots(s, t);
  }

  lemma StepKeepsInv(s: State, step: Step)
    requires Inv(s) && Enabled(s, step)
    ensures Inv(Next(s, step))
  {
    StepKeepsTable(s, step);
    StepKeepsHolders(s, step);
    StepKeepsDone(s, step);
    StepKeepsConservation(s, step);
    StepKeepsSlots(s, step);
  }

  lemma {:induction false} RunKeepsInv(s: State, steps: seq<Step>, t: State)
    requires Inv(s) && IsRun(s, steps, t)
    ensures Inv(t)
    decreases |steps|
  {
    if steps != [] {
      StepKeepsInv(s, steps[0]);
      RunKeepsInv(Next(s, steps[0]), steps[1..], t);
    }
  }

  lemma InitInv(subs: seq<Sub>)
    ensures Inv(Init(subs))
  {
    forall i | 0 <= i < |subs|
      ensures WorkersOf(Init(subs).workers, i) == {}
    {
    }
  }

  // ----- what holds on every run

  function Handlers(s: State, sub: nat): set<nat> {
    set w | w in s.workers && s.workers[w].sub == sub && s.workers[w].Handling?
  }

  /** A row is marked failed only after its attempts are used up. */
  ghost predicate FailedInv(s: State) {
    forall id | id in s.rows && s.rows[id].status == Failed :: s.rows[id].attempts >= 5
  }

  lemma StepKeepsFailed(s: State, step: Step)
    requires HolderInv(s) && FailedInv(s) && Enabled(s, step)
    ensures FailedInv(Next(s, step))
  {
  }

  lemma {:induction false} RunKeepsFailed(s: State, steps: seq<Step>, t: State)
    requires Inv(s) && FailedInv(s) && IsRun(s, steps, t)
    ensures FailedInv(t)
    decreases |steps|
  {
    if steps != [] {
      StepKeepsInv(s, steps[0]);
      StepKeepsFailed(s, steps[0]);
      RunKeepsFailed(Next(s, steps[0]), steps[1..], t);
    }
  }

  /** After an error the row waits to be fetched again, or is failed when this was the fifth attempt. */
  lemma ErrorIsRetried(s: State, w: nat)
    requires Inv(s) && Enabled(s, Report(w)) && !s.workers[w].ok
    ensures var (h, t) := (s.workers[w], Next(s, Report(w)));
      && h.job in s.rows && h.job in t.rows && t.rows[h.job].attempts == s.rows[h.job].attempts == h.attempts
      && (h.attempts < 5 ==> Selectable(t.rows, s.rows[h.job].topic, Held(t), h.job))
      && (h.attempts >= 5 ==> t.rows[h.job].status == Failed)
  {
    var (h, t) := (s.workers[w], Next(s, Report(w)));
    assert forall v | v in s.workers && v != w :: !s.workers[v].Holds(h.job);
    assert forall v :: v in t.workers <==> v in s.workers && v != w;
    assert forall v | v in t.workers :: t.workers[v] == s.workers[v];
  }

  /** Every attempt counted is a run of the handler. */
  ghost predicate RunsCount(s: State) { forall id | id in s.rows :: RunsOf(s, id) == s.rows[id].attempts }

  predicate NoCommitUnseen(steps: seq<Step>) { forall step <- steps :: !step.CommitUnseen? }

  lemma StepCounts(s: State, step: Step)
    requires TableInv(s) && HolderInv(s) && RunsCount(s) && Enabled(s, step) && !step.CommitUnseen?
    ensures RunsCount(Next(s, step))
  {
  }

  lemma {:induction false} RunCounts(s: State, steps: seq<Step>, t: State)
    requires Inv(s) && RunsCount(s) && IsRun(s, steps, t) && NoCommitUnseen(steps)
    ensures RunsCount(t)
    decreases |steps|
  {
    if steps != [] {
      assert steps[0] in steps;
      StepKeepsInv(s, steps[0]);
      StepCounts(s, steps[0]);
      RunCounts(Next(s, steps[0]), steps[1..], t);
    }
  }

  /** On every run on which no commit goes unseen, a failed row has had its handler run exactly five times. */
  lemma FailedRanFiveTimes(subs: seq<Sub>, steps: seq<Step>, t: State, id: nat)
    requires IsRun(Init(subs), steps, t) && NoCommitUnseen(steps)
    requires id in t.rows && t.rows[id].status == Failed
    ensures RunsOf(t, id) == 5
  {
    InitInv(subs);
    RunCounts(Init(subs), steps, t);
    EveryRunIsSafe(subs, steps, t);
  }

  /** The row that a worker gets: the oldest that is available and not skipped, locked for five minutes, one
      attempt more, otherwise as it was. */
  lemma FetchedRow(before: Table, topic: string, skipped: set<nat>, now: int, id: nat, attempts: nat, after: Table)
    requires Fetches(before, topic, skipped, now, Some((id, attempts)), after)
    ensures id in before && attempts == before[id].attempts + 1 && before[id].status == Available
    ensures id !in skipped && before[id].topic == topic
    ensures forall k | k in before && k !in skipped && before[k].topic == topic && before[k].status == Available ::
      before[id].createdAt <= before[k].createdAt
    ensures after == before[id := Row(topic, Locked, before[id].createdAt, Some(now + 5 * 60 * 1000), attempts)]
  {
  }

  /** On every run of any number of workers: a row has at most one holder, its handler was started at most five
      times, a failed row has had five attempts, a subscription runs at most maxInFlight handlers at once, and
      the published rows are split among available, locked, failed and deleted ones. */
  lemma EveryRunIsSafe(subs: seq<Sub>, steps: seq<Step>, t: State)
    requires IsRun(Init(subs), steps, t)
    ensures forall v, w, id |
      v in t.workers && w in t.workers && t.workers[v].Holds(id) && t.workers[w].Holds(id) :: v == w
    ensures forall id :: RunsOf(t, id) <= 5
    ensures forall id | id in t.rows && t.rows[id].status == Failed :: t.rows[id].attempts == 5
    ensures forall i | 0 <= i < |t.subs| :: |Handlers(t, i)| <= t.subs[i].maxInFlight
    ensures forall id :: 0 <= id < t.nextId <==> (id in t.rows || id in t.deleted)
    ensures t.rows.Keys !! t.deleted && t.deleted <= t.done
  {
    InitInv(subs);
    RunKeepsInv(Init(subs), steps, t);
    RunKeepsFailed(Init(subs), steps, t);
    forall i | 0 <= i < |t.subs|
      ensures |Handlers(t, i)| <= t.subs[i].maxInFlight
    {
      SubsetSize(Handlers(t, i), WorkersOf(t.workers, i));
    }
  }

  lemma SubsetSize<T>(a: set<T>, b: set<T>)
    requires a <= b
    ensures |a| <= |b|
  {
    assert b == a + (b - a);
  }

  /** A row whose handler will never be started again: it succeeded, was marked failed, or was
      deleted. */
  predicate Settled(s: State, id: nat) {
    id in s.done || (id in s.rows && s.rows[id].status == Failed)
  }

  lemma CommitKeepsSettled(s: State, step: Step, id: nat)
    requires TableInv(s) && HolderInv(s) && DoneInv(s) && Enabled(s, step) && Settled(s, id)
    requires (step.Commit? || step.CommitUnseen?)
    ensures Settled(Next(s, step), id) && RunsOf(Next(s, step), id) == RunsOf(s, id)
  {
  }

  lemma ReportKeepsSettled(s: State, step: Step, id: nat)
    requires TableInv(s) && HolderInv(s) && DoneInv(s) && Enabled(s, step) && Settled(s, id) && step.Report?
    ensures Settled(Next(s, step), id) && RunsOf(Next(s, step), id) == RunsOf(s, id)
  {
  }

  lemma OthersKeepSettled(s: State, step: Step, id: nat)
    requires TableInv(s) && HolderInv(s) && DoneInv(s) && Enabled(s, step) && Settled(s, id)
    requires !(step.Commit? || step.CommitUnseen? || step.Report?)
    ensures Settled(Next(s, step), id) && RunsOf(Next(s, step), id) == RunsOf(s, id)
  {
  }

  lemma StepKeepsSettled(s: State, step: Step, id: nat)
    requires TableInv(s) && HolderInv(s) && DoneInv(s) && Enabled(s, step) && Settled(s, id)
    ensures Settled(Next(s, step), id) && RunsOf(Next(s, step), id) == RunsOf(s, id)
  {
    if step.Commit? || step.CommitUnseen? {
      CommitKeepsSettled(s, step, id);
    } else if step.Report? {
      ReportKeepsSettled(s, step, id);
    } else {
      OthersKeepSettled(s, step, id);
    }
  }

  /** Never again after success or failure, on any continuation of the run. */
  lemma {:induction false} SettledStaysSettled(s: State, steps: seq<Step>, t: State, id: nat)
    requires Inv(s) && Settled(s, id) && IsRun(s, steps, t)
    ensures Settled(t, id) && RunsOf(t, id) == RunsOf(s, id)
    decreases |steps|
  {
    if steps != [] {
      StepKeepsSettled(s, steps[0], id);
      StepKeepsInv(s, steps[0]);
      SettledStaysSettled(Next(s, steps[0]), steps[1..], t, id);
    }
  }

  /** A locked row that no worker holds. */
  ghost predicate Orphan(s: State, id: nat) {
    && id in s.rows && s.rows[id].status == Locked
    && forall w | w in s.workers :: !s.workers[w].Holds(id)
  }

  /** The step loses the worker of row id between the commit of its lock and the commit of its outcome. */
  predicate LosesWorker(s: State, step: Step, id: nat) {
    match step
    case CommitUnseen(w) => w in s.workers && s.workers[w].Holds(id)
    case ReportLost(w) => w in s.workers && s.workers[w].Holds(id)
    case Crash(sub) =>
      exists w <- s.workers :: s.workers[w].sub == sub && s.workers[w].Holds(id) && !s.workers[w].Picked?
    case _ => false
  }

  /** A row becomes an orphan exactly when a step loses its worker. */
  lemma OrphanArisesExactly(s: State, step: Step, id: nat)
    requires Inv(s) && Enabled(s, step) && !Orphan(s, id)
    ensures Orphan(Next(s, step), id) <==> LosesWorker(s, step, id)
  {
    if step.Crash? {
      CrashOrphansExactly(s, step.sub, id);
    } else if step.CommitUnseen? || step.ReportLost? {
      LossOrphansExactly(s, step, id);
    } else {
      OtherStepsOrphanNothing(s, step, id);
    }
  }

  lemma LossOrphansExactly(s: State, step: Step, id: nat)
    requires HolderInv(s) && Enabled(s, step) && !Orphan(s, id) && (step.CommitUnseen? || step.ReportLost?)
    ensures Orphan(Next(s, step), id) <==> LosesWorker(s, step, id)
  {
    var (w, t) := (step.w, Next(s, step));
    assert forall v | v in s.workers && v != w :: s.workers[w].Holds(id) ==> !s.workers[v].Holds(id);
    assert forall v :: v in t.workers <==> v in s.workers && v != w;
    assert forall v | v in t.workers :: t.workers[v] == s.workers[v];
  }

  lemma OtherStepsOrphanNothing(s: State, step: Step, id: nat)
    requires Inv(s) && Enabled(s, step) && !Orphan(s, id)
    requires !step.Crash? && !step.CommitUnseen? && !step.ReportLost?
    ensures !Orphan(Next(s, step), id)
  {
    if step.Report? {
      ReportOrphansNothing(s, step.w, id);
    } else {
      WorkersKeepRows(s, step, id);
    }
  }

  lemma ReportOrphansNothing(s: State, w: nat, id: nat)
    requires HolderInv(s) && Enabled(s, Report(w)) && !Orphan(s, id)
    ensures !Orphan(Next(s, Report(w)), id)
  {
    var t := Next(s, Report(w));
    if id in s.rows && s.rows[id].status == Locked {
      var v :| v in s.workers && s.workers[v].Holds(id);
      assert v != w ==> v in t.workers && t.workers[v].Holds(id);
    }
  }

  lemma WorkersKeepRows(s: State, step: Step, id: nat)
    requires HolderInv(s) && Enabled(s, step) && !Orphan(s, id)
    requires !step.Crash? && !step.CommitUnseen? && !step.ReportLost? && !step.Report?
    ensures !Orphan(Next(s, step), id)
  {
    var t := Next(s, step);
    if id in s.rows && s.rows[id].status == Locked {
      var w :| w in s.workers && s.workers[w].Holds(id);
      assert w in t.workers ==> t.workers[w].Holds(id);
    }
    if step.Commit? {
      assert t.workers[step.w].Holds(s.workers[step.w].job);
    }
  }

  lemma CrashOrphansExactly(s: State, sub: nat, id: nat)
    requires Inv(s) && Enabled(s, Crash(sub)) && !Orphan(s, id)
    ensures Orphan(Next(s, Crash(sub)), id) <==> LosesWorker(s, Crash(sub), id)
  {
    var t := Next(s, Crash(sub));
    assert forall w | w in s.workers && s.workers[w].sub != sub :: w in t.workers && t.workers[w] == s.workers[w];
    if Orphan(t, id) {
      var w :| w in s.workers && s.workers[w].Holds(id);
    }
    if LosesWorker(s, Crash(sub), id) {
      var w :| w in s.workers && s.workers[w].sub == sub && s.workers[w].Holds(id) && !s.workers[w].Picked?;
      forall v | v in t.workers
        ensures !t.workers[v].Holds(id)
      {
        assert v in s.workers && t.workers[v] == s.workers[v];
      }
    }
  }

  lemma CommitKeepsOrphan(s: State, step: Step, id: nat)
    requires TableInv(s) && HolderInv(s) && Enabled(s, step) && Orphan(s, id)
    requires (step.Commit? || step.CommitUnseen?)
    ensures Orphan(Next(s, step), id)
    ensures Next(s, step).rows[id] == s.rows[id] && RunsOf(Next(s, step), id) == RunsOf(s, id)
  {
  }

  lemma ReportKeepsOrphan(s: State, step: Step, id: nat)
    requires TableInv(s) && HolderInv(s) && Enabled(s, step) && Orphan(s, id) && step.Report?
    ensures Orphan(Next(s, step), id)
    ensures Next(s, step).rows[id] == s.rows[id] && RunsOf(Next(s, step), id) == RunsOf(s, id)
  {
  }

  lemma OthersKeepOrphan(s: State, step: Step, id: nat)
    requires TableInv(s) && HolderInv(s) && Enabled(s, step) && Orphan(s, id)
    requires !(step.Commit? || step.CommitUnseen? || step.Report?)
    ensures Orphan(Next(s, step), id)
    ensures Next(s, step).rows[id] == s.rows[id] && RunsOf(Next(s, step), id) == RunsOf(s, id)
  {
  }

  lemma StepKeepsOrphan(s: State, step: Step, id: nat)
    requires TableInv(s) && HolderInv(s) && Enabled(s, step) && Orphan(s, id)
    ensures Orphan(Next(s, step), id)
    ensures Next(s, step).rows[id] == s.rows[id] && RunsOf(Next(s, step), id) == RunsOf(s, id)
  {
    if step.Commit? || step.CommitUnseen? {
      CommitKeepsOrphan(s, step, id);
    } else if step.Report? {
      ReportKeepsOrphan(s, step, id);
    } else {
      OthersKeepOrphan(s, step, id);
    }
  }

  /** locked_until is written and never read: a row whose worker is lost stays locked on every
      continuation, however much time passes. */
  lemma {:induction false} OrphansAreNeverRecovered(s: State, steps: seq<Step>, t: State, id: nat)
    requires Inv(s) && Orphan(s, id) && IsRun(s, steps, t)
    ensures Orphan(t, id) && t.rows[id] == s.rows[id] && RunsOf(t, id) == RunsOf(s, id)
    decreases |steps|
  {
    if steps != [] {
      StepKeepsOrphan(s, steps[0], id);
      StepKeepsInv(s, steps[0]);
      OrphansAreNeverRecovered(Next(s, steps[0]), steps[1..], t, id);
    }
  }

  /** Some step of the run loses the worker of row id. */
  ghost predicate LosesOnRun(s: State, steps: seq<Step>, t: State, id: nat)
    requires IsRun(s, steps, t)
    decreases |steps|
  {
    steps != [] && (LosesWorker(s, steps[0], id) || LosesOnRun(Next(s, steps[0]), steps[1..], t, id))
  }

  /** A run ends with row id an orphan exactly when one of its steps lost the worker of id. */
  lemma {:induction false} OrphanIffWorkerLost(s: State, steps: seq<Step>, t: State, id: nat)
    requires Inv(s) && !Orphan(s, id) && IsRun(s, steps, t)
    ensures Orphan(t, id) <==> LosesOnRun(s, steps, t, id)
    decreases |steps|
  {
    if steps != [] {
      var next := Next(s, steps[0]);
      OrphanArisesExactly(s, steps[0], id);
      StepKeepsInv(s, steps[0]);
      hide *;
      OneStepOfRun(s, steps, t, id);
      if Orphan(next, id) {
        OrphansAreNeverRecovered(next, steps[1..], t, id);
      } else {
        OrphanIffWorkerLost(next, steps[1..], t, id);
      }
    }
  }

  lemma OneStepOfRun(s: State, steps: seq<Step>, t: State, id: nat)
    requires IsRun(s, steps, t) && steps != []
    ensures Enabled(s, steps[0]) && IsRun(Next(s, steps[0]), steps[1..], t)
    ensures LosesOnRun(s, steps, t, id)
      == (LosesWorker(s, steps[0], id) || LosesOnRun(Next(s, steps[0]), steps[1..], t, id))
  {
  }

  /** One row and at most one worker, of the one subscription. */
  function Small(topic: string, rows: Table, workers: map<nat, Worker>, started: nat): State {
    var starts := if started == 0 then map[] else map[0 := started];
    State(0, rows, 1, [Sub(topic, 1)], [|workers|], workers, starts, started, {}, {})
  }

  lemma PublishedAndPicked(topic: string, rows: Table)
    requires rows == map[0 := Row(topic, Available, 0, None, 0)]
    ensures var s0 := Init([Sub(topic, 1)]);
      IsRun(s0, [Pub(topic, 0), Spawn(0, 0), Pick(0, 0)], Small(topic, rows, map[0 := Picked(0, 0)], 0))
  {
    var s0 := Init([Sub(topic, 1)]);
    var s1, s2 := Small(topic, rows, map[], 0), Small(topic, rows, map[0 := Fetching(0)], 0);
    var s3 := Small(topic, rows, map[0 := Picked(0, 0)], 0);
    assert Next(s0, Pub(topic, 0)) == s1;
    assert Next(s1, Spawn(0, 0)) == s2;
    assert Next(s2, Pick(0, 0)) == s3;
    hide Next;
    RunOfOne(s3);
    RunStep(s2, Pick(0, 0), [], s3);
    RunStep(s1, Spawn(0, 0), [Pick(0, 0)], s3);
    RunStep(s0, Pub(topic, 0), [Spawn(0, 0), Pick(0, 0)], s3);
    assert [Pub(topic, 0)] + [Spawn(0, 0), Pick(0, 0)] == [Pub(topic, 0), Spawn(0, 0), Pick(0, 0)];
    assert [Spawn(0, 0)] + [Pick(0, 0)] == [Spawn(0, 0), Pick(0, 0)];
  }

  lemma {:induction false} RunsJoin(s: State, a: seq<Step>, t: State, b: seq<Step>, u: State)
    requires IsRun(s, a, t) && IsRun(t, b, u)
    ensures IsRun(s, a + b, u)
    decreases |a|
  {
    hide Next, Enabled;
    if a == [] {
      assert a + b == b;
    } else {
      assert (a + b)[1..] == a[1..] + b;
      RunsJoin(Next(s, a[0]), a[1..], t, b, u);
    }
  }

  lemma CommitStep(topic: string, rows: Table, locked: Table)
    requires rows == map[0 := Row(topic, Available, 0, None, 0)]
    requires locked == map[0 := Row(topic, Locked, 0, Some(LOCK_MILLIS), 1)]
    ensures var s := Small(topic, rows, map[0 := Picked(0, 0)], 0);
      Enabled(s, Commit(0)) && Next(s, Commit(0)) == Small(topic, locked, map[0 := Handling(0, 0, 1)], 1)
  {
    assert LockRow(rows, 0, 0) == locked;
  }

  lemma CrashStep(topic: string, locked: Table)
    requires locked == map[0 := Row(topic, Locked, 0, Some(LOCK_MILLIS), 1)]
    ensures var s := Small(topic, locked, map[0 := Handling(0, 0, 1)], 1);
      && Enabled(s, Crash(0))
      && Next(s, Crash(0)) == Small(topic, locked, map[], 1)
      && Orphan(Small(topic, locked, map[], 1), 0)
  {
    var s := Small(topic, locked, map[0 := Handling(0, 0, 1)], 1);
    assert Next(s, Crash(0)).workers == map[];
  }

  /** A run to an orphan: a row is published, picked and locked by a worker, and its process dies. */
  lemma CrashLeavesOrphan(topic: string)
    ensures var steps := [Pub(topic, 0), Spawn(0, 0), Pick(0, 0)] + [Commit(0), Crash(0)];
      exists t :: IsRun(Init([Sub(topic, 1)]), steps, t) && Orphan(t, 0)
  {
    var rows: Table := map[0 := Row(topic, Available, 0, None, 0)];
    var locked: Table := map[0 := Row(topic, Locked, 0, Some(LOCK_MILLIS), 1)];
    hide *;
    var s3, s4 := Small(topic, rows, map[0 := Picked(0, 0)], 0), Small(topic, locked, map[0 := Handling(0, 0, 1)], 1);
    var s5 := Small(topic, locked, map[], 1);
    PublishedAndPicked(topic, rows);
    CommitStep(topic, rows, locked);
    CrashStep(topic, locked);
    RunOfOne(s5);
    RunStep(s4, Crash(0), [], s5);
    RunStep(s3, Commit(0), [Crash(0)], s5);
    assert [Commit(0)] + [Crash(0)] == [Commit(0), Crash(0)] && [Crash(0)] + [] == [Crash(0)];
    RunsJoin(Init([Sub(topic, 1)]), [Pub(topic, 0), Spawn(0, 0), Pick(0, 0)], s3, [Commit(0), Crash(0)], s5);
  }

  lemma RunOfOne(s: State)
    ensures IsRun(s, [], s)
  {
  }

  lemma RunStep(s: State, step: Step, more: seq<Step>, t: State)
    requires Enabled(s, step) && IsRun(Next(s, step), more, t)
    ensures IsRun(s, [step] + more, t)
  {
    assert ([step] + more)[1..] == more;
  }

  // ----- the number of handler runs is bounded

  /** Handler runs that row id can still get. */
  function Budget(rows: Table, id: nat): nat {
    if id in rows && rows[id].status != Failed && rows[id].attempts < MAX_ATTEMPTS
    then MAX_ATTEMPTS - rows[id].attempts else 0
  }

  function TotalBudget(rows: Table, n: nat): nat {
    if n == 0 then 0 else TotalBudget(rows, n - 1) + Budget(rows, n - 1)
  }

  lemma {:induction false} BudgetDrop(rows: Table, rows': Table, n: nat, id: nat)
    requires id < n && Budget(rows', id) <= Budget(rows, id)
    requires forall k | 0 <= k < n && k != id :: Budget(rows', k) == Budget(rows, k)
    ensures TotalBudget(rows', n) == TotalBudget(rows, n) - Budget(rows, id) + Budget(rows', id)
  {
    if id == n - 1 {
      SameBudget(rows, rows', n - 1);
    } else {
      BudgetDrop(rows, rows', n - 1, id);
    }
  }

  lemma {:induction false} SameBudget(rows: Table, rows': Table, n: nat)
    requires forall k | 0 <= k < n :: Budget(rows', k) == Budget(rows, k)
    ensures TotalBudget(rows', n) == TotalBudget(rows, n)
  {
    if n > 0 {
      SameBudget(rows, rows', n - 1);
    }
  }

  function Pubs(steps: seq<Step>): nat {
    if steps == [] then 0 else (if steps[0].Pub? then 1 else 0) + Pubs(steps[1..])
  }

  ghost function Remaining(s: State): nat { TotalBudget(s.rows, s.nextId) }

  /** What a step does to the row of its worker. */
  lemma JobBudget(s: State, step: Step)
    requires TableInv(s) && HolderInv(s) && Enabled(s, step)
    requires step.Commit? || step.CommitUnseen? || step.Report?
    ensures var (t, id) := (Next(s, step), s.workers[step.w].job);
      && id < s.nextId == t.nextId
      && (forall k | k != id :: Budget(t.rows, k) == Budget(s.rows, k))
      && Budget(t.rows, id) <= Budget(s.rows, id)
      && t.total + Budget(t.rows, id) <= s.total + Budget(s.rows, id)
  {
  }

  lemma JobSpendsBudget(s: State, step: Step)
    requires TableInv(s) && HolderInv(s) && Enabled(s, step)
    requires step.Commit? || step.CommitUnseen? || step.Report?
    ensures Next(s, step).total + Remaining(Next(s, step)) <= s.total + Remaining(s)
  {
    JobBudget(s, step);
    hide Budget, TableInv, HolderInv;
    BudgetDrop(s.rows, Next(s, step).rows, s.nextId, s.workers[step.w].job);
  }

  lemma StepSpendsBudget(s: State, step: Step)
    requires TableInv(s) && HolderInv(s) && Enabled(s, step)
    ensures Next(s, step).total + Remaining(Next(s, step))
         <= s.total + Remaining(s) + (if step.Pub? then MAX_ATTEMPTS else 0)
  {
    if step.Commit? || step.CommitUnseen? || step.Report? {
      JobSpendsBudget(s, step);
    } else if step.Pub? {
      SameBudget(s.rows, Next(s, step).rows, s.nextId);
    } else {
      assert Next(s, step).rows == s.rows && Next(s, step).nextId == s.nextId && Next(s, step).total == s.total;
    }
  }

  /** Without new publishes the number of further handler runs is bounded by what is left in the
      table; every publish adds at most five. */
  lemma {:induction false} HandlerRunsAreBounded(s: State, steps: seq<Step>, t: State)
    requires Inv(s) && IsRun(s, steps, t)
    ensures t.total + Remaining(t) <= s.total + Remaining(s) + MAX_ATTEMPTS * Pubs(steps)
    decreases |steps|
  {
    if steps != [] {
      StepSpendsBudget(s, steps[0]);
      StepKeepsInv(s, steps[0]);
      HandlerRunsAreBounded(Next(s, steps[0]), steps[1..], t);
    }
  }
}
