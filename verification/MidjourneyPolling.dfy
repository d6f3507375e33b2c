/**
 Polling of Midjourney tasks.  Any number of polling passes run at the same time; each works
 on the copy of the unfinished tasks that it read at its start and writes a task back with a
 compare-and-swap on the stored status.  A failed task gives the user's quota back.
 */
module MidjourneyPolling {
  import opened Basics

  const FAILURE := "FAILURE"
  const DONE := "100%"
  const TIMEOUT_REASON := "timeout"

  /**
   A task row; rest stands for the remaining fields that are compared and copied as a whole, and
   submitted says whether the task has an upstream id.
   */
  datatype Task = Task(code: int, status: string, progress: string, failReason: string, quota: int, rest: int,
                       channel: int, submitted: bool)

  /** What the upstream reports about a task. */
  datatype Item = Item(id: int, status: string, progress: string, failReason: string, rest: int)

  datatype Refund = Refund(id: int, amount: int)

  type Rows = map<int, Task>

  // ----- one reported item -----

  predicate NeedsUpdate(task: Task, item: Item) {
    || task.code != 1
    || task.progress != item.progress
    || task.status != item.status
    || task.failReason != item.failReason
    || task.rest != item.rest
    || (task.progress != DONE && item.failReason != "")
  }

  /** A task that has been running for over an hour counts as failed, whatever is reported. */
  function WithTimeout(task: Task, item: Item, timedOut: bool): Item {
    if timedOut && task.progress != DONE then item.(failReason := TIMEOUT_REASON, status := FAILURE) else item
  }

  predicate Fails(item: Item) {
    (item.progress != DONE && item.failReason != "") || (item.progress == DONE && item.status == FAILURE)
  }

  function Copied(task: Task, item: Item): Task {
    task.(code := 1, status := item.status, progress := if Fails(item) then DONE else item.progress,
          failReason := item.failReason, rest := item.rest)
  }

  datatype Outcome = Outcome(rows: Rows, ledger: seq<Refund>, task: Task)

  /** The effect of one item on the stored rows, the refunds paid and the pass's own copy of the task. */
  function ItemStep(rows: Rows, ledger: seq<Refund>, task: Task, item: Item, timedOut: bool): Outcome {
    var reported := WithTimeout(task, item, timedOut);
    if !NeedsUpdate(task, reported) then Outcome(rows, ledger, task)
    else
      var task' := Copied(task, reported);
      var won := item.id in rows && rows[item.id].status == task.status;
      Outcome(if won then rows[item.id := task'] else rows,
              if won && Fails(reported) && task.quota != 0 then ledger + [Refund(item.id, task.quota)] else ledger,
              task')
  }

  class Database {
    var rows: Rows
    var ledger: seq<Refund>

    constructor (rows: Rows)
      ensures this.rows == rows && ledger == []
    {
      this.rows, ledger := rows, [];
    }

    /** Writes all columns if the stored status is still the expected one. */
    method UpdateWithStatus(id: int, task: Task, fromStatus: string) returns (won: bool)
      modifies this`rows
      ensures won <==> id in old(rows) && old(rows)[id].status == fromStatus
      ensures rows == if won then old(rows)[id := task] else old(rows)
    {
      won := id in rows && rows[id].status == fromStatus;
      if won {
        rows := rows[id := task];
      }
    }

    method ProcessItem(task: Task, item: Item, timedOut: bool) returns (task': Task)
      modifies this
      ensures Outcome(rows, ledger, task') == ItemStep(old(rows), old(ledger), task, item, timedOut)
    {
      var reported := item;
      if timedOut && task.progress != DONE {
        reported := reported.(failReason := TIMEOUT_REASON);
        reported := reported.(status := FAILURE);
      }
      if !NeedsUpdate(task, reported) {
        return task;
      }
      var preStatus := task.status;
      task' := task.(code := 1, progress := reported.progress, rest := reported.rest,
                     status := reported.status, failReason := reported.failReason);
      var shouldReturnQuota := false;
      if (task'.progress != DONE && reported.failReason != "") || (task'.progress == DONE && task'.status == FAILURE) {
        task' := task'.(progress := DONE);
        if task'.quota != 0 {
          shouldReturnQuota := true;
        }
      }
      var won := UpdateWithStatus(item.id, task', preStatus);
      if won && shouldReturnQuota {
        ledger := ledger + [Refund(item.id, task'.quota)];
      }
    }

    /** The unfinished tasks, as a pass reads them at its start. */
    method GetAllUnfinished() returns (tasks: Rows)
      ensures tasks == Unfinished(rows)
    {
      tasks := map id | id in rows && rows[id].progress != DONE :: rows[id];
    }

    /** Marks tasks as failed, whatever their status; nothing is refunded. */
    method BulkUpdate(ids: set<int>, reason: Option<string>)
      modifies this`rows
      ensures rows == BulkFailed(old(rows), ids, reason)
    {
      rows := BulkFailed(rows, ids, reason);
    }
  }

  function Unfinished(rows: Rows): Rows {
    map id | id in rows && rows[id].progress != DONE :: rows[id]
  }

  /** The tasks that a pass asks the upstream about. */
  function Polled(tasks: Rows): Rows {
    map id | id in tasks && tasks[id].submitted :: tasks[id]
  }

  function NeverSubmitted(tasks: Rows): set<int> {
    set id | id in tasks && !tasks[id].submitted
  }

  function OfChannel(tasks: Rows, channel: int): set<int> {
    set id | id in tasks && tasks[id].channel == channel
  }

  // ----- interleaved passes -----

  /** A pass: its copies of the tasks, and the ids it has already seen an item for. */
  datatype Pass = Pass(tasks: Rows, seen: set<int>)

  /** Stored rows, running passes, refunds paid, and the tasks failed in bulk or stored as failed from the start. */
  datatype System = System(rows: Rows, passes: map<int, Pass>, ledger: seq<Refund>, written: set<int>)

  datatype Step =
    | Submit(id: int, task: Task)
    | Start(pass: int)
    | Process(pass: int, item: Item, timedOut: bool)
    | BulkFail(ids: set<int>, reason: Option<string>)

  function BulkFailed(rows: Rows, ids: set<int>, reason: Option<string>): Rows {
    map id | id in rows :: if id in ids then FailedTask(rows[id], reason) else rows[id]
  }

  function FailedTask(task: Task, reason: Option<string>): Task {
    task.(status := FAILURE, progress := DONE, failReason := if reason.Some? then reason.value else task.failReason)
  }

  function After(s: System, step: Step): System {
    match step
    case Submit(id, task) =>
      if id in s.rows then s
      else s.(rows := s.rows[id := task], written := if task.status == FAILURE then s.written + {id} else s.written)
    case Start(pass) => s.(passes := s.passes[pass := Pass(Polled(Unfinished(s.rows)), {})])
    case BulkFail(ids, reason) => s.(rows := BulkFailed(s.rows, ids, reason), written := s.written + ids)
    case Process(pass, item, timedOut) =>
      if pass !in s.passes || item.id !in s.passes[pass].tasks then s
      else
        var p := s.passes[pass];
        var out := ItemStep(s.rows, s.ledger, p.tasks[item.id], item, timedOut);
        s.(rows := out.rows, ledger := out.ledger,
           passes := s.passes[pass := Pass(p.tasks[item.id := out.task], p.seen + {item.id})])
  }

  function Run(s: System, steps: seq<Step>): System {
    if steps == [] then s else After(Run(s, steps[..|steps| - 1]), steps[|steps| - 1])
  }

  /** Below 100% a failure reason comes exactly with the status FAILURE. */
  predicate Consistent(item: Item) {
    item.progress != DONE ==> (item.failReason != "" <==> item.status == FAILURE)
  }

  predicate Sane(task: Task) {
    task.status == FAILURE ==> task.progress == DONE
  }

  /** A pass sees each id at most once, and tasks are not submitted as open failures. */
  predicate Orderly(s: System, step: Step) {
    match step
    case Submit(_, task) => Sane(task)
    case Start(_) => true
    case BulkFail(_, _) => true
    case Process(pass, item, _) => pass in s.passes ==> item.id !in s.passes[pass].seen
  }

  ghost predicate OrderlyRun(s: System, steps: seq<Step>) {
    forall i :: 0 <= i < |steps| ==> Orderly(Run(s, steps[..i]), steps[i])
  }

  /** Every item that the upstream reports belongs to the given class. */
  predicate ReportsOnly(possible: Item -> bool, steps: seq<Step>) {
    forall i :: 0 <= i < |steps| && steps[i].Process? ==> possible(steps[i].item)
  }

  predicate Legal(s: System, step: Step) {
    Orderly(s, step) && (step.Process? ==> Consistent(step.item))
  }

  ghost predicate LegalRun(s: System, steps: seq<Step>) {
    forall i :: 0 <= i < |steps| ==> Legal(Run(s, steps[..i]), steps[i])
  }

  predicate Initial(s: System) {
    && s.passes == map[] && s.ledger == []
    && forall id :: id in s.rows ==> Sane(s.rows[id]) && (s.rows[id].status == FAILURE ==> id in s.written)
  }

  // ----- one pass -----

  datatype Report = Report(item: Item, timedOut: bool)

  /** How the visit of one channel goes: it may be gone, give no usable answer, or report items. */
  datatype Answer = ChannelGone(reason: string) | NoAnswer | Items(reports: seq<Report>)

  function ItemSteps(reports: seq<Report>): seq<Step> {
    if reports == [] then []
    else
      var n := |reports| - 1;
      ItemSteps(reports[..n]) + [Process(0, reports[n].item, reports[n].timedOut)]
  }

  datatype Visit = Visit(channel: int, answer: Answer)

  function VisitSteps(tasks: Rows, v: Visit): seq<Step> {
    if OfChannel(tasks, v.channel) == {} then []
    else
      match v.answer
      case ChannelGone(reason) => [BulkFail(OfChannel(tasks, v.channel), Some(reason))]
      case NoAnswer => []
      case Items(reports) => ItemSteps(reports)
  }

  function AllVisits(tasks: Rows, visits: seq<Visit>): seq<Step> {
    if visits == [] then []
    else AllVisits(tasks, visits[..|visits| - 1]) + VisitSteps(tasks, visits[|visits| - 1])
  }

  /** The steps of one pass that is not interleaved with others; a cancelled one makes fewer visits. */
  function PassSteps(tasks: Rows, visits: seq<Visit>): seq<Step> {
    [Start(0), BulkFail(NeverSubmitted(tasks), None)] + AllVisits(Polled(tasks), visits)
  }

  /** What a single pass works with, as a system. */
  ghost function Alone(db: Database, tasks: Rows, seen: set<int>, written: set<int>): System
    reads db
  {
    System(db.rows, map[0 := Pass(tasks, seen)], db.ledger, written)
  }

  method ProcessItems(db: Database, tasks: Rows, reports: seq<Report>, ghost seen: set<int>, ghost written: set<int>)
    returns (tasks': Rows, ghost seen': set<int>)
    modifies db
    ensures Alone(db, tasks', seen', written) == Run(old(Alone(db, tasks, seen, written)), ItemSteps(reports))
  {
    ghost var s := Alone(db, tasks, seen, written);
    tasks', seen' := tasks, seen;
    hide ItemStep, After;
    for i := 0 to |reports|
      invariant Alone(db, tasks', seen', written) == Run(s, ItemSteps(reports[..i]))
    {
      var item := reports[i].item;
      assert reports[..i + 1][..i] == reports[..i];
      Unroll(s, ItemSteps(reports[..i]), Process(0, item, reports[i].timedOut));
      OnlyPass(Alone(db, tasks', seen', written), tasks', seen', item, reports[i].timedOut);
      if item.id !in tasks' {
        continue;
      }
      var task := db.ProcessItem(tasks'[item.id], item, reports[i].timedOut);
      tasks' := tasks'[item.id := task];
      seen' := seen' + {item.id};
    }
    assert reports[..|reports|] == reports;
  }

  /** One channel: all its polled tasks fail if it is gone; otherwise its answer is processed. */
  method VisitChannel(db: Database, polled: Rows, taskM: Rows, v: Visit, ghost seen: set<int>, ghost written: set<int>)
    returns (taskM': Rows, ghost seen': set<int>, ghost written': set<int>)
    modifies db
    ensures Alone(db, taskM', seen', written') == Run(old(Alone(db, taskM, seen, written)), VisitSteps(polled, v))
  {
    hide Run, After;
    taskM', seen', written' := taskM, seen, written;
    ghost var s := Alone(db, taskM, seen, written);
    NoSteps(s);
    var ids := OfChannel(polled, v.channel);
    if ids == {} {
      return;
    }
    match v.answer
    case NoAnswer =>
    case ChannelGone(reason) =>
      OneBulk(s, ids, Some(reason));
      db.BulkUpdate(ids, Some(reason));
      written' := written + ids;
    case Items(reports) =>
      taskM', seen' := ProcessItems(db, taskM, reports, seen, written);
  }

  /** One polling pass: fails the tasks that were never submitted, then visits the channels of the others. */
  method PollOnce(db: Database, visits: seq<Visit>)
    modifies db
    ensures var start := System(old(db.rows), map[], old(db.ledger), {});
            var end := Run(start, PassSteps(Unfinished(old(db.rows)), visits));
            db.rows == end.rows && db.ledger == end.ledger
  {
    hide Run, After, Polled, NeverSubmitted, VisitSteps, BulkFailed;
    ghost var s := System(db.rows, map[], db.ledger, {});
    var unfinished := db.GetAllUnfinished();
    var polled := Polled(unfinished);
    ghost var start, written := [Start(0), BulkFail(NeverSubmitted(unfinished), None)], NeverSubmitted(unfinished);
    FirstSteps(s, unfinished);
    db.BulkUpdate(NeverSubmitted(unfinished), None);
    var taskM := polled;
    ghost var seen: set<int> := {};
    assert start + AllVisits(polled, visits[..0]) == start;
    for i := 0 to |visits|
      invariant Alone(db, taskM, seen, written) == Run(s, start + AllVisits(polled, visits[..i]))
    {
      VisitMore(s, start, polled, visits, i);
      taskM, seen, written := VisitChannel(db, polled, taskM, visits[i], seen, written);
    }
    assert visits[..|visits|] == visits;
  }

  lemma VisitMore(s: System, start: seq<Step>, polled: Rows, visits: seq<Visit>, i: nat)
    requires i < |visits|
    ensures Run(s, start + AllVisits(polled, visits[..i + 1]))
         == Run(Run(s, start + AllVisits(polled, visits[..i])), VisitSteps(polled, visits[i]))
  {
    hide Run, VisitSteps;
    assert visits[..i + 1][..i] == visits[..i];
    var sofar, more := start + AllVisits(polled, visits[..i]), VisitSteps(polled, visits[i]);
    assert start + AllVisits(polled, visits[..i + 1]) == sofar + more;
    RunConcat(s, sofar, more);
  }

  lemma OneBulk(s: System, ids: set<int>, reason: Option<string>)
    ensures Run(s, [BulkFail(ids, reason)]) == s.(rows := BulkFailed(s.rows, ids, reason), written := s.written + ids)
  {
    assert [BulkFail(ids, reason)][..0] == [];
  }

  lemma FirstSteps(s: System, tasks: Rows)
    requires tasks == Unfinished(s.rows) && s.passes == map[] && s.written == {}
    ensures Run(s, [Start(0), BulkFail(NeverSubmitted(tasks), None)]) ==
            System(BulkFailed(s.rows, NeverSubmitted(tasks), None), map[0 := Pass(Polled(tasks), {})], s.ledger,
                   NeverSubmitted(tasks))
  {
    Unroll(s, [], Start(0));
    Unroll(s, [Start(0)], BulkFail(NeverSubmitted(tasks), None));
    assert [] + [Start(0)] == [Start(0)];
    assert [Start(0)] + [BulkFail(NeverSubmitted(tasks), None)] == [Start(0), BulkFail(NeverSubmitted(tasks), None)];
  }

  lemma {:induction false} RunConcat(s: System, a: seq<Step>, b: seq<Step>)
    ensures Run(s, a + b) == Run(Run(s, a), b)
  {
    hide After;
    if b == [] {
      assert a + b == a;
    } else {
      var front := b[..|b| - 1];
      assert (a + b)[..|a + b| - 1] == a + front;
      RunConcat(s, a, front);
    }
  }

  lemma OnlyPass(s: System, tasks: Rows, seen: set<int>, item: Item, timedOut: bool)
    requires s.passes == map[0 := Pass(tasks, seen)]
    ensures After(s, Process(0, item, timedOut)) ==
            if item.id !in tasks then s
            else
              var out := ItemStep(s.rows, s.ledger, tasks[item.id], item, timedOut);
              s.(rows := out.rows, passes := map[0 := Pass(tasks[item.id := out.task], seen + {item.id})],
                  ledger := out.ledger)
  {
  }

  lemma Unroll(s: System, steps: seq<Step>, step: Step)
    ensures Run(s, steps + [step]) == After(Run(s, steps), step)
  {
    assert (steps + [step])[..|steps|] == steps;
  }

  // ----- the invariant -----

  predicate Refunded(ledger: seq<Refund>, id: int) {
    exists i :: 0 <= i < |ledger| && ledger[i].id == id
  }

  /** What a running pass may still write: unfinished copies that agree with the stored quota. */
  predicate PassInv(rows: Rows, p: Pass) {
    forall id :: id in p.tasks && id !in p.seen ==>
      && id in rows && p.tasks[id].quota == rows[id].quota
      && p.tasks[id].status != FAILURE
  }

  predicate LedgerInv(rows: Rows, ledger: seq<Refund>) {
    && (forall i :: 0 <= i < |ledger| ==>
          ledger[i].id in rows && rows[ledger[i].id].status == FAILURE && ledger[i].amount == rows[ledger[i].id].quota)
    && (forall i, j :: 0 <= i < j < |ledger| ==> ledger[i].id != ledger[j].id)
  }

  predicate RowsInv(rows: Rows, ledger: seq<Refund>, written: set<int>) {
    forall id :: id in rows ==>
      && Sane(rows[id])
      && (rows[id].status == FAILURE && rows[id].quota != 0 && id !in written ==> Refunded(ledger, id))
  }

  predicate Inv(s: System) {
    && RowsInv(s.rows, s.ledger, s.written)
    && LedgerInv(s.rows, s.ledger)
    && forall p :: p in s.passes ==> PassInv(s.rows, s.passes[p])
  }

  lemma ConsistentWithTimeout(task: Task, item: Item, timedOut: bool)
    requires Consistent(item)
    ensures var reported := WithTimeout(task, item, timedOut);
            && Consistent(reported)
            && (Fails(reported) <==> reported.status == FAILURE)
            && Sane(Copied(task, reported))
  {
  }

  /** One item of an unfinished task keeps rows and refunds in step. */
  lemma ItemKeepsInv(rows: Rows, ledger: seq<Refund>, written: set<int>, task: Task, item: Item, timedOut: bool)
    requires RowsInv(rows, ledger, written) && LedgerInv(rows, ledger)
    requires Consistent(item) && item.id in rows && task.quota == rows[item.id].quota && task.status != FAILURE
    ensures var out := ItemStep(rows, ledger, task, item, timedOut);
            && RowsInv(out.rows, out.ledger, written) && LedgerInv(out.rows, out.ledger)
            && out.rows.Keys == rows.Keys
            && forall id :: id in rows ==> out.rows[id].quota == rows[id].quota
  {
    ConsistentWithTimeout(task, item, timedOut);
    var out := ItemStep(rows, ledger, task, item, timedOut);
    forall id | Refunded(ledger, id)
      ensures Refunded(out.ledger, id)
    {
      var i :| 0 <= i < |ledger| && ledger[i].id == id;
      assert out.ledger[i].id == id;
    }
    if |out.ledger| > |ledger| {
      assert out.ledger[|ledger|].id == item.id;
    }
  }

  lemma StepKeepsInv(s: System, step: Step)
    requires Inv(s) && Legal(s, step)
    ensures Inv(After(s, step))
  {
    hide ItemStep;
    match step
    case Submit(id, task) =>
      var s' := After(s, step);
      assert forall k :: k in s.rows ==> s'.rows[k] == s.rows[k];
    case Start(pass) =>
    case BulkFail(ids, reason) =>
      var s' := After(s, step);
      assert forall k :: k in s.rows ==> k in s'.rows && s'.rows[k].quota == s.rows[k].quota;
    case Process(pass, item, timedOut) =>
      if pass in s.passes && item.id in s.passes[pass].tasks {
        ItemKeepsInv(s.rows, s.ledger, s.written, s.passes[pass].tasks[item.id], item, timedOut);
      }
  }

  lemma {:induction false} RunKeepsInv(s: System, steps: seq<Step>)
    requires Inv(s) && LegalRun(s, steps)
    ensures Inv(Run(s, steps))
    decreases |steps|
  {
    if steps != [] {
      var before, last := steps[..|steps| - 1], steps[|steps| - 1];
      assert forall i :: 0 <= i < |before| ==> before[..i] == steps[..i];
      RunKeepsInv(s, before);
      assert Legal(Run(s, steps[..|steps| - 1]), last);
      StepKeepsInv(Run(s, before), last);
    }
  }

  // ----- main results -----

  function CountRefunds(ledger: seq<Refund>, id: int): nat {
    if ledger == [] then 0
    else CountRefunds(ledger[..|ledger| - 1], id) + if ledger[|ledger| - 1].id == id then 1 else 0
  }

  lemma {:induction false} CountOfDistinct(ledger: seq<Refund>, id: int)
    requires forall i, j :: 0 <= i < j < |ledger| ==> ledger[i].id != ledger[j].id
    ensures CountRefunds(ledger, id) == if Refunded(ledger, id) then 1 else 0
  {
    if ledger != [] {
      var front, last := ledger[..|ledger| - 1], ledger[|ledger| - 1];
      assert ledger == front + [last];
      CountOfDistinct(front, id);
    }
  }

  /**
   In every legal run of any number of passes, a task is refunded at most once, only if it is
   stored as failed, and with its own quota; and every task that polling failed is refunded.
   */
  lemma RefundedAtMostOnce(s: System, steps: seq<Step>, id: int)
    requires Initial(s) && LegalRun(s, steps)
    ensures var end := Run(s, steps);
            && CountRefunds(end.ledger, id) <= 1
            && (CountRefunds(end.ledger, id) == 1 ==> id in end.rows && end.rows[id].status == FAILURE)
            && (forall i :: 0 <= i < |end.ledger| && end.ledger[i].id == id ==>
                id in end.rows && end.ledger[i].amount == end.rows[id].quota)
            && (id in end.rows && end.rows[id].status == FAILURE && end.rows[id].quota != 0 && id !in end.written ==>
                  CountRefunds(end.ledger, id) == 1)
  {
    RunKeepsInv(s, steps);
    CountOfDistinct(Run(s, steps).ledger, id);
  }

  // ----- why the assumptions are needed -----

  const OPEN := "0%"

  function Sole(id: int, task: Task): Rows {
    map[id := task]
  }

  /** A system with one open task of quota one and nothing else. */
  function Single(id: int, status: string): System {
    System(Sole(id, OpenTask(status)), map[], [], {})
  }

  function OpenTask(status: string): Task {
    Task(0, status, OPEN, "", 1, 0, 0, true)
  }

  lemma StartSole(s: System, pass: int, id: int, task: Task)
    requires s.rows == Sole(id, task) && task.progress != DONE && task.submitted
    ensures After(s, Start(pass)) == s.(passes := s.passes[pass := Pass(Sole(id, task), {})])
  {
    assert Unfinished(s.rows) == Sole(id, task) == Polled(Sole(id, task));
  }

  /** A failing item for the only task, processed by a pass whose copy has the stored status, pays a refund. */
  lemma ProcessSole(s: System, pass: int, item: Item, timedOut: bool, row: Task, task: Task)
    requires s.rows == Sole(item.id, row) && pass in s.passes && s.passes[pass].tasks == Sole(item.id, task)
    requires var reported := WithTimeout(task, item, timedOut);
             NeedsUpdate(task, reported) && Fails(reported) && row.status == task.status && task.quota == 1
    ensures var task' := Copied(task, WithTimeout(task, item, timedOut));
            After(s, Process(pass, item, timedOut)) ==
            s.(rows := Sole(item.id, task'), ledger := s.ledger + [Refund(item.id, 1)],
               passes := s.passes[pass := Pass(Sole(item.id, task'), s.passes[pass].seen + {item.id})])
  {
    var task' := Copied(task, WithTimeout(task, item, timedOut));
    assert Sole(item.id, row)[item.id := task'] == Sole(item.id, task');
    assert Sole(item.id, task)[item.id := task'] == Sole(item.id, task');
  }

  function TwoPasses(item: Item): seq<Step> {
    [Start(0), Start(1), Process(0, item, false), Process(1, item, false)]
  }

  /** Two passes that both see an unfinished task reported with a reason but another status both refund it. */
  lemma ReasonWithoutFailureRefundsTwice(item: Item)
    requires item.progress != DONE && item.failReason != "" && item.status != FAILURE
    ensures var s := Single(item.id, item.status);
            && Initial(s) && OrderlyRun(s, TwoPasses(item))
            && CountRefunds(Run(s, TwoPasses(item)).ledger, item.id) == 2
  {
    var s, task := Single(item.id, item.status), OpenTask(item.status);
    FourSteps(s, Start(0), Start(1), Process(0, item, false), Process(1, item, false));
    hide After, OrderlyRun;
    StartSole(s, 0, item.id, task);
    var s1 := After(s, Start(0));
    StartSole(s1, 1, item.id, task);
    var s2 := After(s1, Start(1));
    ProcessSole(s2, 0, item, false, task, task);
    var s3 := After(s2, Process(0, item, false));
    ProcessSole(s3, 1, item, false, Copied(task, item), task);
    CountTwo(item.id, 1);
  }

  function ThreePasses(item: Item): seq<Step> {
    [Start(0), Process(0, item, false), Start(1), Start(2), Process(1, item, true), Process(2, item, true)]
  }

  /** A failure reported without a reason leaves an open failed task, which two later passes both time out. */
  lemma FailureWithoutReasonRefundsTwice(item: Item, status: string)
    requires item.progress != DONE && item.failReason == "" && item.status == FAILURE && status != FAILURE
    ensures var s := Single(item.id, status);
            && Initial(s) && OrderlyRun(s, ThreePasses(item))
            && CountRefunds(Run(s, ThreePasses(item)).ledger, item.id) == 2
  {
    var s, task := Single(item.id, status), OpenTask(status);
    SixSteps(s, Start(0), Process(0, item, false), Start(1), Start(2), Process(1, item, true), Process(2, item, true));
    hide After, Run, OrderlyRun;
    StartSole(s, 0, item.id, task);
    var s1 := After(s, Start(0));
    LeftOpen(s1, 0, item, task);
    var s2, open := After(s1, Process(0, item, false)), Copied(task, item);
    StartSole(s2, 1, item.id, open);
    var s3 := After(s2, Start(1));
    StartSole(s3, 2, item.id, open);
    var s4 := After(s3, Start(2));
    ProcessSole(s4, 1, item, true, open, open);
    var s5 := After(s4, Process(1, item, true));
    ProcessSole(s5, 2, item, true, Copied(open, WithTimeout(open, item, true)), open);
    CountTwo(item.id, 1);
  }

  /** With every pass seeing each task once, no run refunds a task twice. */
  ghost predicate RefundsOnce(possible: Item -> bool) {
    forall s, steps, id :: Initial(s) && OrderlyRun(s, steps) && ReportsOnly(possible, steps) ==>
      CountRefunds(Run(s, steps).ledger, id) <= 1
  }

  /**
   Whatever class of items the upstream may report: no run, of any number of passes, refunds a
   task twice exactly if every item of the class is consistent.
   */
  lemma RefundsOnceIff(possible: Item -> bool)
    ensures RefundsOnce(possible) <==> forall item :: possible(item) ==> Consistent(item)
  {
    hide Run, CountRefunds, OrderlyRun;
    if forall item :: possible(item) ==> Consistent(item) {
      forall s, steps, id | Initial(s) && OrderlyRun(s, steps) && ReportsOnly(possible, steps)
        ensures CountRefunds(Run(s, steps).ledger, id) <= 1
      {
        LegalIfConsistent(possible, s, steps);
        RefundedAtMostOnce(s, steps, id);
      }
    }
    if item :| possible(item) && !Consistent(item) {
      if item.failReason != "" {
        ReasonWithoutFailureRefundsTwice(item);
        var s, steps := Single(item.id, item.status), TwoPasses(item);
        assert ReportsOnly(possible, steps);
        assert !(CountRefunds(Run(s, steps).ledger, item.id) <= 1);
      } else {
        FailureWithoutReasonRefundsTwice(item, "");
        var s, steps := Single(item.id, ""), ThreePasses(item);
        assert ReportsOnly(possible, steps);
        assert !(CountRefunds(Run(s, steps).ledger, item.id) <= 1);
      }
    }
  }

  lemma LegalIfConsistent(possible: Item -> bool, s: System, steps: seq<Step>)
    requires OrderlyRun(s, steps) && ReportsOnly(possible, steps) && forall item :: possible(item) ==> Consistent(item)
    ensures LegalRun(s, steps)
  {
  }

  lemma LeftOpen(s: System, pass: int, item: Item, task: Task)
    requires s.rows == Sole(item.id, task) && pass in s.passes && s.passes[pass].tasks == s.rows
    requires task.code != 1 && !Fails(item)
    ensures var s' := After(s, Process(pass, item, false));
            && s'.rows == Sole(item.id, Copied(task, item)) && s'.ledger == s.ledger
            && s'.passes.Keys == s.passes.Keys
  {
    assert Sole(item.id, task)[item.id := Copied(task, item)] == Sole(item.id, Copied(task, item));
  }

  /** One pass sees the only task of the system twice. */
  function OnePass(first: Report, second: Report): seq<Step> {
    [Start(0), Process(0, first.item, first.timedOut), Process(0, second.item, second.timedOut)]
  }

  /** The item says what a failed task says already. */
  predicate Repeats(failed: Item, item: Item) {
    item.progress == DONE && item.status == failed.status && item.failReason == failed.failReason && item.rest
        == failed.rest
  }

  /**
   Two reports about one task in one response refund it twice exactly if both are failures and
   the second is not a finished report that repeats the first.
   */
  lemma RepeatedIdRefundsTwiceIff(task: Task, first: Report, second: Report)
    requires first.item.id == second.item.id
    requires task.progress != DONE && task.submitted && task.quota != 0
    ensures var s := System(Sole(first.item.id, task), map[], [], {});
            var reported := WithTimeout(task, first.item, first.timedOut);
            CountRefunds(Run(s, OnePass(first, second)).ledger, first.item.id) == 2 <==>
              Fails(reported) && Fails(second.item) && !Repeats(reported, second.item)
  {
    hide Run, ItemStep, CountRefunds, Fails, Repeats;
    var id, quota := first.item.id, task.quota;
    LedgerOfOnePass(task, first, second);
    TwoReports(task, first, second);
    CountTwo(id, quota);
    CountFew(id, quota);
  }

  /** The refunds that two reports about the same task pay, one after the other. */
  function LedgerOf(task: Task, first: Report, second: Report): seq<Refund> {
    var a := ItemStep(Sole(first.item.id, task), [], task, first.item, first.timedOut);
    ItemStep(a.rows, a.ledger, a.task, second.item, second.timedOut).ledger
  }

  lemma LedgerOfOnePass(task: Task, first: Report, second: Report)
    requires first.item.id == second.item.id && task.progress != DONE && task.submitted
    ensures Run(System(Sole(first.item.id, task), map[], [], {}), OnePass(first, second)).ledger == LedgerOf(task,
          first, second)
  {
    hide ItemStep;
    var s := System(Sole(first.item.id, task), map[], [], {});
    ThreeSteps(s, OnePass(first, second));
    StartSole(s, 0, first.item.id, task);
  }

  lemma TwoReports(task: Task, first: Report, second: Report)
    requires first.item.id == second.item.id && task.progress != DONE && task.quota != 0
    ensures var reported := WithTimeout(task, first.item, first.timedOut);
            var one, ledger := Refund(first.item.id, task.quota), LedgerOf(task, first, second);
            if Fails(reported) && Fails(second.item) && !Repeats(reported, second.item) then ledger == [one, one]
            else ledger == [] || ledger == [one]
  {
    var reported := WithTimeout(task, first.item, first.timedOut);
    assert Fails(reported) ==> NeedsUpdate(task, reported);
    var one := Refund(first.item.id, task.quota);
    assert [] + [one] == [one] && [one] + [one] == [one, one];
  }

  lemma ThreeSteps(s: System, steps: seq<Step>)
    requires |steps| == 3
    ensures Run(s, steps) == After(After(After(s, steps[0]), steps[1]), steps[2])
  {
    hide After;
    var a, b, c := steps[0], steps[1], steps[2];
    Unroll(s, [], a);
    Unroll(s, [a], b);
    Unroll(s, [a, b], c);
    assert [] + [a] == [a] && [a] + [b] == [a, b] && [a, b] + [c] == steps;
  }

  lemma CountFew(id: int, amount: int)
    ensures CountRefunds([], id) == 0 && CountRefunds([Refund(id, amount)], id) == 1
  {
    var one := [Refund(id, amount)];
    assert one[..|one| - 1] == [];
  }

  lemma FourSteps(s: System, a: Step, b: Step, c: Step, d: Step)
    ensures var s1 := After(s, a);
            var s2 := After(s1, b);
            var s3 := After(s2, c);
            && Run(s, [a, b, c, d]) == After(s3, d)
            && (OrderlyRun(s, [a, b, c, d]) <==> Orderly(s, a) && Orderly(s1, b) && Orderly(s2, c) && Orderly(s3, d))
  {
    hide After, Orderly, Run, OrderlyRun;
    NoSteps(s);
    OrderlyStep(s, [], a);
    OrderlyStep(s, [a], b);
    OrderlyStep(s, [a, b], c);
    OrderlyStep(s, [a, b, c], d);
    assert [] + [a] == [a] && [a] + [b] == [a, b] && [a, b] + [c] == [a, b, c] && [a, b, c] + [d] == [a, b, c, d];
  }

  lemma NoSteps(s: System)
    ensures Run(s, []) == s && OrderlyRun(s, [])
  {
  }

  lemma OrderlyStep(s: System, steps: seq<Step>, step: Step)
    ensures Run(s, steps + [step]) == After(Run(s, steps), step)
    ensures OrderlyRun(s, steps + [step]) <==> OrderlyRun(s, steps) && Orderly(Run(s, steps), step)
  {
    hide After, Orderly;
    Unroll(s, steps, step);
    var more := steps + [step];
    assert forall i :: 0 <= i < |steps| ==> more[..i] == steps[..i] && more[i] == steps[i];
    assert more[..|steps|] == steps && more[|steps|] == step;
    if OrderlyRun(s, more) {
      forall i | 0 <= i < |steps|
        ensures Orderly(Run(s, steps[..i]), steps[i])
      {
        assert Orderly(Run(s, more[..i]), more[i]);
      }
    }
  }

  lemma SixSteps(s: System, a: Step, b: Step, c: Step, d: Step, e: Step, f: Step)
    ensures var s4 := After(After(After(After(s, a), b), c), d);
            && Run(s, [a, b, c, d, e, f]) == After(After(s4, e), f)
            && (OrderlyRun(s, [a, b, c, d, e, f]) <==>
                  OrderlyRun(s, [a, b, c, d]) && Orderly(s4, e) && Orderly(After(s4, e), f))
            && (OrderlyRun(s, [a, b, c, d]) <==>
                  && Orderly(s, a) && Orderly(After(s, a), b) && Orderly(After(After(s, a), b), c)
                  && Orderly(After(After(After(s, a), b), c), d))
  {
    hide After, Orderly, OrderlyRun;
    FourSteps(s, a, b, c, d);
    OrderlyStep(s, [a, b, c, d], e);
    OrderlyStep(s, [a, b, c, d, e], f);
    assert [a, b, c, d] + [e] == [a, b, c, d, e] && [a, b, c, d, e] + [f] == [a, b, c, d, e, f];
  }

  lemma CountTwo(id: int, amount: int)
    ensures CountRefunds([Refund(id, amount), Refund(id, amount)], id) == 2
  {
    var two := [Refund(id, amount), Refund(id, amount)];
    var one := [Refund(id, amount)];
    assert two[..|two| - 1] == one && one[..|one| - 1] == [];
    assert CountRefunds(one, id) == CountRefunds([], id) + 1;
  }

  // ----- what is stored -----

  /** The report counts as a failure: a reason before the end, or the failure status at the end. */
  predicate IsFailure(status: string, progress: string, failReason: string) {
    if progress == "100%" then status == "FAILURE" else failReason != ""
  }

  /** The copy says exactly what is reported, and is finished or has no reason. */
  predicate SaysAlready(task: Task, status: string, progress: string, failReason: string, rest: int) {
    && task.code == 1 && task.status == status && task.progress == progress
    && task.failReason == failReason && task.rest == rest
    && (progress == "100%" || failReason == "")
  }

  /**
   What one item comes to.  The pass's copy takes over the reported status, reason and remaining
   fields, and the reported progress or 100% for a failure; a task that was still running after an
   hour is reported as failed.  The row is written exactly if there is anything to report and the
   stored status is the one the copy had, and then a failure pays the quota back, if there is any.
   */
  lemma ItemMeaning(rows: Rows, ledger: seq<Refund>, task: Task, item: Item, timedOut: bool)
    ensures var out := ItemStep(rows, ledger, task, item, timedOut);
            var expired := timedOut && task.progress != "100%";
            var status := if expired then "FAILURE" else item.status;
            var reason := if expired then TIMEOUT_REASON else item.failReason;
            var failed := IsFailure(status, item.progress, reason);
            var settled := SaysAlready(task, status, item.progress, reason, item.rest);
            var written := !settled && item.id in rows && rows[item.id].status == task.status;
      && out.task.status == status && out.task.failReason == reason && out.task.rest == item.rest && out.task.code == 1
      && out.task.progress == (if failed then "100%" else item.progress)
      && out.task.quota == task.quota && out.task.channel == task.channel && out.task.submitted == task.submitted
      && out.rows == (if written then rows[item.id := out.task] else rows)
      && out.ledger == if written && failed && task.quota != 0 then ledger + [Refund(item.id, task.quota)] else ledger
  {
    var reported := WithTimeout(task, item, timedOut);
    assert Fails(reported) <==> IsFailure(reported.status, reported.progress, reported.failReason);
  }

  /** A pass reads exactly the submitted tasks below 100%, as they are stored. */
  lemma StartMeaning(s: System, pass: int, id: int)
    ensures var next := After(s, Start(pass));
            && next == s.(passes := next.passes) && pass in next.passes && next.passes[pass].seen == {}
            && (id in next.passes[pass].tasks <==>
                  id in s.rows && s.rows[id].progress != "100%" && s.rows[id].submitted)
            && (id in next.passes[pass].tasks ==> next.passes[pass].tasks[id] == s.rows[id])
            && forall p :: p != pass ==>
                 (p in next.passes <==> p in s.passes) && (p in s.passes ==> next.passes[p] == s.passes[p])
  {
  }

  /** A pass first fails every open task that was never submitted, and leaves all other rows alone. */
  lemma UnsubmittedFail(s: System, visits: seq<Visit>, id: int)
    requires id in s.rows
    ensures var steps := PassSteps(Unfinished(s.rows), visits);
            var task := s.rows[id];
            && |steps| >= 2 && steps[0] == Start(0)
            && id in Run(s, steps[..2]).rows
            && var row := Run(s, steps[..2]).rows[id];
               if task.progress != "100%" && !task.submitted then
                 row == task.(status := "FAILURE", progress := "100%")
               else row == task
  {
    var steps := PassSteps(Unfinished(s.rows), visits);
    var first, second := steps[0], steps[1];
    assert steps[..2] == [first] + [second] && [] + [first] == [first];
    Unroll(s, [], first);
    Unroll(s, [first], second);
  }

  /** A channel that is gone fails exactly the polled tasks of that channel, with the reason. */
  lemma GoneChannelFails(s: System, tasks: Rows, channel: int, reason: string, id: int)
    requires id in s.rows
    ensures var end := Run(s, VisitSteps(tasks, Visit(channel, ChannelGone(reason))));
            && id in end.rows
            && end.rows[id] ==
                 if id in tasks && tasks[id].channel == channel then
                   s.rows[id].(status := "FAILURE", progress := "100%", failReason := reason)
                 else s.rows[id]
  {
    var ids := OfChannel(tasks, channel);
    if ids == {} {
      NoSteps(s);
      assert id !in ids;
    } else {
      OneBulk(s, ids, Some(reason));
    }
  }

  // ----- finished tasks -----

  predicate Holds(s: System, pass: int, id: int) {
    pass in s.passes && id in s.passes[pass].tasks
  }

  /** The task is stored as finished, and no passes but the given ones still hold a copy of it. */
  ghost predicate Finished(s: System, id: int, held: set<int>) {
    id in s.rows && s.rows[id].progress == "100%" && forall p :: Holds(s, p, id) ==> p in held
  }

  /** The step fails the task in bulk, or brings an item about it to one of the given passes. */
  predicate Names(step: Step, id: int, held: set<int>) {
    || (step.BulkFail? && id in step.ids)
    || (step.Process? && step.item.id == id && step.pass in held)
  }

  /** The step leaves the finished task alone. */
  ghost predicate LeavesAlone(s: System, step: Step, id: int, held: set<int>)
    requires Finished(s, id, held)
  {
    var next := After(s, step);
    && Finished(next, id, held)
    && next.rows[id] == s.rows[id] && CountRefunds(next.ledger, id) == CountRefunds(s.ledger, id)
  }

  lemma FinishedStep(s: System, step: Step, id: int, held: set<int>)
    requires Finished(s, id, held) && !Names(step, id, held)
    ensures LeavesAlone(s, step, id, held)
  {
    hide LeavesAlone, Finished;
    match step
    case Submit(newId, task) => FinishedUnlessProcessed(s, step, id, held);
    case Start(pass) => FinishedUnlessProcessed(s, step, id, held);
    case BulkFail(ids, reason) => FinishedUnlessProcessed(s, step, id, held);
    case Process(pass, item, timedOut) => FinishedProcess(s, pass, item, timedOut, id, held);
  }

  lemma FinishedUnlessProcessed(s: System, step: Step, id: int, held: set<int>)
    requires Finished(s, id, held) && !Names(step, id, held) && !step.Process?
    ensures LeavesAlone(s, step, id, held)
  {
    hide CountRefunds;
    var next := After(s, step);
    assert forall p :: Holds(next, p, id) ==> Holds(s, p, id);
  }

  lemma FinishedProcess(s: System, pass: int, item: Item, timedOut: bool, id: int, held: set<int>)
    requires Finished(s, id, held) && !Names(Process(pass, item, timedOut), id, held)
    ensures LeavesAlone(s, Process(pass, item, timedOut), id, held)
  {
    hide ItemStep, CountRefunds;
    if Holds(s, pass, item.id) {
      var task := s.passes[pass].tasks[item.id];
      OtherRow(s.rows, s.ledger, task, item, timedOut, id);
      var next := After(s, Process(pass, item, timedOut));
      assert next.passes[pass].tasks.Keys == s.passes[pass].tasks.Keys + {item.id};
      assert forall p :: Holds(next, p, id) ==> Holds(s, p, id);
    }
  }

  lemma OtherRow(rows: Rows, ledger: seq<Refund>, task: Task, item: Item, timedOut: bool, id: int)
    requires item.id != id && id in rows
    ensures var out := ItemStep(rows, ledger, task, item, timedOut);
            && id in out.rows && out.rows[id] == rows[id]
            && CountRefunds(out.ledger, id) == CountRefunds(ledger, id)
  {
    CountOther(ledger, Refund(item.id, task.quota), id);
    hide CountRefunds;
  }

  lemma CountOther(ledger: seq<Refund>, refund: Refund, id: int)
    requires refund.id != id
    ensures CountRefunds(ledger + [refund], id) == CountRefunds(ledger, id)
  {
    assert (ledger + [refund])[..|ledger|] == ledger;
  }

  /**
   Once a task is stored at 100%, no pass that starts later reads it: its row and the refunds paid
   for it stay as they are through every run, whatever is reported to whom, apart from reports to
   the passes that already hold a copy of it and bulk failures that name it.
   */
  lemma {:induction false} FinishedStays(s: System, steps: seq<Step>, id: int, held: set<int>)
    requires Finished(s, id, held) && forall i :: 0 <= i < |steps| ==> !Names(steps[i], id, held)
    ensures var end := Run(s, steps);
            && Finished(end, id, held) && end.rows[id] == s.rows[id]
            && CountRefunds(end.ledger, id) == CountRefunds(s.ledger, id)
    decreases |steps|
  {
    hide After, CountRefunds, Finished;
    if steps != [] {
      FinishedStays(s, steps[..|steps| - 1], id, held);
      FinishedStep(Run(s, steps[..|steps| - 1]), steps[|steps| - 1], id, held);
    }
  }
}
