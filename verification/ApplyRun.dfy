/** Applying a plan to an arbitrary server, and rolling back from the saved rulesets. */
module ApplyRun {
  import opened Wrappers
  import opened Rulesets
  import opened Rewrites
  import opened RulesetPlan
  import opened Convergence
  import opened Equality

  datatype Reply = Answer(rs: Ruleset) | Forbidden(why: string) | Broken(why: string)

  datatype Request = Get(subject: Subject) | Put(subject: Subject, body: Ruleset)

  /** Everything done, in order: requests with their replies, and backups written. */
  datatype Event =
    | Asked(request: Request, reply: Reply)
    | Saved(subject: Subject, before: Ruleset)

  /** Any server: a reply to every request after every history. */
  type Server = (seq<Event>, Request) -> Reply

  datatype Status = Drifting | Settled | Missing | Untouched

  /** A ruleset, under the name the plan read. */
  datatype Row = Row(subject: Subject, name: string, status: Status)

  datatype Ending = Applied | Restored | Differs | Stopped | Failed | NothingWritten

  datatype Outcome = Outcome(subject: Subject, ending: Ending)

  /** What is compared on reading back: everything written, or the managed part, up to equality. */
  datatype View = Whole(rs: Ruleset) | Part(managed: Managed)

  function ViewOf(rs: Ruleset, only: Option<string>): Result<View, string> {
    if only.Some? then Success(Whole(NormRuleset(PutBody(rs))))
    else
      match ManagedOf(rs)
      case Success(m) => Success(Part(m))
      case Failure(error) => Failure(error)
  }

  /** What is put, when the write is not refused beforehand. */
  function Write(p: Policy, only: Option<string>, row: Row, before: Ruleset): Result<Ruleset, string> {
    match Body(p, row.subject, row.name, before, only)
    case Failure(error) => Failure(error)
    case Success(body) => if ViewOf(body, only).Success? then Success(body) else Failure(NO_PARAMETERS)
  }

  predicate Matches(after: Ruleset, body: Ruleset, only: Option<string>) {
    ViewOf(after, only).Success? && ViewOf(after, only) == ViewOf(body, only)
  }

  function EndOf(reply: Reply, body: Ruleset, only: Option<string>): Ending {
    match reply
    case Forbidden(_) => Stopped
    case Broken(_) => Failed
    case Answer(after) =>
      if ViewOf(after, only).Failure? then Failed
      else if Matches(after, body, only) then Applied
      else Differs
  }

  // ---- runs ------------------------------------------------------------------------------

  /** Every reply is the server's own. */
  ghost predicate Genuine(server: Server, log: seq<Event>) {
    forall i :: 0 <= i < |log| && log[i].Asked? ==> log[i].reply == server(log[..i], log[i].request)
  }

  /** How one row of an apply ended, if these can be its events. */
  function RowEnd(p: Policy, only: Option<string>, row: Row, run: seq<Event>): Option<Ending> {
    if run == [] || !run[0].Asked? || run[0].request != Get(row.subject) then None
    else
      match run[0].reply
      case Forbidden(_) => if |run| == 1 then Some(Stopped) else None
      case Broken(_) => if |run| == 1 then Some(Failed) else None
      case Answer(before) =>
        var write := Write(p, only, row, before);
        if write.Failure? then (if |run| == 1 then Some(Failed) else None)
        else if |run| >= 3 && run[1] == Saved(row.subject, before) then PutEnd(only, row.subject, write.value, run[2..])
        else None
  }

  /** How it ended from the write on: the body is put once, and read again when the reply does not match. */
  function PutEnd(only: Option<string>, s: Subject, body: Ruleset, run: seq<Event>): Option<Ending> {
    if run == [] || !run[0].Asked? || run[0].request != Put(s, body) then None
    else if EndOf(run[0].reply, body, only) != Differs then
      (if |run| == 1 then Some(EndOf(run[0].reply, body, only)) else None)
    else if |run| == 2 && run[1].Asked? && run[1].request == Get(s) then Some(EndOf(run[1].reply, body, only))
    else None
  }

  predicate RowRun(p: Policy, only: Option<string>, row: Row, run: seq<Event>, end: Ending) {
    RowEnd(p, only, row, run) == Some(end)
  }

  predicate PutRun(only: Option<string>, s: Subject, body: Ruleset, run: seq<Event>, end: Ending) {
    PutEnd(only, s, body, run) == Some(end)
  }

  function Joined(runs: seq<seq<Event>>): seq<Event> {
    if runs == [] then [] else Joined(runs[..|runs| - 1]) + runs[|runs| - 1]
  }

  /** These rows were run one after the other. */
  ghost predicate RowsRun(p: Policy, only: Option<string>, rows: seq<Row>, runs: seq<seq<Event>>,
                          outcomes: seq<Outcome>)
    requires |runs| == |outcomes| <= |rows|
  {
    runs == [] ||
    var i := |runs| - 1;
    && outcomes[i].subject == rows[i].subject && RowRun(p, only, rows[i], runs[i], outcomes[i].ending)
    && RowsRun(p, only, rows, runs[..i], outcomes[..i])
  }

  /** None of these rows was stopped. */
  predicate Through(outcomes: seq<Outcome>) {
    forall i :: 0 <= i < |outcomes| ==> outcomes[i].ending != Stopped
  }

  /** The rows of an apply, up to the first that was stopped. */
  ghost predicate Runs(p: Policy, only: Option<string>, rows: seq<Row>, runs: seq<seq<Event>>, outcomes: seq<Outcome>) {
    && |runs| == |outcomes| <= |rows| && RowsRun(p, only, rows, runs, outcomes)
    && (if Through(outcomes) then |outcomes| == |rows|
        else Through(outcomes[..|outcomes| - 1]))
  }

  function Drifted(rows: seq<Row>, status: Status): seq<Row> {
    if rows == [] then []
    else
      var last := rows[|rows| - 1];
      Drifted(rows[..|rows| - 1], status) + (if last.status == status then [last] else [])
  }

  /** The backups after these events. */
  function Backups(disk: map<Subject, Ruleset>, log: seq<Event>): map<Subject, Ruleset> {
    if log == [] then disk
    else
      var last := log[|log| - 1];
      var before := Backups(disk, log[..|log| - 1]);
      if last.Saved? then before[last.subject := last.before] else before
  }

  /** One of these rows has a backup already. */
  predicate Taken(rows: seq<Row>, disk: map<Subject, Ruleset>) {
    exists i :: 0 <= i < |rows| && rows[i].subject in disk
  }

  function Refused(rows: seq<Row>): seq<Outcome> {
    seq(|rows|, i requires 0 <= i < |rows| => Outcome(rows[i].subject, NothingWritten))
  }

  // ---- rollback --------------------------------------------------------------------------

  datatype Backup = Backup(subject: Subject, saved: Ruleset)

  const NO_QUEUE := "the ruleset no longer has a merge_queue rule"

  /** The current ruleset with the saved queue parameters, and nothing else of the saved one. */
  function RollbackBody(saved: Ruleset, current: Ruleset): Result<Ruleset, string> {
    match QueueParams(saved.rules)
    case Failure(error) => Failure(error)
    case Success(None) => Success(PutBody(current))
    case Success(Some(queue)) =>
      if Has(current.rules, QUEUE) then Success(WithQueue(current, queue)) else Failure(NO_QUEUE)
  }

  function RollbackEnd(reply: Reply, body: Ruleset): Ending {
    match reply
    case Forbidden(_) => Stopped
    case Broken(_) => Failed
    case Answer(after) =>
      if ManagedOf(after).Failure? || ManagedOf(body).Failure? then Failed
      else if ManagedOf(after) == ManagedOf(body) then Restored
      else Differs
  }

  /** The events of one backup, with how it ended. */
  ghost predicate RollbackRun(b: Backup, run: seq<Event>, end: Ending) {
    && |run| > 0 && run[0].Asked? && run[0].request == Get(b.subject)
    && match run[0].reply
       case Forbidden(_) => |run| == 1 && end == Stopped
       case Broken(_) => |run| == 1 && end == Failed
       case Answer(current) =>
         var body := RollbackBody(b.saved, current);
         if body.Failure? then |run| == 1 && end == Failed
         else |run| == 2 && PutBack(b.subject, body.value, run[1], end)
  }

  ghost predicate PutBack(s: Subject, body: Ruleset, e: Event, end: Ending) {
    e.Asked? && e.request == Put(s, body) && end == RollbackEnd(e.reply, body)
  }

  /** The events of the backups so far. */
  ghost predicate BackupsRun(backups: seq<Backup>, runs: seq<seq<Event>>, outcomes: seq<Outcome>)
    requires |runs| == |outcomes| <= |backups|
  {
    forall i :: 0 <= i < |runs| ==> BackupRun(backups[i], runs[i], outcomes[i])
  }

  ghost predicate BackupRun(b: Backup, run: seq<Event>, outcome: Outcome) {
    outcome.subject == b.subject && RollbackRun(b, run, outcome.ending)
  }

  ghost predicate Rollbacks(backups: seq<Backup>, runs: seq<seq<Event>>, outcomes: seq<Outcome>) {
    && |runs| == |outcomes| <= |backups| && BackupsRun(backups, runs, outcomes)
    && (if Through(outcomes) then |outcomes| == |backups| else Through(outcomes[..|outcomes| - 1]))
  }

  lemma BackupsRunGrows(backups: seq<Backup>, runs: seq<seq<Event>>, outcomes: seq<Outcome>, run: seq<Event>,
                        outcome: Outcome)
    requires |runs| == |outcomes| < |backups| && BackupsRun(backups, runs, outcomes)
    requires BackupRun(backups[|runs|], run, outcome)
    ensures BackupsRun(backups, runs + [run], outcomes + [outcome])
  {
  }

  const TAKEN := "the backup directory already holds a backup"

  class Session {
    const server: Server
    var log: seq<Event>
    var disk: map<Subject, Ruleset>
    ghost const start: map<Subject, Ruleset>

    ghost predicate Valid()
      reads this
    {
      Genuine(server, log) && disk == Backups(start, log)
    }

    constructor (server: Server, disk: map<Subject, Ruleset>)
      ensures Valid() && this.server == server && log == [] && this.disk == disk == start
    {
      this.server, this.disk, this.start := server, disk, disk;
      log := [];
    }

    method Ask(request: Request) returns (reply: Reply)
      requires Valid()
      modifies this`log
      ensures Valid() && log == old(log) + [Asked(request, reply)] && reply == server(old(log), request)
    {
      reply := server(log, request);
      log := log + [Asked(request, reply)];
      GenuineGrows(server, old(log), Asked(request, reply));
      assert log[..|old(log)|] == old(log);
    }

    method Save(subject: Subject, before: Ruleset)
      requires Valid()
      modifies this
      ensures Valid() && log == old(log) + [Saved(subject, before)] && disk == old(disk)[subject := before]
    {
      disk := disk[subject := before];
      log := log + [Saved(subject, before)];
      GenuineGrows(server, old(log), Saved(subject, before));
      assert log[..|old(log)|] == old(log);
    }

    /** Puts the body, and reads once more when the reply does not match it. */
    method PutAndReadBack(s: Subject, body: Ruleset, only: Option<string>) returns (end: Ending, ghost run: seq<Event>)
      requires Valid()
      modifies this`log
      ensures Valid() && log == old(log) + run && PutRun(only, s, body, run, end)
    {
      var reply := Ask(Put(s, body));
      run := [Asked(Put(s, body), reply)];
      end := EndOf(reply, body, only);
      if end == Differs {
        reply := Ask(Get(s));
        run := run + [Asked(Get(s), reply)];
        end := EndOf(reply, body, only);
      }
    }

    /** One row: read, prepare the write, save what was read, write, compare. */
    method ApplyRow(p: Policy, only: Option<string>, row: Row) returns (end: Ending, ghost run: seq<Event>)
      requires Valid()
      modifies this
      ensures Valid() && log == old(log) + run && RowRun(p, only, row, run, end)
    {
      var reply := Ask(Get(row.subject));
      if reply.Answer? && Write(p, only, row, reply.rs).Success? {
        ghost var more;
        end, more := SaveAndPut(row.subject, reply.rs, Write(p, only, row, reply.rs).value, only);
        RowWritten(p, only, row, reply.rs, more, end);
        LogJoins(old(log), [Asked(Get(row.subject), reply)], more);
        run := [Asked(Get(row.subject), reply)] + more;
      } else {
        end := Unwritten(reply);
        RowUnwritten(p, only, row, reply);
        run := [Asked(Get(row.subject), reply)];
      }
    }

    /** The backup, and then the write it is for. */
    method SaveAndPut(s: Subject, before: Ruleset, body: Ruleset, only: Option<string>)
      returns (end: Ending, ghost run: seq<Event>)
      requires Valid()
      modifies this
      ensures Valid() && log == old(log) + run
      ensures |run| > 0 && run[0] == Saved(s, before) && PutRun(only, s, body, run[1..], end)
    {
      Save(s, before);
      ghost var more;
      end, more := PutAndReadBack(s, body, only);
      run := [Saved(s, before)] + more;
      assert run[1..] == more;
    }

    /** Row after row, until one is stopped. */
    method ApplyRows(p: Policy, rows: seq<Row>, only: Option<string>)
      returns (outcomes: seq<Outcome>, ghost runs: seq<seq<Event>>)
      requires Valid()
      modifies this
      ensures Valid() && log == old(log) + Joined(runs) && Runs(p, only, rows, runs, outcomes)
    {
      outcomes, runs := [], [];
      assert old(log) + Joined([]) == old(log);
      for i := 0 to |rows|
        invariant Valid() && log == old(log) + Joined(runs)
        invariant |runs| == |outcomes| == i && RowsRun(p, only, rows, runs, outcomes) && Through(outcomes)
      {
        var end, run := ApplyRow(p, only, rows[i]);
        JoinedGrows(old(log), runs, run);
        RowsRunGrows(p, only, rows, runs, outcomes, run, end);
        runs, outcomes := runs + [run], outcomes + [Outcome(rows[i].subject, end)];
        if end == Stopped {
          assert outcomes[..i] + [outcomes[i]] == outcomes;
          return;
        }
      }
    }

    /** Every drifting row, until one is answered with a refusal. Nothing at all is sent when a backup of one of
        them exists already, or when a declared ruleset is missing. */
    method Apply(p: Policy, rows: seq<Row>, only: Option<string>)
      returns (r: Result<seq<Outcome>, string>, ghost runs: seq<seq<Event>>)
      requires Valid()
      modifies this
      ensures Valid() && log == old(log) + Joined(runs)
      ensures var drifted := Drifted(rows, Drifting); var missing := Drifted(rows, Missing);
        if Taken(drifted, old(disk)) then r.Failure? && runs == []
        else if missing != [] then r == Success(Refused(missing)) && runs == []
        else r.Success? && Runs(p, only, drifted, runs, r.value)
    {
      runs := [];
      assert old(log) + Joined([]) == old(log);
      var drifted := Drifted(rows, Drifting);
      if Taken(drifted, disk) {
        r := Failure(TAKEN);
        return;
      }
      var missing := Drifted(rows, Missing);
      if missing != [] {
        r := Success(Refused(missing));
        return;
      }
      var outcomes;
      outcomes, runs := ApplyRows(p, drifted, only);
      r := Success(outcomes);
    }

    method RollbackOne(b: Backup) returns (end: Ending, ghost run: seq<Event>)
      requires Valid()
      modifies this`log
      ensures Valid() && log == old(log) + run && RollbackRun(b, run, end)
    {
      var reply := Ask(Get(b.subject));
      run := [Asked(Get(b.subject), reply)];
      match reply {
        case Forbidden(_) => end := Stopped;
        case Broken(_) => end := Failed;
        case Answer(current) =>
          var body := RollbackBody(b.saved, current);
          if body.Failure? {
            end := Failed;
          } else {
            reply := Ask(Put(b.subject, body.value));
            run := run + [Asked(Put(b.subject, body.value), reply)];
            end := RollbackEnd(reply, body.value);
          }
      }
    }

    method Rollback(backups: seq<Backup>) returns (outcomes: seq<Outcome>, ghost runs: seq<seq<Event>>)
      requires Valid()
      modifies this`log
      ensures Valid() && log == old(log) + Joined(runs) && Rollbacks(backups, runs, outcomes)
    {
      outcomes, runs := [], [];
      assert old(log) + Joined([]) == old(log);
      for i := 0 to |backups|
        invariant Valid() && log == old(log) + Joined(runs)
        invariant |runs| == |outcomes| == i && BackupsRun(backups, runs, outcomes) && Through(outcomes)
      {
        var end, run := RollbackOne(backups[i]);
        JoinedGrows(old(log), runs, run);
        BackupsRunGrows(backups, runs, outcomes, run, Outcome(backups[i].subject, end));
        runs, outcomes := runs + [run], outcomes + [Outcome(backups[i].subject, end)];
        if end == Stopped {
          assert outcomes[..i] + [outcomes[i]] == outcomes;
          return;
        }
      }
    }
  }

  lemma RowsRunGrows(p: Policy, only: Option<string>, rows: seq<Row>, runs: seq<seq<Event>>, outcomes: seq<Outcome>,
                     run: seq<Event>, end: Ending)
    requires |runs| == |outcomes| < |rows| && RowsRun(p, only, rows, runs, outcomes)
    requires RowRun(p, only, rows[|runs|], run, end)
    ensures RowsRun(p, only, rows, runs + [run], outcomes + [Outcome(rows[|runs|].subject, end)])
  {
    var i := |runs|;
    var more, ends := runs + [run], outcomes + [Outcome(rows[i].subject, end)];
    assert more[..i] == runs && ends[..i] == outcomes;
    RowsRunStep(p, only, rows, more, ends);
  }

  lemma RowsRunStep(p: Policy, only: Option<string>, rows: seq<Row>, runs: seq<seq<Event>>, outcomes: seq<Outcome>)
    requires 0 < |runs| == |outcomes| <= |rows|
    requires var i := |runs| - 1;
      RowsRun(p, only, rows, runs[..i], outcomes[..i]) && outcomes[i].subject == rows[i].subject
      && RowRun(p, only, rows[i], runs[i], outcomes[i].ending)
    ensures RowsRun(p, only, rows, runs, outcomes)
  {
  }

  lemma JoinedGrows(log: seq<Event>, runs: seq<seq<Event>>, run: seq<Event>)
    ensures log + Joined(runs) + run == log + Joined(runs + [run])
  {
    assert (runs + [run])[..|runs|] == runs;
  }

  lemma LogJoins(a: seq<Event>, b: seq<Event>, c: seq<Event>)
    ensures a + b + c == a + (b + c)
  {
  }

  /** How a row ends that was not written. */
  function Unwritten(reply: Reply): Ending {
    if reply.Forbidden? then Stopped else Failed
  }

  lemma RowUnwritten(p: Policy, only: Option<string>, row: Row, reply: Reply)
    requires reply.Answer? ==> Write(p, only, row, reply.rs).Failure?
    ensures RowRun(p, only, row, [Asked(Get(row.subject), reply)], Unwritten(reply))
  {
  }

  lemma RowWritten(p: Policy, only: Option<string>, row: Row, before: Ruleset, more: seq<Event>, end: Ending)
    requires Write(p, only, row, before).Success? && |more| > 0 && more[0] == Saved(row.subject, before)
    requires PutRun(only, row.subject, Write(p, only, row, before).value, more[1..], end)
    ensures RowRun(p, only, row, [Asked(Get(row.subject), Answer(before))] + more, end)
  {
    assert ([Asked(Get(row.subject), Answer(before))] + more)[2..] == more[1..];
  }

  lemma GenuineGrows(server: Server, log: seq<Event>, event: Event)
    requires Genuine(server, log) && (event.Asked? ==> event.reply == server(log, event.request))
    ensures Genuine(server, log + [event])
  {
    var more := log + [event];
    forall i | 0 <= i < |more| && more[i].Asked? ensures more[i].reply == server(more[..i], more[i].request) {
      if i < |log| {
        assert more[..i] == log[..i];
      } else {
        assert more[..i] == log;
      }
    }
  }
}
