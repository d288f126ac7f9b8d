/** The contexts that jobs, calls and triggers give rise to, name by name, and exactly which evaluations follow. */
module CallContexts {
  import opened Wrappers
  import opened Scalars
  import opened Meaning
  import opened Conditions
  import opened Calls
  import opened CallWalk
  import M = Matrix

  // ---- rows ------------------------------------------------------------------------------

  /** The job has rows: its matrix expands to some. */
  predicate HasRows(job: Job) {
    job.matrix.Some? && M.Rows(job.matrix.value) != []
  }

  /** The context of the job's row `i`: the workflow's, with the values of the row's cells under `matrix`. A job without
      rows has the workflow's context. */
  ghost predicate RowContext(l: Library, job: Job, ctx: Context, i: nat, c: Context) {
    if !HasRows(job) then i == 0 && c == ctx
    else
      && i < |M.Rows(job.matrix.value)| && c.number == ctx.number && c.decode == ctx.decode
      && var row := M.Rows(job.matrix.value)[i];
         && (forall name :: name in c.vars <==> name in ctx.vars || IsCell(row, name))
         && (forall key :: key in row ==>
               "matrix." + key in c.vars && c.vars["matrix." + key] == SourceValues(l.read(row[key]), ctx))
         && (forall name :: name in ctx.vars && !IsCell(row, name) ==> c.vars[name] == ctx.vars[name])
  }

  ghost predicate IsCell(row: M.Row, name: string) {
    exists key :: key in row && name == "matrix." + key
  }

  /** Every row of the expanded matrix has its context, in order, and there are no others. */
  lemma ContextsExact(l: Library, job: Job, ctx: Context, i: nat, c: Context)
    ensures i < |Contexts(l, job, ctx)| && c == Contexts(l, job, ctx)[i] <==> RowContext(l, job, ctx, i, c)
    ensures |Contexts(l, job, ctx)| == if HasRows(job) then |M.Rows(job.matrix.value)| else 1
  {
    if HasRows(job) && i < |M.Rows(job.matrix.value)| {
      RowHolds(l, job, ctx, i);
      if RowContext(l, job, ctx, i, c) {
        SameRow(l, job, ctx, i, c, Contexts(l, job, ctx)[i]);
      }
    }
  }

  lemma RowHolds(l: Library, job: Job, ctx: Context, i: nat)
    requires HasRows(job) && i < |M.Rows(job.matrix.value)|
    ensures |Contexts(l, job, ctx)| == |M.Rows(job.matrix.value)|
    ensures RowContext(l, job, ctx, i, Contexts(l, job, ctx)[i])
  {
    RowExact(l, ctx, M.Rows(job.matrix.value)[i]);
  }

  lemma RowExact(l: Library, ctx: Context, row: M.Row)
    ensures var c := WithRow(l, ctx, row);
      && c.number == ctx.number && c.decode == ctx.decode
      && (forall name :: name in c.vars <==> name in ctx.vars || IsCell(row, name))
      && (forall key :: key in row ==>
            "matrix." + key in c.vars && c.vars["matrix." + key] == SourceValues(l.read(row[key]), ctx))
      && (forall name :: name in ctx.vars && !IsCell(row, name) ==> c.vars[name] == ctx.vars[name])
  {
    var c := WithRow(l, ctx, row);
    forall name ensures name in MatrixNames(row) <==> IsCell(row, name) {
    }
    forall key | key in row
      ensures "matrix." + key in c.vars && c.vars["matrix." + key] == SourceValues(l.read(row[key]), ctx)
    {
      var name := "matrix." + key;
      assert name in MatrixNames(row) && name[|MATRIX|..] == key;
    }
  }

  lemma SameRow(l: Library, job: Job, ctx: Context, i: nat, c: Context, d: Context)
    requires HasRows(job) && RowContext(l, job, ctx, i, c) && RowContext(l, job, ctx, i, d)
    ensures c == d
  {
    var row := M.Rows(job.matrix.value)[i];
    forall name | name in c.vars ensures name in d.vars && c.vars[name] == d.vars[name] {
      if IsCell(row, name) {
        var key :| key in row && name == "matrix." + key;
      }
    }
    assert c.vars == d.vars;
  }

  // ---- calls -----------------------------------------------------------------------------

  /** No later one of these has its name. */
  ghost predicate LastNamed(inputs: seq<Input>, i: nat)
    requires i < |inputs|
  {
    forall j :: i < j < |inputs| ==> inputs[j].name != inputs[i].name
  }

  /** No earlier one of these has its name. */
  ghost predicate FirstNamed(inputs: seq<Input>, i: nat)
    requires i < |inputs|
  {
    forall j :: 0 <= j < i ==> inputs[j].name != inputs[i].name
  }

  ghost predicate IsInput(inputs: seq<Input>, name: string) {
    exists i :: 0 <= i < |inputs| && name == "inputs." + inputs[i].name
  }

  lemma IsInputGrows(inputs: seq<Input>, name: string)
    requires inputs != []
    ensures var n := |inputs| - 1;
      IsInput(inputs, name) <==> IsInput(inputs[..n], name) || name == "inputs." + inputs[n].name
  {
    var n := |inputs| - 1;
    if IsInput(inputs[..n], name) {
      var i :| 0 <= i < n && name == "inputs." + inputs[..n][i].name;
      assert name == "inputs." + inputs[i].name;
    }
    if i :| 0 <= i < n && name == "inputs." + inputs[i].name {
      assert name == "inputs." + inputs[..n][i].name;
    }
  }

  /** What a call passes on: the arguments, and the caller's names but for its own inputs. */
  lemma {:induction false} PassedNames(ctx: Context, arguments: seq<Input>)
    ensures var c := Passed(ctx, arguments); c.number == ctx.number && c.decode == ctx.decode
    ensures forall name :: name in Passed(ctx, arguments).vars <==>
              IsInput(arguments, name) || (name in ctx.vars && !("inputs." <= name))
  {
    if arguments != [] {
      var n := |arguments| - 1;
      PassedNames(ctx, arguments[..n]);
      forall name ensures IsInput(arguments, name) <==>
          IsInput(arguments[..n], name) || name == "inputs." + arguments[n].name
      {
        IsInputGrows(arguments, name);
      }
    }
  }

  /** Each argument has its values in the caller's context, */
  lemma {:induction false} PassedArgument(ctx: Context, arguments: seq<Input>, i: nat)
    requires i < |arguments| && LastNamed(arguments, i)
    ensures var name := "inputs." + arguments[i].name; var c := Passed(ctx, arguments);
      name in c.vars && c.vars[name] == SourceValues(arguments[i].value, ctx)
  {
    var n := |arguments| - 1;
    if i < n {
      forall j | i < j < n ensures arguments[..n][j].name != arguments[i].name {
        assert arguments[..n][j] == arguments[j];
      }
      PassedArgument(ctx, arguments[..n], i);
      if INPUTS + arguments[i].name == INPUTS + arguments[n].name {
        SameInput(arguments[i].name, arguments[n].name);
      }
    }
  }

  /** and every other name keeps its own. */
  lemma {:induction false} PassedOther(ctx: Context, arguments: seq<Input>, name: string)
    requires name in ctx.vars && !("inputs." <= name)
    ensures name in Passed(ctx, arguments).vars && Passed(ctx, arguments).vars[name] == ctx.vars[name]
  {
    if arguments != [] {
      PassedOther(ctx, arguments[..|arguments| - 1], name);
    }
  }

  lemma SameInput(a: string, b: string)
    requires INPUTS + a == INPUTS + b
    ensures a == b
  {
    assert a == (INPUTS + a)[|INPUTS|..] && b == (INPUTS + b)[|INPUTS|..];
  }

  /** Defaults are added for the declared inputs that were not passed; what was passed stays. */
  lemma {:induction false} DefaultNames(ctx: Context, inputs: seq<Input>)
    ensures var c := WithDefaults(ctx, inputs); c.number == ctx.number && c.decode == ctx.decode
    ensures forall name :: name in WithDefaults(ctx, inputs).vars <==> name in ctx.vars || IsInput(inputs, name)
    ensures forall name :: name in ctx.vars ==> WithDefaults(ctx, inputs).vars[name] == ctx.vars[name]
  {
    if inputs != [] {
      var n := |inputs| - 1;
      DefaultNames(ctx, inputs[..n]);
      forall name ensures IsInput(inputs, name) <==> IsInput(inputs[..n], name) || name == "inputs." + inputs[n].name {
        IsInputGrows(inputs, name);
      }
    }
  }

  /** A default has its values in the context with the defaults before it. */
  lemma {:induction false} DefaultValue(ctx: Context, inputs: seq<Input>, i: nat)
    requires i < |inputs| && FirstNamed(inputs, i) && "inputs." + inputs[i].name !in ctx.vars
    ensures var name := "inputs." + inputs[i].name; var c := WithDefaults(ctx, inputs);
      name in c.vars && c.vars[name] == SourceValues(inputs[i].value, WithDefaults(ctx, inputs[..i]))
  {
    var n := |inputs| - 1;
    var name := "inputs." + inputs[i].name;
    if i == n {
      DefaultNames(ctx, inputs[..n]);
      if IsInput(inputs[..n], name) {
        var j :| 0 <= j < n && name == "inputs." + inputs[..n][j].name;
        SameInput(inputs[i].name, inputs[j].name);
        assert false;
      }
    } else {
      assert inputs[..n][..i] == inputs[..i];
      DefaultValue(ctx, inputs[..n], i);
    }
  }

  // ---- triggers --------------------------------------------------------------------------

  lemma {:induction false} OwnTriggersExact(name: string, events: seq<string>, t: Trigger)
    ensures t in OwnTriggers(name, events) <==>
            t.name == name && t.event in events && t.event != "workflow_call" && t.event != ""
  {
    if events != [] {
      var n := |events| - 1;
      OwnTriggersExact(name, events[..n], t);
      assert events == events[..n] + [events[n]];
    }
  }

  /** A traversal starts for every event that triggers one of the workflows, but for being called, and for nothing
      else. */
  lemma {:induction false} TriggersExact(l: Library, names: seq<string>, t: Trigger)
    requires forall i :: 0 <= i < |names| ==> names[i] in l.documents
    ensures t in Triggers(l, names) <==>
            t.name in names && t.event in l.documents[t.name].events && t.event != "workflow_call" && t.event != ""
  {
    if names != [] {
      var n := |names| - 1;
      TriggersExact(l, names[..n], t);
      OwnTriggersExact(names[n], l.documents[names[n]].events, t);
      assert names == names[..n] + [names[n]];
    }
  }

  // ---- what a job does is found ----------------------------------------------------------

  lemma {:induction false} InContextsHolds(name: string, job: Job, current: Context, contexts: seq<Context>, i: nat,
                                           step: Step)
    requires i < |contexts| && step in JobSteps(name, job, current, contexts[i])
    ensures step in InContexts(name, job, current, contexts)
  {
    var n := |contexts| - 1;
    if i < n {
      InContextsHolds(name, job, current, contexts[..n], i, step);
    }
    InContextsLast(name, job, current, contexts);
  }

  lemma InContextsLast(name: string, job: Job, current: Context, contexts: seq<Context>)
    requires contexts != []
    ensures var n := |contexts| - 1;
      InContexts(name, job, current, contexts)
      == InContexts(name, job, current, contexts[..n]) + JobSteps(name, job, current, contexts[n])
  {
  }

  lemma {:induction false} StepsHold(l: Library, name: string, jobs: seq<Job>, current: Context, job: Job, i: nat,
                                     step: Step)
    requires job in jobs && i < |Contexts(l, job, current)|
    requires step in JobSteps(name, job, current, Contexts(l, job, current)[i])
    ensures step in Steps(l, name, jobs, current)
  {
    var n := |jobs| - 1;
    if job == jobs[n] {
      InContextsHolds(name, job, current, Contexts(l, job, current), i, step);
      LastHolds(l, name, jobs, current, step);
    } else {
      InFront(jobs, job);
      StepsHold(l, name, jobs[..n], current, job, i, step);
      EarlierHolds(l, name, jobs, current, step);
    }
  }

  lemma InFront(jobs: seq<Job>, job: Job)
    requires job in jobs && job != jobs[|jobs| - 1]
    ensures job in jobs[..|jobs| - 1]
  {
  }

  lemma EarlierHolds(l: Library, name: string, jobs: seq<Job>, current: Context, step: Step)
    requires jobs != [] && step in Steps(l, name, jobs[..|jobs| - 1], current)
    ensures step in Steps(l, name, jobs, current)
  {
  }

  lemma LastHolds(l: Library, name: string, jobs: seq<Job>, current: Context, step: Step)
    requires jobs != []
    requires var last := jobs[|jobs| - 1]; step in InContexts(name, last, current, Contexts(l, last, current))
    ensures step in Steps(l, name, jobs, current)
  {
  }

  lemma {:induction false} ReachedByHolds(l: Library, steps: seq<Step>, ancestry: set<string>, step: Step)
    requires step in steps
    ensures ReachedOf(l, step, ancestry) <= ReachedBy(l, steps, ancestry)
  {
    var n := |steps| - 1;
    if step != steps[n] {
      ReachedByHolds(l, steps[..n], ancestry, step);
    }
  }

  /** What a job does in one of its contexts is found. */
  lemma JobFound(l: Library, name: string, inherited: Context, ancestry: set<string>, job: Job, i: nat, step: Step)
    requires name in l.documents && name !in ancestry && job in l.documents[name].jobs
    requires var current := Entry(l, name, inherited, ancestry != {});
      i < |Contexts(l, job, current)| && step in JobSteps(name, job, current, Contexts(l, job, current)[i])
    ensures ReachedOf(l, step, ancestry + {name}) <= Reached(l, name, inherited, ancestry)
  {
    var current := Entry(l, name, inherited, ancestry != {});
    StepsHold(l, name, l.documents[name].jobs, current, job, i, step);
    ReachedByHolds(l, StepsOf(l, name, current), ancestry + {name}, step);
  }

  // ---- exactly which evaluations follow --------------------------------------------------

  /** A visit: the workflow, the context it is entered with, and the workflows on the way. */
  datatype Visit = Visit(name: string, inherited: Context, ancestry: set<string>)

  function At(l: Library, here: Visit): Context
    requires here.name in l.documents
  {
    Entry(l, here.name, here.inherited, here.ancestry != {})
  }

  /** A job in one of its rows. */
  datatype Turn = Turn(job: Job, i: nat, c: Context)

  /** The job may run in this row. */
  ghost predicate Taken(l: Library, here: Visit, turn: Turn) {
    && here.name in l.documents && here.name !in here.ancestry && turn.job in l.documents[here.name].jobs
    && RowContext(l, turn.job, At(l, here), turn.i, turn.c) && Runnable(turn.job.condition, turn.c)
  }

  /** The evaluation of this job's runner in this context: every label may be any value of any part. */
  ghost predicate EvaluatesTo(name: string, job: Job, current: Context, c: Context, e: Evaluation) {
    && job.runsOn.Some? && e.document == name && e.job == job.id && e.line == job.line && e.selector == job.runsOn.value
    && e.event == (if "github.event_name" in current.vars then current.vars["github.event_name"] else {})
    && forall v :: v in e.values <==> HasLabel(job.runsOn.value, c, v)
  }

  ghost predicate HasLabel(selector: seq<Source>, c: Context, v: Value) {
    exists k :: 0 <= k < |selector| && v in SourceValues(selector[k], c)
  }

  /** Jobs that call each other's workflows, and the evaluation of the last one. */
  ghost predicate Derives(l: Library, here: Visit, turns: seq<Turn>, e: Evaluation)
    decreases |turns|
  {
    && turns != [] && Taken(l, here, turns[0])
    && (if |turns| == 1 then EvaluatesTo(here.name, turns[0].job, At(l, here), turns[0].c, e)
        else turns[0].job.uses.Some? && Derives(l, Called(here, turns[0]), turns[1..], e))
  }

  function Called(here: Visit, turn: Turn): Visit
    requires turn.job.uses.Some?
  {
    Visit(turn.job.uses.value, Passed(turn.c, turn.job.arguments), here.ancestry + {here.name})
  }

  ghost function ReachedAt(l: Library, here: Visit): set<Evaluation> {
    Reached(l, here.name, here.inherited, here.ancestry)
  }

  ghost predicate Derived(l: Library, here: Visit, e: Evaluation) {
    exists turns :: Derives(l, here, turns, e)
  }

  lemma EvaluatedExact(name: string, job: Job, current: Context, c: Context, e: Evaluation)
    requires job.runsOn.Some?
    ensures e == Evaluated(name, job, current, c) <==> EvaluatesTo(name, job, current, c, e)
  {
    var f := Evaluated(name, job, current, c);
    forall v ensures v in f.values <==> HasLabel(job.runsOn.value, c, v) {
    }
    if EvaluatesTo(name, job, current, c, e) {
      assert e.values == f.values;
    }
  }

  lemma {:induction false} DerivedFound(l: Library, here: Visit, turns: seq<Turn>, e: Evaluation)
    requires Derives(l, here, turns, e)
    ensures e in ReachedAt(l, here)
    decreases |turns|
  {
    var turn := turns[0];
    var current := At(l, here);
    ContextsExact(l, turn.job, current, turn.i, turn.c);
    var step := if |turns| == 1 then Run(e) else Call(turn.job.uses.value, Passed(turn.c, turn.job.arguments));
    if |turns| == 1 {
      EvaluatedExact(here.name, turn.job, current, turn.c, e);
    } else {
      DerivedFound(l, Called(here, turn), turns[1..], e);
    }
    assert step in JobSteps(here.name, turn.job, current, turn.c);
    JobFound(l, here.name, here.inherited, here.ancestry, turn.job, turn.i, step);
    assert e in ReachedOf(l, step, here.ancestry + {here.name});
  }

  lemma {:induction false} ReachedBySource(l: Library, steps: seq<Step>, ancestry: set<string>, e: Evaluation)
    returns (step: Step)
    requires e in ReachedBy(l, steps, ancestry)
    ensures step in steps && e in ReachedOf(l, step, ancestry)
  {
    var n := |steps| - 1;
    if e in ReachedOf(l, steps[n], ancestry) {
      step := steps[n];
    } else {
      step := ReachedBySource(l, steps[..n], ancestry, e);
    }
  }

  lemma {:induction false} InContextsSource(name: string, job: Job, current: Context, contexts: seq<Context>,
                                            step: Step)
    returns (i: nat)
    requires step in InContexts(name, job, current, contexts)
    ensures i < |contexts| && step in JobSteps(name, job, current, contexts[i])
  {
    InContextsLast(name, job, current, contexts);
    var n := |contexts| - 1;
    if step in JobSteps(name, job, current, contexts[n]) {
      i := n;
    } else {
      i := InContextsSource(name, job, current, contexts[..n], step);
    }
  }

  lemma {:induction false} StepsSource(l: Library, name: string, jobs: seq<Job>, current: Context, step: Step)
    returns (turn: Turn)
    requires step in Steps(l, name, jobs, current)
    ensures turn.job in jobs && RowContext(l, turn.job, current, turn.i, turn.c)
    ensures step in JobSteps(name, turn.job, current, turn.c)
  {
    var n := |jobs| - 1;
    var contexts := Contexts(l, jobs[n], current);
    if step in InContexts(name, jobs[n], current, contexts) {
      var i := InContextsSource(name, jobs[n], current, contexts, step);
      turn := Turn(jobs[n], i, contexts[i]);
      ContextsExact(l, jobs[n], current, i, contexts[i]);
    } else {
      turn := StepsSource(l, name, jobs[..n], current, step);
    }
  }

  lemma {:induction false} FoundDerived(l: Library, here: Visit, e: Evaluation) returns (turns: seq<Turn>)
    requires e in ReachedAt(l, here)
    ensures Derives(l, here, turns, e)
    decreases l.documents.Keys - here.ancestry
  {
    var current := At(l, here);
    var step := ReachedBySource(l, StepsOf(l, here.name, current), here.ancestry + {here.name}, e);
    var turn := StepsSource(l, here.name, l.documents[here.name].jobs, current, step);
    if step.Run? {
      EvaluatedExact(here.name, turn.job, current, turn.c, e);
      turns := [turn];
    } else {
      assert l.documents.Keys - (here.ancestry + {here.name}) < l.documents.Keys - here.ancestry by {
        assert here.name in l.documents.Keys - here.ancestry;
      }
      var rest := FoundDerived(l, Called(here, turn), e);
      turns := [turn] + rest;
      assert turns[1..] == rest;
    }
  }

  /** The traversal finds exactly the evaluations that follow: of every job that may run in a row of its matrix, in the
      workflow or in one that such jobs call, and of no other. */
  lemma ReachedExact(l: Library, here: Visit, e: Evaluation)
    ensures e in ReachedAt(l, here) <==> Derived(l, here, e)
  {
    if e in ReachedAt(l, here) {
      var turns := FoundDerived(l, here, e);
    }
    if turns :| Derives(l, here, turns, e) {
      DerivedFound(l, here, turns, e);
    }
  }

  /** The visit that a trigger starts: the event is the one value of its name. */
  function Root(base: Context, t: Trigger): Visit {
    Visit(t.name, base.(vars := base.vars["github.event_name" := {Known(Str(t.event))}]), {})
  }

  ghost predicate Starts(l: Library, names: seq<string>, t: Trigger)
    requires forall i :: 0 <= i < |names| ==> names[i] in l.documents
  {
    t.name in names && t.event in l.documents[t.name].events && t.event != "workflow_call" && t.event != ""
  }

  lemma {:induction false} ReachedFromSource(l: Library, base: Context, triggers: seq<Trigger>, e: Evaluation)
    ensures e in ReachedFrom(l, base, triggers) <==> exists t :: t in triggers && e in ReachedAt(l, Root(base, t))
  {
    if triggers != [] {
      var n := |triggers| - 1;
      ReachedFromSource(l, base, triggers[..n], e);
      assert triggers == triggers[..n] + [triggers[n]];
      assert Root(base, triggers[n]).inherited == RootContext(base, triggers[n]);
      assert triggers[n] in triggers;
    }
  }

  /** What the traversals from all triggers find: exactly what follows from some event that triggers a workflow. */
  lemma ReturnedExact(l: Library, names: seq<string>, base: Context, e: Evaluation)
    requires forall i :: 0 <= i < |names| ==> names[i] in l.documents
    ensures e in ReachedFrom(l, base, Triggers(l, names)) <==>
            exists t :: Starts(l, names, t) && Derived(l, Root(base, t), e)
  {
    ReachedFromSource(l, base, Triggers(l, names), e);
    forall t ensures t in Triggers(l, names) <==> Starts(l, names, t) {
      TriggersExact(l, names, t);
    }
    forall t ensures e in ReachedAt(l, Root(base, t)) <==> Derived(l, Root(base, t), e) {
      ReachedExact(l, Root(base, t), e);
    }
  }
}
