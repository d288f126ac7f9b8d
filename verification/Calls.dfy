/** The traversal of workflows and the reusable workflows they call, and what each job's runner may be. */
module Calls {
  import opened Wrappers
  import opened Scalars
  import opened Meaning
  import opened Conditions
  import M = Matrix

  const EVENT := "github.event_name"
  const INPUTS := "inputs."
  const MATRIX := "matrix."
  const CALLED := "workflow_call"

  datatype Input = Input(name: string, value: Source)

  datatype Job = Job(
    id: string, line: nat, condition: Option<Source>, matrix: Option<M.Matrix>,
    uses: Option<string>, arguments: seq<Input>, runsOn: Option<seq<Source>>)

  /** A workflow: its triggers, the inputs it declares for callers, and its jobs. */
  datatype Document = Document(events: seq<string>, inputs: seq<Input>, jobs: seq<Job>)

  /** All workflows by name, and how a matrix cell reads as text to evaluate. */
  datatype Library = Library(documents: map<string, Document>, read: M.Cell -> Source)

  datatype Evaluation = Evaluation(
    document: string, job: string, line: nat, event: set<Value>, selector: seq<Source>, values: set<Value>)

  // ---- contexts --------------------------------------------------------------------------

  function Set(ctx: Context, name: string, values: set<Value>): Context {
    ctx.(vars := ctx.vars[name := values])
  }

  /** The declared inputs that the caller did not pass get their defaults, in order. */
  function WithDefaults(ctx: Context, inputs: seq<Input>): Context {
    if inputs == [] then ctx
    else
      var last := inputs[|inputs| - 1];
      var before := WithDefaults(ctx, inputs[..|inputs| - 1]);
      if INPUTS + last.name in before.vars then before
      else Set(before, INPUTS + last.name, SourceValues(last.value, before))
  }

  /** The context of a called workflow: the caller's, with the passed arguments for inputs. */
  function Passed(ctx: Context, arguments: seq<Input>): Context {
    if arguments == [] then WithoutInputs(ctx)
    else
      var last := arguments[|arguments| - 1];
      Set(Passed(ctx, arguments[..|arguments| - 1]), INPUTS + last.name, SourceValues(last.value, ctx))
  }

  function WithoutInputs(ctx: Context): Context {
    ctx.(vars := map name | name in ctx.vars && !(INPUTS <= name) :: ctx.vars[name])
  }

  function MatrixNames(row: M.Row): set<string> {
    set key | key in row :: MATRIX + key
  }

  lemma MatrixName(row: M.Row, name: string)
    requires name in MatrixNames(row)
    ensures |MATRIX| <= |name| && name[|MATRIX|..] in row
  {
    var key :| key in row && name == MATRIX + key;
    assert name[|MATRIX|..] == key;
  }

  function WithRow(l: Library, ctx: Context, row: M.Row): Context {
    ctx.(vars := ctx.vars + map name | name in MatrixNames(row) ::
      (MatrixName(row, name); SourceValues(l.read(row[name[|MATRIX|..]]), ctx)))
  }

  /** The contexts a job runs in: one per row of its matrix, or the plain one. */
  function Contexts(l: Library, job: Job, ctx: Context): seq<Context> {
    if job.matrix.None? || M.Rows(job.matrix.value) == [] then [ctx]
    else
      var rows := M.Rows(job.matrix.value);
      seq(|rows|, i requires 0 <= i < |rows| => WithRow(l, ctx, rows[i]))
  }

  // ---- what one workflow does ------------------------------------------------------------

  datatype Step = Call(target: string, ctx: Context) | Run(evaluation: Evaluation)

  function Labels(selector: seq<Source>, ctx: Context): set<Value> {
    set i, v | 0 <= i < |selector| && v in SourceValues(selector[i], ctx) :: v
  }

  /** What a job does in one context: the call it makes and the evaluation of its runner. */
  function JobSteps(name: string, job: Job, current: Context, expanded: Context): seq<Step> {
    if !Runnable(job.condition, expanded) then []
    else
      (if job.uses.Some? then [Call(job.uses.value, Passed(expanded, job.arguments))] else [])
      + (if job.runsOn.Some? then [Run(Evaluated(name, job, current, expanded))] else [])
  }

  function Evaluated(name: string, job: Job, current: Context, expanded: Context): Evaluation
    requires job.runsOn.Some?
  {
    Evaluation(name, job.id, job.line, if EVENT in current.vars then current.vars[EVENT] else {},
      job.runsOn.value, Labels(job.runsOn.value, expanded))
  }

  function InContexts(name: string, job: Job, current: Context, contexts: seq<Context>): seq<Step> {
    if contexts == [] then []
    else
      var n := |contexts| - 1;
      InContexts(name, job, current, contexts[..n]) + JobSteps(name, job, current, contexts[n])
  }

  function Steps(l: Library, name: string, jobs: seq<Job>, current: Context): seq<Step> {
    if jobs == [] then []
    else
      var n := |jobs| - 1;
      Steps(l, name, jobs[..n], current) + InContexts(name, jobs[n], current, Contexts(l, jobs[n], current))
  }

  /** The context of a workflow on entry. Defaults apply to called workflows only. */
  function Entry(l: Library, name: string, inherited: Context, called: bool): Context
    requires name in l.documents
  {
    if called then WithDefaults(inherited, l.documents[name].inputs) else inherited
  }

  function StepsOf(l: Library, name: string, current: Context): seq<Step>
    requires name in l.documents
  {
    Steps(l, name, l.documents[name].jobs, current)
  }

  // ---- the traversal without memo --------------------------------------------------------

  /** All evaluations of a workflow and its calls; a call into a workflow that is already on the way is cut. */
  ghost function Reached(l: Library, name: string, inherited: Context, ancestry: set<string>): set<Evaluation>
    decreases l.documents.Keys - ancestry, 1
  {
    if name !in l.documents || name in ancestry then {}
    else
      assert l.documents.Keys - (ancestry + {name}) < l.documents.Keys - ancestry by {
        assert name in l.documents.Keys - ancestry;
      }
      ReachedBy(l, StepsOf(l, name, Entry(l, name, inherited, ancestry != {})), ancestry + {name})
  }

  ghost function ReachedBy(l: Library, steps: seq<Step>, ancestry: set<string>): set<Evaluation>
    decreases l.documents.Keys - ancestry, 3, |steps|
  {
    if steps == [] then {}
    else
      var n := |steps| - 1;
      ReachedBy(l, steps[..n], ancestry) + ReachedOf(l, steps[n], ancestry)
  }

  /** What one step finds. */
  ghost function ReachedOf(l: Library, step: Step, ancestry: set<string>): set<Evaluation>
    decreases l.documents.Keys - ancestry, 2
  {
    match step
    case Call(target, ctx) => Reached(l, target, ctx, ancestry)
    case Run(evaluation) => {evaluation}
  }

  // ---- the event -------------------------------------------------------------------------

  /** A context that kept the event of the root it came from. */
  ghost predicate Carries(ctx: Context, root: Context) {
    && EVENT in root.vars && EVENT in ctx.vars && ctx.vars[EVENT] == root.vars[EVENT]
    && ctx.number == root.number && ctx.decode == root.decode
  }

  ghost predicate StepCarries(step: Step, root: Context) {
    match step
    case Call(_, ctx) => Carries(ctx, root)
    case Run(evaluation) => EVENT in root.vars && evaluation.event == root.vars[EVENT]
  }

  lemma OtherNames(name: string)
    ensures INPUTS + name != EVENT && MATRIX + name != EVENT && !(INPUTS <= EVENT)
  {
    assert (INPUTS + name)[0] == 'i' && (MATRIX + name)[0] == 'm' && EVENT[0] == 'g';
  }

  lemma {:induction false} DefaultsCarry(ctx: Context, inputs: seq<Input>, root: Context)
    requires Carries(ctx, root)
    ensures Carries(WithDefaults(ctx, inputs), root)
  {
    if inputs != [] {
      DefaultsCarry(ctx, inputs[..|inputs| - 1], root);
      OtherNames(inputs[|inputs| - 1].name);
    }
  }

  lemma {:induction false} PassedCarries(ctx: Context, arguments: seq<Input>, root: Context)
    requires Carries(ctx, root)
    ensures Carries(Passed(ctx, arguments), root)
  {
    if arguments != [] {
      PassedCarries(ctx, arguments[..|arguments| - 1], root);
      OtherNames(arguments[|arguments| - 1].name);
    } else {
      OtherNames("");
    }
  }

  lemma RowCarries(l: Library, ctx: Context, row: M.Row, root: Context)
    requires Carries(ctx, root)
    ensures Carries(WithRow(l, ctx, row), root)
  {
    if EVENT in MatrixNames(row) {
      var key :| key in row && EVENT == MATRIX + key;
      OtherNames(key);
    }
  }

  lemma {:induction false} ContextsCarry(name: string, job: Job, current: Context, contexts: seq<Context>,
                                         root: Context)
    requires Carries(current, root) && forall i :: 0 <= i < |contexts| ==> Carries(contexts[i], root)
    ensures forall step :: step in InContexts(name, job, current, contexts) ==> StepCarries(step, root)
  {
    if contexts != [] {
      var n := |contexts| - 1;
      ContextsCarry(name, job, current, contexts[..n], root);
      PassedCarries(contexts[n], job.arguments, root);
    }
  }

  lemma {:induction false} StepsCarry(l: Library, name: string, jobs: seq<Job>, current: Context, root: Context)
    requires Carries(current, root)
    ensures forall step :: step in Steps(l, name, jobs, current) ==> StepCarries(step, root)
  {
    if jobs != [] {
      var n := |jobs| - 1;
      StepsCarry(l, name, jobs[..n], current, root);
      var contexts := Contexts(l, jobs[n], current);
      forall i | 0 <= i < |contexts| ensures Carries(contexts[i], root) {
        if contexts != [current] {
          RowCarries(l, current, M.Rows(jobs[n].matrix.value)[i], root);
        }
      }
      ContextsCarry(name, jobs[n], current, contexts, root);
    }
  }

  /** Every evaluation below a workflow carries the event the workflow was entered with. */
  lemma {:induction false} ReachedCarries(l: Library, name: string, inherited: Context, ancestry: set<string>,
                                          root: Context)
    requires Carries(inherited, root)
    ensures forall e :: e in Reached(l, name, inherited, ancestry) ==> e.event == root.vars[EVENT]
    decreases l.documents.Keys - ancestry, 1
  {
    if name in l.documents && name !in ancestry {
      var current := Entry(l, name, inherited, ancestry != {});
      DefaultsCarry(inherited, l.documents[name].inputs, root);
      StepsCarry(l, name, l.documents[name].jobs, current, root);
      assert l.documents.Keys - (ancestry + {name}) < l.documents.Keys - ancestry by {
        assert name in l.documents.Keys - ancestry;
      }
      ReachedByCarries(l, StepsOf(l, name, current), ancestry + {name}, root);
    }
  }

  lemma {:induction false} ReachedByCarries(l: Library, steps: seq<Step>, ancestry: set<string>, root: Context)
    requires EVENT in root.vars && forall step :: step in steps ==> StepCarries(step, root)
    ensures forall e :: e in ReachedBy(l, steps, ancestry) ==> e.event == root.vars[EVENT]
    decreases l.documents.Keys - ancestry, 3, |steps|
  {
    if steps != [] {
      var n := |steps| - 1;
      assert StepCarries(steps[n], root);
      ReachedByCarries(l, steps[..n], ancestry, root);
      if steps[n].Call? {
        ReachedCarries(l, steps[n].target, steps[n].ctx, ancestry, root);
      }
    }
  }
}
