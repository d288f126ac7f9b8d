/** Chains of calls of any length, from a trigger down: the runner of every job at the end of one is evaluated. */
module CallChain {
  import opened Wrappers
  import opened Scalars
  import opened Meaning
  import opened Conditions
  import opened Calls
  import opened CallCoverage
  import opened CallWalk
  import opened CallContexts
  import M = Matrix

  /** A call on the way: the calling job in its row, the world of that job, and the world of the called workflow. */
  datatype Leg = Leg(turn: Turn, w: World, v: World)

  /** The job could run in `w`, in this row of its matrix, when the workflow runs in `v`. */
  ghost predicate Runs(l: Library, here: Visit, v: World, turn: Turn, w: World) {
    && here.name in l.documents && here.name !in here.ancestry && turn.job in l.documents[here.name].jobs
    && RowContext(l, turn.job, At(l, here), turn.i, turn.c)
    && Entered(v, w) && Remains(turn.c, w) && FaithfulJob(turn.job, turn.c, w) && CouldRun(turn.job, w)
  }

  /** The job could run and calls a workflow, whose world everything passed on covers. */
  ghost predicate Makes(l: Library, here: Visit, v: World, leg: Leg) {
    var job := leg.turn.job;
    && Runs(l, here, v, leg.turn, leg.w)
    && job.uses.Some? && job.uses.value in l.documents && DistinctNames(job.arguments)
    && Entered(leg.w, leg.v) && CallFits(l, job.uses.value, leg.turn.c, job.arguments, leg.v)
  }

  /** A chain of calls, each made by a job of the workflow that the one before called. */
  ghost predicate Chain(l: Library, here: Visit, v: World, legs: seq<Leg>)
    decreases |legs|
  {
    legs == [] || (Makes(l, here, v, legs[0]) && Chain(l, Called(here, legs[0].turn), legs[0].v, legs[1..]))
  }

  ghost function End(l: Library, here: Visit, v: World, legs: seq<Leg>): Visit
    requires Chain(l, here, v, legs)
    decreases |legs|
  {
    if legs == [] then here else End(l, Called(here, legs[0].turn), legs[0].v, legs[1..])
  }

  function EndWorld(v: World, legs: seq<Leg>): World {
    if legs == [] then v else legs[|legs| - 1].v
  }

  /** A call keeps what is allowed, and what is found below it is found. */
  lemma LegKeeps(l: Library, here: Visit, v: World, leg: Leg)
    requires here.name in l.documents && Allows(At(l, here), v) && Makes(l, here, v, leg)
    ensures Allows(At(l, Called(here, leg.turn)), leg.v)
    ensures ReachedAt(l, Called(here, leg.turn)) <= ReachedAt(l, here)
  {
    var job, c := leg.turn.job, leg.turn.c;
    JobAllows(l, job, At(l, here), leg.turn.i, c, v, leg.w);
    CallAllows(l, job.uses.value, c, job.arguments, leg.w, leg.v);
    CallFound(l, here, job, leg.turn.i, c, leg.w);
  }

  /** Along any chain the worlds stay allowed, and nothing below its end escapes. */
  lemma {:induction false} ChainKeeps(l: Library, here: Visit, v: World, legs: seq<Leg>)
    requires here.name in l.documents && Allows(At(l, here), v) && Chain(l, here, v, legs)
    ensures var end := End(l, here, v, legs);
      && end.name in l.documents && Allows(At(l, end), EndWorld(v, legs)) && ReachedAt(l, end) <= ReachedAt(l, here)
    decreases |legs|
  {
    if legs != [] {
      LegKeeps(l, here, v, legs[0]);
      ChainKeeps(l, Called(here, legs[0].turn), legs[0].v, legs[1..]);
    }
  }

  /** The job asks for a label in this world, and the label is faithful. */
  ghost predicate Asks(turn: Turn, w: World, k: nat) {
    && turn.job.runsOn.Some? && k < |turn.job.runsOn.value|
    && FaithfulSource(turn.job.runsOn.value[k], turn.c, w) && ActualSource(turn.job.runsOn.value[k], w).Some?
  }

  ghost predicate Covered(found: set<Evaluation>, document: string, turn: Turn, w: World, k: nat)
    requires Asks(turn, w, k)
  {
    exists e :: e in found && Evaluates(e, document, turn.job, ActualSource(turn.job.runsOn.value[k], w).value)
  }

  /** Any number of calls down, in every row: a job that could run at the end of a chain has an evaluation, found from
      its start, that covers every label it asks for. */
  lemma ChainCovered(l: Library, here: Visit, v: World, legs: seq<Leg>, turn: Turn, w: World, k: nat)
    requires here.name in l.documents && Allows(At(l, here), v) && Chain(l, here, v, legs)
    requires Runs(l, End(l, here, v, legs), EndWorld(v, legs), turn, w) && Asks(turn, w, k)
    ensures Covered(ReachedAt(l, here), End(l, here, v, legs).name, turn, w, k)
  {
    var end := End(l, here, v, legs);
    ChainKeeps(l, here, v, legs);
    JobAllows(l, turn.job, At(l, end), turn.i, turn.c, EndWorld(v, legs), w);
    RunnerCovered(l, end, turn.job, turn.i, turn.c, w, k);
    var e :| e in ReachedAt(l, end)
             && Evaluates(e, end.name, turn.job, ActualSource(turn.job.runsOn.value[k], w).value);
    assert e in ReachedAt(l, here);
  }

  /** One call down. */
  lemma CalledRunnerCovered(l: Library, here: Visit, v: World, leg: Leg, called: Turn, w: World, k: nat)
    requires here.name in l.documents && Allows(At(l, here), v) && Makes(l, here, v, leg)
    requires Runs(l, Called(here, leg.turn), leg.v, called, w) && Asks(called, w, k)
    ensures Covered(ReachedAt(l, here), leg.turn.job.uses.value, called, w, k)
  {
    assert End(l, Called(here, leg.turn), leg.v, []) == Called(here, leg.turn);
    ChainCovered(l, here, v, [leg], called, w, k);
  }

  // ---- from the triggers -----------------------------------------------------------------

  /** From all triggers: whichever of them starts the run and whichever calls follow, the runner of a job at the end is
      covered by an evaluation; on acyclic calls these are the evaluations that the memoised traversal returns. */
  lemma TriggeredCovered(l: Library, names: seq<string>, base: Context, t: Trigger, v: World, legs: seq<Leg>,
                         turn: Turn, w: World, k: nat)
    requires forall j :: 0 <= j < |names| ==> names[j] in l.documents
    requires Starts(l, names, t) && Allows(Root(base, t).inherited, v) && Chain(l, Root(base, t), v, legs)
    requires Runs(l, End(l, Root(base, t), v, legs), EndWorld(v, legs), turn, w) && Asks(turn, w, k)
    ensures Covered(ReachedFrom(l, base, Triggers(l, names)), End(l, Root(base, t), v, legs).name, turn, w, k)
  {
    ChainCovered(l, Root(base, t), v, legs, turn, w, k);
    TriggersExact(l, names, t);
    forall e | e in ReachedAt(l, Root(base, t)) ensures e in ReachedFrom(l, base, Triggers(l, names)) {
      ReachedFromSource(l, base, Triggers(l, names), e);
    }
  }
}
