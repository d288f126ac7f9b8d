/** The memoised traversal finds what the plain one finds: never more, and on acyclic calls never less. */
module CallWalk {
  import opened Wrappers
  import opened Scalars
  import opened Meaning
  import opened Conditions
  import opened Calls

  /** What the memo remembers: a workflow and the context it runs in. */
  datatype Signature = Signature(name: string, vars: map<string, set<Value>>)

  /** Ranks fall along every call, so no workflow calls itself, directly or through others. */
  ghost predicate Ranked(l: Library, rank: map<string, nat>) {
    && rank.Keys == l.documents.Keys
    && forall name, job :: name in l.documents && job in l.documents[name].jobs ==> JobFalls(l, rank, name, job)
  }

  ghost predicate JobFalls(l: Library, rank: map<string, nat>, name: string, job: Job)
    requires rank.Keys == l.documents.Keys && name in l.documents
  {
    job.uses.Some? && job.uses.value in l.documents ==> rank[job.uses.value] < rank[name]
  }

  ghost predicate StepFalls(l: Library, rank: map<string, nat>, name: string, step: Step)
    requires Ranked(l, rank) && name in l.documents
  {
    step.Call? && step.target in l.documents ==> rank[step.target] < rank[name]
  }

  lemma {:induction false} ContextsFall(l: Library, rank: map<string, nat>, name: string, job: Job, current: Context,
                                        contexts: seq<Context>)
    requires Ranked(l, rank) && name in l.documents && job in l.documents[name].jobs
    ensures forall step :: step in InContexts(name, job, current, contexts) ==> StepFalls(l, rank, name, step)
  {
    if contexts != [] {
      ContextsFall(l, rank, name, job, current, contexts[..|contexts| - 1]);
    }
  }

  lemma {:induction false} StepsFall(l: Library, rank: map<string, nat>, name: string, jobs: seq<Job>, current: Context)
    requires Ranked(l, rank) && name in l.documents && forall job :: job in jobs ==> job in l.documents[name].jobs
    ensures forall step :: step in Steps(l, name, jobs, current) ==> StepFalls(l, rank, name, step)
  {
    if jobs != [] {
      var n := |jobs| - 1;
      StepsFall(l, rank, name, jobs[..n], current);
      ContextsFall(l, rank, name, jobs[n], current, Contexts(l, jobs[n], current));
    }
  }

  // ---- the traversal without memo and without ancestry -----------------------------------

  /** Everything below a workflow in this context, on acyclic calls. */
  ghost function Pure(l: Library, rank: map<string, nat>, name: string, current: Context): set<Evaluation>
    requires Ranked(l, rank) && name in l.documents
    decreases rank[name], 1
  {
    StepsFall(l, rank, name, l.documents[name].jobs, current);
    PureSteps(l, rank, name, StepsOf(l, name, current))
  }

  ghost function PureSteps(l: Library, rank: map<string, nat>, name: string, steps: seq<Step>): set<Evaluation>
    requires Ranked(l, rank) && name in l.documents
    requires forall step :: step in steps ==> StepFalls(l, rank, name, step)
    decreases rank[name], 0, |steps|
  {
    if steps == [] then {}
    else
      var n := |steps| - 1;
      assert StepFalls(l, rank, name, steps[n]);
      PureSteps(l, rank, name, steps[..n]) + PureStep(l, rank, name, steps[n])
  }

  ghost function PureStep(l: Library, rank: map<string, nat>, name: string, step: Step): set<Evaluation>
    requires Ranked(l, rank) && name in l.documents && StepFalls(l, rank, name, step)
    decreases rank[name], 0, 0
  {
    match step
    case Run(evaluation) => {evaluation}
    case Call(target, ctx) =>
      if target in l.documents then Pure(l, rank, target, Entry(l, target, ctx, true)) else {}
  }

  /** Every workflow on the way ranks above this one. */
  ghost predicate Above(l: Library, rank: map<string, nat>, ancestry: set<string>, name: string)
    requires Ranked(l, rank) && name in l.documents
  {
    ancestry <= l.documents.Keys && forall a :: a in ancestry ==> rank[a] > rank[name]
  }

  /** On acyclic calls nothing is ever cut. */
  lemma {:induction false} ReachedIsPure(l: Library, rank: map<string, nat>, name: string, inherited: Context,
                                         ancestry: set<string>)
    requires Ranked(l, rank) && name in l.documents && Above(l, rank, ancestry, name)
    ensures Reached(l, name, inherited, ancestry) == Pure(l, rank, name, Entry(l, name, inherited, ancestry != {}))
    decreases rank[name], 1
  {
    var current := Entry(l, name, inherited, ancestry != {});
    StepsFall(l, rank, name, l.documents[name].jobs, current);
    ReachedByIsPure(l, rank, name, StepsOf(l, name, current), ancestry + {name});
  }

  lemma {:induction false} ReachedByIsPure(l: Library, rank: map<string, nat>, name: string, steps: seq<Step>,
                                           ancestry: set<string>)
    requires Ranked(l, rank) && name in l.documents && name in ancestry && ancestry <= l.documents.Keys
    requires forall a :: a in ancestry ==> rank[a] >= rank[name]
    requires forall step :: step in steps ==> StepFalls(l, rank, name, step)
    ensures ReachedBy(l, steps, ancestry) == PureSteps(l, rank, name, steps)
    decreases rank[name], 0, |steps|
  {
    if steps != [] {
      var n := |steps| - 1;
      ReachedByIsPure(l, rank, name, steps[..n], ancestry);
      assert StepFalls(l, rank, name, steps[n]);
      if steps[n].Call? && steps[n].target in l.documents {
        ReachedIsPure(l, rank, steps[n].target, steps[n].ctx, ancestry);
      }
      assert ReachedOf(l, steps[n], ancestry) == PureStep(l, rank, name, steps[n]);
    }
  }

  // ---- the traversal with memo -----------------------------------------------------------

  function Elements<T>(s: seq<T>): set<T> {
    set x | x in s
  }

  lemma ElementsGrow<T>(s: seq<T>, x: T)
    ensures Elements(s + [x]) == Elements(s) + {x}
  {
  }

  /** Contexts that differ in their values only. */
  ghost predicate Alike(a: Context, b: Context) {
    a.number == b.number && a.decode == b.decode
  }

  /** Everything below a remembered workflow is found. */
  ghost predicate Complete(l: Library, rank: map<string, nat>, base: Context, s: Signature, found: set<Evaluation>)
    requires Ranked(l, rank)
  {
    s.name in l.documents ==> Pure(l, rank, s.name, base.(vars := s.vars)) <= found
  }

  /** The remembered workflows that do not rank above this one are complete. */
  ghost predicate Settled(l: Library, rank: map<string, nat>, base: Context, seen: set<Signature>,
                          found: set<Evaluation>, name: string) {
    Ranked(l, rank) && name in l.documents ==>
      forall s :: s in seen && s.name in l.documents && rank[s.name] <= rank[name] ==> Complete(l, rank, base, s, found)
  }

  /** The newly remembered workflows are complete. */
  ghost predicate NewComplete(l: Library, rank: map<string, nat>, base: Context, before: set<Signature>,
                              seen: set<Signature>, found: set<Evaluation>) {
    Ranked(l, rank) ==> forall s :: s in seen && s !in before ==> Complete(l, rank, base, s, found)
  }

  /** All workflows on the way rank above this one, when the calls are acyclic. */
  ghost predicate OnTheWay(l: Library, rank: map<string, nat>, ancestry: set<string>, name: string) {
    ancestry <= l.documents.Keys && (Ranked(l, rank) && name in l.documents ==> Above(l, rank, ancestry, name))
  }

  lemma NewJoins(l: Library, rank: map<string, nat>, base: Context, a: set<Signature>, b: set<Signature>,
                 f: set<Evaluation>, c: set<Signature>, g: set<Evaluation>)
    requires NewComplete(l, rank, base, a, b, f) && NewComplete(l, rank, base, b, c, g) && f <= g
    ensures NewComplete(l, rank, base, a, c, g)
  {
  }

  /** The remembered workflows that rank below this one are complete. */
  ghost predicate SettledBelow(l: Library, rank: map<string, nat>, base: Context, seen: set<Signature>,
                               found: set<Evaluation>, name: string) {
    Ranked(l, rank) && name in l.documents ==>
      forall s :: s in seen && s.name in l.documents && rank[s.name] < rank[name] ==> Complete(l, rank, base, s, found)
  }

  lemma BelowGrows(l: Library, rank: map<string, nat>, base: Context, seen: set<Signature>, found: set<Evaluation>,
                   more: set<Signature>, all: set<Evaluation>, name: string)
    requires SettledBelow(l, rank, base, seen, found, name) && NewComplete(l, rank, base, seen, more, all)
      && found <= all
    ensures SettledBelow(l, rank, base, more, all, name)
  {
  }

  lemma EntersBelow(l: Library, rank: map<string, nat>, base: Context, seen: set<Signature>, found: set<Evaluation>,
                    s: Signature)
    requires Settled(l, rank, base, seen, found, s.name)
    ensures SettledBelow(l, rank, base, seen + {s}, found, s.name)
  {
  }

  lemma BelowSettles(l: Library, rank: map<string, nat>, base: Context, seen: set<Signature>, found: set<Evaluation>,
                     name: string, target: string)
    requires SettledBelow(l, rank, base, seen, found, name) && name in l.documents
    requires Ranked(l, rank) && target in l.documents ==> rank[target] < rank[name]
    ensures Settled(l, rank, base, seen, found, target)
  {
  }

  /** What a workflow does is in order: its steps carry the event, and their calls rank below it. */
  ghost predicate InOrder(l: Library, rank: map<string, nat>, root: Context, name: string, steps: seq<Step>) {
    && EVENT in root.vars && name in l.documents
    && (forall step :: step in steps ==> StepCarries(step, root))
    && (Ranked(l, rank) ==> forall step :: step in steps ==> StepFalls(l, rank, name, step))
  }

  lemma StepsInOrder(l: Library, rank: map<string, nat>, root: Context, name: string, current: Context)
    requires Carries(current, root) && name in l.documents
    ensures InOrder(l, rank, root, name, StepsOf(l, name, current))
  {
    StepsCarry(l, name, l.documents[name].jobs, current, root);
    if Ranked(l, rank) {
      StepsFall(l, rank, name, l.documents[name].jobs, current);
    }
  }

  class Visitor {
    const l: Library
    const base: Context
    ghost const rank: map<string, nat>
    var seen: set<Signature>
    var evaluations: seq<Evaluation>

    constructor (l: Library, base: Context, ghost rank: map<string, nat>)
      ensures this.l == l && this.base == base && this.rank == rank && seen == {} && evaluations == []
    {
      this.l, this.base, this.rank := l, base, rank;
      seen, evaluations := {}, [];
    }

    /** Visits a workflow and what it calls. It finds nothing that the plain traversal does not find; on acyclic
        calls it finds all of it. */
    method Visit(name: string, inherited: Context, ancestry: set<string>, ghost root: Context)
      requires Carries(inherited, root) && Alike(root, base) && OnTheWay(l, rank, ancestry, name)
      requires Settled(l, rank, base, seen, Elements(evaluations), name)
      modifies this
      ensures old(seen) <= seen && Elements(old(evaluations)) <= Elements(evaluations)
      ensures Elements(evaluations) <= Elements(old(evaluations)) + Reached(l, name, inherited, ancestry)
      ensures Ranked(l, rank) ==> Reached(l, name, inherited, ancestry) <= Elements(evaluations)
      ensures NewComplete(l, rank, base, old(seen), seen, Elements(evaluations))
      decreases l.documents.Keys - ancestry, 1
    {
      if name !in l.documents || name in ancestry {
        return;
      }
      var current := Entry(l, name, inherited, ancestry != {});
      DefaultsCarry(inherited, l.documents[name].inputs, root);
      assert current == base.(vars := current.vars);
      var signature := Signature(name, current.vars);
      if Ranked(l, rank) {
        ReachedIsPure(l, rank, name, inherited, ancestry);
      }
      if signature in seen {
        return;
      }
      StepsInOrder(l, rank, root, name, current);
      EntersBelow(l, rank, base, seen, Elements(evaluations), signature);
      seen := seen + {signature};
      Fewer(l, name, ancestry);
      Run(name, StepsOf(l, name, current), ancestry + {name}, root);
    }

    /** Makes the calls and keeps the evaluations of one workflow, in order. */
    method Run(name: string, steps: seq<Step>, ancestry: set<string>, ghost root: Context)
      requires Alike(root, base) && InOrder(l, rank, root, name, steps) && ancestry <= l.documents.Keys
      requires Ranked(l, rank) ==> forall a :: a in ancestry ==> rank[a] >= rank[name]
      requires SettledBelow(l, rank, base, seen, Elements(evaluations), name)
      modifies this
      ensures old(seen) <= seen && Elements(old(evaluations)) <= Elements(evaluations)
      ensures Elements(evaluations) <= Elements(old(evaluations)) + ReachedBy(l, steps, ancestry)
      ensures Ranked(l, rank) ==> ReachedBy(l, steps, ancestry) <= Elements(evaluations)
      ensures NewComplete(l, rank, base, old(seen), seen, Elements(evaluations))
      decreases l.documents.Keys - ancestry, 2
    {
      for i := 0 to |steps|
        invariant old(seen) <= seen && Elements(old(evaluations)) <= Elements(evaluations)
        invariant Elements(evaluations) <= Elements(old(evaluations)) + ReachedBy(l, steps[..i], ancestry)
        invariant Ranked(l, rank) ==> ReachedBy(l, steps[..i], ancestry) <= Elements(evaluations)
        invariant NewComplete(l, rank, base, old(seen), seen, Elements(evaluations))
        invariant SettledBelow(l, rank, base, seen, Elements(evaluations), name)
      {
        ghost var before, had := seen, Elements(evaluations);
        ReachedGrows(l, steps, i, ancestry);
        assert steps[i] in steps && StepCarries(steps[i], root);
        match steps[i] {
          case Run(evaluation) =>
            ElementsGrow(evaluations, evaluation);
            evaluations := evaluations + [evaluation];
          case Call(target, ctx) =>
            assert Ranked(l, rank) ==> StepFalls(l, rank, name, steps[i]);
            BelowSettles(l, rank, base, seen, had, name, target);
            Visit(target, ctx, ancestry, root);
        }
        NewJoins(l, rank, base, old(seen), before, had, seen, Elements(evaluations));
        BelowGrows(l, rank, base, before, had, seen, Elements(evaluations), name);
      }
      assert steps[..|steps|] == steps;
    }
  }

  lemma ReachedGrows(l: Library, steps: seq<Step>, i: nat, ancestry: set<string>)
    requires i < |steps|
    ensures ReachedBy(l, steps[..i + 1], ancestry) == ReachedBy(l, steps[..i], ancestry)
        + ReachedOf(l, steps[i], ancestry)
  {
    assert steps[..i + 1][..i] == steps[..i];
  }

  lemma Fewer(l: Library, name: string, ancestry: set<string>)
    requires name in l.documents && name !in ancestry
    ensures l.documents.Keys - (ancestry + {name}) < l.documents.Keys - ancestry
  {
    assert name in l.documents.Keys - ancestry;
  }

  // ---- all triggers ----------------------------------------------------------------------

  /** A workflow entered by an event. */
  datatype Trigger = Trigger(name: string, event: string)

  function Triggers(l: Library, names: seq<string>): seq<Trigger>
    requires forall i :: 0 <= i < |names| ==> names[i] in l.documents
  {
    if names == [] then []
    else
      var n := |names| - 1;
      Triggers(l, names[..n]) + OwnTriggers(names[n], l.documents[names[n]].events)
  }

  /** Being called is no trigger of its own. */
  function OwnTriggers(name: string, events: seq<string>): seq<Trigger> {
    if events == [] then []
    else
      var n := |events| - 1;
      OwnTriggers(name, events[..n])
          + (if events[n] != CALLED && events[n] != "" then [Trigger(name, events[n])] else [])
  }

  function EventValue(event: string): set<Value> {
    {Known(Str(event))}
  }

  function RootContext(base: Context, t: Trigger): Context {
    Set(base, EVENT, EventValue(t.event))
  }

  /** What the traversal without memo finds from these triggers. */
  ghost function ReachedFrom(l: Library, base: Context, triggers: seq<Trigger>): set<Evaluation> {
    if triggers == [] then {}
    else
      var n := |triggers| - 1;
      ReachedFrom(l, base, triggers[..n]) + Reached(l, triggers[n].name, RootContext(base, triggers[n]), {})
  }

  lemma {:induction false} OwnTriggersEvent(name: string, events: seq<string>)
    ensures forall t :: t in OwnTriggers(name, events) ==>
              t.name == name && t.event in events && t.event != CALLED && t.event != ""
  {
    if events != [] {
      OwnTriggersEvent(name, events[..|events| - 1]);
    }
  }

  lemma {:induction false} TriggersEvent(l: Library, names: seq<string>)
    requires forall i :: 0 <= i < |names| ==> names[i] in l.documents
    ensures forall t :: t in Triggers(l, names) ==>
              t.name in l.documents && t.event in l.documents[t.name].events && t.event != CALLED
  {
    if names != [] {
      var n := |names| - 1;
      TriggersEvent(l, names[..n]);
      OwnTriggersEvent(names[n], l.documents[names[n]].events);
    }
  }

  /** An evaluation carries the event of a trigger. */
  ghost predicate Rooted(triggers: seq<Trigger>, e: Evaluation) {
    exists t :: t in triggers && e.event == EventValue(t.event)
  }

  lemma {:induction false} ReachedRooted(l: Library, base: Context, triggers: seq<Trigger>, e: Evaluation)
    requires e in ReachedFrom(l, base, triggers)
    ensures Rooted(triggers, e)
  {
    var n := |triggers| - 1;
    if e in ReachedFrom(l, base, triggers[..n]) {
      ReachedRooted(l, base, triggers[..n], e);
    } else {
      var root := RootContext(base, triggers[n]);
      ReachedCarries(l, triggers[n].name, root, {}, root);
      assert triggers[n] in triggers;
    }
  }

  /** Visits every workflow for every event that triggers it. The evaluations are those of the traversal without
      memo when the calls are acyclic, and never others; each carries the event of a trigger, which is never the
      call itself. */
  method RunnerEvaluations(l: Library, names: seq<string>, base: Context, ghost rank: map<string, nat>)
    returns (evaluations: seq<Evaluation>)
    requires forall i :: 0 <= i < |names| ==> names[i] in l.documents
    ensures Elements(evaluations) <= ReachedFrom(l, base, Triggers(l, names))
    ensures Ranked(l, rank) ==> Elements(evaluations) == ReachedFrom(l, base, Triggers(l, names))
    ensures forall e :: e in evaluations ==> Rooted(Triggers(l, names), e) && e.event != EventValue(CALLED)
  {
    var triggers := Triggers(l, names);
    var visitor := new Visitor(l, base, rank);
    for i := 0 to |triggers|
      invariant visitor.l == l && visitor.base == base && visitor.rank == rank && fresh(visitor)
      invariant Elements(visitor.evaluations) <= ReachedFrom(l, base, triggers[..i])
      invariant Ranked(l, rank) ==> ReachedFrom(l, base, triggers[..i]) <= Elements(visitor.evaluations)
      invariant NewComplete(l, rank, base, {}, visitor.seen, Elements(visitor.evaluations))
    {
      ghost var before, had := visitor.seen, Elements(visitor.evaluations);
      var root := RootContext(base, triggers[i]);
      FromStart(l, rank, base, before, had, triggers[i].name);
      RootCarries(base, triggers[i]);
      ReachedFromGrows(l, base, triggers, i);
      visitor.Visit(triggers[i].name, root, {}, root);
      NewJoins(l, rank, base, {}, before, had, visitor.seen, Elements(visitor.evaluations));
    }
    evaluations := visitor.evaluations;
    assert triggers[..|triggers|] == triggers;
    EvaluationsRooted(l, names, base, evaluations);
  }

  lemma FromStart(l: Library, rank: map<string, nat>, base: Context, seen: set<Signature>, found: set<Evaluation>,
                  name: string)
    requires NewComplete(l, rank, base, {}, seen, found)
    ensures Settled(l, rank, base, seen, found, name) && OnTheWay(l, rank, {}, name)
  {
  }

  lemma RootCarries(base: Context, t: Trigger)
    ensures Carries(RootContext(base, t), RootContext(base, t)) && Alike(RootContext(base, t), base)
  {
  }

  lemma ReachedFromGrows(l: Library, base: Context, triggers: seq<Trigger>, i: nat)
    requires i < |triggers|
    ensures ReachedFrom(l, base, triggers[..i + 1])
         == ReachedFrom(l, base, triggers[..i]) + Reached(l, triggers[i].name, RootContext(base, triggers[i]), {})
  {
    assert triggers[..i + 1][..i] == triggers[..i];
  }

  lemma EvaluationsRooted(l: Library, names: seq<string>, base: Context, evaluations: seq<Evaluation>)
    requires forall i :: 0 <= i < |names| ==> names[i] in l.documents
    requires Elements(evaluations) <= ReachedFrom(l, base, Triggers(l, names))
    ensures forall e :: e in evaluations ==> Rooted(Triggers(l, names), e) && e.event != EventValue(CALLED)
  {
    var triggers := Triggers(l, names);
    TriggersEvent(l, names);
    forall e | e in evaluations ensures Rooted(triggers, e) && e.event != EventValue(CALLED) {
      assert e in Elements(evaluations);
      ReachedRooted(l, base, triggers, e);
      var t :| t in triggers && e.event == EventValue(t.event);
      assert Known(Str(t.event)) in e.event;
    }
  }
}
