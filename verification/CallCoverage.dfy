/** What the traversal finds of the jobs that could run and of the runners they could ask for, and exactly which worlds
    of a called workflow and of a matrix row its contexts allow. */
module CallCoverage {
  import opened Wrappers
  import opened Scalars
  import S = Syntax
  import opened Meaning
  import opened Conditions
  import opened Calls
  import opened CallContexts

  /** The job could run in this world: it has no condition, or one that could hold. */
  predicate CouldRun(job: Job, w: World) {
    job.condition.None? || CouldHold(job.condition.value, w)
  }

  ghost predicate FaithfulJob(job: Job, ctx: Context, w: World) {
    job.condition.Some? ==> FaithfulSource(job.condition.value, ctx, w)
  }

  lemma CouldRunKept(job: Job, ctx: Context, w: World)
    requires FaithfulJob(job, ctx, w) && Allows(ctx, w) && CouldRun(job, w)
    ensures Runnable(job.condition, ctx)
  {
    if job.condition.Some? {
      RunnableKeeps(job.condition.value, ctx, w);
    }
  }

  /** Following a call from any row: everything below the called workflow, entered with the passed arguments, is
      found. */
  lemma CallFound(l: Library, here: Visit, job: Job, i: nat, c: Context, w: World)
    requires here.name in l.documents && here.name !in here.ancestry && job in l.documents[here.name].jobs
    requires job.uses.Some? && RowContext(l, job, At(l, here), i, c)
    requires FaithfulJob(job, c, w) && Allows(c, w) && CouldRun(job, w)
    ensures ReachedAt(l, Called(here, Turn(job, i, c))) <= ReachedAt(l, here)
  {
    ContextsExact(l, job, At(l, here), i, c);
    CouldRunKept(job, c, w);
    JobFound(l, here.name, here.inherited, here.ancestry, job, i, Call(job.uses.value, Passed(c, job.arguments)));
  }

  /** A text whose value is known in a world is covered by its possible values. */
  lemma SourceCovered(source: Source, ctx: Context, w: World)
    requires FaithfulSource(source, ctx, w) && Allows(ctx, w) && ActualSource(source, w).Some?
    ensures Covers(SourceValues(source, ctx), ActualSource(source, w).value)
  {
    if source.Formula? {
      Sound(Parsed(source).value, ctx, w);
    }
  }

  /** An evaluation of this job's runner that covers this value. */
  ghost predicate Evaluates(e: Evaluation, document: string, job: Job, value: Scalar)
    requires job.runsOn.Some?
  {
    && e.document == document && e.job == job.id && e.line == job.line && e.selector == job.runsOn.value
    && Covers(e.values, value)
  }

  /** In every row of the job's matrix, or once without one, whatever world the row's context allows: when the job could
      run in it, an evaluation of the job is found, and its values cover every label that the job asks for there. */
  lemma RunnerCovered(l: Library, here: Visit, job: Job, i: nat, c: Context, w: World, k: nat)
    requires here.name in l.documents && here.name !in here.ancestry && job in l.documents[here.name].jobs
    requires RowContext(l, job, At(l, here), i, c) && FaithfulJob(job, c, w) && Allows(c, w) && CouldRun(job, w)
    requires job.runsOn.Some? && k < |job.runsOn.value|
    requires FaithfulSource(job.runsOn.value[k], c, w) && ActualSource(job.runsOn.value[k], w).Some?
    ensures exists e :: e in ReachedAt(l, here)
              && Evaluates(e, here.name, job, ActualSource(job.runsOn.value[k], w).value)
  {
    CouldRunKept(job, c, w);
    var e := RunnerEvaluated(l, here, Turn(job, i, c));
    SourceCovered(job.runsOn.value[k], c, w);
    LabelsCover(job.runsOn.value, c, k, ActualSource(job.runsOn.value[k], w).value);
  }

  /** A job that may run in a row is evaluated there. */
  lemma RunnerEvaluated(l: Library, here: Visit, turn: Turn) returns (e: Evaluation)
    requires Taken(l, here, turn) && turn.job.runsOn.Some?
    ensures e in ReachedAt(l, here) && e.document == here.name && e.job == turn.job.id && e.line == turn.job.line
    ensures e.selector == turn.job.runsOn.value && e.values == Labels(turn.job.runsOn.value, turn.c)
  {
    e := Evaluated(here.name, turn.job, At(l, here), turn.c);
    EvaluatedExact(here.name, turn.job, At(l, here), turn.c, e);
    assert Derives(l, here, [turn], e);
    DerivedFound(l, here, [turn], e);
  }

  /** Every row has such a context. */
  lemma RowHasContext(l: Library, job: Job, ctx: Context, i: nat) returns (c: Context)
    requires if HasRows(job) then i < |M.Rows(job.matrix.value)| else i == 0
    ensures RowContext(l, job, ctx, i, c)
  {
    ContextsExact(l, job, ctx, i, ctx);
    c := Contexts(l, job, ctx)[i];
    ContextsExact(l, job, ctx, i, c);
  }

  lemma LabelsCover(selector: seq<Source>, ctx: Context, k: nat, value: Scalar)
    requires k < |selector| && Covers(SourceValues(selector[k], ctx), value)
    ensures Covers(Labels(selector, ctx), value)
  {
    assert SourceValues(selector[k], ctx) <= Labels(selector, ctx);
  }

  // ---- which worlds a call allows --------------------------------------------------------

  /** The names that a run shares with the workflows it calls: its event and the payload of that event. */
  const SHARED := "github.event"

  /** The world of a called workflow or of a job: only the event and its payload are those of the run. */
  ghost predicate Entered(w: World, v: World) {
    v == w.(vars := v.vars) && forall name :: SHARED <= name ==> v.vars(name) == w.vars(name)
  }

  /** Whatever else the context holds covers the value it has in this world. */
  predicate Remains(ctx: Context, v: World) {
    forall name :: name in ctx.vars && !(SHARED <= name) ==> Exact(ctx.vars[name], v.vars(name))
  }

  lemma SharedNames(name: string)
    ensures SHARED <= EVENT_NAME && (PayloadName(name) ==> SHARED <= name)
  {
    assert EVENT_NAME[..12] == SHARED;
    if k :| 0 <= k < |PAYLOADS| && PAYLOADS[k].stem <= name {
      assert PAYLOADS[k].stem[..12] == SHARED;
      assert name[..12] == SHARED;
    }
  }

  /** Another context with the same event and payloads allows the worlds that the rest of it covers. */
  lemma EnteredAllows(ctx: Context, more: Context, w: World, v: World)
    requires Allows(ctx, w) && Entered(w, v) && more.decode == ctx.decode
    requires forall name :: SHARED <= name ==>
      (name in more.vars <==> name in ctx.vars) && (name in ctx.vars ==> more.vars[name] == ctx.vars[name])
    ensures Allows(more, v) <==> Remains(more, v)
  {
    SharedNames("");
    EnteredPayloads(w, v);
    if Remains(more, v) {
      forall name | name in more.vars ensures Exact(more.vars[name], v.vars(name)) {
        if SHARED <= name {
          assert name in ctx.vars && Exact(ctx.vars[name], w.vars(name));
        }
      }
    }
  }

  lemma EnteredPayloads(w: World, v: World)
    requires Entered(w, v)
    ensures forall k, name :: 0 <= k < |PAYLOADS| && PAYLOADS[k].stem <= name ==> v.vars(name) == w.vars(name)
    ensures v.vars(EVENT_NAME) == w.vars(EVENT_NAME) && v.payloads == w.payloads
  {
    SharedNames("");
    forall k, name | 0 <= k < |PAYLOADS| && PAYLOADS[k].stem <= name ensures v.vars(name) == w.vars(name) {
      SharedNames(name);
    }
  }

  /** The values of this name cover the value it has in this world. */
  predicate Fits(source: Source, ctx: Context, name: string, v: World) {
    Exact(SourceValues(source, ctx), v.vars(name))
  }

  /** The values of every argument cover the value the input has in this world. */
  predicate AllFit(arguments: seq<Input>, ctx: Context, v: World) {
    forall i :: 0 <= i < |arguments| ==> Fits(arguments[i].value, ctx, INPUTS + arguments[i].name, v)
  }

  lemma AllFitSplit(arguments: seq<Input>, ctx: Context, v: World)
    requires arguments != []
    ensures var n := |arguments| - 1;
      AllFit(arguments, ctx, v) <==>
      AllFit(arguments[..n], ctx, v) && Fits(arguments[n].value, ctx, INPUTS + arguments[n].name, v)
  {
    var n := |arguments| - 1;
    assert forall i :: 0 <= i < n ==> arguments[i] == arguments[..n][i];
  }

  predicate DistinctNames(inputs: seq<Input>) {
    forall i, j :: 0 <= i < j < |inputs| ==> inputs[i].name != inputs[j].name
  }

  lemma InputIsNotShared(name: string)
    requires INPUTS <= name
    ensures name != EVENT_NAME && !(SHARED <= name)
  {
    SharedNames(name);
    assert name[0] == INPUTS[0] == 'i' && SHARED[0] == 'g';
  }

  lemma SharedIsNoInput(name: string)
    requires SHARED <= name
    ensures !(INPUTS <= name)
  {
    assert name[0] == SHARED[0] == 'g' && INPUTS[0] == 'i';
  }

  lemma SetAllows(ctx: Context, name: string, values: set<Value>, v: World)
    requires INPUTS <= name && name !in ctx.vars
    ensures Allows(Set(ctx, name, values), v) <==> Allows(ctx, v) && Exact(values, v.vars(name))
  {
    InputIsNotShared(name);
    var more := Set(ctx, name, values);
    assert Events(more) == Events(ctx);
    if Allows(more, v) {
      forall other | other in ctx.vars ensures Exact(ctx.vars[other], v.vars(other)) {
        assert other in more.vars && more.vars[other] == ctx.vars[other];
      }
      assert more.vars[name] == values;
    }
  }

  lemma WithoutInputsAllows(ctx: Context, w: World, v: World)
    requires Allows(ctx, w) && Entered(w, v)
    ensures Allows(WithoutInputs(ctx), v) <==> Remains(WithoutInputs(ctx), v)
  {
    var more := WithoutInputs(ctx);
    forall name | SHARED <= name
      ensures (name in more.vars <==> name in ctx.vars) && (name in ctx.vars ==> more.vars[name] == ctx.vars[name])
    {
      SharedIsNoInput(name);
    }
    EnteredAllows(ctx, more, w, v);
  }

  lemma LastIsNew(ctx: Context, arguments: seq<Input>)
    requires arguments != [] && DistinctNames(arguments)
    ensures INPUTS + arguments[|arguments| - 1].name !in Passed(ctx, arguments[..|arguments| - 1]).vars
  {
    var n := |arguments| - 1;
    if INPUTS + arguments[n].name in Passed(ctx, arguments[..n]).vars {
      PassedNames(ctx, arguments[..n]);
      var i :| 0 <= i < n && INPUTS + arguments[n].name == INPUTS + arguments[..n][i].name;
      SameInput(arguments[n].name, arguments[i].name);
      assert false;
    }
  }

  /** A world of the called workflow is allowed by what was passed exactly when every argument's values cover the value
      it has there, and so does whatever else the caller's context holds, its matrix values included. */
  lemma {:induction false} PassedAllows(ctx: Context, arguments: seq<Input>, w: World, v: World)
    requires Allows(ctx, w) && Entered(w, v) && DistinctNames(arguments)
    ensures Allows(Passed(ctx, arguments), v) <==> Remains(WithoutInputs(ctx), v) && AllFit(arguments, ctx, v)
  {
    if arguments == [] {
      WithoutInputsAllows(ctx, w, v);
    } else {
      var n := |arguments| - 1;
      var before, last := arguments[..n], arguments[n];
      PassedAllows(ctx, before, w, v);
      LastIsNew(ctx, arguments);
      SetAllows(Passed(ctx, before), INPUTS + last.name, SourceValues(last.value, ctx), v);
      AllFitSplit(arguments, ctx, v);
    }
  }

  /** This input was passed, or the values of its default cover the value it has in this world. */
  predicate DefaultFits(ctx: Context, inputs: seq<Input>, i: nat, v: World)
    requires i < |inputs|
  {
    var before := WithDefaults(ctx, inputs[..i]);
    INPUTS + inputs[i].name in before.vars || Fits(inputs[i].value, before, INPUTS + inputs[i].name, v)
  }

  /** The same for the defaults of the inputs that were not passed. */
  lemma {:induction false} DefaultsAllow(ctx: Context, inputs: seq<Input>, v: World)
    ensures Allows(WithDefaults(ctx, inputs), v) <==>
            Allows(ctx, v) && forall i :: 0 <= i < |inputs| ==> DefaultFits(ctx, inputs, i, v)
  {
    if inputs != [] {
      var n := |inputs| - 1;
      DefaultsAllow(ctx, inputs[..n], v);
      forall i | 0 <= i < n ensures DefaultFits(ctx, inputs[..n], i, v) <==> DefaultFits(ctx, inputs, i, v) {
        assert inputs[..n][..i] == inputs[..i];
      }
      DefaultAllows(ctx, inputs, v);
    }
  }

  lemma DefaultAllows(ctx: Context, inputs: seq<Input>, v: World)
    requires inputs != []
    ensures var n := |inputs| - 1;
      Allows(WithDefaults(ctx, inputs), v) <==>
          Allows(WithDefaults(ctx, inputs[..n]), v) && DefaultFits(ctx, inputs, n, v)
  {
    var n := |inputs| - 1;
    var before := WithDefaults(ctx, inputs[..n]);
    if INPUTS + inputs[n].name !in before.vars {
      SetAllows(before, INPUTS + inputs[n].name, SourceValues(inputs[n].value, before), v);
    }
  }

  /** What is left of the caller's context, the arguments, and the defaults that apply, cover the values of this
      world. */
  predicate CallFits(l: Library, target: string, ctx: Context, arguments: seq<Input>, v: World)
    requires target in l.documents
  {
    var inputs := l.documents[target].inputs;
    && Remains(WithoutInputs(ctx), v)
    && AllFit(arguments, ctx, v)
    && forall i :: 0 <= i < |inputs| ==> DefaultFits(Passed(ctx, arguments), inputs, i, v)
  }

  /** Entering a called workflow: its world is allowed exactly when everything passed on covers the value it has
      there. */
  lemma CallAllows(l: Library, target: string, ctx: Context, arguments: seq<Input>, w: World, v: World)
    requires target in l.documents && Allows(ctx, w) && Entered(w, v) && DistinctNames(arguments)
    ensures Allows(Entry(l, target, Passed(ctx, arguments), true), v) <==> CallFits(l, target, ctx, arguments, v)
  {
    PassedAllows(ctx, arguments, w, v);
    DefaultsAllow(Passed(ctx, arguments), l.documents[target].inputs, v);
  }

  /** Whether a text's values are exact, with no stand-in among them. */
  predicate ExactSource(source: Source, ctx: Context) {
    source.Formula? && Parsed(source).Success? ==> NoStandIn(Parsed(source).value, ctx)
  }

  /** So it is enough that no argument may be a stand-in. */
  lemma SourceFits(source: Source, ctx: Context, w: World, name: string, v: World)
    requires FaithfulSource(source, ctx, w) && ExactSource(source, ctx) && Allows(ctx, w)
    requires ActualSource(source, w) == Some(v.vars(name))
    ensures Fits(source, ctx, name, v)
  {
    if source.Formula? {
      Sound(Parsed(source).value, ctx, w);
    }
  }

  lemma RowName(row: M.Row, name: string)
    requires name in MatrixNames(row)
    ensures !(SHARED <= name)
  {
    var key :| key in row && name == MATRIX + key;
    assert name[0] == MATRIX[0] == 'm' && SHARED[0] == 'g';
  }

  /** A row of a matrix: the world of its job is allowed exactly when the row's values cover the values it has there,
      and so does whatever else the workflow's context holds. */
  lemma RowAllows(l: Library, ctx: Context, row: M.Row, w: World, v: World)
    requires Allows(ctx, w) && Entered(w, v)
    ensures Allows(WithRow(l, ctx, row), v) <==>
      && (forall name :: name in MatrixNames(row) ==> Exact(WithRow(l, ctx, row).vars[name], v.vars(name)))
      && (forall name :: name in ctx.vars && name !in MatrixNames(row) && !(SHARED <= name) ==>
            Exact(ctx.vars[name], v.vars(name)))
  {
    var more := WithRow(l, ctx, row);
    forall name | name in MatrixNames(row) ensures !(SHARED <= name) {
      RowName(row, name);
    }
    EnteredAllows(ctx, more, w, v);
  }

  /** The same for any job, with or without a matrix. */
  lemma JobAllows(l: Library, job: Job, ctx: Context, i: nat, c: Context, w: World, v: World)
    requires RowContext(l, job, ctx, i, c) && Allows(ctx, w) && Entered(w, v)
    ensures Allows(c, v) <==> Remains(c, v)
  {
    if HasRows(job) {
      var row := M.Rows(job.matrix.value)[i];
      forall name | IsCell(row, name) ensures !(SHARED <= name) {
        assert name in MatrixNames(row);
        RowName(row, name);
      }
    }
    EnteredAllows(ctx, c, w, v);
  }

  /** It is enough that the workflow's context covers the world, and each cell's values cover what the world has for
      it. */
  lemma RowFits(l: Library, job: Job, ctx: Context, i: nat, c: Context, w: World)
    requires RowContext(l, job, ctx, i, c) && Remains(ctx, w)
    requires HasRows(job) ==> var row := M.Rows(job.matrix.value)[i];
      forall key :: key in row ==> Fits(l.read(row[key]), ctx, "matrix." + key, w)
    ensures Remains(c, w)
  {
    if HasRows(job) {
      var row := M.Rows(job.matrix.value)[i];
      forall name | name in c.vars && !(SHARED <= name) ensures Exact(c.vars[name], w.vars(name)) {
        if IsCell(row, name) {
          var key :| key in row && name == "matrix." + key;
          assert Fits(l.read(row[key]), ctx, "matrix." + key, w);
        }
      }
    }
  }

  // ---- a call that passes too much -------------------------------------------------------

  /** `matrix.x || 'b'` */
  function MatrixOr(x: string, body: string): S.Expr {
    S.Binary(S.OrOp, S.Leaf(S.Word(MATRIX + x)), S.Leaf(S.Literal(body)))
  }

  lemma MatrixIsName(x: string)
    ensures Constant(S.Word(MATRIX + x)) == None
  {
    var text := MATRIX + x;
    assert text[0] == 'm' && "true"[0] == 't' && "false"[0] == 'f' && "null"[0] == 'n';
    assert DigitRun(text) == 0;
    assert NumberText(text, true) == None;
  }

  lemma {:induction false} MatrixPassed(ctx: Context, arguments: seq<Input>, name: string)
    requires name in ctx.vars && MATRIX <= name
    ensures name in Passed(ctx, arguments).vars && Passed(ctx, arguments).vars[name] == ctx.vars[name]
  {
    assert name[0] == MATRIX[0] != INPUTS[0];
    if arguments != [] {
      MatrixPassed(ctx, arguments[..|arguments| - 1], name);
      assert (INPUTS + arguments[|arguments| - 1].name)[0] == INPUTS[0];
    }
  }

  /** The matrix of a caller stays in the context of the called workflow. A job there, which has no matrix and asks for
      `matrix.x || 'b'`, gets `b`; its evaluation holds the caller's value only. */
  lemma MatrixLeaks(ctx: Context, arguments: seq<Input>, x: string, a: string, body: string, v: World)
    requires MATRIX + x in ctx.vars && ctx.vars[MATRIX + x] == {Known(Str(a))} && a != "" && a != Unquote(body)
    requires v.vars(MATRIX + x) == Null
    ensures ActualSource(Written(MatrixOr(x, body)), v) == Some(Str(Unquote(body)))
    ensures SourceValues(Written(MatrixOr(x, body)), Passed(ctx, arguments)) == {Known(Str(a))}
    ensures !Remains(WithoutInputs(ctx), v)
  {
    MatrixRemains(ctx, x, v);
    MatrixOrActual(x, body, v);
    MatrixOrPassed(ctx, arguments, x, a, body, v);
  }

  /** What is left of the caller's context holds its matrix values. */
  lemma MatrixRemains(ctx: Context, x: string, v: World)
    requires MATRIX + x in ctx.vars
    ensures Remains(WithoutInputs(ctx), v) ==> Exact(ctx.vars[MATRIX + x], v.vars(MATRIX + x))
  {
    var name := MATRIX + x;
    assert name[0] == MATRIX[0] == 'm' && INPUTS[0] == 'i' && SHARED[0] == 'g';
    assert name in WithoutInputs(ctx).vars;
  }

  lemma MatrixOrActual(x: string, body: string, v: World)
    requires v.vars(MATRIX + x) == Null
    ensures ActualSource(Written(MatrixOr(x, body)), v) == Some(Str(Unquote(body)))
  {
    MatrixIsName(x);
    MatrixOrSensible(x, body);
    WrittenActual(MatrixOr(x, body), v);
    NullOr(S.Word(MATRIX + x), S.Literal(body), v);
  }

  lemma NullOr(name: S.Token, text: S.Token, v: World)
    requires name.Word? && Constant(name).None? && v.vars(TokenText(name)) == Null && text.Literal?
    ensures Actual(S.Binary(S.OrOp, S.Leaf(name), S.Leaf(text)), v) == Some(Str(Unquote(text.body)))
  {
    assert Actual(S.Leaf(name), v) == Some(Null);
  }

  lemma MatrixOrSensible(x: string, body: string)
    ensures S.Sensible(MatrixOr(x, body))
  {
  }

  lemma MatrixOrPassed(ctx: Context, arguments: seq<Input>, x: string, a: string, body: string, v: World)
    requires MATRIX + x in ctx.vars && ctx.vars[MATRIX + x] == {Known(Str(a))} && a != ""
    ensures SourceValues(Written(MatrixOr(x, body)), Passed(ctx, arguments)) == {Known(Str(a))}
  {
    MatrixIsName(x);
    MatrixPassed(ctx, arguments, MATRIX + x);
    MatrixOrSensible(x, body);
    WrittenValues(MatrixOr(x, body), Passed(ctx, arguments), v);
    MatrixOrValues(S.Word(MATRIX + x), body, a, Passed(ctx, arguments));
  }

  lemma MatrixOrValues(name: S.Token, body: string, a: string, ctx: Context)
    requires name.Word? && Constant(name) == None && TokenText(name) in ctx.vars
      && ctx.vars[TokenText(name)] == {Known(Str(a))} && a != ""
    ensures Values(S.Binary(S.OrOp, S.Leaf(name), S.Leaf(S.Literal(body))), ctx) == {Known(Str(a))}
  {
    var left, right := Values(S.Leaf(name), ctx), Values(S.Leaf(S.Literal(body)), ctx);
    assert left == {Known(Str(a))} && right == {Known(Str(Unquote(body)))};
    assert Combine(S.OrOp, Known(Str(a)), Known(Str(Unquote(body)))) == {Known(Str(a))};
    CombineMember(S.OrOp, left, right, Known(Str(a)), Known(Str(Unquote(body))), Known(Str(a)));
  }

  // ---- a call that drops a job -----------------------------------------------------------

  /** `name && '0'`, for any literal in place of `'0'` */
  function AndZero(name: S.Token, zero: S.Token): S.Expr {
    S.Binary(S.AndOp, S.Leaf(name), S.Leaf(zero))
  }

  /** `inputs.x != '0'` */
  function UnlessZero(input: S.Token, zero: S.Token): S.Expr {
    S.Binary(S.NeOp, S.Leaf(input), S.Leaf(zero))
  }

  lemma InputIsName(x: string)
    ensures Constant(S.Word(INPUTS + x)) == None
  {
    var text := INPUTS + x;
    assert text[0] == 'i' && "true"[0] == 't' && "false"[0] == 'f' && "null"[0] == 'n';
    assert DigitRun(text) == 0;
    assert NumberText(text, true) == None;
  }

  /** With `x: ${{ name && '0' }}` a called job with `if: inputs.x != '0'` is dropped, although GitHub runs it whenever
      the name is empty: the stand-in becomes an input, and the input is compared with a zero text. */
  lemma CallDrops(name: S.Token, zero: S.Token, x: string, ctx: Context, w: World, v: World)
    requires name.Word? && Constant(name).None? && LeafValues(name, ctx) == {Unknown}
      && w.vars(TokenText(name)) == Str("")
    requires zero.Literal? && ZeroText(Str(Unquote(zero.body))) && v.vars(INPUTS + x) == Str("")
    ensures ActualSource(Written(AndZero(name, zero)), w) == Some(v.vars(INPUTS + x))
    ensures ActualSource(Written(UnlessZero(S.Word(INPUTS + x), zero)), v) == Some(Bool(true))
    ensures !Runnable(Some(Written(UnlessZero(S.Word(INPUTS + x), zero))),
                      Passed(ctx, [Input(x, Written(AndZero(name, zero)))]))
  {
    var input := S.Word(INPUTS + x);
    var z := Str(Unquote(zero.body));
    InputIsName(x);
    ArgumentIsEmpty(name, zero, z, ctx, w);
    ConditionHolds(input, zero, z, v);
    PossibleArgument(name, zero, z, x, ctx, w);
    ConditionFails(input, zero, z, Passed(ctx, [Input(x, Written(AndZero(name, zero)))]), v);
  }

  lemma BothSensible(name: S.Token, zero: S.Token)
    requires name.Word? && zero.Literal?
    ensures S.Sensible(AndZero(name, zero)) && S.Sensible(UnlessZero(name, zero))
  {
  }

  lemma WrittenActual(e: S.Expr, w: World)
    requires S.Sensible(e)
    ensures ActualSource(Written(e), w) == Actual(e, w)
  {
    PrintedRunsBack(e, {}, NOTHING, w);
  }

  lemma WrittenValues(e: S.Expr, ctx: Context, w: World)
    requires S.Sensible(e)
    ensures SourceValues(Written(e), ctx) == Values(e, ctx)
  {
    PrintedRunsBack(e, {}, ctx, w);
  }

  lemma ArgumentIsEmpty(name: S.Token, zero: S.Token, z: Scalar, ctx: Context, w: World)
    requires name.Word? && Constant(name).None? && zero.Literal? && Constant(zero) == Some(z)
    requires w.vars(TokenText(name)) == Str("")
    ensures ActualSource(Written(AndZero(name, zero)), w) == Some(Str(""))
  {
    BothSensible(name, zero);
    WrittenActual(AndZero(name, zero), w);
    assert Actual(S.Leaf(name), w) == Some(Str(""));
  }

  lemma ConditionHolds(input: S.Token, zero: S.Token, z: Scalar, v: World)
    requires input.Word? && Constant(input) == None && zero.Literal? && Constant(zero) == Some(z) && ZeroText(z)
    requires v.vars(TokenText(input)) == Str("")
    ensures ActualSource(Written(UnlessZero(input, zero)), v) == Some(Bool(true))
  {
    BothSensible(input, zero);
    WrittenActual(UnlessZero(input, zero), v);
    ComparedActually(input, zero, z, v);
  }

  lemma ComparedActually(input: S.Token, zero: S.Token, z: Scalar, v: World)
    requires Constant(input) == None && Constant(zero) == Some(z) && z.Str? && z.s != ""
      && v.vars(TokenText(input)) == Str("")
    ensures Actual(UnlessZero(input, zero), v) == Some(Bool(true))
  {
    assert Actual(S.Leaf(input), v) == Some(Str("")) && Actual(S.Leaf(zero), v) == Some(z);
    EmptyDiffers(z);
  }

  lemma EmptyDiffers(z: Scalar)
    requires z.Str? && z.s != ""
    ensures !LooselyEqual(Str(""), z)
  {
    assert |Lower("")| == 0 && |Lower(z.s)| > 0;
  }

  /** What is passed: the stand-in, and the zero text. */
  lemma PossibleArgument(name: S.Token, zero: S.Token, z: Scalar, x: string, ctx: Context, w: World)
    requires name.Word? && LeafValues(name, ctx) == {Unknown} && zero.Literal? && Constant(zero) == Some(z)
    ensures var called := Passed(ctx, [Input(x, Written(AndZero(name, zero)))]);
      INPUTS + x in called.vars && called.vars[INPUTS + x] == {Known(Bool(false)), Known(z)}
  {
    BothSensible(name, zero);
    WrittenValues(AndZero(name, zero), ctx, w);
    StandInAnd(name, zero, z, ctx);
    assert [Input(x, Written(AndZero(name, zero)))][..0] == [];
  }

  lemma ConditionFails(input: S.Token, zero: S.Token, z: Scalar, called: Context, v: World)
    requires input.Word? && Constant(input) == None && zero.Literal? && Constant(zero) == Some(z) && ZeroText(z)
    requires TokenText(input) in called.vars && called.vars[TokenText(input)] == {Known(Bool(false)), Known(z)}
    ensures !Runnable(Some(Written(UnlessZero(input, zero))), called)
  {
    BothSensible(input, zero);
    WrittenValues(UnlessZero(input, zero), called, v);
    assert Values(S.Leaf(input), called) == {Known(Bool(false)), Known(z)}
        && Values(S.Leaf(zero), called) == {Known(z)};
    NothingLeft(z);
    assert SourceValues(Written(UnlessZero(input, zero)), called) == {Known(Bool(false))};
  }

  /** No value left is true: `false` and the zero text both equal the zero text. */
  lemma NothingLeft(z: Scalar)
    requires ZeroText(z)
    ensures CombineAll(S.NeOp, {Known(Bool(false)), Known(z)}, {Known(z)}) == {Known(Bool(false))}
  {
    var left := {Known(Bool(false)), Known(z)};
    NeverUnequal(Known(Bool(false)), Known(z));
    NeverUnequal(Known(z), Known(z));
    CombineMember(S.NeOp, left, {Known(z)}, Known(z), Known(z), Known(Bool(false)));
  }

  lemma NeverUnequal(a: Value, b: Value)
    requires a.Known? && b.Known? && LooselyEqual(a.v, b.v)
    ensures Combine(S.NeOp, a, b) == {Known(Bool(false))}
  {
  }
}
