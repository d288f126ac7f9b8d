/** The walk over call paths that carries the grant down from caller jobs to the actions they reach. */
module Permissions {
  import opened Wrappers
  import opened Pins

  /** A pull-requests grant: none, read or write. */
  type Grant = g: nat | g <= 2

  const READ: Grant := 1

  /** A `uses` value: a reference to the shared source, cut into its parts, or any other text. */
  datatype Use =
    | Shared(sha: string, fullSha: bool, path: string)
    | Value(text: string)

  datatype Job = Job(grant: Option<Grant>, line: nat, uses: seq<Use>)

  /** What is read of a file: as a workflow its default grant and jobs, as an action whether it runs the
      contribution check and what it uses. */
  datatype Content = Content(grant: Option<Grant>, jobs: seq<Job>, checks: bool, uses: seq<Use>)

  /** A file of the caller, or of the shared source at a commit. */
  datatype Place = Place(origin: Option<string>, file: string)

  datatype World = World(source: Source, files: map<string, Content>, shared: Node -> Content, roots: seq<string>)

  const MARK := "/workflows/"

  predicate Contains(text: string, part: string) {
    exists i :: 0 <= i <= |text| - |part| && text[i..][..|part|] == part
  }

  predicate Workflow(place: Place) {
    Contains(place.file, MARK)
  }

  /** The callers' files that start a walk are workflows. */
  ghost predicate ValidWorld(w: World) {
    forall name :: name in w.roots ==> name in w.files && WORKFLOWS <= name
  }

  function Read(w: World, place: Place): Content {
    match place.origin
    case Some(commit) => w.shared(Node(commit, place.file))
    case None => if place.file in w.files then w.files[place.file] else Content(None, [], false, [])
  }

  /** The file a `uses` value loads. */
  function Resolve(w: World, use: Use, origin: Option<string>): Option<Place> {
    match use
    case Shared(sha, fullSha, path) =>
      if fullSha then Found(w, Some(sha), path)
      else if sha == "main" then Found(w, Some(w.source.head), path)
      else None
    case Value(text) =>
      if OWN <= text || OWN_WORKFLOW <= text then Found(w, origin, text[2..])
      else if WORKSPACE <= text then Found(w, None, text[2..])
      else None
  }

  const OWN := "$/"
  const OWN_WORKFLOW := "./.github/workflows/"
  const WORKSPACE := "./"

  function Found(w: World, origin: Option<string>, path: string): Option<Place> {
    var files := if origin.Some? then Files(w.source, origin.value) else w.files.Keys;
    match PermissionTarget(path, files)
    case Some(file) => Some(Place(origin, file))
    case None => None
  }

  /** A part of a file with its own references: a job of a workflow, or the whole of an action. */
  datatype Part = Part(grant: Option<Grant>, line: nat, uses: seq<Use>)

  function JobPart(w: World, place: Place, job: Job): Part {
    Part(if job.grant.Some? then job.grant else Read(w, place).grant, job.line, job.uses)
  }

  function Parts(w: World, place: Place): (parts: seq<Part>)
    ensures !Workflow(place) ==> |parts| == 1
  {
    var content := Read(w, place);
    if Workflow(place) then
      seq(|content.jobs|, i requires 0 <= i < |content.jobs| => JobPart(w, place, content.jobs[i]))
    else [Part(None, 0, content.uses)]
  }

  // ---- what a reference loads, and what a job is granted --------------------------------

  /** What a place holds: a file of the shared source at a commit, or one of the caller. */
  ghost predicate Holds(w: World, place: Place, content: Content) {
    match place.origin
    case Some(commit) => content == w.shared(Node(commit, place.file))
    case None => place.file in w.files && content == w.files[place.file]
  }

  /** Among these files the path loads this one: of two descriptions `action.yml`, but `action.yaml` at a root. */
  ghost predicate LoadsAmong(path: string, files: set<string>, file: string) {
    && file in files && NamesFile(path, file)
    && (path == "" && "action.yaml" in files ==> file == "action.yaml")
    && (path != "" && !NamesWorkflow(path) && path + "/action.yml" in files ==> file == path + "/action.yml")
  }

  /** The files of the caller, or those of a merged commit. */
  ghost predicate HasFile(w: World, origin: Option<string>, path: string, file: string) {
    match origin
    case None => LoadsAmong(path, w.files.Keys, file)
    case Some(commit) =>
      && commit in w.source.proofs && w.source.proofs[commit].Merged?
      && LoadsAmong(path, w.source.proofs[commit].files, file)
  }

  /** A reference in a file of this origin loads this place: a shared one at the commit it names or at the head, `$/…`
      and a local workflow at the origin itself, any other `./…` in the caller's own files. */
  ghost predicate Loads(w: World, use: Use, origin: Option<string>, place: Place) {
    match use
    case Shared(sha, fullSha, path) =>
      && place.origin == Some(if fullSha then sha else w.source.head) && (fullSha || sha == "main")
      && HasFile(w, place.origin, path, place.file)
    case Value(text) =>
      exists path :: Points(text, origin, place.origin, path) && HasFile(w, place.origin, path, place.file)
  }

  ghost predicate Points(text: string, origin: Option<string>, target: Option<string>, path: string) {
    || (text == "$/" + path && target == origin)
    || (text == "./" + path && target == if ".github/workflows/" <= path then origin else None)
  }

  lemma AmongMeans(path: string, files: set<string>, file: string)
    ensures PermissionTarget(path, files) == Some(file) <==> LoadsAmong(path, files, file)
  {
    WorkflowExact(path);
    assert path != "" ==> Below(path, "action.yml") == Inside(path, "action.yml") == path + "/action.yml";
    assert path != "" ==> Below(path, "action.yaml") == Inside(path, "action.yaml");
    assert path == "" ==> Inside(path, "action.yml") == "action.yml" && Inside(path, "action.yaml") == "action.yaml";
  }

  lemma FoundMeans(w: World, origin: Option<string>, path: string, place: Place)
    ensures Found(w, origin, path) == Some(place) <==> place.origin == origin && HasFile(w, origin, path, place.file)
  {
    var files := if origin.Some? then Files(w.source, origin.value) else w.files.Keys;
    AmongMeans(path, files, place.file);
  }

  lemma ResolveMeans(w: World, use: Use, origin: Option<string>, place: Place)
    ensures Resolve(w, use, origin) == Some(place) <==> Loads(w, use, origin, place)
  {
    match use
    case Shared(sha, fullSha, path) => FoundMeans(w, Some(if fullSha then sha else w.source.head), path, place);
    case Value(text) => ValueMeans(w, text, origin, place);
  }

  lemma ValueMeans(w: World, text: string, origin: Option<string>, place: Place)
    ensures Resolve(w, Value(text), origin) == Some(place) <==> Loads(w, Value(text), origin, place)
  {
    if |text| >= 2 {
      FoundMeans(w, origin, text[2..], place);
      FoundMeans(w, None, text[2..], place);
      PrefixMeans(text);
    }
    forall path, target | Points(text, origin, target, path) ensures |text| >= 2 && path == text[2..] {
    }
  }

  lemma PrefixMeans(text: string)
    requires |text| >= 2
    ensures OWN <= text <==> text == "$/" + text[2..]
    ensures WORKSPACE <= text <==> text == "./" + text[2..]
    ensures OWN_WORKFLOW <= text <==> text == "./" + text[2..] && ".github/workflows/" <= text[2..]
  {
    assert OWN_WORKFLOW == "./" + ".github/workflows/";
    if OWN_WORKFLOW <= text {
      assert text[..20] == OWN_WORKFLOW && text[2..][..18] == text[2..20];
    }
    if text == "./" + text[2..] && ".github/workflows/" <= text[2..] {
      assert text[..20] == "./" + text[2..][..18];
    }
  }

  /** A workflow, by where it lies. */
  ghost predicate LiesInWorkflows(file: string) {
    exists before, after :: file == before + "/workflows/" + after
  }

  lemma WorkflowMeans(place: Place)
    ensures Workflow(place) <==> LiesInWorkflows(place.file)
  {
    var file := place.file;
    if i :| 0 <= i <= |file| - |MARK| && file[i..][..|MARK|] == MARK {
      assert file == file[..i] + "/workflows/" + file[i..][|MARK|..];
    }
    if before, after :| file == before + "/workflows/" + after {
      assert file[|before|..][..|MARK|] == MARK;
    }
  }

  // ---- call paths ------------------------------------------------------------------------

  /** One step of a call path: a job of a workflow, or the whole of an action, that refers to the next file. */
  datatype Hop = Hop(place: Place, part: nat)

  predicate IsHop(w: World, hop: Hop) {
    hop.part < |Parts(w, hop.place)|
  }

  function PartOf(w: World, hop: Hop): Part
    requires IsHop(w, hop)
  {
    Parts(w, hop.place)[hop.part]
  }

  /** This part of what the place holds refers to that file. */
  ghost predicate Refers(w: World, hop: Hop, place: Place) {
    exists content, use :: Holds(w, hop.place, content) && Uses(content, hop, use)
                           && Loads(w, use, hop.place.origin, place)
  }

  ghost predicate Uses(content: Content, hop: Hop, use: Use) {
    if LiesInWorkflows(hop.place.file) then hop.part < |content.jobs| && use in content.jobs[hop.part].uses
    else hop.part == 0 && use in content.uses
  }

  /** A call path from a job of one of the caller's workflows to this file. */
  ghost predicate CallPath(w: World, hops: seq<Hop>, place: Place) {
    && |hops| > 0 && hops[0].place.origin.None? && hops[0].place.file in w.roots
    && (forall i :: 0 <= i < |hops| - 1 ==> Refers(w, hops[i], hops[i + 1].place))
    && Refers(w, hops[|hops| - 1], place)
  }

  /** The grant that holds for this part: that of the job where it has one, or else that of its workflow. */
  ghost predicate Granted(w: World, hop: Hop, grant: Option<Grant>) {
    if LiesInWorkflows(hop.place.file) then
      exists content :: Holds(w, hop.place, content) && hop.part < |content.jobs|
        && grant == if content.jobs[hop.part].grant.Some? then content.jobs[hop.part].grant else content.grant
    else grant == None
  }

  /** Some job on the path has no grant: the first one by default, a later one explicitly. */
  ghost predicate Starved(w: World, hops: seq<Hop>) {
    exists i :: 0 <= i < |hops| && Denies(w, hops[i], i == 0)
  }

  ghost predicate Denies(w: World, hop: Hop, first: bool) {
    Granted(w, hop, Some(0)) || (first && Granted(w, hop, None))
  }

  /** The caller job a path starts in, by file and line. */
  datatype Location = Location(file: string, line: nat)

  ghost predicate StartsAt(w: World, hops: seq<Hop>, location: Location) {
    && |hops| > 0 && hops[0].place.file in w.files && location.file == hops[0].place.file
    && hops[0].part < |w.files[location.file].jobs| && location.line == w.files[location.file].jobs[hops[0].part].line
  }

  // ---- the same over parts ---------------------------------------------------------------

  lemma ReadMeans(w: World, place: Place)
    requires place.origin.None? ==> place.file in w.files
    ensures forall content :: Holds(w, place, content) <==> content == Read(w, place)
  {
  }

  predicate RefersByPart(w: World, hop: Hop, place: Place) {
    IsHop(w, hop) && exists use :: use in PartOf(w, hop).uses && Resolve(w, use, hop.place.origin) == Some(place)
  }

  lemma RefersMeans(w: World, hop: Hop, place: Place)
    ensures RefersByPart(w, hop, place) <==> Refers(w, hop, place)
  {
    WorkflowMeans(hop.place);
    if RefersByPart(w, hop, place) {
      var use :| use in PartOf(w, hop).uses && Resolve(w, use, hop.place.origin) == Some(place);
      ResolveMeans(w, use, hop.place.origin, place);
      assert hop.place.origin.None? ==> hop.place.file in w.files;
      assert Holds(w, hop.place, Read(w, hop.place)) && Uses(Read(w, hop.place), hop, use);
    }
    if content, use :| Holds(w, hop.place, content) && Uses(content, hop, use)
                       && Loads(w, use, hop.place.origin, place) {
      ResolveMeans(w, use, hop.place.origin, place);
      assert content == Read(w, hop.place);
      assert use in PartOf(w, hop).uses;
    }
  }

  lemma GrantMeans(w: World, hop: Hop, grant: Option<Grant>)
    requires IsHop(w, hop) && (hop.place.origin.None? ==> hop.place.file in w.files)
    ensures Granted(w, hop, grant) <==> grant == PartOf(w, hop).grant
  {
    WorkflowMeans(hop.place);
    ReadMeans(w, hop.place);
    assert Holds(w, hop.place, Read(w, hop.place));
  }

  lemma RefersHolds(w: World, hop: Hop, place: Place)
    requires Refers(w, hop, place)
    ensures IsHop(w, hop) && (hop.place.origin.None? ==> hop.place.file in w.files)
  {
    RefersMeans(w, hop, place);
  }

  // ---- visits ----------------------------------------------------------------------------

  datatype Visit = Visit(place: Place, ceiling: Option<Grant>, location: Option<Location>)

  function Lower(ceiling: Option<Grant>, grant: Option<Grant>): Grant {
    if ceiling.None? then (if grant.Some? then grant.value else 0)
    else if grant.None? then ceiling.value
    else if grant.value < ceiling.value then grant.value
    else ceiling.value
  }

  function CallerOf(v: Visit, part: Part): Location {
    if v.location.Some? then v.location.value else Location(v.place.file, part.line)
  }

  /** The visit a reference of this part leads to. */
  function Onward(v: Visit, part: Part, place: Place): Visit {
    Visit(place, Some(Lower(v.ceiling, part.grant)), Some(CallerOf(v, part)))
  }

  ghost predicate Next(w: World, u: Visit, v: Visit) {
    exists k :: NextBy(w, u, k, v)
  }

  ghost predicate NextBy(w: World, u: Visit, k: nat, v: Visit) {
    RefersByPart(w, Hop(u.place, k), v.place) && v == Onward(u, Parts(w, u.place)[k], v.place)
  }

  ghost predicate RootVisit(w: World, v: Visit) {
    v.place.origin.None? && v.place.file in w.roots && v.ceiling.None? && v.location.None?
  }

  /** These hops lead from a root to this visit. */
  ghost predicate Leads(w: World, hops: seq<Hop>, v: Visit)
    decreases |hops|
  {
    if hops == [] then RootVisit(w, v)
    else
      var last := hops[|hops| - 1];
      exists u :: Leads(w, hops[..|hops| - 1], u) && u.place == last.place && NextBy(w, u, last.part, v)
  }

  /** What a visit carries is what its call path says: it is a path, the ceiling is none exactly when the path
      is starved, and the location is where the path starts. */
  lemma {:induction false} LeadsExact(w: World, hops: seq<Hop>, v: Visit)
    requires ValidWorld(w) && Leads(w, hops, v) && hops != []
    ensures CallPath(w, hops, v.place)
    ensures v.ceiling.Some? && (v.ceiling.value == 0 <==> Starved(w, hops))
    ensures v.location.Some? && StartsAt(w, hops, v.location.value)
  {
    var n := |hops| - 1;
    var before, last := hops[..n], hops[n];
    var u :| Leads(w, before, u) && u.place == last.place && NextBy(w, u, last.part, v);
    assert hops == before + [last];
    assert last == Hop(u.place, last.part);
    RefersMeans(w, last, v.place);
    RefersHolds(w, last, v.place);
    if before != [] {
      LeadsExact(w, before, u);
      Extended(w, before, last, v.place);
      StarvedGrows(w, before, last, u, v);
    } else {
      FirstHop(w, u, last, v);
    }
  }

  lemma DeniesMeans(w: World, hop: Hop, first: bool)
    requires IsHop(w, hop) && (hop.place.origin.None? ==> hop.place.file in w.files)
    ensures Denies(w, hop, first) <==> PartOf(w, hop).grant == Some(0) || (first && PartOf(w, hop).grant == None)
  {
    GrantMeans(w, hop, Some(0));
    GrantMeans(w, hop, None);
  }

  lemma FirstHop(w: World, u: Visit, hop: Hop, v: Visit)
    requires ValidWorld(w) && RootVisit(w, u) && hop == Hop(u.place, hop.part) && NextBy(w, u, hop.part, v)
    requires Refers(w, hop, v.place) && IsHop(w, hop)
    ensures CallPath(w, [hop], v.place)
    ensures v.ceiling.Some? && (v.ceiling.value == 0 <==> Starved(w, [hop]))
    ensures v.location.Some? && StartsAt(w, [hop], v.location.value)
  {
    DeniesMeans(w, hop, true);
    assert Starved(w, [hop]) <==> Denies(w, [hop][0], true);
    InWorkflows(w, hop.place);
    WorkflowMeans(hop.place);
  }

  lemma InWorkflows(w: World, place: Place)
    requires ValidWorld(w) && place.file in w.roots
    ensures LiesInWorkflows(place.file) && place.file in w.files
  {
    var after := place.file[|WORKFLOWS|..];
    assert place.file == ".github" + "/workflows/" + after;
  }

  lemma Extended(w: World, hops: seq<Hop>, last: Hop, place: Place)
    requires CallPath(w, hops, last.place) && Refers(w, last, place)
    ensures CallPath(w, hops + [last], place)
  {
    var more := hops + [last];
    forall i | 0 <= i < |more| - 1 ensures Refers(w, more[i], more[i + 1].place) {
      if i < |hops| - 1 {
        assert Refers(w, hops[i], hops[i + 1].place);
      }
    }
  }

  lemma StarvedGrows(w: World, hops: seq<Hop>, last: Hop, u: Visit, v: Visit)
    requires hops != [] && IsHop(w, last) && (last.place.origin.None? ==> last.place.file in w.files)
    requires u.ceiling.Some? && (u.ceiling.value == 0 <==> Starved(w, hops)) && last == Hop(u.place, last.part)
    requires u.location.Some? && StartsAt(w, hops, u.location.value) && NextBy(w, u, last.part, v)
    ensures v.ceiling.Some? && (v.ceiling.value == 0 <==> Starved(w, hops + [last]))
    ensures v.location.Some? && StartsAt(w, hops + [last], v.location.value)
  {
    var more := hops + [last];
    DeniesMeans(w, last, false);
    if i :| 0 <= i < |hops| && Denies(w, hops[i], i == 0) {
      assert Denies(w, more[i], i == 0);
    }
    if i :| 0 <= i < |more| && Denies(w, more[i], i == 0) {
      assert i < |hops| ==> Denies(w, hops[i], i == 0);
    }
    if Denies(w, last, false) {
      assert Denies(w, more[|hops|], |hops| == 0);
    }
  }

  /** Every call path is walked. */
  lemma {:induction false} PathLeads(w: World, hops: seq<Hop>, place: Place) returns (v: Visit)
    requires CallPath(w, hops, place)
    ensures Leads(w, hops, v) && v.place == place
  {
    var n := |hops| - 1;
    var u;
    if n == 0 {
      u := Visit(hops[0].place, None, None);
    } else {
      Shorter(w, hops, place);
      u := PathLeads(w, hops[..n], hops[n].place);
    }
    v := HopLeads(w, u, hops[n], place);
    assert Leads(w, hops[..n], u) && u.place == hops[n].place;
  }

  lemma Shorter(w: World, hops: seq<Hop>, place: Place)
    requires CallPath(w, hops, place) && |hops| > 1
    ensures CallPath(w, hops[..|hops| - 1], hops[|hops| - 1].place)
  {
    var n := |hops| - 1;
    assert Refers(w, hops[n - 1], hops[n - 1 + 1].place);
  }

  lemma HopLeads(w: World, u: Visit, hop: Hop, place: Place) returns (v: Visit)
    requires Refers(w, hop, place) && hop.place == u.place
    ensures NextBy(w, u, hop.part, v) && v.place == place
  {
    assert hop == Hop(u.place, hop.part);
    RefersMeans(w, hop, place);
    v := Onward(u, PartOf(w, hop), place);
  }

  /** The carried ceiling never rises. */
  lemma CeilingFalls(w: World, u: Visit, v: Visit)
    requires Next(w, u, v)
    ensures v.ceiling.Some? && (u.ceiling.Some? ==> v.ceiling.value <= u.ceiling.value)
    ensures u.location.Some? ==> v.location == u.location
  {
  }
}
