/** Pins of shared actions and workflows: the files they load, and the evidence a pin needs. */
module Pins {
  import opened Wrappers

  /** What is known of a commit: merged to main with these regular files, not merged, or not readable. */
  datatype Proof = Merged(files: set<string>) | Unmerged | Unread(error: string)

  datatype Pin = Pin(line: nat, path: string, sha: string, fullSha: bool, tracksMain: bool)

  /** A reference to the same repository that resolves at the running commit. */
  datatype Local = Local(line: nat, path: string)

  datatype Text = Text(pins: seq<Pin>, locals: seq<Local>)

  /** A file at a commit. */
  datatype Node = Node(commit: string, file: string)

  /** The shared source: its head, what is known of finitely many commits, and the text of every file. */
  datatype Source = Source(
    head: string, headIsFull: bool, proofs: map<string, Proof>, texts: Node -> Result<Text, string>)

  const UNKNOWN := "unknown commit"

  function Evidence(s: Source, commit: string): Proof {
    if commit in s.proofs then s.proofs[commit] else Unread(UNKNOWN)
  }

  function Files(s: Source, commit: string): set<string> {
    if Evidence(s, commit).Merged? then Evidence(s, commit).files else {}
  }

  const WORKFLOWS := ".github/workflows/"

  predicate EndsWith(text: string, suffix: string) {
    |suffix| <= |text| && text[|text| - |suffix|..] == suffix
  }

  predicate IsWorkflow(path: string) {
    WORKFLOWS <= path && (EndsWith(path, ".yml") || EndsWith(path, ".yaml"))
  }

  function Below(path: string, name: string): string {
    if path == "" then name else path + "/" + name
  }

  /** The files GitHub may load for a pinned path. */
  function TargetPaths(path: string): set<string> {
    if IsWorkflow(path) then {path} else {Below(path, "action.yml"), Below(path, "action.yaml")}
  }

  /** The file GitHub loads: `action.yml` before `action.yaml`. */
  function Target(path: string, files: set<string>): Option<string> {
    if IsWorkflow(path) then (if path in files then Some(path) else None)
    else if Below(path, "action.yml") in files then Some(Below(path, "action.yml"))
    else if Below(path, "action.yaml") in files then Some(Below(path, "action.yaml"))
    else None
  }

  /** Text order by code point. */
  predicate Before(a: string, b: string) {
    b != [] && (a == [] || a[0] < b[0] || (a[0] == b[0] && Before(a[1..], b[1..])))
  }

  predicate Least(texts: set<string>, a: string) {
    a in texts && forall b :: b in texts && b != a ==> Before(a, b)
  }

  lemma {:induction false} BelowOrder(path: string, a: string, b: string)
    ensures Before(path + a, path + b) <==> Before(a, b)
  {
    if path == [] {
      assert path + a == a && path + b == b;
    } else {
      BelowOrder(path[1..], a, b);
      assert (path + a)[1..] == path[1..] + a && (path + b)[1..] == path[1..] + b;
    }
  }

  lemma YamlFirst(path: string)
    ensures Before(Below(path, "action.yaml"), Below(path, "action.yml"))
    ensures !Before(Below(path, "action.yml"), Below(path, "action.yaml"))
  {
    assert Before("l", "aml") == false && Before("aml", "l");
    assert "action.yaml" == "action.y" + "aml" && "action.yml" == "action.y" + "ml";
    BelowOrder("action.y", "aml", "ml");
    BelowOrder("action.y", "ml", "aml");
    if path != "" {
      BelowOrder(path + "/", "action.yaml", "action.yml");
      BelowOrder(path + "/", "action.yml", "action.yaml");
    }
  }

  /** The choice both walks make among the targets that exist: `preferred`, or else the first in text order. */
  ghost predicate Picks(preferred: string, targets: set<string>, picked: string) {
    if preferred in targets then picked == preferred else Least(targets, picked)
  }

  /** The dependency walk loads what GitHub loads. */
  lemma DependencyPick(path: string, files: set<string>, picked: string)
    ensures Target(path, files).None? <==> TargetPaths(path) * files == {}
    ensures Picks(Below(path, "action.yml"), TargetPaths(path) * files, picked) <==> Target(path, files) == Some(picked)
  {
    PickedOne(path, files, Below(path, "action.yml"), picked);
  }

  /** The file the permission walk loads. It asks for the path with `/action.yml` appended even when the path
      is empty, so at a repository root it takes the first of the two names in text order. */
  function PermissionTarget(path: string, files: set<string>): Option<string> {
    if path == "" && "action.yaml" in files then Some("action.yaml") else Target(path, files)
  }

  lemma PermissionPick(path: string, files: set<string>, picked: string)
    ensures PermissionTarget(path, files).None? <==> TargetPaths(path) * files == {}
    ensures Target(path, files).Some? ==>
              (Picks(path + "/action.yml", TargetPaths(path) * files, picked) <==>
                  PermissionTarget(path, files) == Some(picked))
  {
    PickedOne(path, files, Below(path, "action.yml"), picked);
    if path != "" {
      assert path + "/action.yml" == path + "/" + "action.yml";
    } else if Target(path, files).Some? {
      RootPick(files, picked);
    }
  }

  /** The two walks load the same file, except at a repository root that has both. */
  lemma WalksAgree(path: string, files: set<string>)
    ensures PermissionTarget(path, files) == Target(path, files)
       <==> !(path == "" && "action.yml" in files && "action.yaml" in files)
  {
    assert "action.yml"[8] != "action.yaml"[8];
  }

  lemma RootPick(files: set<string>, picked: string)
    requires "action.yml" in files || "action.yaml" in files
    ensures Picks("/action.yml", {"action.yml", "action.yaml"} * files, picked) <==>
            picked == if "action.yaml" in files then "action.yaml" else "action.yml"
  {
    YamlFirst("");
    assert "/action.yml"[0] == '/' && "action.yml"[0] == 'a' && "action.yaml"[0] == 'a';
    FirstOfTwo("action.yml", "action.yaml", "/action.yml", files, picked);
  }

  lemma FirstOfTwo(later: string, first: string, preferred: string, files: set<string>, picked: string)
    requires preferred != later && preferred != first && Before(first, later) && !Before(later, first)
    requires first in files || later in files
    ensures Picks(preferred, {later, first} * files, picked) <==> picked == if first in files then first else later
  {
  }

  lemma PickedOne(path: string, files: set<string>, preferred: string, picked: string)
    requires preferred == Below(path, "action.yml")
    ensures Target(path, files).None? <==> TargetPaths(path) * files == {}
    ensures Picks(preferred, TargetPaths(path) * files, picked) <==> Target(path, files) == Some(picked)
  {
    var targets := TargetPaths(path) * files;
    YamlFirst(path);
    assert Target(path, files).Some? ==> Target(path, files).value in targets;
    assert Least(targets, picked) ==> picked in targets;
    if preferred !in targets && Target(path, files).Some? {
      assert targets == {Target(path, files).value};
    }
  }

  // ---- which file a path names -----------------------------------------------------------

  /** A reusable workflow: a file of the workflow directory, by its ending. */
  ghost predicate NamesWorkflow(path: string) {
    && (exists rest :: path == ".github/workflows/" + rest)
    && exists stem :: path == stem + ".yml" || path == stem + ".yaml"
  }

  lemma WorkflowExact(path: string)
    ensures IsWorkflow(path) <==> NamesWorkflow(path)
  {
    if IsWorkflow(path) {
      assert path == ".github/workflows/" + path[|WORKFLOWS|..];
      var stem := path[..|path| - (if EndsWith(path, ".yml") then 4 else 5)];
      assert path == stem + ".yml" || path == stem + ".yaml";
    }
    if rest, stem :| path == ".github/workflows/" + rest && (path == stem + ".yml" || path == stem + ".yaml") {
      assert path[..|WORKFLOWS|] == WORKFLOWS;
      assert path[|stem|..] == ".yml" || path[|stem|..] == ".yaml";
    }
  }

  /** GitHub may load this file for this path: a workflow itself, or the description of an action. */
  ghost predicate NamesFile(path: string, file: string) {
    if NamesWorkflow(path) then file == path
    else file == Inside(path, "action.yml") || file == Inside(path, "action.yaml")
  }

  ghost function Inside(directory: string, name: string): string {
    (if directory == "" then [] else directory + "/") + name
  }

  /** At this commit, which is merged, the path loads this file: `action.yml` where there is one. */
  ghost predicate LoadsFile(s: Source, commit: string, path: string, file: string) {
    && commit in s.proofs && s.proofs[commit].Merged? && file in s.proofs[commit].files && NamesFile(path, file)
    && (!NamesWorkflow(path) && Inside(path, "action.yml") in s.proofs[commit].files ==>
          file == Inside(path, "action.yml"))
  }

  ghost predicate LoadsSome(s: Source, commit: string, path: string) {
    exists file :: LoadsFile(s, commit, path, file)
  }

  lemma TargetMeans(s: Source, commit: string, path: string, file: string)
    ensures Target(path, Files(s, commit)) == Some(file) <==> LoadsFile(s, commit, path, file)
  {
    WorkflowExact(path);
    assert Below(path, "action.yml") == Inside(path, "action.yml");
    assert Below(path, "action.yaml") == Inside(path, "action.yaml");
  }

  lemma TargetSome(s: Source, commit: string, path: string)
    ensures Target(path, Files(s, commit)).Some? <==> LoadsSome(s, commit, path)
  {
    if Target(path, Files(s, commit)).Some? {
      TargetMeans(s, commit, path, Target(path, Files(s, commit)).value);
    }
    if file :| LoadsFile(s, commit, path, file) {
      TargetMeans(s, commit, path, file);
    }
  }

  lemma TargetsNone(path: string, files: set<string>)
    ensures TargetPaths(path) * files == {} <==> Target(path, files).None?
  {
    PickedOne(path, files, Below(path, "action.yml"), "");
  }

  // ---- validation of pins ----------------------------------------------------------------

  datatype Reason =
    | NotFullSha
    | NoMainMarker
    | NoProvenance(error: string)
    | NotOnMain
    | TargetAbsent

  datatype PinFault = PinFault(pin: Pin, reason: Reason)

  /** A pin that names a commit: a full object id, or the branch `main`. */
  predicate Names(pin: Pin) {
    pin.fullSha || pin.sha == "main"
  }

  function Commit(s: Source, pin: Pin): string {
    if pin.fullSha then pin.sha else s.head
  }

  /** A pin with a full id names that commit, and the branch `main` the head; any other names none. */
  ghost predicate PinsAt(s: Source, pin: Pin, commit: string) {
    (pin.fullSha && commit == pin.sha) || (!pin.fullSha && pin.sha == "main" && commit == s.head)
  }

  lemma CommitMeans(s: Source, pin: Pin, commit: string)
    ensures Names(pin) && commit == Commit(s, pin) <==> PinsAt(s, pin, commit)
  {
  }

  /** What a pin should be: a full id with its marker where that is asked for, or `main` where that is allowed; and at
      the commit it names, which is merged to main, there is the file it asks for. */
  ghost predicate Valid(s: Source, pin: Pin, marked: bool) {
    && s.headIsFull
    && if pin.fullSha then (marked ==> pin.tracksMain) && LoadsSome(s, pin.sha, pin.path)
       else !marked && pin.sha == "main" && LoadsSome(s, s.head, pin.path)
  }

  /** Why a pin is reported: its form, its missing marker, or what is known of the commit it names. */
  ghost predicate Faulty(s: Source, pin: Pin, marked: bool, reason: Reason) {
    var allowed := pin.fullSha || (!marked && pin.sha == "main");
    match reason
    case NotFullSha => !allowed
    case NoMainMarker => allowed && marked && !pin.tracksMain
    case _ => allowed && exists commit :: PinsAt(s, pin, commit) && FaultyAt(s, commit, pin.path, reason)
  }

  /** What is wrong with this path at this commit. */
  ghost predicate FaultyAt(s: Source, commit: string, path: string, reason: Reason) {
    if commit !in s.proofs then reason == NoProvenance(UNKNOWN)
    else if s.proofs[commit].Unread? then reason == NoProvenance(s.proofs[commit].error)
    else if !s.headIsFull then reason == NoProvenance(NO_EVIDENCE)
    else if s.proofs[commit].Unmerged? then reason == NotOnMain
    else reason == TargetAbsent && !LoadsSome(s, commit, path)
  }

  function MarkerFault(pin: Pin, marked: bool): Option<Reason> {
    if !pin.fullSha && !(!marked && pin.sha == "main") then Some(NotFullSha)
    else if marked && !pin.tracksMain then Some(NoMainMarker)
    else None
  }

  const NO_EVIDENCE := "main ancestry/target evidence is unavailable"

  function SourceFault(s: Source, pin: Pin, marked: bool): Option<Reason> {
    if !pin.fullSha && !(!marked && pin.sha == "main") then None
    else
      match Evidence(s, Commit(s, pin))
      case Unread(error) => Some(NoProvenance(error))
      case Unmerged => if s.headIsFull then Some(NotOnMain) else Some(NoProvenance(NO_EVIDENCE))
      case Merged(files) =>
        if !s.headIsFull then Some(NoProvenance(NO_EVIDENCE))
        else if TargetPaths(pin.path) * files == {} then Some(TargetAbsent)
        else None
  }

  /** The faults in report order: all about format first, then all about provenance. */
  function Faults(s: Source, pins: seq<Pin>, marked: bool): seq<PinFault> {
    MarkerFaults(pins, marked) + SourceFaults(s, pins, marked)
  }

  function MarkerFaults(pins: seq<Pin>, marked: bool): seq<PinFault> {
    if pins == [] then []
    else
      var last := pins[|pins| - 1];
      var fault := MarkerFault(last, marked);
      MarkerFaults(pins[..|pins| - 1], marked) + (if fault.Some? then [PinFault(last, fault.value)] else [])
  }

  function SourceFaults(s: Source, pins: seq<Pin>, marked: bool): seq<PinFault> {
    if pins == [] then []
    else
      var last := pins[|pins| - 1];
      var fault := SourceFault(s, last, marked);
      SourceFaults(s, pins[..|pins| - 1], marked) + (if fault.Some? then [PinFault(last, fault.value)] else [])
  }

  lemma PinClean(s: Source, pin: Pin, marked: bool)
    ensures Valid(s, pin, marked) <==> MarkerFault(pin, marked).None? && SourceFault(s, pin, marked).None?
  {
    TargetSome(s, Commit(s, pin), pin.path);
    TargetsNone(pin.path, Files(s, Commit(s, pin)));
  }

  /** A pin is reported for the reasons it is faulty for, and no others. */
  lemma PinFaults(s: Source, pin: Pin, marked: bool, reason: Reason)
    ensures MarkerFault(pin, marked) == Some(reason) || SourceFault(s, pin, marked) == Some(reason) <==>
            Faulty(s, pin, marked, reason)
  {
    var commit := Commit(s, pin);
    TargetSome(s, commit, pin.path);
    TargetsNone(pin.path, Files(s, commit));
    CommitMeans(s, pin, commit);
  }

  /** The report holds exactly the reasons of the pins. */
  lemma {:induction false} FaultsExact(s: Source, pins: seq<Pin>, marked: bool, f: PinFault)
    ensures f in Faults(s, pins, marked) <==> f.pin in pins && Faulty(s, f.pin, marked, f.reason)
  {
    if pins != [] {
      var rest, last := pins[..|pins| - 1], pins[|pins| - 1];
      FaultsExact(s, rest, marked, f);
      PinFaults(s, last, marked, f.reason);
      assert pins == rest + [last];
    }
  }

  /** Nothing is reported exactly when every pin is what it should be. */
  lemma {:induction false} CleanExact(s: Source, pins: seq<Pin>, marked: bool)
    ensures Faults(s, pins, marked) == [] <==> forall pin :: pin in pins ==> Valid(s, pin, marked)
  {
    if pins != [] {
      var rest, last := pins[..|pins| - 1], pins[|pins| - 1];
      CleanExact(s, rest, marked);
      PinClean(s, last, marked);
      assert pins == rest + [last];
      assert Faults(s, pins, marked) == [] <==> Faults(s, rest, marked) == [] && Valid(s, last, marked);
    }
  }

  method ValidatePins(s: Source, pins: seq<Pin>, marked: bool) returns (faults: seq<PinFault>)
    ensures faults == Faults(s, pins, marked)
    ensures faults == [] <==> forall pin :: pin in pins ==> Valid(s, pin, marked)
    ensures forall f :: f in faults <==> f.pin in pins && Faulty(s, f.pin, marked, f.reason)
  {
    faults := [];
    for i := 0 to |pins|
      invariant faults == MarkerFaults(pins[..i], marked)
    {
      assert pins[..i + 1][..i] == pins[..i];
      var fault := MarkerFault(pins[i], marked);
      if fault.Some? {
        faults := faults + [PinFault(pins[i], fault.value)];
      }
    }
    assert pins[..|pins|] == pins;
    for i := 0 to |pins|
      invariant faults == MarkerFaults(pins, marked) + SourceFaults(s, pins[..i], marked)
    {
      assert pins[..i + 1][..i] == pins[..i];
      var fault := SourceFault(s, pins[i], marked);
      if fault.Some? {
        faults := faults + [PinFault(pins[i], fault.value)];
      }
    }
    CleanExact(s, pins, marked);
    forall f ensures f in faults <==> f.pin in pins && Faulty(s, f.pin, marked, f.reason) {
      FaultsExact(s, pins, marked, f);
    }
  }
}
