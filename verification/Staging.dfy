/**
 Staging of the runtime image as a machine of single file operations, with a crash possible between
 any two.  A marker file says that extraction was complete; old data directories are cleaned up at
 the end of a stage.
 */
module Staging {
  import opened Wrappers

  datatype Part = Bin | Charts

  /** A file under extraction is present but not complete. */
  datatype Dir = Dir(bin: Option<map<string, bool>>, charts: Option<map<string, bool>>, marker: bool)

  /** The files the image of a digest holds. */
  datatype Content = Content(bin: set<string>, charts: set<string>)

  /**
   How a directory tree goes away: at once, entry by entry with the marker before any content, or
   entry by entry in whatever order the file system lists them.
   */
  datatype Removal = Atomic | MarkerFirst | AnyOrder

  datatype World = World(image: string -> Content, removal: Removal)

  datatype Stage =
    | Idle
    | Extracting(digest: string)
    | Extracted(digest: string)
    | Staged(digest: string)
    | Unlinked(digest: string)
    | Cleaning(digest: string)
    | Deleting(digest: string, victim: string)

  datatype State = State(dirs: map<string, Dir>, link: Option<string>, stage: Stage)

  /** Crash also stands for a stage that gives up with an error. */
  datatype Event =
    | Begin(digest: string)
    | MakeDir(part: Part)
    | OpenFile(part: Part, file: string)
    | CloseFile(part: Part, file: string)
    | ExtractDone
    | WriteMarker
    | RemoveLink
    | MakeLink
    | RemoveDir(victim: string)
    | Unlink(part: Part, file: string)
    | RemovePart(part: Part)
    | UnlinkMarker
    | RemoveEmpty
    | Finish
    | Crash

  const NO_DIR := Dir(None, None, false)

  function DirOf(s: State, digest: string): Dir {
    if digest in s.dirs then s.dirs[digest] else NO_DIR
  }

  function PartOf(d: Dir, part: Part): Option<map<string, bool>> {
    if part.Bin? then d.bin else d.charts
  }

  function WithPart(d: Dir, part: Part, files: map<string, bool>): Dir {
    if part.Bin? then d.(bin := Some(files)) else d.(charts := Some(files))
  }

  predicate Holds(part: Option<map<string, bool>>, files: set<string>) {
    part.Some? && forall f :: f in files ==> f in part.value && part.value[f]
  }

  predicate Complete(w: World, digest: string, d: Dir) {
    Holds(d.bin, w.image(digest).bin) && Holds(d.charts, w.image(digest).charts)
  }

  /** The test that makes Stage skip extraction. */
  predicate LooksStaged(d: Dir) {
    d.bin.Some? && d.charts.Some? && d.marker
  }

  ghost predicate Next(w: World, s: State, e: Event, s': State) {
    match e
    case Begin(digest) =>
      s.stage.Idle?
      && s' == s.(stage := if LooksStaged(DirOf(s, digest)) then Staged(digest) else Extracting(digest))
    case MakeDir(part) =>
      s.stage.Extracting?
      && var d := DirOf(s, s.stage.digest);
      s' == if PartOf(d, part).Some? then s else s.(dirs := s.dirs[s.stage.digest := WithPart(d, part, map[])])
    case OpenFile(part, file) =>
      s.stage.Extracting?
      && var d := DirOf(s, s.stage.digest);
      PartOf(d, part).Some? && s' == s.(dirs := s.dirs[s.stage.digest := WithPart(d, part, PartOf(d, part).value[file := false])])
    case CloseFile(part, file) =>
      s.stage.Extracting?
      && var d := DirOf(s, s.stage.digest);
      PartOf(d, part).Some? && s' == s.(dirs := s.dirs[s.stage.digest := WithPart(d, part, PartOf(d, part).value[file := true])])
    case ExtractDone =>
      s.stage.Extracting? && Complete(w, s.stage.digest, DirOf(s, s.stage.digest)) && s' == s.(stage := Extracted(s.stage.digest))
    case WriteMarker =>
      s.stage.Extracted?
      && s' == s.(dirs := s.dirs[s.stage.digest := DirOf(s, s.stage.digest).(marker := true)], stage := Staged(s.stage.digest))
    case RemoveLink => s.stage.Staged? && s' == s.(link := None, stage := Unlinked(s.stage.digest))
    case MakeLink => s.stage.Unlinked? && s' == s.(link := Some(s.stage.digest), stage := Cleaning(s.stage.digest))
    case RemoveDir(victim) =>
      s.stage.Cleaning? && victim != s.stage.digest
      && s' == if w.removal.Atomic? then s.(dirs := s.dirs - {victim}) else s.(stage := Deleting(s.stage.digest, victim))
    case Unlink(part, file) =>
      s.stage.Deleting?
      && var d := DirOf(s, s.stage.victim);
      (w.removal.MarkerFirst? ==> !d.marker) && PartOf(d, part).Some?
      && s' == s.(dirs := s.dirs[s.stage.victim := WithPart(d, part, PartOf(d, part).value - {file})])
    case RemovePart(part) =>
      s.stage.Deleting?
      && var d := DirOf(s, s.stage.victim);
      (w.removal.MarkerFirst? ==> !d.marker) && PartOf(d, part) == Some(map[])
      && s' == s.(dirs := s.dirs[s.stage.victim := if part.Bin? then d.(bin := None) else d.(charts := None)])
    case UnlinkMarker =>
      s.stage.Deleting? && s' == s.(dirs := s.dirs[s.stage.victim := DirOf(s, s.stage.victim).(marker := false)])
    case RemoveEmpty =>
      s.stage.Deleting? && DirOf(s, s.stage.victim) == NO_DIR
      && s' == s.(dirs := s.dirs - {s.stage.victim}, stage := Cleaning(s.stage.digest))
    case Finish => s.stage.Cleaning? && s' == s.(stage := Idle)
    case Crash => s' == s.(stage := Idle)
  }

  ghost predicate IsRun(w: World, states: seq<State>, events: seq<Event>) {
    |states| == |events| + 1
    && forall i :: 0 <= i < |events| ==> Next(w, states[i], events[i], states[i + 1])
  }

  ghost predicate Init(s: State) {
    s == State(map[], None, Idle)
  }

  /** The promise: a marker stands only in a directory with the whole content of its image. */
  ghost predicate MarkerMeansComplete(w: World, s: State) {
    forall digest :: digest in s.dirs && s.dirs[digest].marker ==> Complete(w, digest, s.dirs[digest])
  }

  /** The bin link points at complete content. */
  ghost predicate LinkIsComplete(w: World, s: State) {
    s.link.Some? ==> s.link.value in s.dirs && s.dirs[s.link.value].marker && Complete(w, s.link.value, s.dirs[s.link.value])
  }

  /** Except in the directory being deleted, a marker means complete content. */
  ghost predicate CompleteOutsideDeletion(w: World, s: State) {
    forall digest :: digest in s.dirs && s.dirs[digest].marker && !(s.stage.Deleting? && s.stage.victim == digest)
                     ==> Complete(w, digest, s.dirs[digest])
  }

  ghost predicate InvOutsideDeletion(w: World, s: State) {
    && CompleteOutsideDeletion(w, s) && LinkIsComplete(w, s)
    && (s.stage.Extracting? || s.stage.Extracted? ==> !DirOf(s, s.stage.digest).marker)
    && (s.stage.Extracted? ==> Complete(w, s.stage.digest, DirOf(s, s.stage.digest)))
    && (s.stage.Staged? || s.stage.Unlinked? ==> s.stage.digest in s.dirs && s.dirs[s.stage.digest].marker)
    && (s.stage.Cleaning? || s.stage.Deleting? ==> s.link == Some(s.stage.digest))
    && (s.stage.Deleting? ==> s.stage.victim != s.stage.digest)
  }

  ghost predicate Inv(w: World, s: State) {
    InvOutsideDeletion(w, s) && MarkerMeansComplete(w, s) && (s.stage.Deleting? ==> !w.removal.Atomic?)
  }

  lemma StepKeepsInv(w: World, s: State, e: Event, s': State)
    requires !w.removal.AnyOrder? && Inv(w, s) && Next(w, s, e, s')
    ensures Inv(w, s')
  {
  }

  lemma {:induction false} RunKeepsInv(w: World, states: seq<State>, events: seq<Event>, i: nat)
    requires !w.removal.AnyOrder? && IsRun(w, states, events) && Init(states[0]) && i < |states|
    ensures Inv(w, states[i])
  {
    if i > 0 {
      RunKeepsInv(w, states, events, i - 1);
      StepKeepsInv(w, states[i - 1], events[i - 1], states[i]);
    }
  }

  /** Over any run of stages with crashes: extraction is skipped only for complete content, and the link never dangles. */
  lemma SkipsOnlyComplete(w: World, states: seq<State>, events: seq<Event>, i: nat, digest: string)
    requires !w.removal.AnyOrder? && IsRun(w, states, events) && Init(states[0]) && i < |states|
    ensures LooksStaged(DirOf(states[i], digest)) ==> Complete(w, digest, states[i].dirs[digest])
    ensures LinkIsComplete(w, states[i])
  {
    RunKeepsInv(w, states, events, i);
  }

  // ---------------------------------------------------------------------------------------------
  // The order of removal is what it hangs on.

  ghost predicate Reaches(w: World, s: State, s': State) {
    exists states, events :: IsRun(w, states, events) && states[0] == s && states[|events|] == s'
  }

  lemma ReachesSelf(w: World, s: State)
    ensures Reaches(w, s, s)
  {
    assert IsRun(w, [s], []);
  }

  lemma ReachesNext(w: World, s: State, s': State, e: Event, s'': State)
    requires Reaches(w, s, s') && Next(w, s', e, s'')
    ensures Reaches(w, s, s'')
  {
    var states, events :| IsRun(w, states, events) && states[0] == s && states[|events|] == s';
    var states', events' := states + [s''], events + [e];
    forall i | 0 <= i < |events'| ensures Next(w, states'[i], events'[i], states'[i + 1]) {
      if i < |events| {
        assert Next(w, states[i], events[i], states[i + 1]);
      }
    }
    assert IsRun(w, states', events') && states'[0] == s && states'[|events'|] == s'';
  }

  ghost predicate CrashSafe(removal: Removal) {
    forall image, s, s' :: Init(s) && Reaches(World(image, removal), s, s') ==> MarkerMeansComplete(World(image, removal), s')
  }

  function OneFile(digest: string): Content {
    if digest == "v1" then Content({"kubelet"}, {}) else Content({}, {})
  }

  /** Both images staged, the link on v2, v1 about to be cleaned up. */
  function BothStaged(): State {
    State(map["v1" := Dir(Some(map["kubelet" := true]), Some(map[]), true), "v2" := Dir(Some(map[]), Some(map[]), true)],
          Some("v2"), Cleaning("v2"))
  }

  lemma ExtractFirst(w: World) returns (s: State)
    requires w.image == OneFile
    ensures Reaches(w, State(map[], None, Idle), s)
    ensures s == State(map["v1" := Dir(Some(map["kubelet" := true]), Some(map[]), false)], None, Extracting("v1"))
  {
    var s0 := State(map[], None, Idle);
    ReachesSelf(w, s0);
    var s1 := s0.(stage := Extracting("v1"));
    ReachesNext(w, s0, s0, Begin("v1"), s1);
    var s2 := s1.(dirs := map["v1" := Dir(Some(map[]), None, false)]);
    ReachesNext(w, s0, s1, MakeDir(Bin), s2);
    var s3 := s1.(dirs := map["v1" := Dir(Some(map[]), Some(map[]), false)]);
    ReachesNext(w, s0, s2, MakeDir(Charts), s3);
    var s4 := s1.(dirs := map["v1" := Dir(Some(map["kubelet" := true]), Some(map[]), false)]);
    ReachesNext(w, s0, s3, CloseFile(Bin, "kubelet"), s4);
    s := s4;
  }

  lemma StageFirst(w: World) returns (s: State)
    requires w.image == OneFile
    ensures Reaches(w, State(map[], None, Idle), s)
    ensures s == State(map["v1" := Dir(Some(map["kubelet" := true]), Some(map[]), true)], Some("v1"), Idle)
  {
    var s0 := State(map[], None, Idle);
    var s4 := ExtractFirst(w);
    var s5 := s4.(stage := Extracted("v1"));
    ReachesNext(w, s0, s4, ExtractDone, s5);
    var s6 := State(map["v1" := Dir(Some(map["kubelet" := true]), Some(map[]), true)], None, Staged("v1"));
    ReachesNext(w, s0, s5, WriteMarker, s6);
    var s7 := s6.(stage := Unlinked("v1"));
    ReachesNext(w, s0, s6, RemoveLink, s7);
    var s8 := s7.(link := Some("v1"), stage := Cleaning("v1"));
    ReachesNext(w, s0, s7, MakeLink, s8);
    s := s8.(stage := Idle);
    ReachesNext(w, s0, s8, Finish, s);
  }

  lemma StageSecond(w: World)
    requires w.image == OneFile
    ensures Reaches(w, State(map[], None, Idle), BothStaged())
  {
    var s0 := State(map[], None, Idle);
    var s := StageFirst(w);
    var s1 := s.(stage := Extracting("v2"));
    ReachesNext(w, s0, s, Begin("v2"), s1);
    var s2 := s1.(dirs := s1.dirs["v2" := Dir(Some(map[]), None, false)]);
    ReachesNext(w, s0, s1, MakeDir(Bin), s2);
    var s3 := s1.(dirs := s1.dirs["v2" := Dir(Some(map[]), Some(map[]), false)]);
    ReachesNext(w, s0, s2, MakeDir(Charts), s3);
    var s4 := s3.(stage := Extracted("v2"));
    ReachesNext(w, s0, s3, ExtractDone, s4);
    var s5 := s4.(dirs := s1.dirs["v2" := Dir(Some(map[]), Some(map[]), true)], stage := Staged("v2"));
    ReachesNext(w, s0, s4, WriteMarker, s5);
    var s6 := s5.(link := None, stage := Unlinked("v2"));
    ReachesNext(w, s0, s5, RemoveLink, s6);
    assert s6.(link := Some("v2"), stage := Cleaning("v2")) == BothStaged();
    ReachesNext(w, s0, s6, MakeLink, BothStaged());
  }

  /** Cleanup in directory order, cut short by a crash, leaves a marker over incomplete content; the next stage then skips extraction. */
  lemma AnyOrderBreaks() returns (s: State)
    ensures var w := World(OneFile, AnyOrder);
            Reaches(w, State(map[], None, Idle), s) && s.stage == Staged("v1") && !Complete(w, "v1", DirOf(s, "v1"))
    ensures !CrashSafe(AnyOrder)
  {
    var w, s0 := World(OneFile, AnyOrder), State(map[], None, Idle);
    StageSecond(w);
    var s1 := BothStaged();
    var s2 := s1.(stage := Deleting("v2", "v1"));
    ReachesNext(w, s0, s1, RemoveDir("v1"), s2);
    var broken := Dir(Some(map[]), Some(map[]), true);
    var s3 := s2.(dirs := s2.dirs["v1" := broken]);
    ReachesNext(w, s0, s2, Unlink(Bin, "kubelet"), s3);
    var s4 := s3.(stage := Idle);
    ReachesNext(w, s0, s3, Crash, s4);
    s := s4.(stage := Staged("v1"));
    ReachesNext(w, s0, s4, Begin("v1"), s);
    assert "kubelet" in w.image("v1").bin;
    assert !MarkerMeansComplete(World(OneFile, AnyOrder), s);
  }

  /** Staging is crash safe exactly when no content of a cleaned-up directory goes before its marker. */
  lemma CrashSafeIff(removal: Removal)
    ensures CrashSafe(removal) <==> !removal.AnyOrder?
  {
    if removal.AnyOrder? {
      var _ := AnyOrderBreaks();
    } else {
      forall image, s, s' | Init(s) && Reaches(World(image, removal), s, s')
        ensures MarkerMeansComplete(World(image, removal), s')
      {
        var w := World(image, removal);
        var states, events :| IsRun(w, states, events) && states[0] == s && states[|events|] == s';
        RunKeepsInv(w, states, events, |events|);
      }
    }
  }

  // ---------------------------------------------------------------------------------------------
  // The exact condition on a single run, for every way of removing.

  /** A crash while the directory being deleted has its marker and no longer its whole content. */
  predicate BadCrash(w: World, s: State, e: Event) {
    e.Crash? && s.stage.Deleting?
    && var d := DirOf(s, s.stage.victim);
    d.marker && !Complete(w, s.stage.victim, d)
  }

  lemma StepKeepsRest(w: World, s: State, e: Event, s': State)
    requires InvOutsideDeletion(w, s) && Next(w, s, e, s') && !BadCrash(w, s, e)
    ensures InvOutsideDeletion(w, s')
  {
  }

  lemma {:induction false} RunKeepsRest(w: World, states: seq<State>, events: seq<Event>, i: nat)
    requires IsRun(w, states, events) && Init(states[0]) && i < |states|
    requires forall j :: 0 <= j < i ==> !BadCrash(w, states[j], events[j])
    ensures InvOutsideDeletion(w, states[i])
  {
    if i > 0 {
      RunKeepsRest(w, states, events, i - 1);
      StepKeepsRest(w, states[i - 1], events[i - 1], states[i]);
    }
  }

  /**
   Whatever the order of removal, a run keeps the promise outside the directory being deleted if and
   only if no crash happens while that directory has its marker over incomplete content.
   */
  lemma RunIsSafeIff(w: World, states: seq<State>, events: seq<Event>)
    requires IsRun(w, states, events) && Init(states[0])
    ensures (forall i :: 0 <= i < |states| ==> CompleteOutsideDeletion(w, states[i]))
       <==> (forall i :: 0 <= i < |events| ==> !BadCrash(w, states[i], events[i]))
  {
    if forall i :: 0 <= i < |events| ==> !BadCrash(w, states[i], events[i]) {
      forall i | 0 <= i < |states| ensures CompleteOutsideDeletion(w, states[i]) {
        RunKeepsRest(w, states, events, i);
      }
    } else {
      var i :| 0 <= i < |events| && BadCrash(w, states[i], events[i]);
      assert Next(w, states[i], events[i], states[i + 1]);
      assert !CompleteOutsideDeletion(w, states[i + 1]);
    }
  }

  // ---------------------------------------------------------------------------------------------
  // Which directories the cleanup takes.

  datatype Entry = Entry(name: string, isDir: bool)

  /** A task directory entry and the shim path found in it, if it could be read. */
  datatype Task = Task(isDir: bool, shim: Option<string>)

  predicate IsRelease(name: string) {
    |name| >= 2 && name[0] == 'v' && '0' <= name[1] <= '9'
  }

  /** "v" and a digit. */
  predicate StartsLikeRelease(name: string) {
    |name| > 1 && name[..1] == "v" && name[1] in "0123456789"
  }

  predicate HasPrefix(s: string, prefix: string) {
    |prefix| <= |s| && s[..|prefix|] == prefix
  }

  /** Some task runs a shim binary from below the directory. */
  ghost predicate InUse(tasks: seq<Task>, path: string) {
    exists i :: 0 <= i < |tasks| && tasks[i].isDir && tasks[i].shim.Some? && HasPrefix(tasks[i].shim.value, path + "/")
  }

  predicate RunsFrom(task: Task, path: string) {
    task.isDir && task.shim.Some? && HasPrefix(task.shim.value, path)
  }

  /** What the code tests: an unreadable task list counts as in use, and so does a mere name prefix. */
  predicate MayBeInUse(tasks: Option<seq<Task>>, path: string) {
    tasks.None? || exists i :: 0 <= i < |tasks.value| && RunsFrom(tasks.value[i], path)
  }

  /** The task list could be read, and no task directory names a shim whose path starts like this. */
  predicate NoShimStartsWith(tasks: Option<seq<Task>>, path: string) {
    tasks.Some?
    && forall i :: 0 <= i < |tasks.value| && tasks.value[i].isDir && tasks.value[i].shim.Some? ==> !(path <= tasks.value[i].shim.value)
  }

  lemma NoShimIff(tasks: Option<seq<Task>>, path: string)
    ensures NoShimStartsWith(tasks, path) <==> !MayBeInUse(tasks, path)
  {
    if tasks.Some? {
      forall i | 0 <= i < |tasks.value|
        ensures RunsFrom(tasks.value[i], path) <==> tasks.value[i].isDir && tasks.value[i].shim.Some? && path <= tasks.value[i].shim.value
      {
      }
    }
  }

  method DirHasShims(tasks: Option<seq<Task>>, path: string) returns (r: bool)
    ensures r == MayBeInUse(tasks, path) && (r <==> !NoShimStartsWith(tasks, path))
  {
    NoShimIff(tasks, path);
    if tasks.None? {
      return true;
    }
    for i := 0 to |tasks.value|
      invariant forall j :: 0 <= j < i ==> !RunsFrom(tasks.value[j], path)
    {
      if RunsFrom(tasks.value[i], path) {
        return true;
      }
    }
    r := false;
  }

  lemma InUseIsNoticed(tasks: seq<Task>, path: string)
    requires InUse(tasks, path)
    ensures MayBeInUse(Some(tasks), path)
  {
    var i :| 0 <= i < |tasks| && tasks[i].isDir && tasks[i].shim.Some? && HasPrefix(tasks[i].shim.value, path + "/");
    var shim := tasks[i].shim.value;
    assert shim[..|path|] == shim[..|path| + 1][..|path|];
    assert RunsFrom(tasks[i], path);
  }

  /** Exactly the release directories other than the current one that show no shim; so none a running shim comes from. */
  method CleanDataDirs(entries: seq<Entry>, digest: string, dataPath: string, tasks: Option<seq<Task>>)
    returns (taken: seq<string>)
    ensures forall name :: name in taken <==>
              Entry(name, true) in entries && name != digest && StartsLikeRelease(name) && NoShimStartsWith(tasks, dataPath + "/" + name)
    ensures forall name :: name in taken ==> tasks.Some? && !InUse(tasks.value, dataPath + "/" + name)
  {
    taken := [];
    for i := 0 to |entries|
      invariant forall name :: name in taken <==>
                  Entry(name, true) in entries[..i] && name != digest && IsRelease(name) && !MayBeInUse(tasks, dataPath + "/" + name)
    {
      var e := entries[i];
      assert entries[..i + 1] == entries[..i] + [e];
      if e.isDir && e.name != digest && IsRelease(e.name) {
        assert e == Entry(e.name, true);
        var used := DirHasShims(tasks, dataPath + "/" + e.name);
        if !used {
          taken := taken + [e.name];
        }
      }
    }
    assert entries[..|entries|] == entries;
    forall name
      ensures NoShimStartsWith(tasks, dataPath + "/" + name) <==> !MayBeInUse(tasks, dataPath + "/" + name)
    {
      NoShimIff(tasks, dataPath + "/" + name);
    }
    forall name | name in taken ensures tasks.Some? && !InUse(tasks.value, dataPath + "/" + name) {
      if InUse(tasks.value, dataPath + "/" + name) {
        InUseIsNoticed(tasks.value, dataPath + "/" + name);
      }
    }
  }
}
