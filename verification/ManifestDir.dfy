/**
 The static pod manifest directory under concurrent writers, readiness channels and crashes.  A
 manifest is written to a temporary directory one level up and renamed into place.
 */
module ManifestDir {

  /** The components whose manifests are written here; each has one file, named after it. */
  datatype Component = ApiServer | Scheduler | ControllerManager | CloudControllerManager | Etcd | KubeProxy

  /** A file: in the manifest directory, or in the temporary directory of a writer. */
  datatype Path = Manifest(name: Component) | Temp(writer: nat, name: Component)

  /** The channel a write waits for. */
  datatype Gate = Open | EtcdReady | ApiReady

  datatype Progress = Waiting | Comparing | Writing | Finished

  datatype Writer = Writer(name: Component, content: string, gate: Gate, at: Progress)

  datatype State = State(
    files: map<Path, string>,
    writers: map<nat, Writer>,
    etcdTested: bool,
    etcdClosed: bool,
    apiClosed: bool,
    apiCalled: bool)

  datatype Event =
    | CallApiServer(id: nat, content: string)
    | CallGated(id: nat, name: Component, content: string)
    | CallUngated(id: nat, name: Component, content: string)
    | TestEtcd
    | CloseEtcd
    | CloseApi
    | Proceed(id: nat)
    | Compare(id: nat)
    | WriteSome(id: nat, n: nat)
    | Rename(id: nat)
    | Fail(id: nat)
    | RemoveManifest(name: Component)
    | Crash

  predicate IsOpen(s: State, gate: Gate) {
    match gate
    case Open => true
    case EtcdReady => s.etcdClosed
    case ApiReady => s.apiClosed
  }

  predicate NeedsApi(name: Component) {
    name.Scheduler? || name.ControllerManager?
  }

  function TempOf(s: State, id: nat): Path
    requires id in s.writers
  {
    Temp(id, s.writers[id].name)
  }

  function Moved(s: State, id: nat, at: Progress): State
    requires id in s.writers
  {
    s.(writers := s.writers[id := s.writers[id].(at := at)])
  }

  ghost predicate Next(s: State, e: Event, s': State) {
    match e
    case CallApiServer(id, content) =>
      id !in s.writers
      && s' == s.(files := s.files - {Manifest(ApiServer)}, apiCalled := true,
                  writers := s.writers[id := Writer(ApiServer, content, EtcdReady, Waiting)])
    case CallGated(id, name, content) =>
      id !in s.writers && NeedsApi(name) && s' == s.(writers := s.writers[id := Writer(name, content, ApiReady, Waiting)])
    case CallUngated(id, name, content) =>
      id !in s.writers && !NeedsApi(name) && name != ApiServer
      && s' == s.(writers := s.writers[id := Writer(name, content, Open, Waiting)])
    case TestEtcd => s' == s.(etcdTested := true)
    case CloseEtcd => s.etcdTested && s' == s.(etcdClosed := true)
    case CloseApi => s' == s.(apiClosed := true)
    case Proceed(id) =>
      id in s.writers && s.writers[id].at.Waiting? && IsOpen(s, s.writers[id].gate) && s' == Moved(s, id, Comparing)
    case Compare(id) =>
      id in s.writers && s.writers[id].at.Comparing?
      && var w := s.writers[id];
      s' == if Manifest(w.name) in s.files && s.files[Manifest(w.name)] == w.content then Moved(s, id, Finished)
            else Moved(s, id, Writing).(files := s.files[TempOf(s, id) := ""])
    case WriteSome(id, n) =>
      id in s.writers && s.writers[id].at.Writing? && n <= |s.writers[id].content|
      && s' == s.(files := s.files[TempOf(s, id) := s.writers[id].content[..n]])
    case Rename(id) =>
      id in s.writers && s.writers[id].at.Writing? && TempOf(s, id) in s.files
      && s.files[TempOf(s, id)] == s.writers[id].content
      && s' == Moved(s, id, Finished).(
           files := (s.files - {TempOf(s, id)})[Manifest(s.writers[id].name) := s.files[TempOf(s, id)]])
    case Fail(id) =>
      id in s.writers && s' == Moved(s, id, Finished).(files := s.files - {TempOf(s, id)})
    case RemoveManifest(name) => s' == s.(files := s.files - {Manifest(name)})
    case Crash => s' == s.(writers := map[], etcdTested := false, etcdClosed := false, apiClosed := false, apiCalled := false)
  }

  ghost predicate IsRun(states: seq<State>, events: seq<Event>) {
    |states| == |events| + 1
    && forall i :: 0 <= i < |events| ==> Next(states[i], events[i], states[i + 1])
  }

  /** Before the first start: whatever manifests there are, and nothing running. */
  ghost predicate Init(s: State) {
    s.writers == map[] && !s.etcdTested && !s.etcdClosed && !s.apiClosed && !s.apiCalled
  }

  /** The gates the callers put their writers behind, and what has passed them. */
  ghost predicate Gated(s: State) {
    && (s.etcdClosed ==> s.etcdTested)
    && (forall id :: id in s.writers && s.writers[id].name == ApiServer ==> s.writers[id].gate.EtcdReady?)
    && (forall id :: id in s.writers && NeedsApi(s.writers[id].name) ==> s.writers[id].gate.ApiReady?)
    && (forall id :: id in s.writers && Past(s.writers[id]) ==> IsOpen(s, s.writers[id].gate))
  }

  /** Once APIServer() has removed the old manifest, one exists only if the etcd test succeeded. */
  ghost predicate ApiServerAfterEtcd(s: State) {
    s.apiCalled && Manifest(ApiServer) in s.files ==> s.etcdTested
  }

  ghost predicate Past(w: Writer) {
    w.at.Comparing? || w.at.Writing?
  }

  /** Where a writer of the next state comes from. */
  ghost predicate Continues(s: State, w: Writer, w': Writer) {
    w'.name == w.name && w'.content == w.content && w'.gate == w.gate && (Past(w') ==> Past(w) || IsOpen(s, w.gate))
  }

  ghost predicate StartsAs(e: Event, id: nat, w: Writer) {
    w.at.Waiting? && match e
      case CallApiServer(i, c) => i == id && w.name == ApiServer && w.content == c && w.gate.EtcdReady?
      case CallGated(i, m, c) => i == id && w.name == m && w.content == c && w.gate.ApiReady?
      case CallUngated(i, m, c) => i == id && w.name == m && w.content == c && w.gate.Open? && !NeedsApi(m) && m != ApiServer
      case _ => false
  }

  lemma WriterStep(s: State, e: Event, s': State, id: nat)
    requires Next(s, e, s') && id in s'.writers
    ensures (id in s.writers && Continues(s, s.writers[id], s'.writers[id])) || StartsAs(e, id, s'.writers[id])
  {
    match e
    case CallApiServer(_, _) =>
    case CallGated(_, _, _) =>
    case CallUngated(_, _, _) =>
    case Proceed(_) =>
    case Compare(_) =>
    case _ =>
  }

  /** A manifest changes only by a rename of a writer's whole content. */
  lemma ManifestStep(s: State, e: Event, s': State, name: Component)
    requires Next(s, e, s') && Manifest(name) in s'.files
    ensures (Manifest(name) in s.files && s'.files[Manifest(name)] == s.files[Manifest(name)])
            || (e.Rename? && e.id in s.writers && s.writers[e.id].name == name && s.writers[e.id].at.Writing?
                && s'.files[Manifest(name)] == s.writers[e.id].content)
  {
    match e
    case Rename(_) =>
    case Compare(_) =>
    case WriteSome(_, _) =>
    case _ =>
  }

  lemma ChannelStep(s: State, e: Event, s': State)
    requires Next(s, e, s') && !e.Crash?
    ensures s.etcdTested ==> s'.etcdTested
    ensures s.etcdClosed ==> s'.etcdClosed
    ensures s.apiClosed ==> s'.apiClosed
    ensures s'.etcdClosed ==> s.etcdClosed || s.etcdTested
    ensures s'.apiCalled ==> s.apiCalled || Manifest(ApiServer) !in s'.files
  {
  }

  lemma StepKeepsGates(s: State, e: Event, s': State)
    requires Gated(s) && ApiServerAfterEtcd(s) && Next(s, e, s')
    ensures Gated(s') && ApiServerAfterEtcd(s')
  {
    if !e.Crash? {
      ChannelStep(s, e, s');
      forall id | id in s'.writers
        ensures s'.writers[id].name == ApiServer ==> s'.writers[id].gate.EtcdReady?
        ensures NeedsApi(s'.writers[id].name) ==> s'.writers[id].gate.ApiReady?
        ensures Past(s'.writers[id]) ==> IsOpen(s', s'.writers[id].gate)
      {
        WriterStep(s, e, s', id);
      }
      if s'.apiCalled && Manifest(ApiServer) in s'.files {
        ManifestStep(s, e, s', ApiServer);
      }
    }
  }

  /** In every state of every run, across restarts. */
  lemma {:induction false} ApiServerManifestAfterEtcd(states: seq<State>, events: seq<Event>, i: nat)
    requires IsRun(states, events) && Init(states[0]) && i < |states|
    ensures Gated(states[i]) && ApiServerAfterEtcd(states[i])
  {
    if i > 0 {
      ApiServerManifestAfterEtcd(states, events, i - 1);
      StepKeepsGates(states[i - 1], events[i - 1], states[i]);
    }
  }

  /** Scheduler and controller-manager manifests change only once the apiserver channel is closed (or by removal). */
  lemma GatedManifestsWaitForApi(states: seq<State>, events: seq<Event>, i: nat, name: Component)
    requires IsRun(states, events) && Init(states[0]) && i < |events|
    requires name == Scheduler || name == ControllerManager
    requires Manifest(name) in states[i + 1].files
    requires Manifest(name) !in states[i].files || states[i].files[Manifest(name)] != states[i + 1].files[Manifest(name)]
    ensures events[i].Rename? && states[i].apiClosed
  {
    ApiServerManifestAfterEtcd(states, events, i);
    ManifestStep(states[i], events[i], states[i + 1], name);
  }

  // ---------------------------------------------------------------------------------------------
  // Contents.

  /** The content was handed to a writer of this name by one of the first n events. */
  ghost predicate Issued(events: seq<Event>, n: nat, name: Component, content: string)
    requires n <= |events|
  {
    exists k :: 0 <= k < n && match events[k]
      case CallApiServer(_, c) => name == ApiServer && c == content
      case CallGated(_, m, c) => m == name && c == content
      case CallUngated(_, m, c) => m == name && c == content
      case _ => false
  }

  /** A manifest is what it was at the beginning or one issued content, in full; writers hold issued contents. */
  ghost predicate Whole(start: State, events: seq<Event>, n: nat, s: State)
    requires n <= |events|
  {
    && (forall name :: Manifest(name) in s.files ==>
          Issued(events, n, name, s.files[Manifest(name)])
          || (Manifest(name) in start.files && s.files[Manifest(name)] == start.files[Manifest(name)]))
    && (forall id :: id in s.writers ==> Issued(events, n, s.writers[id].name, s.writers[id].content))
  }

  lemma IssuedLater(events: seq<Event>, n: nat, name: Component, content: string)
    requires n < |events| && Issued(events, n, name, content)
    ensures Issued(events, n + 1, name, content)
  {
  }

  /** Over all interleavings and crash points every manifest is old or new bytes in full, never a part. */
  lemma {:induction false} ManifestsAreWhole(states: seq<State>, events: seq<Event>, i: nat)
    requires IsRun(states, events) && Init(states[0]) && i < |states|
    ensures Whole(states[0], events, i, states[i])
  {
    if i > 0 {
      ManifestsAreWhole(states, events, i - 1);
      assert Next(states[i - 1], events[i - 1], states[i]);
      StepKeepsWhole(states[0], events, i - 1, states[i - 1], states[i]);
    }
  }

  lemma StepKeepsWhole(start: State, events: seq<Event>, n: nat, s: State, s': State)
    requires n < |events| && Whole(start, events, n, s) && Next(s, events[n], s')
    ensures Whole(start, events, n + 1, s')
  {
    forall id | id in s'.writers ensures Issued(events, n + 1, s'.writers[id].name, s'.writers[id].content) {
      WriterStep(s, events[n], s', id);
      if id in s.writers && Continues(s, s.writers[id], s'.writers[id]) {
        IssuedLater(events, n, s.writers[id].name, s.writers[id].content);
      }
    }
    forall name | Manifest(name) in s'.files
      ensures Issued(events, n + 1, name, s'.files[Manifest(name)])
              || (Manifest(name) in start.files && s'.files[Manifest(name)] == start.files[Manifest(name)])
    {
      ManifestStep(s, events[n], s', name);
      if Issued(events, n, name, s'.files[Manifest(name)]) {
        IssuedLater(events, n, name, s'.files[Manifest(name)]);
      }
    }
  }

  /** A writer that finds its content in place leaves every file alone. */
  lemma SameContentIsLeft(s: State, id: nat, s': State)
    requires Next(s, Compare(id), s') && id in s.writers
    requires Manifest(s.writers[id].name) in s.files && s.files[Manifest(s.writers[id].name)] == s.writers[id].content
    ensures s'.files == s.files && s'.writers[id].at.Finished?
  {
  }
}
