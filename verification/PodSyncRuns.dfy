/**
 The reconcile protocol as a state machine.  A poll reads the manifest, lists, chooses the latest
 sandbox and removes the others one by one; between any two of these the kubelet may create or
 drop sandboxes and manifests may be rewritten.
 */
module PodSyncRuns {
  import opened PodSync

  /** A sandbox known to the runtime; its labels never change. */
  datatype Box = Box(component: string, uid: string)

  datatype Poll =
    | Idle
    | Opened(component: string, uid: string)
    | Ready(component: string, uid: string, items: seq<Sandbox>)
    | Removing(component: string, uid: string, items: seq<Sandbox>, chosen: string, k: nat, failed: set<string>)

  datatype State = State(manifests: map<string, string>, boxes: map<string, Box>, used: set<string>, poll: Poll)

  datatype Event =
    | Create(id: string, component: string, uid: string)
    | Vanish(id: string)
    | Rewrite(component: string, uid: string)
    | DeleteManifest(component: string)
    | Open(component: string)
    | List(items: seq<Sandbox>)
    | Choose(chosen: string)
    | Visit(accepted: bool)
    | Abort

  /** The listing holds exactly the component's sandboxes, in some order. */
  ghost predicate IsListing(s: State, component: string, items: seq<Sandbox>) {
    && UniqueIds(items)
    && (forall q :: 0 <= q < |items| ==> items[q].id in s.boxes && s.boxes[items[q].id] == Box(component, items[q].uid))
    && (forall id :: id in s.boxes && s.boxes[id].component == component ==> exists q :: 0 <= q < |items| && items[q].id == id)
  }

  ghost predicate IsChoice(uid: string, items: seq<Sandbox>, chosen: string) {
    chosen == "" || exists q :: 0 <= q < |items| && items[q] == Sandbox(chosen, uid)
  }

  /** Whatever the kubelet's logic answers on the statuses of a listing is a choice in this sense. */
  lemma KubeletChoice(uid: string, items: seq<Sandbox>, replies: seq<StatusReply>, changed: seq<Status> -> Verdict)
    requires |items| == |replies| && Contract(changed)
    ensures IsChoice(uid, items, changed(Statuses(uid, items, replies)).id)
  {
    var statuses := Statuses(uid, items, replies);
    var id := changed(statuses).id;
    if id != "" {
      assert HasStatus(statuses, id);
      var j :| 0 <= j < |statuses| && statuses[j].id == id;
    }
  }

  ghost predicate Next(s: State, e: Event, s': State) {
    match e
    case Create(id, component, uid) =>
      id !in s.used && id != "" && s' == s.(boxes := s.boxes[id := Box(component, uid)], used := s.used + {id})
    case Vanish(id) => s' == s.(boxes := s.boxes - {id})
    case Rewrite(component, uid) => s' == s.(manifests := s.manifests[component := uid])
    case DeleteManifest(component) => s' == s.(manifests := s.manifests - {component})
    case Open(component) =>
      s.poll.Idle? && component in s.manifests && s' == s.(poll := Opened(component, s.manifests[component]))
    case List(items) =>
      s.poll.Opened? && IsListing(s, s.poll.component, items)
      && s' == s.(poll := Ready(s.poll.component, s.poll.uid, items))
    case Choose(chosen) =>
      s.poll.Ready? && IsChoice(s.poll.uid, s.poll.items, chosen)
      && s' == s.(poll := Removing(s.poll.component, s.poll.uid, s.poll.items, chosen, 0, {}))
    case Visit(accepted) =>
      s.poll.Removing?
      && (if s.poll.k < |s.poll.items| then s' == Visited(s, accepted) else s' == s.(poll := Idle))
    case Abort => s' == s.(poll := Idle)
  }

  /** One round of the removal loop; the runtime may refuse the removal. */
  function Visited(s: State, accepted: bool): State
    requires s.poll.Removing? && s.poll.k < |s.poll.items|
  {
    var p, item := s.poll, s.poll.items[s.poll.k];
    if !Outdated(p.uid, p.chosen, item) then s.(poll := p.(k := p.k + 1))
    else if accepted then s.(boxes := s.boxes - {item.id}, poll := p.(k := p.k + 1))
    else s.(poll := p.(k := p.k + 1, failed := p.failed + {item.id}))
  }

  ghost predicate Init(s: State) {
    s.poll.Idle? && s.boxes.Keys <= s.used && "" !in s.boxes
  }

  ghost predicate IsRun(states: seq<State>, events: seq<Event>) {
    |states| == |events| + 1
    && forall i :: 0 <= i < |events| ==> Next(states[i], events[i], states[i + 1])
  }

  // ---------------------------------------------------------------------------------------------
  // What every step keeps.

  /** Items of a listing still name the same sandboxes, for ids are never reused. */
  ghost predicate Faithful(s: State, component: string, items: seq<Sandbox>) {
    && UniqueIds(items)
    && forall q :: 0 <= q < |items| ==>
         items[q].id in s.used && (items[q].id in s.boxes ==> s.boxes[items[q].id] == Box(component, items[q].uid))
  }

  ghost predicate Inv(s: State) {
    && s.boxes.Keys <= s.used
    && (s.poll.Ready? || s.poll.Removing? ==> Faithful(s, s.poll.component, s.poll.items))
    && (s.poll.Removing? ==> IsChoice(s.poll.uid, s.poll.items, s.poll.chosen))
  }

  lemma StepKeepsInv(s: State, e: Event, s': State)
    requires Inv(s) && Next(s, e, s')
    ensures Inv(s')
  {
  }

  lemma {:induction false} RunKeepsInv(states: seq<State>, events: seq<Event>, i: nat)
    requires IsRun(states, events) && Init(states[0]) && i < |states|
    ensures Inv(states[i])
  {
    if i > 0 {
      RunKeepsInv(states, events, i - 1);
      StepKeepsInv(states[i - 1], events[i - 1], states[i]);
    }
  }

  // ---------------------------------------------------------------------------------------------
  // Safety: what a poll can remove.

  /**
   In every run, a sandbox removed by a poll is not the one chosen as latest; and it either carries a
   uid other than the one the poll read, or a later sandbox of that uid was chosen instead.
   */
  lemma PollRemovesOnlyOutdated(states: seq<State>, events: seq<Event>, i: nat, id: string)
    requires IsRun(states, events) && Init(states[0]) && i < |events|
    requires events[i].Visit? && id in states[i].boxes && id !in states[i + 1].boxes
    ensures states[i].poll.Removing?
    ensures var p := states[i].poll;
            id != p.chosen && states[i].boxes[id].component == p.component
            && (states[i].boxes[id].uid != p.uid || p.chosen != "")
            && exists q :: 0 <= q < |p.items| && p.items[q] == Sandbox(id, states[i].boxes[id].uid)
  {
    RunKeepsInv(states, events, i);
    var s, p := states[i], states[i].poll;
    assert Next(s, events[i], states[i + 1]);
    var item := p.items[p.k];
    assert item == Sandbox(id, s.boxes[id].uid);
  }

  // ---------------------------------------------------------------------------------------------
  // Progress once a component's manifest is settled on one uid.

  /** The event neither changes the component's manifest nor creates a sandbox of another uid for it. */
  ghost predicate Settled(e: Event, component: string, uid: string) {
    && (e.Create? && e.component == component ==> e.uid == uid)
    && (e.Rewrite? && e.component == component ==> e.uid == uid)
    && (e.DeleteManifest? ==> e.component != component)
  }

  function WrongIds(s: State, component: string, uid: string): set<string> {
    set id | id in s.boxes && s.boxes[id].component == component && s.boxes[id].uid != uid
  }

  lemma WrongNeverGrows(s: State, e: Event, s': State, component: string, uid: string)
    requires Next(s, e, s') && Settled(e, component, uid)
    ensures WrongIds(s', component, uid) <= WrongIds(s, component, uid)
  {
  }

  /** The wrong sandboxes never increase, and a successful removal of one strictly decreases them. */
  lemma {:induction false} WrongCountFalls(states: seq<State>, events: seq<Event>, component: string, uid: string, i: nat, j: nat)
    requires IsRun(states, events) && i <= j < |states|
    requires forall k :: i <= k < j ==> Settled(events[k], component, uid)
    ensures WrongIds(states[j], component, uid) <= WrongIds(states[i], component, uid)
    ensures |WrongIds(states[j], component, uid)| <= |WrongIds(states[i], component, uid)|
    ensures (exists k :: i <= k < j && LosesWrong(states, k, component, uid)) ==>
              |WrongIds(states[j], component, uid)| < |WrongIds(states[i], component, uid)|
    decreases j - i
  {
    if i < j {
      var a, b := WrongIds(states[i], component, uid), WrongIds(states[i + 1], component, uid);
      WrongNeverGrows(states[i], events[i], states[i + 1], component, uid);
      WrongCountFalls(states, events, component, uid, i + 1, j);
      SubsetSize(b, a);
      if LosesWrong(states, i, component, uid) {
        var id :| id in states[i].boxes && id !in states[i + 1].boxes && id in a;
        SubsetSize(b, a - {id});
      } else if exists k :: i <= k < j && LosesWrong(states, k, component, uid) {
        var k :| i <= k < j && LosesWrong(states, k, component, uid);
        assert i + 1 <= k;
      }
    }
  }

  /** Step k takes a sandbox of a wrong uid away. */
  ghost predicate LosesWrong(states: seq<State>, k: nat, component: string, uid: string)
    requires k + 1 < |states|
  {
    exists id :: id in states[k].boxes && id !in states[k + 1].boxes && id in WrongIds(states[k], component, uid)
  }

  lemma {:induction false} SubsetSize(a: set<string>, b: set<string>)
    requires a <= b
    ensures |a| <= |b|
    ensures a != b ==> |a| < |b|
  {
    if a != {} {
      var x :| x in a;
      SubsetSize(a - {x}, b - {x});
    }
  }

  /** While a poll of the settled uid goes on, every wrong sandbox is still ahead of it or was refused. */
  ghost predicate Accounted(s: State, component: string, uid: string) {
    && s.manifests.Keys >= {component} && s.manifests[component] == uid
    && (s.poll.Opened? && s.poll.component == component ==> s.poll.uid == uid)
    && (s.poll.Ready? && s.poll.component == component ==>
          s.poll.uid == uid && forall id :: id in WrongIds(s, component, uid) ==> AheadOf(s.poll.items, 0, id))
    && (s.poll.Removing? && s.poll.component == component ==>
          s.poll.uid == uid && forall id :: id in WrongIds(s, component, uid) ==> id in s.poll.failed || AheadOf(s.poll.items, s.poll.k, id))
  }

  ghost predicate AheadOf(items: seq<Sandbox>, k: nat, id: string) {
    exists q :: k <= q < |items| && items[q].id == id
  }

  lemma StepKeepsAccounted(s: State, e: Event, s': State, component: string, uid: string)
    requires Inv(s) && Accounted(s, component, uid) && Next(s, e, s') && Settled(e, component, uid)
    ensures Accounted(s', component, uid)
  {
    WrongNeverGrows(s, e, s', component, uid);
    if e.List? && s.poll.component == component {
      forall id | id in WrongIds(s', component, uid) ensures AheadOf(s'.poll.items, 0, id) {
      }
    }
    if e.Choose? && s.poll.component == component {
      forall id | id in WrongIds(s', component, uid) ensures AheadOf(s'.poll.items, 0, id) {
        assert AheadOf(s.poll.items, 0, id);
      }
    }
    if e.Visit? && s.poll.component == component && s.poll.k < |s.poll.items| {
      VisitKeepsAccounted(s, e.accepted, component, uid);
    }
  }

  lemma VisitKeepsAccounted(s: State, accepted: bool, component: string, uid: string)
    requires Inv(s) && Accounted(s, component, uid) && s.poll.Removing? && s.poll.component == component
    requires s.poll.k < |s.poll.items|
    ensures Accounted(Visited(s, accepted), component, uid)
  {
    var s', p := Visited(s, accepted), s.poll;
    forall id | id in WrongIds(s', component, uid) ensures id in s'.poll.failed || AheadOf(p.items, p.k + 1, id) {
      assert id in WrongIds(s, component, uid);
      if id !in p.failed {
        assert AheadOf(p.items, p.k, id);
        var q :| p.k <= q < |p.items| && p.items[q].id == id;
        if q == p.k {
          assert p.items[q] == Sandbox(id, s.boxes[id].uid);
          assert Outdated(p.uid, p.chosen, p.items[q]);
        } else {
          assert AheadOf(p.items, p.k + 1, id);
        }
      }
    }
  }

  lemma {:induction false} RunKeepsAccounted(states: seq<State>, events: seq<Event>, component: string, uid: string, i: nat, j: nat)
    requires IsRun(states, events) && i <= j < |states| && Init(states[0])
    requires forall k :: i <= k < j ==> Settled(events[k], component, uid)
    requires Accounted(states[i], component, uid)
    ensures Accounted(states[j], component, uid)
    decreases j
  {
    if i < j {
      RunKeepsAccounted(states, events, component, uid, i, j - 1);
      RunKeepsInv(states, events, j - 1);
      StepKeepsAccounted(states[j - 1], events[j - 1], states[j], component, uid);
    }
  }

  /**
   Convergence: from a settled point at which no poll is under way, a poll that reaches its end
   without a refused removal leaves no sandbox of a wrong uid, whatever else happened meanwhile.
   */
  lemma CompletedPollClearsWrong(states: seq<State>, events: seq<Event>, component: string, uid: string, i: nat, j: nat)
    requires IsRun(states, events) && Init(states[0]) && i <= j < |states|
    requires forall k :: i <= k < j ==> Settled(events[k], component, uid)
    requires states[i].poll.Idle? && component in states[i].manifests && states[i].manifests[component] == uid
    requires states[j].poll.Removing? && states[j].poll.component == component
    requires states[j].poll.k == |states[j].poll.items| && states[j].poll.failed == {}
    ensures WrongIds(states[j], component, uid) == {}
  {
    RunKeepsAccounted(states, events, component, uid, i, j);
  }

  // ---------------------------------------------------------------------------------------------
  // What a poll has gone over.

  /** Every listed sandbox passed so far that is of another uid, or not the chosen one, is gone or was refused. */
  ghost predicate PassedOver(s: State) {
    s.poll.Removing? ==>
      forall q :: 0 <= q < s.poll.k && q < |s.poll.items|
                  && (s.poll.items[q].uid != s.poll.uid || (s.poll.chosen != "" && s.poll.items[q].id != s.poll.chosen))
                  ==> s.poll.items[q].id in s.poll.failed || s.poll.items[q].id !in s.boxes
  }

  lemma StepKeepsPassedOver(s: State, e: Event, s': State)
    requires Inv(s) && PassedOver(s) && Next(s, e, s')
    ensures PassedOver(s')
  {
  }

  lemma {:induction false} RunKeepsPassedOver(states: seq<State>, events: seq<Event>, i: nat)
    requires IsRun(states, events) && Init(states[0]) && i < |states|
    ensures PassedOver(states[i])
  {
    if i > 0 {
      RunKeepsPassedOver(states, events, i - 1);
      RunKeepsInv(states, events, i - 1);
      StepKeepsPassedOver(states[i - 1], events[i - 1], states[i]);
    }
  }

  /** In every interleaving, a completed poll without a refused removal leaves of what it listed only the manifest's uid, and of that only the chosen sandbox. */
  lemma CompletedPollLeavesChosen(states: seq<State>, events: seq<Event>, i: nat, q: nat)
    requires IsRun(states, events) && Init(states[0]) && i < |states|
    requires var p := states[i].poll; p.Removing? && p.k == |p.items| && p.failed == {} && q < |p.items|
    ensures var p := states[i].poll;
            p.items[q].id in states[i].boxes ==> p.items[q].uid == p.uid && (p.chosen == "" || p.items[q].id == p.chosen)
  {
    RunKeepsPassedOver(states, events, i);
  }

  /** An accepted removal takes the sandbox away, a refused one leaves everything and is remembered; the chosen sandbox is passed. */
  lemma VisitedExactly(s: State, accepted: bool)
    requires s.poll.Removing? && s.poll.k < |s.poll.items|
    ensures var p, item, s' := s.poll, s.poll.items[s.poll.k], Visited(s, accepted);
            && s'.manifests == s.manifests && s'.used == s.used && s'.poll == p.(k := p.k + 1, failed := s'.poll.failed)
            && if item.uid != p.uid || (p.chosen != "" && item.id != p.chosen)
               then (if accepted then s'.boxes == s.boxes - {item.id} && s'.poll.failed == p.failed
                     else s'.boxes == s.boxes && s'.poll.failed == p.failed + {item.id})
               else s'.boxes == s.boxes && s'.poll.failed == p.failed
  {
  }
}
