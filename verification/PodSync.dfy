/**
 Reconciliation of running sandboxes with static pod manifests: one check of one manifest, and the
 protocol of repeated checks interleaved with the kubelet and with manifest rewrites.
 */
module PodSync {

  /** A sandbox as listed for the labels of one component. */
  datatype Sandbox = Sandbox(id: string, uid: string)

  datatype Status = Status(id: string, ready: bool)

  /** Answers of the runtime to PodSandboxStatus. */
  datatype StatusReply = Gone | Failed | Reported(ready: bool)

  /** The manifest file: absent, not to be opened or decoded, or decoded to a pod. */
  datatype Manifest = Missing | Unreadable | Pod(uid: string)

  datatype Listing = ListFailed | Listed(items: seq<Sandbox>, replies: seq<StatusReply>)

  datatype Verdict = Verdict(newNeeded: bool, id: string)

  datatype Check =
    | NoManifest | ReadError | ListError | StatusError
    | OldSandboxRemoved | SandboxChanged | SandboxNotFound
    | Synced

  ghost predicate HasStatus(statuses: seq<Status>, id: string) {
    exists j :: 0 <= j < |statuses| && statuses[j].id == id
  }

  /** What is known of the kubelet's PodSandboxChanged. */
  ghost predicate Contract(changed: seq<Status> -> Verdict) {
    forall statuses :: var v := changed(statuses);
      && (v.id == "" || HasStatus(statuses, v.id))
      && (!v.newNeeded ==> exists j :: 0 <= j < |statuses| && statuses[j] == Status(v.id, true))
  }

  ghost predicate UniqueIds(items: seq<Sandbox>) {
    (forall i, j :: 0 <= i < j < |items| ==> items[i].id != items[j].id)
    && forall i :: 0 <= i < |items| ==> items[i].id != ""
  }

  ghost predicate WellFormed(listing: Listing) {
    listing.Listed? ==> |listing.replies| == |listing.items| && UniqueIds(listing.items)
  }

  predicate StatusFails(uid: string, items: seq<Sandbox>, replies: seq<StatusReply>)
    requires |items| == |replies|
  {
    exists q :: 0 <= q < |items| && items[q].uid == uid && replies[q].Failed?
  }

  /** The statuses of the sandboxes of this uid, in listing order; sandboxes gone meanwhile are skipped. */
  function Statuses(uid: string, items: seq<Sandbox>, replies: seq<StatusReply>): (r: seq<Status>)
    requires |items| == |replies|
    ensures forall j :: 0 <= j < |r| ==>
              exists q :: 0 <= q < |items| && items[q] == Sandbox(r[j].id, uid) && replies[q] == Reported(r[j].ready)
  {
    if items == [] then []
    else
      var n := |items| - 1;
      var r := Statuses(uid, items[..n], replies[..n]);
      assert forall q :: 0 <= q < n ==> items[..n][q] == items[q] && replies[..n][q] == replies[q];
      if items[n].uid == uid && replies[n].Reported? then r + [Status(items[n].id, replies[n].ready)] else r
  }

  predicate Outdated(uid: string, chosen: string, item: Sandbox) {
    item.uid != uid || (chosen != "" && chosen != item.id)
  }

  function OutdatedIds(uid: string, chosen: string, items: seq<Sandbox>): (r: seq<string>)
    ensures forall id :: id in r <==> exists q :: 0 <= q < |items| && items[q].id == id && Outdated(uid, chosen, items[q])
    ensures r == [] <==> forall q :: 0 <= q < |items| ==> !Outdated(uid, chosen, items[q])
  {
    if items == [] then []
    else
      var n := |items| - 1;
      var r := OutdatedIds(uid, chosen, items[..n]);
      assert forall q :: 0 <= q < n ==> items[..n][q] == items[q];
      if Outdated(uid, chosen, items[n]) then r + [items[n].id] else r
  }

  /** `at` lists exactly the wanted positions below n, in order. */
  ghost predicate Positions(at: seq<int>, n: int, wanted: int -> bool) {
    && (forall j :: 0 <= j < |at| ==> 0 <= at[j] < n)
    && (forall i, j :: 0 <= i < j < |at| ==> at[i] < at[j])
    && (forall q :: 0 <= q < n ==> (q in at <==> wanted(q)))
  }

  lemma NextPosition(at: seq<int>, n: nat, wanted: int -> bool)
    requires Positions(at, n, wanted)
    ensures Positions(if wanted(n) then at + [n] else at, n + 1, wanted)
  {
  }

  /** The elements of s at these positions. */
  ghost predicate AreAt<T>(r: seq<T>, s: seq<T>, at: seq<int>) {
    |r| == |at| && forall j :: 0 <= j < |r| ==> 0 <= at[j] < |s| && r[j] == s[at[j]]
  }

  lemma OneMoreAt<T>(r: seq<T>, s: seq<T>, at: seq<int>, q: nat)
    requires AreAt(r, s, at) && q < |s|
    ensures AreAt(r + [s[q]], s, at + [q])
  {
  }

  lemma OneMorePosition<T>(r: seq<T>, s: seq<T>, at: seq<int>, n: nat, wanted: int -> bool) returns (at': seq<int>)
    requires Positions(at, n, wanted) && AreAt(r, s, at) && n < |s|
    ensures Positions(at', n + 1, wanted) && AreAt(r + if wanted(n) then [s[n]] else [], s, at')
  {
    NextPosition(at, n, wanted);
    OneMoreAt(r, s, at, n);
    at' := if wanted(n) then at + [n] else at;
    assert r + [] == r;
  }

  /** Each listed sandbox with what it reported. */
  function Answers(items: seq<Sandbox>, replies: seq<StatusReply>): (s: seq<Status>)
    requires |items| == |replies|
    ensures |s| == |items|
    ensures forall q :: 0 <= q < |items| ==> s[q] == Status(items[q].id, replies[q].Reported? && replies[q].ready)
  {
    seq(|items|, q requires 0 <= q < |items| => Status(items[q].id, replies[q].Reported? && replies[q].ready))
  }

  function HasReported(uid: string, items: seq<Sandbox>, replies: seq<StatusReply>): int -> bool {
    q => 0 <= q < |items| && q < |replies| && items[q].uid == uid && replies[q].Reported?
  }

  /** The statuses are those of the listed sandboxes of this uid that reported one, all of them and in the order of the listing. */
  lemma StatusesInOrder(uid: string, items: seq<Sandbox>, replies: seq<StatusReply>) returns (at: seq<int>)
    requires |items| == |replies|
    ensures Positions(at, |items|, HasReported(uid, items, replies))
    ensures AreAt(Statuses(uid, items, replies), Answers(items, replies), at)
  {
    at := StatusesUpTo(uid, items, replies, |items|);
    assert items[..|items|] == items && replies[..|items|] == replies;
  }

  lemma {:induction false} StatusesUpTo(uid: string, items: seq<Sandbox>, replies: seq<StatusReply>, n: nat) returns (at: seq<int>)
    requires |items| == |replies| && n <= |items|
    ensures Positions(at, n, HasReported(uid, items, replies))
    ensures AreAt(Statuses(uid, items[..n], replies[..n]), Answers(items, replies), at)
  {
    at := [];
    if n > 0 {
      at := StatusesUpTo(uid, items, replies, n - 1);
      OneMoreStatus(uid, items, replies, n);
      at := OneMorePosition(Statuses(uid, items[..n - 1], replies[..n - 1]), Answers(items, replies), at, n - 1, HasReported(uid, items, replies));
    }
  }

  lemma OneMoreStatus(uid: string, items: seq<Sandbox>, replies: seq<StatusReply>, n: nat)
    requires |items| == |replies| && 0 < n <= |items|
    ensures Statuses(uid, items[..n], replies[..n])
         == Statuses(uid, items[..n - 1], replies[..n - 1])
            + if HasReported(uid, items, replies)(n - 1) then [Answers(items, replies)[n - 1]] else []
  {
    assert items[..n][..n - 1] == items[..n - 1] && replies[..n][..n - 1] == replies[..n - 1];
  }

  function Ids(items: seq<Sandbox>): (ids: seq<string>)
    ensures |ids| == |items| && forall q :: 0 <= q < |items| ==> ids[q] == items[q].id
  {
    seq(|items|, q requires 0 <= q < |items| => items[q].id)
  }

  function IsOutdated(uid: string, chosen: string, items: seq<Sandbox>): int -> bool {
    q => 0 <= q < |items| && (items[q].uid != uid || (chosen != "" && items[q].id != chosen))
  }

  /** The ids handed to removal are those of the sandboxes of another uid and, if one is chosen, of all others, in the order of the listing. */
  lemma OutdatedInOrder(uid: string, chosen: string, items: seq<Sandbox>) returns (at: seq<int>)
    ensures Positions(at, |items|, IsOutdated(uid, chosen, items))
    ensures AreAt(OutdatedIds(uid, chosen, items), Ids(items), at)
  {
    at := OutdatedUpTo(uid, chosen, items, |items|);
    assert items[..|items|] == items;
  }

  lemma {:induction false} OutdatedUpTo(uid: string, chosen: string, items: seq<Sandbox>, n: nat) returns (at: seq<int>)
    requires n <= |items|
    ensures Positions(at, n, IsOutdated(uid, chosen, items))
    ensures AreAt(OutdatedIds(uid, chosen, items[..n]), Ids(items), at)
  {
    at := [];
    if n > 0 {
      at := OutdatedUpTo(uid, chosen, items, n - 1);
      OneMoreOutdated(uid, chosen, items, n);
      at := OneMorePosition(OutdatedIds(uid, chosen, items[..n - 1]), Ids(items), at, n - 1, IsOutdated(uid, chosen, items));
    }
  }

  lemma OneMoreOutdated(uid: string, chosen: string, items: seq<Sandbox>, n: nat)
    requires 0 < n <= |items|
    ensures OutdatedIds(uid, chosen, items[..n])
         == OutdatedIds(uid, chosen, items[..n - 1]) + if IsOutdated(uid, chosen, items)(n - 1) then [Ids(items)[n - 1]] else []
  {
    assert items[..n][..n - 1] == items[..n - 1];
  }

  /** The listing shows exactly one sandbox, of the manifest's uid, and it is the chosen ready one. */
  ghost predicate InSync(manifest: Manifest, listing: Listing, changed: seq<Status> -> Verdict)
    requires WellFormed(listing)
  {
    && manifest.Pod? && listing.Listed? && |listing.items| == 1
    && listing.items[0].uid == manifest.uid && listing.replies[0] == Reported(true)
    && changed([Status(listing.items[0].id, true)]) == Verdict(false, listing.items[0].id)
  }

  /** The check gets as far as asking which sandbox is the latest. */
  predicate Judged(manifest: Manifest, listing: Listing)
    requires listing.Listed? ==> |listing.replies| == |listing.items|
  {
    manifest.Pod? && listing.Listed? && !StatusFails(manifest.uid, listing.items, listing.replies)
  }

  method GatherStatuses(uid: string, items: seq<Sandbox>, replies: seq<StatusReply>)
    returns (failed: bool, statuses: seq<Status>)
    requires |items| == |replies|
    ensures failed == StatusFails(uid, items, replies)
    ensures !failed ==> statuses == Statuses(uid, items, replies)
  {
    failed, statuses := false, [];
    for q := 0 to |items|
      invariant !StatusFails(uid, items[..q], replies[..q])
      invariant statuses == Statuses(uid, items[..q], replies[..q])
    {
      assert items[..q + 1][..q] == items[..q] && replies[..q + 1][..q] == replies[..q];
      assert forall p :: 0 <= p < q ==> items[..q + 1][p] == items[..q][p] && replies[..q + 1][p] == replies[..q][p];
      if items[q].uid == uid {
        match replies[q]
        case Gone =>
        case Failed =>
          failed := true;
          return;
        case Reported(ready) =>
          statuses := statuses + [Status(items[q].id, ready)];
      }
    }
    assert items[..|items|] == items && replies[..|items|] == replies;
  }

  method RemoveOutdated(uid: string, chosen: string, items: seq<Sandbox>) returns (removed: seq<string>)
    ensures removed == OutdatedIds(uid, chosen, items)
  {
    removed := [];
    for q := 0 to |items|
      invariant removed == OutdatedIds(uid, chosen, items[..q])
    {
      assert items[..q + 1][..q] == items[..q];
      if Outdated(uid, chosen, items[q]) {
        removed := removed + [items[q].id];
      }
    }
    assert items[..|items|] == items;
  }

  /** One check: verdict, and the ids handed to RemovePodSandbox. */
  method CheckManifestDeployed(manifest: Manifest, listing: Listing, changed: seq<Status> -> Verdict)
    returns (r: Check, removed: seq<string>)
    requires WellFormed(listing) && Contract(changed)
    ensures r.Synced? <==> InSync(manifest, listing, changed)
    ensures r.NoManifest? <==> manifest.Missing?
    ensures r.ReadError? <==> manifest.Unreadable?
    ensures r.ListError? <==> manifest.Pod? && listing.ListFailed?
    ensures r.StatusError? <==> manifest.Pod? && listing.Listed?
                                && exists q :: 0 <= q < |listing.items| && listing.items[q].uid == manifest.uid && listing.replies[q].Failed?
    ensures !Judged(manifest, listing) ==> removed == [] && !r.OldSandboxRemoved? && !r.SandboxChanged? && !r.SandboxNotFound?
    ensures Judged(manifest, listing) ==>
              var v := changed(Statuses(manifest.uid, listing.items, listing.replies));
              && removed == OutdatedIds(manifest.uid, v.id, listing.items)
              && (r.OldSandboxRemoved? <==> exists q :: 0 <= q < |listing.items| && Outdated(manifest.uid, v.id, listing.items[q]))
              && (r.SandboxChanged? <==> removed == [] && v.newNeeded && v.id != "")
              && (r.SandboxNotFound? <==> removed == [] && v.newNeeded && v.id == "")
    ensures r.SandboxNotFound? ==> forall q :: 0 <= q < |listing.items| ==> listing.items[q].uid == manifest.uid
    ensures r.SandboxChanged? ==> |listing.items| == 1 && listing.items[0].uid == manifest.uid
  {
    removed := [];
    match manifest {
      case Missing => return NoManifest, [];
      case Unreadable => return ReadError, [];
      case Pod(_) =>
    }
    if listing.ListFailed? {
      return ListError, [];
    }
    var uid, items, replies := manifest.uid, listing.items, listing.replies;
    var failed, statuses := GatherStatuses(uid, items, replies);
    if failed {
      FailedIsNotInSync(manifest, listing, changed);
      return StatusError, [];
    }
    var verdict := changed(statuses);
    VerdictIsSound(manifest, listing, changed);
    removed := RemoveOutdated(uid, verdict.id, items);
    if removed != [] {
      return OldSandboxRemoved, removed;
    }
    if verdict.newNeeded {
      if verdict.id != "" {
        ChosenIsListed(uid, items, replies, verdict.id, changed);
        return SandboxChanged, [];
      }
      return SandboxNotFound, [];
    }
    return Synced, [];
  }

  lemma FailedIsNotInSync(manifest: Manifest, listing: Listing, changed: seq<Status> -> Verdict)
    requires WellFormed(listing) && manifest.Pod? && listing.Listed?
    requires StatusFails(manifest.uid, listing.items, listing.replies)
    ensures !InSync(manifest, listing, changed)
  {
  }

  /** Nothing outdated and no new sandbox needed: that is exactly the state of being in sync. */
  lemma VerdictIsSound(manifest: Manifest, listing: Listing, changed: seq<Status> -> Verdict)
    requires WellFormed(listing) && Contract(changed) && manifest.Pod? && listing.Listed?
    requires !StatusFails(manifest.uid, listing.items, listing.replies)
    ensures var v := changed(Statuses(manifest.uid, listing.items, listing.replies));
            InSync(manifest, listing, changed)
            <==> OutdatedIds(manifest.uid, v.id, listing.items) == [] && !v.newNeeded
  {
    var v := changed(Statuses(manifest.uid, listing.items, listing.replies));
    if OutdatedIds(manifest.uid, v.id, listing.items) == [] && !v.newNeeded {
      ChosenIsOnly(manifest.uid, listing.items, listing.replies, v.id, changed);
      SingleStatus(manifest.uid, listing.items, listing.replies);
    }
    if InSync(manifest, listing, changed) {
      SingleStatus(manifest.uid, listing.items, listing.replies);
    }
  }

  lemma ChosenIsOnly(uid: string, items: seq<Sandbox>, replies: seq<StatusReply>, id: string, changed: seq<Status> -> Verdict)
    requires |items| == |replies| && UniqueIds(items) && Contract(changed)
    requires changed(Statuses(uid, items, replies)) == Verdict(false, id)
    requires forall q :: 0 <= q < |items| ==> !Outdated(uid, id, items[q])
    ensures |items| == 1 && items[0] == Sandbox(id, uid) && replies[0] == Reported(true)
  {
    var statuses := Statuses(uid, items, replies);
    var j :| 0 <= j < |statuses| && statuses[j] == Status(id, true);
    var q :| 0 <= q < |items| && items[q] == Sandbox(id, uid) && replies[q] == Reported(true);
    assert forall p :: 0 <= p < |items| ==> !Outdated(uid, id, items[p]) && items[p].id == id;
    assert items[|items| - 1].id == items[0].id;
  }

  lemma ChosenIsListed(uid: string, items: seq<Sandbox>, replies: seq<StatusReply>, id: string, changed: seq<Status> -> Verdict)
    requires |items| == |replies| && UniqueIds(items) && Contract(changed) && id != ""
    requires changed(Statuses(uid, items, replies)).id == id
    requires forall q :: 0 <= q < |items| ==> !Outdated(uid, id, items[q])
    ensures |items| == 1 && items[0] == Sandbox(id, uid)
  {
    var statuses := Statuses(uid, items, replies);
    assert HasStatus(statuses, id);
    var j :| 0 <= j < |statuses| && statuses[j].id == id;
    var q :| 0 <= q < |items| && items[q] == Sandbox(id, uid);
    assert forall p :: 0 <= p < |items| ==> !Outdated(uid, id, items[p]) && items[p].id == id;
    assert items[|items| - 1].id == items[0].id;
  }

  lemma SingleStatus(uid: string, items: seq<Sandbox>, replies: seq<StatusReply>)
    requires |items| == |replies| == 1 && items[0].uid == uid && replies[0].Reported?
    ensures Statuses(uid, items, replies) == [Status(items[0].id, replies[0].ready)]
  {
    assert items[..0] == [] && replies[..0] == [];
  }

  /** One reconcile poll over the watched components: a missing manifest is fine, anything else unsynced ends it. */
  method ReconcilePoll(checks: seq<Check>) returns (done: bool, checked: nat)
    ensures done <==> forall i :: 0 <= i < |checks| ==> checks[i].Synced? || checks[i].NoManifest?
    ensures checked <= |checks| && (done ==> checked == |checks|)
    ensures forall i :: 0 <= i < checked - 1 ==> checks[i].Synced? || checks[i].NoManifest?
    ensures !done ==> checked > 0 && !checks[checked - 1].Synced? && !checks[checked - 1].NoManifest?
  {
    done := false;
    checked := 0;
    while checked < |checks|
      invariant checked <= |checks|
      invariant forall i :: 0 <= i < checked ==> checks[i].Synced? || checks[i].NoManifest?
    {
      checked := checked + 1;
      if !checks[checked - 1].NoManifest? && !checks[checked - 1].Synced? {
        return;
      }
    }
    done := true;
  }
}
