/** Calls in a row on one namespace: its lists of templates, retries after errors and restarts all are sequences of calls. */
module NamespacePolicyStarts {
  import opened Wrappers
  import opened NamespacePolicies
  import opened NamespacePolicyLogs
  import opened NamespacePolicyRuns

  /** The world after one call for each list of templates, whatever each call returns. */
  function Calls(w: World, batches: seq<seq<Template>>): World {
    if batches == [] then w else Setting(Calls(w, batches[..|batches| - 1]), batches[|batches| - 1]).world
  }

  // ---------------------------------------------------------------------------------------------
  // A key that stays stored.

  predicate HasKey(w: World, k: string) {
    w.ns.Some? && k in w.ns.value.annotations
  }

  /** The other writers leave key k where it is. */
  predicate Spares(x: Write, k: string) {
    !x.DeleteNamespace? && (x.PutNamespace? ==> k in x.annotations)
  }

  predicate AllSpare(turns: seq<Turn>, k: string) {
    forall i, j :: 0 <= i < |turns| && 0 <= j < |turns[i].others| ==> Spares(turns[i].others[j], k)
  }

  /** The key is stored and nobody else takes it away. */
  predicate Kept(w: World, k: string) {
    HasKey(w, k) && AllSpare(w.turns, k)
  }

  lemma {:induction false} WritesSpare(w: World, xs: seq<Write>, k: string)
    requires Kept(w, k) && forall j :: 0 <= j < |xs| ==> Spares(xs[j], k)
    ensures Kept(AfterWrites(w, xs), k)
  {
    if xs != [] {
      WritesSpare(w, xs[..|xs| - 1], k);
    }
  }

  lemma MeanwhileSpares(w: World, k: string)
    requires Kept(w, k)
    ensures Kept(Meanwhile(w), k)
  {
    if w.turns != [] {
      WritesSpare(w.(turns := w.turns[1..]), w.turns[0].others, k);
    }
  }

  lemma ClearingSpares(w: World, t: Template, k: string)
    requires Kept(w, k)
    ensures Kept(Clearing(w, t).world, k)
  {
    MeanwhileSpares(w, k);
    MeanwhileSpares(Looking(w, t).world, k);
  }

  lemma RecreationSpares(w: World, t: Template, k: string)
    requires Kept(w, k)
    ensures Kept(Recreation(w, t).world, k)
  {
    ClearingSpares(w, t, k);
    MeanwhileSpares(Clearing(w, t).world, k);
  }

  lemma RecordingSpares(w: World, local: Namespace, key: string, k: string)
    requires Kept(w, k) && k in local.annotations
    ensures Kept(Recording(w, local, key).world, k)
  {
    MeanwhileSpares(w, k);
    MeanwhileSpares(Sending(w, local, key).world, k);
  }

  lemma VisitSpares(w: World, local: Namespace, t: Template, k: string)
    requires Kept(w, k) && k in local.annotations
    ensures Kept(Visiting(w, local, t).world, k) && k in Visiting(w, local, t).local.annotations
  {
    VisitKeepsKeys(w, local, t, k);
    RecreationSpares(w, t, k);
    if t.key !in local.annotations && Recreation(w, t).error.None? {
      RecordingSpares(Recreation(w, t).world, WithKey(local, t.key), t.key, k);
    }
  }

  /** The key stays stored, and the copy has it unless there was an error. */
  predicate Safe(r: Result, k: string) {
    Kept(r.world, k) && (r.error.None? ==> k in r.local.annotations)
  }

  lemma StepIsSafe(r: Result, t: Template, k: string)
    requires Safe(r, k)
    ensures Safe(Advanced(r, t), k)
  {
    if r.error.None? {
      VisitSpares(r.world, r.local, t, k);
    }
  }

  lemma RunSpares(w: World, templates: seq<Template>, n: nat, k: string)
    requires n <= |templates| && Kept(w, k)
    ensures Safe(Running(w, templates, n), k)
  {
    MeanwhileSpares(Fresh(w), k);
    forall r: Result, t: Template | Safe(r, k)
      ensures Safe(Advanced(r, t), k)
    {
      StepIsSafe(r, t, k);
    }
    FoldKeeps(Advanced, Opening(w), templates, n, r => Safe(r, k));
  }

  lemma {:induction false} CallsSpare(w: World, batches: seq<seq<Template>>, k: string)
    requires Kept(w, k)
    ensures Kept(Calls(w, batches), k)
  {
    if batches != [] {
      CallsSpare(w, batches[..|batches| - 1], k);
      var last := batches[|batches| - 1];
      RunSpares(Calls(w, batches[..|batches| - 1]), last, |last|, k);
    }
  }

  // ---------------------------------------------------------------------------------------------
  // The policy of such a key.

  /** The policy of this name is no other key's. */
  predicate Owns(k: string, name: string, templates: seq<Template>) {
    forall t :: t in templates && t.name == name ==> t.key == k
  }

  /** The policy exists and no other client deletes it. */
  predicate PolicyKept(w: World, name: string) {
    name in w.policies && forall i, j :: 0 <= i < |w.turns| && 0 <= j < |w.turns[i].others| ==> w.turns[i].others[j] != DropPolicy(name)
  }

  lemma {:induction false} WritesSparePolicy(w: World, xs: seq<Write>, name: string)
    requires PolicyKept(w, name) && forall j :: 0 <= j < |xs| ==> xs[j] != DropPolicy(name)
    ensures PolicyKept(AfterWrites(w, xs), name)
  {
    if xs != [] {
      WritesSparePolicy(w, xs[..|xs| - 1], name);
    }
  }

  lemma MeanwhileSparesPolicy(w: World, name: string)
    requires PolicyKept(w, name)
    ensures PolicyKept(Meanwhile(w), name)
  {
    if w.turns != [] {
      WritesSparePolicy(w.(turns := w.turns[1..]), w.turns[0].others, name);
    }
  }

  lemma ClearingSparesPolicy(w: World, t: Template, name: string)
    requires PolicyKept(w, name) && t.name != name
    ensures PolicyKept(Clearing(w, t).world, name)
  {
    MeanwhileSparesPolicy(w, name);
    MeanwhileSparesPolicy(Looking(w, t).world, name);
  }

  lemma RecreationSparesPolicy(w: World, t: Template, name: string)
    requires PolicyKept(w, name) && t.name != name
    ensures PolicyKept(Recreation(w, t).world, name)
  {
    ClearingSparesPolicy(w, t, name);
    MeanwhileSparesPolicy(Clearing(w, t).world, name);
  }

  lemma RecordingSparesPolicy(w: World, local: Namespace, key: string, name: string)
    requires PolicyKept(w, name)
    ensures PolicyKept(Recording(w, local, key).world, name)
  {
    MeanwhileSparesPolicy(w, name);
    MeanwhileSparesPolicy(Sending(w, local, key).world, name);
  }

  lemma VisitSparesPolicy(w: World, local: Namespace, t: Template, name: string)
    requires PolicyKept(w, name) && (t.name == name ==> t.key in local.annotations)
    ensures PolicyKept(Visiting(w, local, t).world, name)
  {
    if t.key !in local.annotations {
      RecreationSparesPolicy(w, t, name);
      RecordingSparesPolicy(Recreation(w, t).world, WithKey(local, t.key), t.key, name);
    }
  }

  lemma StepSparesPolicy(r: Result, t: Template, k: string, name: string)
    requires Safe(r, k) && PolicyKept(r.world, name) && (t.name == name ==> t.key == k)
    ensures PolicyKept(Advanced(r, t).world, name)
  {
    if r.error.None? {
      VisitSparesPolicy(r.world, r.local, t, name);
    }
  }

  lemma RunSparesPolicy(w: World, templates: seq<Template>, n: nat, k: string, name: string)
    requires n <= |templates| && Kept(w, k) && PolicyKept(w, name) && Owns(k, name, templates)
    ensures PolicyKept(Running(w, templates, n).world, name)
  {
    MeanwhileSpares(Fresh(w), k);
    MeanwhileSparesPolicy(Fresh(w), name);
    forall r: Result, t: Template | t in templates && Safe(r, k) && PolicyKept(r.world, name)
      ensures Safe(Advanced(r, t), k) && PolicyKept(Advanced(r, t).world, name)
    {
      StepIsSafe(r, t, k);
      StepSparesPolicy(r, t, k, name);
    }
    FoldKeeps(Advanced, Opening(w), templates, n, (r: Result) => Safe(r, k) && PolicyKept(r.world, name));
  }

  predicate OwnsInAll(k: string, name: string, batches: seq<seq<Template>>) {
    forall i :: 0 <= i < |batches| ==> Owns(k, name, batches[i])
  }

  lemma {:induction false} CallsSparePolicy(w: World, batches: seq<seq<Template>>, k: string, name: string)
    requires Kept(w, k) && PolicyKept(w, name) && OwnsInAll(k, name, batches)
    ensures PolicyKept(Calls(w, batches), name)
  {
    if batches != [] {
      var front, last := batches[..|batches| - 1], batches[|batches| - 1];
      CallsSparePolicy(w, front, k, name);
      CallsSpare(w, front, k);
      RunSparesPolicy(Calls(w, front), last, |last|, k, name);
    }
  }

  /** No entry of the log is about the key, and none about the policy. */
  predicate LeftAlone(log: seq<Event>, k: string, name: string) {
    forall e :: e in log && !e.Read? ==> e.key != k && (OnPolicy(e) ==> e.name != name)
  }

  /**
   Over any number of calls, failing or not: once a key is stored, and as long as no other client
   takes it away, it stays stored.  If no list has the policy's name under another key, no call
   deletes or creates that policy, runs into it on creating, or sends an update for the key; and the
   policy stays as long as no other client deletes it.
   */
  lemma AppliedOnce(w: World, batches: seq<seq<Template>>, templates: seq<Template>, k: string, name: string)
    requires Kept(w, k) && OwnsInAll(k, name, batches) && Owns(k, name, templates)
    ensures var r := Setting(Calls(w, batches), templates);
            HasKey(r.world, k) && LeftAlone(r.world.log, k, name) && (PolicyKept(w, name) ==> name in r.world.policies)
  {
    CallsSpare(w, batches, k);
    var v := Calls(w, batches);
    RunSpares(v, templates, |templates|, k);
    CallLeavesAlone(v, templates, k, name);
    if PolicyKept(w, name) {
      CallsSparePolicy(w, batches, k, name);
      RunSparesPolicy(v, templates, |templates|, k, name);
    }
  }

  lemma CallLeavesAlone(w: World, templates: seq<Template>, k: string, name: string)
    requires Kept(w, k) && Owns(k, name, templates)
    ensures LeftAlone(Setting(w, templates).world.log, k, name)
  {
    MeanwhileSpares(w, k);
    RunNames(w, templates, |templates|);
    forall e | e in Setting(w, templates).world.log && !e.Read?
      ensures e.key != k && (OnPolicy(e) ==> e.name != name)
    {
      TouchedOnlyIfUnrecorded(w, templates, e);
    }
  }

  /** Two templates for one policy: a call for the one that is not recorded deletes the policy of the one that is. */
  lemma SharedPolicyIsDeleted(w: World, t: Template, other: Template)
    requires w.turns == [] && HasKey(w, t.key) && t.name == other.name && t.name in w.policies
    requires !HasKey(w, other.key)
    ensures Deleted(t.name, other.key) in Setting(w, [t, other]).world.log
  {
    var first := Opening(w);
    assert Running(w, [t, other], 0) == first;
    assert Running(w, [t, other], 1) == Visiting(first.world, first.local, t) == first;
    assert Setting(w, [t, other]) == Visiting(first.world, first.local, other);
    SharedVisit(first.world, first.local, other);
  }

  lemma SharedVisit(w: World, local: Namespace, t: Template)
    requires w.turns == [] && t.key !in local.annotations && t.name in w.policies
    ensures Deleted(t.name, t.key) in Visiting(w, local, t).world.log
  {
    var p := Recreation(w, t);
    assert p.world.log == w.log + [Deleted(t.name, t.key)] + [Created(t.name, t.key)];
    SendingLogs(p.world, WithKey(local, t.key), t.key);
    MeanwhileKeepsLog(Sending(p.world, WithKey(local, t.key), t.key).world);
  }

  // ---------------------------------------------------------------------------------------------
  // What an accepted update replaces.

  predicate WellFormed(w: World) {
    w.ns.Some? ==> w.ns.value.version < w.clock
  }

  /** The revision last read, if no update was accepted since. */
  function Basis(log: seq<Event>): Option<Annotations> {
    if log == [] then None
    else if log[|log| - 1].Read? then Some(log[|log| - 1].annotations)
    else if Accepted(log[|log| - 1]) then None
    else Basis(log[..|log| - 1])
  }

  /** No update is accepted before the namespace is read again after the last accepted one. */
  predicate Alternating(log: seq<Event>) {
    log == [] || (Alternating(log[..|log| - 1]) && (Accepted(log[|log| - 1]) ==> Basis(log[..|log| - 1]).Some?))
  }

  /** While the server has the copy's version, it has the revision last read, and nothing was accepted since. */
  predicate Current(w: World, local: Namespace) {
    && WellFormed(w) && local.version < w.clock && Alternating(w.log)
    && (w.ns.Some? && w.ns.value.version == local.version ==> Basis(w.log) == Some(w.ns.value.annotations))
  }

  lemma {:induction false} BasisIsKnown(log: seq<Event>)
    requires Basis(log).Some?
    ensures Basis(log).value.Keys <= Knowledge(log).Keys
  {
    if !log[|log| - 1].Read? {
      BasisIsKnown(log[..|log| - 1]);
    }
  }

  lemma Later(log: seq<Event>, e: Event)
    ensures Basis(log + [e]) == if e.Read? then Some(e.annotations) else if Accepted(e) then None else Basis(log)
    ensures Alternating(log + [e]) <==> Alternating(log) && (Accepted(e) ==> Basis(log).Some?)
  {
    assert (log + [e])[..|log|] == log;
  }

  lemma {:induction false} WritesKeepCurrent(w: World, xs: seq<Write>, local: Namespace)
    requires Current(w, local)
    ensures Current(AfterWrites(w, xs), local) && AfterWrites(w, xs).log == w.log
  {
    if xs != [] {
      WritesKeepCurrent(w, xs[..|xs| - 1], local);
    }
  }

  lemma MeanwhileKeepsCurrent(w: World, local: Namespace)
    requires Current(w, local)
    ensures Current(Meanwhile(w), local) && Meanwhile(w).log == w.log
  {
    if w.turns != [] {
      WritesKeepCurrent(w.(turns := w.turns[1..]), w.turns[0].others, local);
    }
  }

  lemma DeletionKeepsCurrent(w: World, t: Template, local: Namespace)
    requires Current(w, local)
    ensures var d := Deletion(w, t).world; Current(d, local) && Basis(d.log) == Basis(w.log)
  {
    MeanwhileKeepsCurrent(w, local);
    Later(w.log, Deleted(t.name, t.key));
  }

  lemma CreationKeepsCurrent(w: World, t: Template, local: Namespace)
    requires Current(w, local)
    ensures var c := Creation(w, t).world; Current(c, local) && Basis(c.log) == Basis(w.log)
  {
    MeanwhileKeepsCurrent(w, local);
    Later(w.log, Created(t.name, t.key));
    Later(w.log, Existed(t.name, t.key));
  }

  lemma ClearingKeepsCurrent(w: World, t: Template, local: Namespace)
    requires Current(w, local)
    ensures var d := Clearing(w, t).world; Current(d, local) && Basis(d.log) == Basis(w.log)
  {
    MeanwhileKeepsCurrent(w, local);
    DeletionKeepsCurrent(Looking(w, t).world, t, local);
  }

  lemma RecreationKeepsCurrent(w: World, t: Template, local: Namespace)
    requires Current(w, local)
    ensures var p := Recreation(w, t).world; Current(p, local) && Basis(p.log) == Basis(w.log)
  {
    ClearingKeepsCurrent(w, t, local);
    CreationKeepsCurrent(Clearing(w, t).world, t, local);
  }

  lemma SendingKeepsCurrent(w: World, c: Namespace, key: string)
    requires Current(w, c)
    ensures Current(Sending(w, c, key).world, c)
  {
    MeanwhileKeepsCurrent(w, c);
    Later(w.log, Updated(key, c.annotations, true));
    Later(w.log, Updated(key, c.annotations, false));
  }

  lemma ReadingKeepsCurrent(w: World, c: Namespace)
    requires Current(w, c)
    ensures var r := Reading(w, c); Current(r.world, r.local)
  {
    MeanwhileKeepsCurrent(w, c);
    var v := Meanwhile(w);
    if v.ns.Some? {
      Later(w.log, Read(v.ns.value.annotations));
    }
  }

  lemma VisitKeepsCurrent(w: World, local: Namespace, t: Template)
    requires Current(w, local)
    ensures var r := Visiting(w, local, t); Current(r.world, r.local)
  {
    if t.key !in local.annotations {
      RecreationKeepsCurrent(w, t, local);
      var p := Recreation(w, t).world;
      var c := WithKey(local, t.key);
      SendingKeepsCurrent(p, c, t.key);
      ReadingKeepsCurrent(Sending(p, c, t.key).world, c);
    }
  }

  /** The copy is current in the sense above, unless the first read failed. */
  predicate CurrentUnless(r: Result) {
    (r.error.Some? && r.world.log == []) || Current(r.world, r.local)
  }

  lemma RunIsCurrent(w: World, templates: seq<Template>, n: nat)
    requires n <= |templates| && WellFormed(w)
    ensures CurrentUnless(Running(w, templates, n))
  {
    OpeningIsCurrent(w);
    forall r: Result, t: Template | CurrentUnless(r)
      ensures CurrentUnless(Advanced(r, t))
    {
      if r.error.None? {
        VisitKeepsCurrent(r.world, r.local, t);
      }
    }
    FoldKeeps(Advanced, Opening(w), templates, n, r => CurrentUnless(r));
  }

  lemma OpeningIsCurrent(w: World)
    requires WellFormed(w)
    ensures var r := Opening(w); if r.error.Some? then r.world.log == [] else Current(r.world, r.local)
  {
    var v := Fresh(w);
    if v.turns != [] {
      WritesKeepWellFormed(v.(turns := v.turns[1..]), v.turns[0].others);
    }
    MeanwhileKeepsLog(v);
    Later([], Read(Opening(w).local.annotations));
  }

  lemma {:induction false} WritesKeepWellFormed(w: World, xs: seq<Write>)
    requires WellFormed(w)
    ensures WellFormed(AfterWrites(w, xs))
  {
    if xs != [] {
      WritesKeepWellFormed(w, xs[..|xs| - 1]);
    }
  }

  /**
   In every call, an accepted update replaces exactly the revision last read, with no other accepted
   update since, and keeps all of its keys.
   */
  lemma AcceptedReplacesLastRead(w: World, templates: seq<Template>, n: nat)
    requires n < |templates| && WellFormed(w) && Running(w, templates, n).error.None?
    requires var r := Running(w, templates, n); templates[n].key !in r.local.annotations
    ensures var r := Running(w, templates, n); var t := templates[n];
            var p := Recreation(r.world, t).world; var c := WithKey(r.local, t.key);
            Sending(p, c, t.key).error.None? ==>
              var before := Meanwhile(p).ns;
              before.Some? && Basis(r.world.log) == Some(before.value.annotations) && before.value.annotations.Keys <= c.annotations.Keys
  {
    var r := Running(w, templates, n);
    RunIsCurrent(w, templates, n);
    RunTracks(w, templates, n);
    RecreationKeepsCurrent(r.world, templates[n], r.local);
    MeanwhileKeepsCurrent(Recreation(r.world, templates[n]).world, r.local);
    if Basis(r.world.log).Some? {
      BasisIsKnown(r.world.log);
    }
  }

  /**
   Values are another matter.  An accepted update keeps the value a key has in the revision it
   replaces if and only if that is the first value this call has seen for the key, in entry p.
   */
  lemma AcceptedKeepsValueIff(w: World, templates: seq<Template>, n: nat, k: string) returns (p: nat)
    requires n < |templates| && WellFormed(w) && Running(w, templates, n).error.None?
    requires var r := Running(w, templates, n); var t := templates[n];
             && t.key !in r.local.annotations
             && Sending(Recreation(r.world, t).world, WithKey(r.local, t.key), t.key).error.None?
             && HasKey(Meanwhile(Recreation(r.world, t).world), k)
    ensures var r := Running(w, templates, n); var t := templates[n];
            var before := Meanwhile(Recreation(r.world, t).world).ns.value.annotations;
            var after := Sending(Recreation(r.world, t).world, WithKey(r.local, t.key), t.key).world;
            && HasKey(after, k) && p < |r.world.log| && Mentions(r.world.log[p], k) && (forall j :: 0 <= j < p ==> !Mentions(r.world.log[j], k))
            && (after.ns.value.annotations[k] == before[k] <==> Brings(r.world.log[p], k, before[k]))
  {
    var r, t := Running(w, templates, n), templates[n];
    AcceptedReplacesLastRead(w, templates, n);
    RunTracks(w, templates, n);
    BasisIsKnown(r.world.log);
    p := FirstValueStays(r.world.log, k);
    OneValue(r.world.log[p], k, r.local.annotations[k], Meanwhile(Recreation(r.world, t).world).ns.value.annotations[k]);
  }

  lemma OneValue(e: Event, k: string, v: string, x: string)
    requires Brings(e, k, v)
    ensures v == x <==> Brings(e, k, x)
  {
  }

  function Updates(log: seq<Event>): nat {
    if log == [] then 0 else Updates(log[..|log| - 1]) + if log[|log| - 1].Updated? then 1 else 0
  }

  function Accepteds(log: seq<Event>): nat {
    if log == [] then 0 else Accepteds(log[..|log| - 1]) + if Accepted(log[|log| - 1]) then 1 else 0
  }

  lemma {:induction false} HalfAccepted(log: seq<Event>)
    requires Legal(log) && Alternating(log)
    ensures 2 * Accepteds(log) <= Updates(log) + 1
    ensures Basis(log).Some? || (log != [] && log[|log| - 1].Updated? && !Accepted(log[|log| - 1])) ==> 2 * Accepteds(log) <= Updates(log)
  {
    if log != [] {
      HalfAccepted(log[..|log| - 1]);
    }
  }

  /** Whatever the others do, a call that needs several updates gets at most every second one accepted. */
  lemma AtMostHalfAccepted(w: World, templates: seq<Template>)
    requires WellFormed(w)
    ensures var log := Setting(w, templates).world.log; 2 * Accepteds(log) <= Updates(log) + 1
  {
    RunTracks(w, templates, |templates|);
    RunIsCurrent(w, templates, |templates|);
    HalfAccepted(Setting(w, templates).world.log);
  }
}
