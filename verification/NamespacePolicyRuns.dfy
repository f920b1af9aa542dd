/** Every call, under every script of other writers and refusals: its log is legal and its copy is what the log tells. */
module NamespacePolicyRuns {
  import opened Wrappers
  import opened NamespacePolicies
  import opened NamespacePolicyLogs

  /** The copy is exactly what this call has learnt. */
  predicate Tracked(w: World, local: Namespace) {
    w.log != [] && Legal(w.log) && local.annotations == Knowledge(w.log)
  }

  /** The keys an update was sent for, in order. */
  function UpdateKeys(log: seq<Event>): seq<string> {
    if log == [] then []
    else UpdateKeys(log[..|log| - 1]) + if log[|log| - 1].Updated? then [log[|log| - 1].key] else []
  }

  /** The keys that were not in the copy when their template's turn came. */
  function Missed(step: (Result, Template) -> Result, start: Result, templates: seq<Template>, n: nat): seq<string>
    requires n <= |templates|
  {
    if n == 0 then []
    else
      Missed(step, start, templates, n - 1)
      + if templates[n - 1].key in Fold(step, start, templates, n - 1).local.annotations then [] else [templates[n - 1].key]
  }

  function MissingAtTurn(w: World, templates: seq<Template>, n: nat): seq<string>
    requires n <= |templates|
  {
    Missed(Advanced, Opening(w), templates, n)
  }

  lemma {:induction false} OthersKeepLog(w: World, xs: seq<Write>)
    ensures AfterWrites(w, xs).log == w.log && AfterWrites(w, xs).turns == w.turns
  {
    if xs != [] {
      OthersKeepLog(w, xs[..|xs| - 1]);
    }
  }

  lemma MeanwhileKeepsLog(w: World)
    ensures Meanwhile(w).log == w.log
  {
    if w.turns != [] {
      OthersKeepLog(w.(turns := w.turns[1..]), w.turns[0].others);
    }
  }

  lemma Grow(log: seq<Event>, e: Event)
    ensures Legal(log + [e]) <==> Legal(log) && Fits(log, e)
    ensures Knowledge(log + [e]) == Learn(Knowledge(log), e)
    ensures UpdateKeys(log + [e]) == UpdateKeys(log) + if e.Updated? then [e.key] else []
    ensures log <= log + [e]
  {
    Append(log, e);
    assert (log + [e])[..|log|] == log;
  }

  // ---------------------------------------------------------------------------------------------
  // One template.

  predicate Extends(w: World, local: Namespace, v: World) {
    Tracked(v, local) && w.log <= v.log && UpdateKeys(v.log) == UpdateKeys(w.log)
  }

  lemma DeletionTracks(w: World, t: Template, local: Namespace)
    requires Tracked(w, local) && t.key !in local.annotations
    ensures Extends(w, local, Deletion(w, t).world)
  {
    MeanwhileKeepsLog(w);
    Grow(w.log, Deleted(t.name, t.key));
  }

  lemma CreationTracks(w: World, t: Template, local: Namespace)
    requires Tracked(w, local) && t.key !in local.annotations
    ensures var c := Creation(w, t);
            && Extends(w, local, c.world)
            && (c.error.None? || c.error == Some(AlreadyExists) ==> Established(c.world.log[|c.world.log| - 1], t.key))
  {
    MeanwhileKeepsLog(w);
    Grow(w.log, Created(t.name, t.key));
    Grow(w.log, Existed(t.name, t.key));
  }

  lemma ClearingTracks(w: World, t: Template, local: Namespace)
    requires Tracked(w, local) && t.key !in local.annotations
    ensures Extends(w, local, Clearing(w, t).world)
  {
    MeanwhileKeepsLog(w);
    DeletionTracks(Looking(w, t).world, t, local);
  }

  lemma RecreationTracks(w: World, t: Template, local: Namespace)
    requires Tracked(w, local) && t.key !in local.annotations
    ensures var p := Recreation(w, t);
            && Extends(w, local, p.world)
            && (p.error.None? ==> Established(p.world.log[|p.world.log| - 1], t.key))
  {
    ClearingTracks(w, t, local);
    CreationTracks(Clearing(w, t).world, t, local);
  }

  lemma SendingLogs(w: World, c: Namespace, key: string)
    ensures var u := Sending(w, c, key); u.world.log == w.log + [Updated(key, c.annotations, u.error.None?)]
  {
    MeanwhileKeepsLog(w);
  }

  lemma SendingTracks(w: World, local: Namespace, key: string)
    requires Tracked(w, local) && key !in local.annotations && Established(w.log[|w.log| - 1], key)
    ensures var c := WithKey(local, key); var u := Sending(w, c, key).world;
            Tracked(u, c) && w.log <= u.log && UpdateKeys(u.log) == UpdateKeys(w.log) + [key]
  {
    var c := WithKey(local, key);
    SendingLogs(w, c, key);
    Grow(w.log, Updated(key, c.annotations, Sending(w, c, key).error.None?));
  }

  lemma RefreshingTracks(w: World, local: Namespace)
    requires Tracked(w, local) && w.log[|w.log| - 1].Updated? && !w.log[|w.log| - 1].accepted
    ensures var r := Refreshing(w, local); Extends(w, r.local, r.world)
    ensures var r := Refreshing(w, local);
            r.error.None? ==> (&& r.world.ns.Some? && r.world.log == w.log + [Read(r.world.ns.value.annotations)]
                               && r.local == Namespace(r.world.ns.value.version, r.world.ns.value.annotations + local.annotations))
  {
    MeanwhileKeepsLog(w);
    var v := Meanwhile(w);
    if v.ns.Some? {
      Grow(w.log, Read(v.ns.value.annotations));
    }
  }

  /** The log grows, the copy stays what the log tells, and one update goes out exactly if the key was missing. */
  lemma VisitTracks(w: World, local: Namespace, t: Template)
    requires Tracked(w, local)
    ensures var r := Visiting(w, local, t);
            && Tracked(r.world, r.local) && w.log <= r.world.log
            && (r.error.None? ==> UpdateKeys(r.world.log) == UpdateKeys(w.log) + if t.key in local.annotations then [] else [t.key])
  {
    if t.key !in local.annotations {
      RecreationTracks(w, t, local);
      var p := Recreation(w, t);
      if p.error.None? {
        RecordingTracks(p.world, local, t.key);
      }
    }
  }

  lemma RecordingTracks(w: World, local: Namespace, key: string)
    requires Tracked(w, local) && key !in local.annotations && Established(w.log[|w.log| - 1], key)
    ensures var r := Recording(w, WithKey(local, key), key);
            Tracked(r.world, r.local) && w.log <= r.world.log && UpdateKeys(r.world.log) == UpdateKeys(w.log) + [key]
  {
    var c := WithKey(local, key);
    SendingTracks(w, local, key);
    SendingLogs(w, c, key);
    var u := Sending(w, c, key);
    if u.error == Some(Conflict) {
      RefreshingTracks(u.world, c);
    }
  }

  lemma VisitKeepsKeys(w: World, local: Namespace, t: Template, k: string)
    requires k in local.annotations || (k == t.key && Visiting(w, local, t).error.None?)
    ensures k in Visiting(w, local, t).local.annotations
  {
  }

  /** The copy after an accepted update, which is what the server then has. */
  predicate AfterAccepted(key: string, c: Namespace, r: Result) {
    && r.local == c && r.world.ns.Some? && r.world.ns.value.annotations == c.annotations
    && r.world.log != [] && r.world.log[|r.world.log| - 1] == Updated(key, c.annotations, true)
  }

  /** The copy after a conflict: the revision then on the server, with what was sent over it. */
  predicate AfterConflict(key: string, c: Namespace, r: Result) {
    && r.world.ns.Some?
    && r.local == Namespace(r.world.ns.value.version, r.world.ns.value.annotations + c.annotations)
    && |r.world.log| >= 2 && r.world.log[|r.world.log| - 2] == Updated(key, c.annotations, false)
    && r.world.log[|r.world.log| - 1] == Read(r.world.ns.value.annotations)
  }

  lemma RecordingExactly(w: World, c: Namespace, key: string)
    requires Recording(w, c, key).error.None?
    ensures AfterAccepted(key, c, Recording(w, c, key)) || AfterConflict(key, c, Recording(w, c, key))
  {
    var u := Sending(w, c, key);
    SendingLogs(w, c, key);
    MeanwhileKeepsLog(u.world);
  }

  /** What the turn of a missing template leaves in the copy, exactly. */
  lemma TurnExactly(w: World, local: Namespace, t: Template)
    requires t.key !in local.annotations && Visiting(w, local, t).error.None?
    ensures var r := Visiting(w, local, t); var c := WithKey(local, t.key);
            AfterAccepted(t.key, c, r) || AfterConflict(t.key, c, r)
  {
    RecordingExactly(Recreation(w, t).world, WithKey(local, t.key), t.key);
  }

  // ---------------------------------------------------------------------------------------------
  // A call.

  /** What the first read of the call saw. */
  predicate StartsWithRead(w: World, log: seq<Event>) {
    log != [] && Meanwhile(w).ns.Some? && log[0] == Read(Meanwhile(w).ns.value.annotations)
  }

  lemma OpeningTracks(w: World)
    ensures var r := Opening(w); if r.error.Some? then r.world.log == [] else
              Tracked(r.world, r.local) && StartsWithRead(w, r.world.log) && UpdateKeys(r.world.log) == []
  {
    MeanwhileKeepsLog(Fresh(w));
    ResetLog(w);
    var v := Meanwhile(Fresh(w));
    if v.ns.Some? {
      Grow([], Read(v.ns.value.annotations));
      assert [] + [Read(v.ns.value.annotations)] == [Read(v.ns.value.annotations)];
    }
  }

  /** The others do not look at our log. */
  lemma ResetLog(w: World)
    ensures Meanwhile(Fresh(w)) == Fresh(Meanwhile(w))
  {
    if w.turns != [] {
      WritesIgnoreLog(w.(turns := w.turns[1..]), w.turns[0].others);
    }
  }

  lemma {:induction false} WritesIgnoreLog(w: World, xs: seq<Write>)
    ensures AfterWrites(Fresh(w), xs) == Fresh(AfterWrites(w, xs))
  {
    if xs != [] {
      WritesIgnoreLog(w, xs[..|xs| - 1]);
    }
  }

  /** The log starts with the revision on the server at the first read, is legal, and tells the copy. */
  predicate Sound(w: World, r: Result) {
    if r.world.log == [] then r.error.Some? else Tracked(r.world, r.local) && StartsWithRead(w, r.world.log)
  }

  /** One update in the turn of a missing template, none in that of another. */
  predicate UpdatesOnce(r: Result, t: Template, next: Result) {
    next.error.None? ==>
      (&& r.error.None?
       && UpdateKeys(next.world.log) == UpdateKeys(r.world.log) + if t.key in r.local.annotations then [] else [t.key])
  }

  lemma StepIsSound(w: World, r: Result, t: Template)
    requires Sound(w, r)
    ensures Sound(w, Advanced(r, t))
    ensures UpdatesOnce(r, t, Advanced(r, t))
  {
    if r.error.None? {
      VisitTracks(r.world, r.local, t);
    }
  }

  /** So it is at every point of every call. */
  lemma RunTracks(w: World, templates: seq<Template>, n: nat)
    requires n <= |templates|
    ensures Sound(w, Running(w, templates, n))
  {
    OpeningTracks(w);
    forall r: Result, t: Template | Sound(w, r)
      ensures Sound(w, Advanced(r, t))
    {
      StepIsSound(w, r, t);
    }
    FoldKeeps(Advanced, Opening(w), templates, n, r => Sound(w, r));
  }

  lemma {:induction false} FoldUpdates(step: (Result, Template) -> Result, start: Result, templates: seq<Template>, n: nat, sound: Result -> bool)
    requires n <= |templates| && sound(start) && (start.error.None? ==> UpdateKeys(start.world.log) == [])
    requires forall r: Result, t: Template :: sound(r) ==> sound(step(r, t))
    requires forall r: Result, t: Template :: sound(r) ==> UpdatesOnce(r, t, step(r, t))
    ensures sound(Fold(step, start, templates, n))
    ensures Fold(step, start, templates, n).error.None? ==> UpdateKeys(Fold(step, start, templates, n).world.log) == Missed(step, start, templates, n)
  {
    if n > 0 {
      FoldUpdates(step, start, templates, n - 1, sound);
    }
  }

  /** Without an error, the updates sent are exactly one for each template missing at its turn, in order. */
  lemma UpdatesAreMissing(w: World, templates: seq<Template>, n: nat)
    requires n <= |templates| && Running(w, templates, n).error.None?
    ensures UpdateKeys(Running(w, templates, n).world.log) == MissingAtTurn(w, templates, n)
  {
    OpeningTracks(w);
    forall r: Result, t: Template | Sound(w, r)
      ensures Sound(w, Advanced(r, t))
      ensures UpdatesOnce(r, t, Advanced(r, t))
    {
      StepIsSound(w, r, t);
    }
    FoldUpdates(Advanced, Opening(w), templates, n, r => Sound(w, r));
  }

  /** Without an error, the copy has the key of every template so far. */
  lemma CopyHasTemplates(w: World, templates: seq<Template>, n: nat, i: nat)
    requires i < n <= |templates| && Running(w, templates, n).error.None?
    ensures templates[i].key in Running(w, templates, n).local.annotations
  {
    var k := templates[i].key;
    forall r: Result
      ensures Has(Advanced(r, templates[i]), k)
    {
      AdvancedHas(r, templates[i], k);
    }
    forall r: Result, t: Template | Has(r, k)
      ensures Has(Advanced(r, t), k)
    {
      AdvancedHas(r, t, k);
    }
    FoldBrings(Advanced, Opening(w), templates, n, i, r => Has(r, k));
  }

  /** The key is in the copy, unless there was an error. */
  predicate Has(r: Result, k: string) {
    r.error.None? ==> k in r.local.annotations
  }

  lemma AdvancedHas(r: Result, t: Template, k: string)
    requires Has(r, k) || t.key == k
    ensures Has(Advanced(r, t), k)
  {
    if Advanced(r, t).error.None? {
      VisitKeepsKeys(r.world, r.local, t, k);
    }
  }

  /** A policy touched by a call has its key outside the annotations the server had at the call's first read. */
  lemma TouchedOnlyIfUnrecorded(w: World, templates: seq<Template>, e: Event)
    requires e in Setting(w, templates).world.log && !e.Read?
    ensures Meanwhile(w).ns.Some? && e.key !in Meanwhile(w).ns.value.annotations
  {
    RunTracks(w, templates, |templates|);
    NotInFirstRead(Setting(w, templates).world.log, e);
  }

  // ---------------------------------------------------------------------------------------------
  // Which policies a call names.

  predicate OnPolicy(e: Event) {
    e.Deleted? || e.Created? || e.Existed?
  }

  predicate NamesTemplates(log: seq<Event>, templates: seq<Template>) {
    forall e :: e in log && OnPolicy(e) ==> Template(e.name, e.key) in templates
  }

  lemma RecreationNames(w: World, t: Template, templates: seq<Template>)
    requires t in templates && NamesTemplates(w.log, templates)
    ensures NamesTemplates(Recreation(w, t).world.log, templates)
  {
    MeanwhileKeepsLog(w);
    MeanwhileKeepsLog(Looking(w, t).world);
    MeanwhileKeepsLog(Clearing(w, t).world);
  }

  lemma RecordingNames(w: World, local: Namespace, key: string, templates: seq<Template>)
    requires NamesTemplates(w.log, templates)
    ensures NamesTemplates(Recording(w, local, key).world.log, templates)
  {
    SendingLogs(w, local, key);
    MeanwhileKeepsLog(Sending(w, local, key).world);
  }

  lemma VisitNames(w: World, local: Namespace, t: Template, templates: seq<Template>)
    requires t in templates && NamesTemplates(w.log, templates)
    ensures NamesTemplates(Visiting(w, local, t).world.log, templates)
  {
    RecreationNames(w, t, templates);
    RecordingNames(Recreation(w, t).world, WithKey(local, t.key), t.key, templates);
  }

  /** The policies a call deletes, creates or finds are those of its templates, under their keys. */
  lemma RunNames(w: World, templates: seq<Template>, n: nat)
    requires n <= |templates|
    ensures NamesTemplates(Running(w, templates, n).world.log, templates)
  {
    MeanwhileKeepsLog(Fresh(w));
    forall r: Result, t: Template | t in templates && NamesTemplates(r.world.log, templates)
      ensures NamesTemplates(Advanced(r, t).world.log, templates)
    {
      if r.error.None? {
        VisitNames(r.world, r.local, t, templates);
      }
    }
    FoldKeeps(Advanced, Opening(w), templates, n, (r: Result) => NamesTemplates(r.world.log, templates));
  }

}
