/** The order of a call's requests and which answers it goes on from, under every script. */
module NamespacePolicyRequests {
  import opened Wrappers
  import opened NamespacePolicies
  import opened NamespacePolicyRuns

  /** The answers that do not end a call. */
  predicate Tolerated(q: Request) {
    match q
    case GetNamespace(answer) => answer.None?
    case GetPolicy(_, _) => true
    case DeletePolicy(_, answer) => answer.None? || answer == Some(NotFound)
    case CreatePolicy(_, answer) => answer.None? || answer == Some(AlreadyExists)
    case UpdateNamespace(answer) => answer.None? || answer == Some(Conflict)
  }

  /** What comes next: a policy found is deleted, then created anew, then the namespace updated, and read again on a conflict. */
  predicate Follows(q: Request, next: Request) {
    Tolerated(q) && match q
      case GetNamespace(_) => next.GetPolicy?
      case GetPolicy(name, answer) => if answer.None? then next.DeletePolicy? && next.name == name else next.CreatePolicy? && next.name == name
      case DeletePolicy(name, _) => next.CreatePolicy? && next.name == name
      case CreatePolicy(_, _) => next.UpdateNamespace?
      case UpdateNamespace(answer) => if answer.None? then next.GetPolicy? else next.GetNamespace?
  }

  predicate Proper(qs: seq<Request>) {
    qs != []
    && if |qs| == 1 then qs[0].GetNamespace? else Proper(qs[..|qs| - 1]) && Follows(qs[|qs| - 2], qs[|qs| - 1])
  }

  function Last(qs: seq<Request>): Request
    requires qs != []
  {
    qs[|qs| - 1]
  }

  /** The requests up to the end of a template's turn. */
  predicate Rests(qs: seq<Request>) {
    Proper(qs) && Last(qs).answer.None? && (Last(qs).GetNamespace? || Last(qs).UpdateNamespace?)
  }

  /** The requests of a call that has ended with this error. */
  predicate EndsWith(qs: seq<Request>, error: Option<Error>) {
    Proper(qs) && !Tolerated(Last(qs)) && Last(qs).answer == error
  }

  lemma OneMore(qs: seq<Request>, q: Request)
    requires Proper(qs) && Follows(Last(qs), q)
    ensures Proper(qs + [q]) && Last(qs + [q]) == q
  {
    assert (qs + [q])[..|qs|] == qs;
  }

  lemma {:induction false} OthersKeepRequests(w: World, xs: seq<Write>)
    ensures AfterWrites(w, xs).requests == w.requests
  {
    if xs != [] {
      OthersKeepRequests(w, xs[..|xs| - 1]);
    }
  }

  lemma MeanwhileKeepsRequests(w: World)
    ensures Meanwhile(w).requests == w.requests
  {
    if w.turns != [] {
      OthersKeepRequests(w.(turns := w.turns[1..]), w.turns[0].others);
    }
  }

  // ---------------------------------------------------------------------------------------------
  // One template.

  lemma LookingAsks(w: World, t: Template)
    ensures var l := Looking(w, t); l.world.requests == w.requests + [Request.GetPolicy(t.name, l.error)]
  {
    MeanwhileKeepsRequests(w);
  }

  lemma DeletionAsks(w: World, t: Template)
    ensures var d := Deletion(w, t); d.world.requests == w.requests + [Request.DeletePolicy(t.name, d.error)]
  {
    MeanwhileKeepsRequests(w);
  }

  lemma CreationAsks(w: World, t: Template)
    ensures var c := Creation(w, t); c.world.requests == w.requests + [Request.CreatePolicy(t.name, c.error)]
  {
    MeanwhileKeepsRequests(w);
  }

  lemma SendingAsks(w: World, local: Namespace, key: string)
    ensures var u := Sending(w, local, key); u.world.requests == w.requests + [Request.UpdateNamespace(u.error)]
  {
    MeanwhileKeepsRequests(w);
  }

  lemma ReadingAsks(w: World, local: Namespace)
    ensures var r := Reading(w, local); r.world.requests == w.requests + [Request.GetNamespace(r.error)]
  {
    MeanwhileKeepsRequests(w);
  }

  /** Ready for the creation of the policy. */
  predicate Cleared(qs: seq<Request>, name: string) {
    && Proper(qs) && Tolerated(Last(qs))
    && (Last(qs) == Request.DeletePolicy(name, Last(qs).answer) || (Last(qs) == Request.GetPolicy(name, Last(qs).answer) && Last(qs).answer.Some?))
  }

  lemma ClearingIsProper(w: World, t: Template)
    requires Rests(w.requests)
    ensures var d := Clearing(w, t);
            if d.error.None? || d.error == Some(NotFound) then Cleared(d.world.requests, t.name) else EndsWith(d.world.requests, d.error)
  {
    var l := Looking(w, t);
    LookingAsks(w, t);
    OneMore(w.requests, Request.GetPolicy(t.name, l.error));
    if l.error.None? {
      var d := Deletion(l.world, t);
      DeletionAsks(l.world, t);
      OneMore(l.world.requests, Request.DeletePolicy(t.name, d.error));
    }
  }

  lemma RecreationIsProper(w: World, t: Template)
    requires Rests(w.requests)
    ensures var p := Recreation(w, t); var qs := p.world.requests;
            if p.error.None? then Proper(qs) && Last(qs).CreatePolicy? && Tolerated(Last(qs)) else EndsWith(qs, p.error)
  {
    var d := Clearing(w, t);
    ClearingIsProper(w, t);
    if d.error.None? || d.error == Some(NotFound) {
      CreationAsks(d.world, t);
      OneMore(d.world.requests, Request.CreatePolicy(t.name, Creation(d.world, t).error));
    }
  }

  lemma RecordingIsProper(w: World, local: Namespace, key: string)
    requires Proper(w.requests) && Last(w.requests).CreatePolicy? && Tolerated(Last(w.requests))
    ensures var r := Recording(w, local, key);
            if r.error.None? then Rests(r.world.requests) else EndsWith(r.world.requests, r.error)
  {
    var u := Sending(w, local, key);
    SendingAsks(w, local, key);
    OneMore(w.requests, Request.UpdateNamespace(u.error));
    if u.error == Some(Conflict) {
      ReadingAsks(u.world, local);
      OneMore(u.world.requests, Request.GetNamespace(Reading(u.world, local).error));
    }
  }

  lemma VisitIsProper(w: World, local: Namespace, t: Template)
    requires Rests(w.requests)
    ensures var r := Visiting(w, local, t);
            if r.error.None? then Rests(r.world.requests) else EndsWith(r.world.requests, r.error)
  {
    if t.key !in local.annotations {
      RecreationIsProper(w, t);
      if Recreation(w, t).error.None? {
        RecordingIsProper(Recreation(w, t).world, WithKey(local, t.key), t.key);
      }
    }
  }

  // ---------------------------------------------------------------------------------------------
  // A call.

  lemma OpeningIsProper(w: World)
    ensures var r := Opening(w); if r.error.None? then Rests(r.world.requests) else EndsWith(r.world.requests, r.error)
  {
    ReadingAsks(Fresh(w), Namespace(0, map[]));
  }

  /** The requests are in order, and an error so far is the answer to the last of them, which alone is not tolerated. */
  predicate InOrder(r: Result) {
    if r.error.None? then Rests(r.world.requests) else EndsWith(r.world.requests, r.error)
  }

  /** So it is at every point of every call. */
  lemma RunIsProper(w: World, templates: seq<Template>, n: nat)
    requires n <= |templates|
    ensures InOrder(Running(w, templates, n))
  {
    OpeningIsProper(w);
    forall r: Result, t: Template | InOrder(r)
      ensures InOrder(Advanced(r, t))
    {
      if r.error.None? {
        VisitIsProper(r.world, r.local, t);
      }
    }
    FoldKeeps(Advanced, Opening(w), templates, n, r => InOrder(r));
  }

  lemma {:induction false} EarlierAreTolerated(qs: seq<Request>, i: nat)
    requires Proper(qs) && i < |qs| - 1
    ensures Tolerated(qs[i]) && Follows(qs[i], qs[i + 1])
  {
    if i < |qs| - 2 {
      EarlierAreTolerated(qs[..|qs| - 1], i);
    }
  }

  /**
   A call returns nil if and only if every answer was one it may go on from: anything to a policy
   lookup, not found to a deletion, already exists to a creation, a conflict to an update.  Otherwise
   it returns the answer it stopped at.
   */
  lemma NilIffTolerated(w: World, templates: seq<Template>)
    ensures var r := Setting(w, templates);
            && (r.error.None? <==> forall i :: 0 <= i < |r.world.requests| ==> Tolerated(r.world.requests[i]))
            && r.world.requests != [] && (r.error.Some? ==> Last(r.world.requests).answer == r.error)
  {
    RunIsProper(w, templates, |templates|);
    var qs := Setting(w, templates).world.requests;
    forall i | 0 <= i < |qs| - 1
      ensures Tolerated(qs[i])
    {
      EarlierAreTolerated(qs, i);
    }
  }

  /** A policy that could not be deleted ends the turn: nothing is recorded, and what others made of the namespace stays. */
  lemma RefusedDeletionEndsTurn(w: World, local: Namespace, t: Template)
    requires t.key !in local.annotations && !Refused(w) && t.name in Meanwhile(w).policies && Refused(Meanwhile(w))
    ensures var r := Visiting(w, local, t);
            r.error == Some(Other) && r.local == local && r.world.log == w.log && r.world.ns == Meanwhile(Meanwhile(w)).ns
            && r.world.policies == Meanwhile(Meanwhile(w)).policies
  {
    MeanwhileKeepsLog(w);
    MeanwhileKeepsLog(Looking(w, t).world);
    AskedMeanwhile(Meanwhile(w), Request.GetPolicy(t.name, None));
  }

  lemma AskedMeanwhile(w: World, q: Request)
    ensures Meanwhile(Asked(w, q)) == Asked(Meanwhile(w), q)
  {
    if w.turns != [] {
      AskedWrites(w.(turns := w.turns[1..]), w.turns[0].others, q);
    }
  }

  lemma {:induction false} AskedWrites(w: World, xs: seq<Write>, q: Request)
    ensures AfterWrites(Asked(w, q), xs) == Asked(AfterWrites(w, xs), q)
  {
    OthersKeepRequests(w, xs);
    if xs != [] {
      AskedWrites(w, xs[..|xs| - 1], q);
    }
  }

  /** A policy that was found and is still there is deleted before it is created anew. */
  lemma FoundIsDeleted(w: World, t: Template)
    requires Looking(w, t).error.None? && Recreation(w, t).error.None? && t.name in Meanwhile(Looking(w, t).world).policies
    ensures Deleted(t.name, t.key) in Recreation(w, t).world.log
  {
    var l := Looking(w, t).world;
    assert Clearing(w, t).world.log == Meanwhile(l).log + [Deleted(t.name, t.key)];
    MeanwhileKeepsLog(Clearing(w, t).world);
    assert Deleted(t.name, t.key) in Clearing(w, t).world.log;
  }

  /** Without an error the policy is there afterwards. */
  lemma RecreatedIsThere(w: World, t: Template)
    requires Recreation(w, t).error.None?
    ensures t.name in Recreation(w, t).world.policies
  {
  }

  /** A refusal is always told, and changes nothing on the server. */
  lemma RefusalIsTold(w: World, local: Namespace, t: Template)
    requires Refused(w)
    ensures Looking(w, t).error == Deletion(w, t).error == Creation(w, t).error == Some(Other)
    ensures Reading(w, local).error == Sending(w, local, t.key).error == Some(Other)
    ensures Deletion(w, t).world.policies == Creation(w, t).world.policies == Meanwhile(w).policies
    ensures Sending(w, local, t.key).world.ns == Meanwhile(w).ns
  {
  }
}
