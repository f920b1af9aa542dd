/**
 Applying default network policies to a namespace and recording each in an annotation, against an
 API server shared with other writers.  What the others do, and which calls are refused, is a script
 fixed in advance, so every call is a function of the world it starts in; the class below runs the
 loops and is proved to compute exactly these functions.  A conflict merges the server's copy and
 goes on without a second attempt, and the result of an accepted update is thrown away: both are
 modelled as they are.
 */
module NamespacePolicies {
  import opened Wrappers

  datatype Error = NotFound | AlreadyExists | Conflict | Other

  datatype Namespace = Namespace(version: nat, annotations: map<string, string>)

  datatype Template = Template(name: string, key: string)

  const RESOLVED := "resolved"

  /** What other clients may do. */
  datatype Write = PutNamespace(annotations: map<string, string>) | DeleteNamespace | AddPolicy(name: string) | DropPolicy(name: string)

  /** What happens right before one of our calls, and whether that call is refused. */
  datatype Turn = Turn(others: seq<Write>, refused: bool)

  /**
   What the client sees and does: a revision read, a policy deleted, created or found existing, an
   update sent.  `key` is the annotation key of the template at hand.
   */
  datatype Event =
    | Read(annotations: map<string, string>)
    | Deleted(name: string, key: string)
    | Created(name: string, key: string)
    | Existed(name: string, key: string)
    | Updated(key: string, sent: map<string, string>, accepted: bool)

  /** A request to the server and how it was answered. */
  datatype Request =
    | GetNamespace(answer: Option<Error>)
    | GetPolicy(name: string, answer: Option<Error>)
    | DeletePolicy(name: string, answer: Option<Error>)
    | CreatePolicy(name: string, answer: Option<Error>)
    | UpdateNamespace(answer: Option<Error>)

  /** The server, the script of what is still to come, and the log and the requests of the current call. */
  datatype World = World(
    ns: Option<Namespace>,
    clock: nat,
    policies: set<string>,
    turns: seq<Turn>,
    log: seq<Event>,
    requests: seq<Request>)

  // ---------------------------------------------------------------------------------------------
  // The calls, as functions of the world.

  function AfterWrite(w: World, x: Write): World {
    match x
    case PutNamespace(annotations) => w.(ns := Some(Namespace(w.clock, annotations)), clock := w.clock + 1)
    case DeleteNamespace => w.(ns := None)
    case AddPolicy(name) => w.(policies := w.policies + {name})
    case DropPolicy(name) => w.(policies := w.policies - {name})
  }

  function AfterWrites(w: World, xs: seq<Write>): World {
    if xs == [] then w else AfterWrite(AfterWrites(w, xs[..|xs| - 1]), xs[|xs| - 1])
  }

  /** The others take their turn before a call. */
  function Meanwhile(w: World): World {
    if w.turns == [] then w else AfterWrites(w.(turns := w.turns[1..]), w.turns[0].others)
  }

  predicate Refused(w: World) {
    w.turns != [] && w.turns[0].refused
  }

  function Logged(w: World, e: Event): World {
    w.(log := w.log + [e])
  }

  function Asked(w: World, q: Request): World {
    w.(requests := w.requests + [q])
  }

  /** What a call on policies leaves. */
  datatype Effect = Effect(world: World, error: Option<Error>)

  function Deletion(w: World, t: Template): Effect {
    var v := Meanwhile(w);
    var answer := if Refused(w) then Some(Other) else if t.name !in v.policies then Some(NotFound) else None;
    var u := Asked(v, DeletePolicy(t.name, answer));
    Effect(if answer.Some? then u else Logged(u.(policies := u.policies - {t.name}), Deleted(t.name, t.key)), answer)
  }

  function Creation(w: World, t: Template): Effect {
    var v := Meanwhile(w);
    var answer := if Refused(w) then Some(Other) else if t.name in v.policies then Some(AlreadyExists) else None;
    var u := Asked(v, CreatePolicy(t.name, answer));
    Effect(if answer == Some(Other) then u
           else if answer.Some? then Logged(u, Existed(t.name, t.key))
           else Logged(u.(policies := u.policies + {t.name}), Created(t.name, t.key)), answer)
  }

  function Looking(w: World, t: Template): Effect {
    var v := Meanwhile(w);
    var answer := if Refused(w) then Some(Other) else if t.name in v.policies then None else Some(NotFound);
    Effect(Asked(v, GetPolicy(t.name, answer)), answer)
  }

  /** Look for the policy, delete it if it is there. */
  function Clearing(w: World, t: Template): Effect {
    var l := Looking(w, t);
    if l.error.None? then Deletion(l.world, t) else Effect(l.world, None)
  }

  /** Clear the way and create the policy; an existing one is taken as created. */
  function Recreation(w: World, t: Template): Effect {
    var d := Clearing(w, t);
    if d.error.Some? && d.error != Some(NotFound) then d
    else
      var c := Creation(d.world, t);
      if c.error == Some(AlreadyExists) then c.(error := None) else c
  }

  /** What a template, or a whole call, leaves: also the client's copy of the namespace. */
  datatype Result = Result(world: World, error: Option<Error>, local: Namespace)

  /** A read of the namespace; without an answer the copy is `local`. */
  function Reading(w: World, local: Namespace): Result {
    var v := Meanwhile(w);
    var answer := if Refused(w) then Some(Other) else if v.ns.None? then Some(NotFound) else None;
    var u := Asked(v, GetNamespace(answer));
    if answer.Some? then Result(u, answer, local) else Result(Logged(u, Read(v.ns.value.annotations)), None, v.ns.value)
  }

  /** updateNamespaceRef: the latest revision with our annotations copied over it. */
  function Refreshing(w: World, local: Namespace): Result {
    var r := Reading(w, local);
    if r.error.Some? then r
    else r.(local := Namespace(r.local.version, r.local.annotations + local.annotations))
  }

  /** One update of the copy, as the server answers it. */
  function Sending(w: World, local: Namespace, key: string): Effect {
    var v := Meanwhile(w);
    var answer := if Refused(w) then Some(Other)
                  else if v.ns.None? then Some(NotFound)
                  else if v.ns.value.version != local.version then Some(Conflict)
                  else None;
    var u := Logged(Asked(v, UpdateNamespace(answer)), Updated(key, local.annotations, answer.None?));
    Effect(if answer.Some? then u else u.(ns := Some(Namespace(u.clock, local.annotations)), clock := u.clock + 1), answer)
  }

  /** One update; the stored revision is not copied back, and a conflict only refreshes the copy. */
  function Recording(w: World, local: Namespace, key: string): Result {
    var u := Sending(w, local, key);
    if u.error == Some(Conflict) then Refreshing(u.world, local) else Result(u.world, u.error, local)
  }

  function WithKey(local: Namespace, key: string): Namespace {
    local.(annotations := local.annotations[key := RESOLVED])
  }

  /** One template: nothing to do if its key is in the copy. */
  function Visiting(w: World, local: Namespace, t: Template): Result {
    if t.key in local.annotations then Result(w, None, local)
    else
      var p := Recreation(w, t);
      if p.error.Some? then Result(p.world, p.error, local)
      else Recording(p.world, WithKey(local, t.key), t.key)
  }

  function Fresh(w: World): World {
    w.(log := [], requests := [])
  }

  /** The first read of a call, with a new log. */
  function Opening(w: World): Result {
    Reading(Fresh(w), Namespace(0, map[]))
  }

  /** On to the next template, unless there was an error. */
  function Advanced(r: Result, t: Template): Result {
    if r.error.Some? then r else Visiting(r.world, r.local, t)
  }

  function Fold(step: (Result, Template) -> Result, start: Result, templates: seq<Template>, n: nat): Result
    requires n <= |templates|
  {
    if n == 0 then start else step(Fold(step, start, templates, n - 1), templates[n - 1])
  }

  /** The call after its first read and n templates. */
  function Running(w: World, templates: seq<Template>, n: nat): Result
    requires n <= |templates|
  {
    Fold(Advanced, Opening(w), templates, n)
  }

  /** setPoliciesFromTemplates as a whole. */
  function Setting(w: World, templates: seq<Template>): Result {
    Running(w, templates, |templates|)
  }

  // ---------------------------------------------------------------------------------------------
  // The code.

  class Server {
    var ns: Option<Namespace>
    var clock: nat
    var policies: set<string>
    var turns: seq<Turn>
    /** What this client has seen and done in the current call. */
    ghost var log: seq<Event>
    ghost var requests: seq<Request>

    ghost function State(): World
      reads this
    {
      World(ns, clock, policies, turns, log, requests)
    }

    constructor (w: World)
      ensures State() == w
    {
      ns, clock, policies, turns := w.ns, w.clock, w.policies, w.turns;
      log, requests := w.log, w.requests;
    }

    method Interfere() returns (refused: bool)
      modifies this
      ensures State() == Meanwhile(old(State())) && refused == Refused(old(State()))
    {
      refused := false;
      if turns != [] {
        var turn := turns[0];
        turns := turns[1..];
        refused := turn.refused;
        ghost var start := State();
        for i := 0 to |turn.others|
          invariant State() == AfterWrites(start, turn.others[..i])
        {
          assert turn.others[..i + 1][..i] == turn.others[..i];
          match turn.others[i]
          case PutNamespace(annotations) =>
            ns, clock := Some(Namespace(clock, annotations)), clock + 1;
          case DeleteNamespace => ns := None;
          case AddPolicy(name) => policies := policies + {name};
          case DropPolicy(name) => policies := policies - {name};
        }
        assert turn.others[..|turn.others|] == turn.others;
      }
    }

    method GetNamespace(local: Namespace) returns (r: Namespace, error: Option<Error>)
      modifies this
      ensures Reading(old(State()), local) == Result(State(), error, r)
    {
      var refused := Interfere();
      r := local;
      error := if refused then Some(Other) else if ns.None? then Some(NotFound) else None;
      requests := requests + [Request.GetNamespace(error)];
      if error.None? {
        log := log + [Read(ns.value.annotations)];
        r := ns.value;
      }
    }

    method GetPolicy(t: Template) returns (error: Option<Error>)
      modifies this
      ensures Looking(old(State()), t) == Effect(State(), error)
    {
      var refused := Interfere();
      error := if refused then Some(Other) else if t.name in policies then None else Some(NotFound);
      requests := requests + [Request.GetPolicy(t.name, error)];
    }

    method DeletePolicy(t: Template) returns (error: Option<Error>)
      modifies this
      ensures Deletion(old(State()), t) == Effect(State(), error)
    {
      var refused := Interfere();
      error := if refused then Some(Other) else if t.name !in policies then Some(NotFound) else None;
      requests := requests + [Request.DeletePolicy(t.name, error)];
      if error.None? {
        policies := policies - {t.name};
        log := log + [Deleted(t.name, t.key)];
      }
    }

    method CreatePolicy(t: Template) returns (error: Option<Error>)
      modifies this
      ensures Creation(old(State()), t) == Effect(State(), error)
    {
      var refused := Interfere();
      error := if refused then Some(Other) else if t.name in policies then Some(AlreadyExists) else None;
      requests := requests + [Request.CreatePolicy(t.name, error)];
      if error.None? {
        policies := policies + {t.name};
        log := log + [Created(t.name, t.key)];
      } else if error == Some(AlreadyExists) {
        log := log + [Existed(t.name, t.key)];
      }
    }

    method Recreate(t: Template) returns (error: Option<Error>)
      modifies this
      ensures Recreation(old(State()), t) == Effect(State(), error)
    {
      error := GetPolicy(t);
      if error.None? {
        error := DeletePolicy(t);
        if error.Some? && error != Some(NotFound) {
          return;
        }
      }
      error := CreatePolicy(t);
      if error == Some(AlreadyExists) {
        error := None;
      }
    }

    method UpdateNamespace(sent: Namespace, ghost key: string) returns (error: Option<Error>)
      modifies this
      ensures Sending(old(State()), sent, key) == Effect(State(), error)
    {
      var refused := Interfere();
      error := if refused then Some(Other)
               else if ns.None? then Some(NotFound)
               else if ns.value.version != sent.version then Some(Conflict)
               else None;
      requests := requests + [Request.UpdateNamespace(error)];
      log := log + [Updated(key, sent.annotations, error.None?)];
      if error.None? {
        ns, clock := Some(Namespace(clock, sent.annotations)), clock + 1;
      }
    }

    method Refresh(local: Namespace) returns (error: Option<Error>, merged: Namespace)
      modifies this
      ensures Refreshing(old(State()), local) == Result(State(), error, merged)
      ensures error != Some(Conflict)
    {
      merged, error := GetNamespace(local);
      if error.None? {
        merged := Namespace(merged.version, merged.annotations + local.annotations);
      }
    }

    /** retry.RetryOnConflict around one update; since a conflict turns into the answer of the refresh, nothing is retried. */
    method Store(start: Namespace, key: string, steps: nat) returns (error: Option<Error>, local: Namespace)
      requires steps > 0
      modifies this
      ensures Recording(old(State()), start, key) == Result(State(), error, local)
    {
      local, error := start, None;
      var i, again := 0, true;
      while again && i < steps
        invariant i <= steps && (again <==> i == 0)
        invariant i == 0 ==> local == start && State() == old(State())
        invariant i > 0 ==> Recording(old(State()), start, key) == Result(State(), error, local)
      {
        error := UpdateNamespace(local, key);
        if error == Some(Conflict) {
          error, local := Refresh(local);
        }
        again := error == Some(Conflict);
        i := i + 1;
      }
    }

    /** The body of the loop over templates. */
    method Visit(t: Template, start: Namespace, steps: nat) returns (error: Option<Error>, local: Namespace)
      requires steps > 0
      modifies this
      ensures Visiting(old(State()), start, t) == Result(State(), error, local)
    {
      error, local := None, start;
      if t.key !in local.annotations {
        error := Recreate(t);
        if error.Some? {
          return;
        }
        local := local.(annotations := local.annotations[t.key := RESOLVED]);
        error, local := Store(local, t.key, steps);
      }
    }

    method Open() returns (local: Namespace, error: Option<Error>)
      modifies this
      ensures Opening(old(State())) == Result(State(), error, local)
    {
      log, requests := [], [];
      local, error := GetNamespace(Namespace(0, map[]));
    }

    /** setPoliciesFromTemplates: for every script, exactly what Setting says. */
    method SetPolicies(templates: seq<Template>, steps: nat) returns (error: Option<Error>, local: Namespace)
      requires steps > 0
      modifies this
      ensures Setting(old(State()), templates) == Result(State(), error, local)
    {
      ghost var w := State();
      local, error := Open();
      var i := 0;
      while i < |templates| && error.None?
        invariant i <= |templates| && Running(w, templates, i) == Result(State(), error, local)
      {
        error, local := Visit(templates[i], local, steps);
        i := i + 1;
      }
      StopsAtError(w, templates, i);
    }
  }

  lemma {:induction false} FoldStops(step: (Result, Template) -> Result, start: Result, templates: seq<Template>, n: nat)
    requires n <= |templates|
    requires n < |templates| ==> forall t :: step(Fold(step, start, templates, n), t) == Fold(step, start, templates, n)
    ensures Fold(step, start, templates, |templates|) == Fold(step, start, templates, n)
    decreases |templates| - n
  {
    if n < |templates| {
      FoldStops(step, start, templates, n + 1);
    }
  }

  lemma StopsAtError(w: World, templates: seq<Template>, n: nat)
    requires n <= |templates| && (n < |templates| ==> Running(w, templates, n).error.Some?)
    ensures Setting(w, templates) == Running(w, templates, n)
  {
    FoldStops(Advanced, Opening(w), templates, n);
  }

  /** What holds after the first read and is kept by every template holds throughout. */
  lemma {:induction false} FoldKeeps(step: (Result, Template) -> Result, start: Result, templates: seq<Template>, n: nat, holds: Result -> bool)
    requires n <= |templates| && holds(start)
    requires forall r: Result, t: Template :: t in templates && holds(r) ==> holds(step(r, t))
    ensures holds(Fold(step, start, templates, n))
  {
    if n > 0 {
      FoldKeeps(step, start, templates, n - 1, holds);
      assert templates[n - 1] in templates;
    }
  }

  /** What template i brings about, and every template keeps, holds after it. */
  lemma {:induction false} FoldBrings(step: (Result, Template) -> Result, start: Result, templates: seq<Template>, n: nat, i: nat, holds: Result -> bool)
    requires i < n <= |templates| && forall r: Result :: holds(step(r, templates[i]))
    requires forall r: Result, t: Template :: holds(r) ==> holds(step(r, t))
    ensures holds(Fold(step, start, templates, n))
  {
    if i < n - 1 {
      FoldBrings(step, start, templates, n - 1, i, holds);
    }
  }

}
