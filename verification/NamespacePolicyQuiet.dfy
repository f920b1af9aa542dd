/** What a call records when no other client acts and nothing is refused. */
module NamespacePolicyQuiet {
  import opened Wrappers
  import opened NamespacePolicies
  import opened NamespacePolicyStarts

  predicate Quiet(w: World) {
    w.turns == [] && w.ns.Some? && WellFormed(w)
  }

  function Keys(templates: seq<Template>): set<string> {
    if templates == [] then {} else Keys(templates[..|templates| - 1]) + {templates[|templates| - 1].key}
  }

  function Names(templates: seq<Template>): set<string> {
    if templates == [] then {} else Names(templates[..|templates| - 1]) + {templates[|templates| - 1].name}
  }

  /** The templates whose keys are neither in `have` nor those of an earlier template. */
  function Missing(have: set<string>, templates: seq<Template>): seq<Template> {
    if templates == [] then []
    else
      var m := Missing(have, templates[..|templates| - 1]);
      var t := templates[|templates| - 1];
      if t.key in have + Keys(m) then m else m + [t]
  }

  /** Every second update is accepted, so the last missing key is recorded only if their number is odd. */
  function Recorded(missing: seq<Template>): seq<Template> {
    if |missing| % 2 == 1 || missing == [] then missing else missing[..|missing| - 1]
  }

  /** An undisturbed call so far: the policies there are, the keys in the copy and on the server, whether the copy is current. */
  predicate Level(policies: set<string>, known: set<string>, stored: set<string>, current: bool, r: Result) {
    && r.error.None? && Quiet(r.world) && r.local.version < r.world.clock
    && r.world.policies == policies && r.local.annotations.Keys == known && r.world.ns.value.annotations.Keys == stored
    && (r.world.ns.value.version == r.local.version <==> current)
  }

  /** The same after the missing templates `m` have had their turn. */
  predicate Stands(w: World, m: seq<Template>, r: Result)
    requires w.ns.Some?
  {
    var have := w.ns.value.annotations.Keys;
    Level(w.policies + Names(m), have + Keys(m), have + Keys(Recorded(m)), |m| % 2 == 0, r)
  }

  lemma KeysOfMore(m: seq<Template>, t: Template)
    ensures Keys(m + [t]) == Keys(m) + {t.key} && Names(m + [t]) == Names(m) + {t.name}
  {
    assert (m + [t])[..|m|] == m;
  }

  lemma RecordedMore(m: seq<Template>, t: Template)
    ensures Recorded(m + [t]) == if |m| % 2 == 0 then m + [t] else Recorded(m)
  {
    assert (m + [t])[..|m|] == m;
  }

  /** One turn: the policy is there afterwards; an update of a current copy is stored, one of a stale copy makes it current. */
  predicate Turned(w: World, local: Namespace, t: Template, r: Result)
    requires w.ns.Some?
  {
    var c := WithKey(local, t.key);
    && r.error.None? && r.world.turns == [] && r.world.policies == w.policies + {t.name}
    && if w.ns.value.version == local.version
       then r.local == c && r.world.clock == w.clock + 1 && r.world.ns == Some(Namespace(w.clock, c.annotations))
       else r.local == Namespace(w.ns.value.version, w.ns.value.annotations + c.annotations) && r.world.clock == w.clock && r.world.ns == w.ns
  }

  lemma QuietVisit(w: World, local: Namespace, t: Template)
    requires Quiet(w) && local.version < w.clock && t.key !in local.annotations
    ensures Turned(w, local, t, Visiting(w, local, t))
  {
  }

  lemma NextLevel(policies: set<string>, known: set<string>, stored: set<string>, current: bool, r: Result, t: Template, x: Result,
                  policies': set<string>, known': set<string>, stored': set<string>, current': bool)
    requires Level(policies, known, stored, current, r) && Turned(r.world, r.local, t, x) && stored <= known
    requires policies + {t.name} == policies' && known + {t.key} == known' && current' == !current
    requires stored' == if current then known + {t.key} else stored
    ensures Level(policies', known', stored', current', x)
  {
  }

  lemma SetsOfMore(policies: set<string>, have: set<string>, m: seq<Template>, t: Template)
    ensures policies + Names(m) + {t.name} == policies + Names(m + [t])
    ensures have + Keys(m) + {t.key} == have + Keys(m + [t])
    ensures have + Keys(Recorded(m + [t])) == if |m| % 2 == 0 then have + Keys(m) + {t.key} else have + Keys(Recorded(m))
    ensures (|m + [t]| % 2 == 0) == !(|m| % 2 == 0)
  {
    KeysOfMore(m, t);
    RecordedMore(m, t);
    UnionMore(policies, Names(m), t.name);
    UnionMore(have, Keys(m), t.key);
  }

  lemma UnionMore(a: set<string>, b: set<string>, x: string)
    ensures a + b + {x} == a + (b + {x})
  {
  }

  lemma QuietTurn(w: World, m: seq<Template>, r: Result, t: Template, x: Result)
    requires Quiet(w) && Stands(w, m, r) && Turned(r.world, r.local, t, x)
    ensures Stands(w, m + [t], x)
  {
    var have := w.ns.value.annotations.Keys;
    RecordedIsPart(have, m);
    SetsOfMore(w.policies, have, m, t);
    NextLevel(w.policies + Names(m), have + Keys(m), have + Keys(Recorded(m)), |m| % 2 == 0, r, t, x,
              w.policies + Names(m + [t]), have + Keys(m + [t]), have + Keys(Recorded(m + [t])), |m + [t]| % 2 == 0);
  }

  lemma RecordedIsPart(have: set<string>, m: seq<Template>)
    ensures have + Keys(Recorded(m)) <= have + Keys(m)
  {
  }

  lemma QuietNext(w: World, m: seq<Template>, r: Result, t: Template)
    requires Quiet(w) && Stands(w, m, r)
    ensures Stands(w, if t.key in w.ns.value.annotations.Keys + Keys(m) then m else m + [t], Visiting(r.world, r.local, t))
  {
    if t.key !in r.local.annotations {
      QuietVisit(r.world, r.local, t);
      QuietTurn(w, m, r, t, Visiting(r.world, r.local, t));
    }
  }

  lemma QuietOpening(w: World)
    requires Quiet(w)
    ensures Stands(w, [], Opening(w))
  {
    assert Keys([]) == {} && Names([]) == {} && Recorded([]) == [];
  }

  lemma MissingMore(have: set<string>, templates: seq<Template>, n: nat)
    requires 0 < n <= |templates|
    ensures var m := Missing(have, templates[..n - 1]); var t := templates[n - 1];
            Missing(have, templates[..n]) == if t.key in have + Keys(m) then m else m + [t]
  {
    assert templates[..n][..n - 1] == templates[..n - 1];
  }

  lemma {:induction false} QuietRun(w: World, templates: seq<Template>, n: nat)
    requires Quiet(w) && n <= |templates|
    ensures Stands(w, Missing(w.ns.value.annotations.Keys, templates[..n]), Running(w, templates, n))
  {
    if n == 0 {
      QuietOpening(w);
    } else {
      QuietRun(w, templates, n - 1);
      MissingMore(w.ns.value.annotations.Keys, templates, n);
      QuietNext(w, Missing(w.ns.value.annotations.Keys, templates[..n - 1]), Running(w, templates, n - 1), templates[n - 1]);
    }
  }

  /** What an undisturbed call leaves, as a whole. */
  lemma QuietCall(w: World, templates: seq<Template>)
    requires Quiet(w)
    ensures Stands(w, Missing(w.ns.value.annotations.Keys, templates), Setting(w, templates))
  {
    QuietRun(w, templates, |templates|);
    assert templates[..|templates|] == templates;
  }

  /**
   An undisturbed call succeeds and creates the missing policies; a template's key is stored
   afterwards exactly if it was before, or the number of missing templates is odd, or it is not the
   last missing one.
   */
  lemma QuietRecordsIff(w: World, templates: seq<Template>, t: Template)
    requires Quiet(w) && t in templates
    ensures var r := Setting(w, templates); var have := w.ns.value.annotations.Keys; var m := Missing(have, templates);
            && r.error.None? && Quiet(r.world) && r.world.policies == w.policies + Names(m)
            && (HasKey(r.world, t.key) <==> t.key in have || |m| % 2 == 1 || (m != [] && t.key != m[|m| - 1].key))
  {
    QuietCall(w, templates);
    RecordedIff(w.ns.value.annotations.Keys, templates, t);
  }

  lemma RecordedIff(have: set<string>, templates: seq<Template>, t: Template)
    requires t in templates
    ensures var m := Missing(have, templates);
            t.key in have + Keys(Recorded(m)) <==> t.key in have || |m| % 2 == 1 || (m != [] && t.key != m[|m| - 1].key)
  {
    MissingHas(have, templates, t);
    MissingIsDistinct(have, templates);
    var m := Missing(have, templates);
    if t.key !in have && |m| % 2 == 0 {
      KeysOfMore(m[..|m| - 1], m[|m| - 1]);
      assert m[..|m| - 1] + [m[|m| - 1]] == m;
    }
  }

  lemma {:induction false} MissingHas(have: set<string>, templates: seq<Template>, t: Template)
    requires t in templates
    ensures t.key in have + Keys(Missing(have, templates))
  {
    var front := templates[..|templates| - 1];
    KeysOfMore(Missing(have, front), templates[|templates| - 1]);
    if t in front {
      MissingHas(have, front, t);
    }
  }

  /** The last missing key is not that of an earlier missing template, and is not in `have`. */
  lemma {:induction false} MissingIsDistinct(have: set<string>, templates: seq<Template>)
    ensures var m := Missing(have, templates); m != [] ==> m[|m| - 1].key !in have + Keys(m[..|m| - 1])
  {
    if templates != [] {
      MissingIsDistinct(have, templates[..|templates| - 1]);
      var m := Missing(have, templates[..|templates| - 1]);
      assert (m + [templates[|templates| - 1]])[..|m|] == m;
    }
  }

  // ---------------------------------------------------------------------------------------------
  // Starts in a row, each a call for one list of templates and then one for another.

  predicate DistinctKeys(templates: seq<Template>) {
    forall i, j :: 0 <= i < j < |templates| ==> templates[i].key != templates[j].key
  }

  lemma {:induction false} MissingAll(have: set<string>, templates: seq<Template>)
    requires DistinctKeys(templates) && forall t :: t in templates ==> t.key !in have
    ensures Missing(have, templates) == templates
  {
    if templates != [] {
      var front, t := templates[..|templates| - 1], templates[|templates| - 1];
      MissingAll(have, front);
      if t.key in Keys(front) {
        var i := KeyAt(front, t.key);
      }
    }
  }

  lemma {:induction false} MissingNone(have: set<string>, templates: seq<Template>)
    requires forall t :: t in templates ==> t.key in have
    ensures Missing(have, templates) == []
  {
    if templates != [] {
      MissingNone(have, templates[..|templates| - 1]);
    }
  }

  lemma {:induction false} KeyAt(templates: seq<Template>, k: string) returns (i: nat)
    requires k in Keys(templates)
    ensures i < |templates| && templates[i].key == k
  {
    i := |templates| - 1;
    if templates[i].key != k {
      i := KeyAt(templates[..i], k);
    }
  }

  lemma {:induction false} KeyOf(templates: seq<Template>, t: Template)
    requires t in templates
    ensures t.key in Keys(templates) && t.name in Names(templates)
  {
    if t != templates[|templates| - 1] {
      KeyOf(templates[..|templates| - 1], t);
    }
  }

  /** The world has the keys `stored` and at least the policies of `templates`. */
  predicate Holds(w: World, stored: set<string>, templates: seq<Template>) {
    Quiet(w) && w.ns.value.annotations.Keys == stored && Names(templates) <= w.policies
  }

  /** A call for an odd number of templates, all new, records all. */
  lemma OddCall(w: World, templates: seq<Template>)
    requires Quiet(w) && DistinctKeys(templates) && |templates| % 2 == 1
    requires forall t :: t in templates ==> t.key !in w.ns.value.annotations.Keys
    ensures var r := Setting(w, templates);
            r.error.None? && Holds(r.world, w.ns.value.annotations.Keys + Keys(templates), templates)
  {
    QuietCall(w, templates);
    MissingAll(w.ns.value.annotations.Keys, templates);
  }

  /** A call for an even number of templates, all new, records all but the last. */
  lemma EvenCall(w: World, templates: seq<Template>)
    requires Quiet(w) && DistinctKeys(templates) && |templates| % 2 == 0 && templates != []
    requires forall t :: t in templates ==> t.key !in w.ns.value.annotations.Keys
    ensures var r := Setting(w, templates);
            r.error.None? && Holds(r.world, w.ns.value.annotations.Keys + Keys(templates[..|templates| - 1]), templates)
  {
    QuietCall(w, templates);
    MissingAll(w.ns.value.annotations.Keys, templates);
  }

  /** A call for templates all recorded changes nothing. */
  lemma IdleCall(w: World, templates: seq<Template>)
    requires Quiet(w) && forall t :: t in templates ==> t.key in w.ns.value.annotations.Keys
    ensures var r := Setting(w, templates);
            r.error.None? && Quiet(r.world) && r.world.policies == w.policies
            && r.world.ns.value.annotations.Keys == w.ns.value.annotations.Keys
  {
    QuietCall(w, templates);
    MissingNone(w.ns.value.annotations.Keys, templates);
  }

  /** A call in which only the last template is unrecorded deletes its policy, creates it anew and records it. */
  lemma RepairingCall(w: World, templates: seq<Template>, last: Template)
    requires Quiet(w) && templates != [] && last == templates[|templates| - 1]
    requires last.key !in w.ns.value.annotations.Keys && last.name in w.policies
    requires forall t :: t in templates[..|templates| - 1] ==> t.key in w.ns.value.annotations.Keys
    ensures var r := Setting(w, templates);
            && r.error.None? && HasKey(r.world, last.key)
            && Deleted(last.name, last.key) in r.world.log && Created(last.name, last.key) in r.world.log
  {
    var n, have := |templates|, w.ns.value.annotations.Keys;
    MissingNone(have, templates[..n - 1]);
    QuietRun(w, templates, n - 1);
    var r := Running(w, templates, n - 1);
    QuietRepair(r.world, r.local, last);
    assert Setting(w, templates) == Visiting(r.world, r.local, last);
  }

  lemma QuietRepair(w: World, local: Namespace, t: Template)
    requires Quiet(w) && w.ns.value.version == local.version && t.key !in local.annotations && t.name in w.policies
    ensures var r := Visiting(w, local, t);
            r.error.None? && HasKey(r.world, t.key) && r.world.log == w.log + [Deleted(t.name, t.key)] + [Created(t.name, t.key)] + [Updated(t.key, WithKey(local, t.key).annotations, true)]
  {
  }

  // ---------------------------------------------------------------------------------------------
  // The templates of the source.

  const DEFAULT := [Template("default-network-policy", "np.rke2.io")]

  const DNS := Template("default-network-dns-policy", "np.rke2.io/dns")
  const INGRESS := Template("default-network-ingress-policy", "np.rke2.io/ingress")
  const INGRESS_WEBHOOK := Template("default-network-ingress-webhook-policy", "np.rke2.io/ingress-webhook")
  const TRAEFIK := Template("default-network-traefik-policy", "np.rke2.io/traefik")
  const SNAPSHOT := Template("default-network-snapshot-validation-webhook-policy", "np.rke2.io/snapshot-validation-webhook")
  const METRICS := Template("default-network-metrics-server-policy", "np.rke2.io/metrics-server")

  const KUBE_SYSTEM := [DNS, INGRESS, INGRESS_WEBHOOK, TRAEFIK, SNAPSHOT, METRICS]

  lemma KubeSystemIsDistinct()
    ensures DistinctKeys(KUBE_SYSTEM) && |KUBE_SYSTEM| == 6
    ensures forall i :: 0 <= i < |KUBE_SYSTEM| ==> |DEFAULT[0].key| < |KUBE_SYSTEM[i].key|
  {
    assert INGRESS.key[11] == 'i' && TRAEFIK.key[11] == 't';
  }

  /** A world where nobody else acts and none of the source's templates is recorded. */
  predicate Untouched(w: World) {
    Quiet(w) && forall t :: t in DEFAULT + KUBE_SYSTEM ==> t.key !in w.ns.value.annotations.Keys
  }

  /** One start on kube-system: the default policy first, then the policies of kube-system. */
  function Start(w: World): World {
    Setting(Setting(w, DEFAULT).world, KUBE_SYSTEM).world
  }

  /** What is recorded after the first start. */
  predicate MetricsUnrecorded(w: World) {
    && Quiet(w) && METRICS.name in w.policies && METRICS.key !in w.ns.value.annotations.Keys
    && forall t :: t in DEFAULT + KUBE_SYSTEM[..5] ==> t.key in w.ns.value.annotations.Keys
  }

  /** Both calls of an undisturbed first start succeed, and all keys are recorded but that of metrics-server. */
  lemma FirstStart(w: World)
    requires Untouched(w)
    ensures var d := Setting(w, DEFAULT);
            d.error.None? && Setting(d.world, KUBE_SYSTEM).error.None? && MetricsUnrecorded(Start(w))
  {
    KubeSystemIsDistinct();
    OddCall(w, DEFAULT);
    var v := Setting(w, DEFAULT).world;
    DefaultKeys();
    EvenCall(v, KUBE_SYSTEM);
    MetricsApart();
    forall t | t in KUBE_SYSTEM[..5]
      ensures t.key in Keys(KUBE_SYSTEM[..5])
    {
      KeyOf(KUBE_SYSTEM[..5], t);
    }
    KeyOf(KUBE_SYSTEM, METRICS);
  }

  lemma DefaultKeys()
    ensures Keys(DEFAULT) == {DEFAULT[0].key}
  {
    assert DEFAULT[..0] == [];
  }

  lemma MetricsApart()
    ensures METRICS.key !in Keys(KUBE_SYSTEM[..5])
  {
    KubeSystemIsDistinct();
    if METRICS.key in Keys(KUBE_SYSTEM[..5]) {
      var i := KeyAt(KUBE_SYSTEM[..5], METRICS.key);
    }
  }

  /** The next start deletes the metrics-server policy, creates it anew and only then records it. */
  lemma SecondStart(w: World)
    requires MetricsUnrecorded(w)
    ensures HasKey(Start(w), METRICS.key) && Deleted(METRICS.name, METRICS.key) in Start(w).log && Created(METRICS.name, METRICS.key) in Start(w).log
  {
    IdleCall(w, DEFAULT);
    RepairingCall(Setting(w, DEFAULT).world, KUBE_SYSTEM, METRICS);
  }

  /** The names of the source's policies are distinct too. */
  lemma PolicyNamesAreDistinct(t: Template, u: Template)
    requires t in DEFAULT + KUBE_SYSTEM && u in DEFAULT + KUBE_SYSTEM && t.name == u.name
    ensures t == u
  {
    assert INGRESS.name[16] == 'i' && TRAEFIK.name[16] == 't';
  }

  /** Under every script, over any calls for the source's lists: a policy whose key is stored and stays is left alone. */
  lemma SourcePoliciesAppliedOnce(w: World, batches: seq<seq<Template>>, templates: seq<Template>, t: Template)
    requires Kept(w, t.key) && t in DEFAULT + KUBE_SYSTEM && templates in [DEFAULT, KUBE_SYSTEM]
    requires forall i :: 0 <= i < |batches| ==> batches[i] in [DEFAULT, KUBE_SYSTEM]
    ensures var r := Setting(Calls(w, batches), templates);
            HasKey(r.world, t.key) && LeftAlone(r.world.log, t.key, t.name) && (PolicyKept(w, t.name) ==> t.name in r.world.policies)
  {
    OwnsItsName(t, DEFAULT);
    OwnsItsName(t, KUBE_SYSTEM);
    AppliedOnce(w, batches, templates, t.key, t.name);
  }

  lemma OwnsItsName(t: Template, templates: seq<Template>)
    requires t in DEFAULT + KUBE_SYSTEM && forall u :: u in templates ==> u in DEFAULT + KUBE_SYSTEM
    ensures Owns(t.key, t.name, templates)
  {
    forall u | u in templates && u.name == t.name
      ensures u.key == t.key
    {
      PolicyNamesAreDistinct(t, u);
    }
  }

  // ---------------------------------------------------------------------------------------------
  // A value that is lost.

  /** Key k has value a; another client changes it to b right before our first update. */
  function Overtaken(k: string, a: string, b: string): World {
    var calm, busy := Turn([], false), Turn([PutNamespace(map[k := b])], false);
    World(Some(Namespace(0, map[k := a])), 1, {}, [calm, calm, calm, busy], [], [])
  }

  lemma FirstTurnOvertaken(k: string, a: string, b: string, t: Template)
    requires t.key != k
    ensures var o := Opening(Overtaken(k, a, b)); var r := Visiting(o.world, o.local, t);
            && o.error.None? && r.error.None? && Quiet(r.world) && r.world.clock == 2
            && r.world.ns == Some(Namespace(1, map[k := b])) && r.local == Namespace(1, map[k := a, t.key := RESOLVED])
  {
    var w := Overtaken(k, a, b);
    var calm, busy := Turn([], false), Turn([PutNamespace(map[k := b])], false);
    assert w.turns[1..] == [calm, calm, busy];
    var o := Opening(w);
    assert o.local == Namespace(0, map[k := a]) && o.world.turns == [calm, calm, busy];
    var p := Recreation(o.world, t);
    OneCreation(o.world, t, busy);
    assert p.world.turns == [busy] && p.world.ns == w.ns && p.world.clock == 1;
    OneConflict(p.world, WithKey(o.local, t.key), t.key, k, b);
  }

  lemma OneCreation(w: World, t: Template, busy: Turn)
    requires w.turns == [Turn([], false), Turn([], false), busy] && t.name !in w.policies
    ensures var p := Recreation(w, t); p.error.None? && p.world.turns == [busy] && p.world.ns == w.ns && p.world.clock == w.clock
  {
    assert w.turns[1..] == [Turn([], false), busy] && w.turns[1..][1..] == [busy];
  }

  lemma OneConflict(w: World, c: Namespace, key: string, k: string, b: string)
    requires w.turns == [Turn([PutNamespace(map[k := b])], false)] && c.version != w.clock
    ensures var r := Recording(w, c, key);
            && r.error.None? && r.world.turns == [] && r.world.clock == w.clock + 1
            && r.world.ns == Some(Namespace(w.clock, map[k := b])) && r.local == Namespace(w.clock, map[k := b] + c.annotations)
  {
    var xs := [PutNamespace(map[k := b])];
    assert w.turns[1..] == [] && xs[..0] == [];
    var v := w.(turns := []);
    assert AfterWrites(v, []) == v;
    assert AfterWrites(v, xs) == AfterWrite(v, xs[0]);
  }

  /** The call for two templates returns nil, and what the other client wrote is gone. */
  lemma ValueIsReverted(k: string, a: string, b: string, t: Template, u: Template)
    requires t.key != k && u.key != k && t.key != u.key
    ensures var r := Setting(Overtaken(k, a, b), [t, u]); r.error.None? && HasKey(r.world, k) && r.world.ns.value.annotations[k] == a
  {
    var w, o := Overtaken(k, a, b), Opening(Overtaken(k, a, b));
    FirstTurnOvertaken(k, a, b, t);
    var r := Visiting(o.world, o.local, t);
    assert Running(w, [t, u], 0) == o && Running(w, [t, u], 1) == r;
    QuietVisit(r.world, r.local, u);
    assert Setting(w, [t, u]) == Visiting(r.world, r.local, u);
  }
}
