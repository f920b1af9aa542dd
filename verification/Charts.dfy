/**
 Rewriting of HelmChart manifests to carry cluster configuration: a pass over the objects of a file
 that edits spec.set in place, key by key, in whatever order the values map is iterated.
 */
module Charts {
  import opened Wrappers
  import Compaction

  /** Unstructured content. */
  datatype Value = Null | Str(text: string) | Map(fields: map<string, Value>) | Opaque(raw: string)

  type Fields = map<string, Value>

  // ---------------------------------------------------------------------------------------------
  // The two accessors of unstructured content, for the path spec.set.<key>.

  /** unstructured.NestedString: missing reads as "", a value of the wrong kind is an error (None). */
  function Lookup(c: Fields, key: string): Option<string> {
    if "spec" !in c || c["spec"].Null? then Some("")
    else if !c["spec"].Map? then None
    else
      var spec := c["spec"].fields;
      if "set" !in spec || spec["set"].Null? then Some("")
      else if !spec["set"].Map? then None
      else
        var set_ := spec["set"].fields;
        if key !in set_ then Some("")
        else if set_[key].Str? then Some(set_[key].text)
        else None
  }

  /** unstructured.SetNestedField succeeds: both levels are maps or absent (null is neither). */
  predicate Settable(c: Fields) {
    "spec" in c ==> c["spec"].Map? && ("set" in c["spec"].fields ==> c["spec"].fields["set"].Map?)
  }

  function SpecOf(c: Fields): Fields {
    if "spec" in c && c["spec"].Map? then c["spec"].fields else map[]
  }

  function SetOf(c: Fields): Fields {
    if "set" in SpecOf(c) && SpecOf(c)["set"].Map? then SpecOf(c)["set"].fields else map[]
  }

  /** The content with some keys of spec.set replaced and nothing else touched. */
  function Patch(c: Fields, u: Fields): Fields {
    c["spec" := Map(SpecOf(c)["set" := Map(SetOf(c) + u)])]
  }

  // ---------------------------------------------------------------------------------------------
  // One object.

  datatype Outcome = Outcome(content: Fields, completed: bool, changed: bool)

  /** The loop over the values in the given order; content is edited in place even when the loop gives up. */
  function Rewrite(c: Fields, order: seq<string>, values: map<string, string>): Outcome
    requires forall k :: k in order ==> k in values
    decreases order
  {
    if order == [] then Outcome(c, true, false)
    else
      var k, v := order[0], values[order[0]];
      match Lookup(c, k)
      case None => Outcome(c, false, false)
      case Some(current) =>
        if current == v then Rewrite(c, order[1..], values)
        else if !Settable(c) then Outcome(c, false, false)
        else
          var r := Rewrite(Patch(c, map[k := Str(v)]), order[1..], values);
          r.(changed := r.completed)
  }

  predicate Needs(c: Fields, values: map<string, string>, k: string)
    requires k in values
  {
    Lookup(c, k) != Some(values[k])
  }

  /** The value cannot be read, or has to be changed and cannot be. */
  predicate Fails(c: Fields, values: map<string, string>, k: string)
    requires k in values
  {
    Lookup(c, k).None? || (Needs(c, values, k) && !Settable(c))
  }

  /** The edits the given keys call for. */
  function Edits(c: Fields, values: map<string, string>, keys: set<string>): Fields {
    map k | k in keys && k in values && Needs(c, values, k) :: Str(values[k])
  }

  function Apply(c: Fields, u: Fields): Fields {
    if u == map[] then c else Patch(c, u)
  }

  function FirstFail(c: Fields, order: seq<string>, values: map<string, string>): (f: nat)
    requires forall k :: k in order ==> k in values
    ensures f <= |order|
    ensures forall i :: 0 <= i < f ==> !Fails(c, values, order[i])
    ensures f < |order| ==> Fails(c, values, order[f])
  {
    if order == [] || Fails(c, values, order[0]) then 0 else 1 + FirstFail(c, order[1..], values)
  }

  function Keys(order: seq<string>): set<string> {
    set i | 0 <= i < |order| :: order[i]
  }

  lemma PatchLookup(c: Fields, k: string, v: string, k': string)
    requires Settable(c)
    ensures Settable(Patch(c, map[k := Str(v)]))
    ensures Lookup(Patch(c, map[k := Str(v)]), k') == if k' == k then Some(v) else Lookup(c, k')
  {
  }

  lemma PatchTwice(c: Fields, u: Fields, w: Fields)
    requires Settable(c)
    ensures Patch(Patch(c, u), w) == Patch(c, u + w)
  {
    var d := Patch(c, u);
    assert SetOf(d) == SetOf(c) + u;
    assert SetOf(c) + u + w == SetOf(c) + (u + w);
    assert SpecOf(d)["set" := Map(SetOf(d) + w)] == SpecOf(c)["set" := Map(SetOf(c) + (u + w))];
  }

  lemma KeysCons(k: string, rest: seq<string>)
    ensures Keys([k] + rest) == {k} + Keys(rest)
  {
    var s := [k] + rest;
    assert s[0] == k;
    forall x | x in Keys(rest) ensures x in Keys(s) {
      var i :| 0 <= i < |rest| && rest[i] == x;
      assert s[i + 1] == x;
    }
  }

  ghost predicate Exactly(c: Fields, order: seq<string>, values: map<string, string>)
    requires forall k :: k in order ==> k in values
  {
    var f := FirstFail(c, order, values);
    var r := Rewrite(c, order, values);
    && r.content == Apply(c, Edits(c, values, Keys(order[..f])))
    && (r.completed <==> f == |order|)
    && (r.changed <==> r.completed && Edits(c, values, Keys(order)) != map[])
  }

  /**
   What the loop leaves, for every order, in terms of the original content alone: the edits called
   for by the keys before the first failing one.
   */
  lemma {:induction false} RewriteExactly(c: Fields, order: seq<string>, values: map<string, string>)
    requires Compaction.Distinct(order) && forall k :: k in order ==> k in values
    ensures Exactly(c, order, values)
    decreases order
  {
    if order == [] || Fails(c, values, order[0]) {
      assert Keys(order[..0]) == {};
      assert Edits(c, values, {}) == map[];
    } else {
      var rest := order[1..];
      assert forall i :: 0 <= i < |rest| ==> rest[i] == order[i + 1];
      if Needs(c, values, order[0]) {
        RewriteExactly(Patch(c, map[order[0] := Str(values[order[0]])]), rest, values);
        ExactlyEdit(c, order, values);
      } else {
        RewriteExactly(c, rest, values);
        ExactlyPass(c, order, values);
      }
    }
  }

  lemma ExactlyPass(c: Fields, order: seq<string>, values: map<string, string>)
    requires order != [] && forall k :: k in order ==> k in values
    requires !Needs(c, values, order[0]) && Exactly(c, order[1..], values)
    ensures Exactly(c, order, values)
  {
    var rest, f := order[1..], FirstFail(c, order[1..], values);
    assert Rewrite(c, order, values) == Rewrite(c, rest, values);
    assert FirstFail(c, order, values) == f + 1;
    assert Edits(c, values, Keys(order[..f + 1])) == Edits(c, values, Keys(rest[..f]))
        && Edits(c, values, Keys(order)) == Edits(c, values, Keys(rest)) by {
      KeysAfterFirst(order, f);
      NoEdit(c, values, order[0], Keys(rest[..f]));
      NoEdit(c, values, order[0], Keys(rest));
    }
  }

  lemma KeysAfterFirst(order: seq<string>, f: nat)
    requires f < |order|
    ensures Keys(order[..f + 1]) == {order[0]} + Keys(order[1..][..f])
    ensures Keys(order) == {order[0]} + Keys(order[1..])
  {
    assert order == [order[0]] + order[1..] && order[..f + 1] == [order[0]] + order[1..][..f];
    KeysCons(order[0], order[1..][..f]);
    KeysCons(order[0], order[1..]);
  }

  lemma NoEdit(c: Fields, values: map<string, string>, k: string, keys: set<string>)
    requires k in values && !Needs(c, values, k)
    ensures Edits(c, values, {k} + keys) == Edits(c, values, keys)
  {
  }

  lemma ExactlyEdit(c: Fields, order: seq<string>, values: map<string, string>)
    requires order != [] && order[0] !in order[1..] && forall k :: k in order ==> k in values
    requires Needs(c, values, order[0]) && !Fails(c, values, order[0])
    requires Exactly(Patch(c, map[order[0] := Str(values[order[0]])]), order[1..], values)
    ensures Exactly(c, order, values)
  {
    var k, rest, f := order[0], order[1..], FirstFail(c, order[1..], values);
    var one := map[k := Str(values[k])];
    var d, w := Patch(c, one), Edits(c, values, Keys(rest[..f]));
    var r := Rewrite(d, rest, values);
    assert Rewrite(c, order, values) == r.(changed := r.completed);
    assert FirstFail(c, order, values) == f + 1;
    assert r.content == Apply(d, w) && (r.completed <==> f == |rest|) by {
      SameOnOthers(c, values, k, rest);
    }
    assert Edits(c, values, Keys(order[..f + 1])) == one + w && Edits(c, values, Keys(order)) != map[] by {
      KeysAfterFirst(order, f);
      SplitEdits(c, values, k, rest[..f]);
      SplitEdits(c, values, k, rest);
    }
    PatchThen(c, k, one, w);
  }

  lemma PatchThen(c: Fields, k: string, u: Fields, w: Fields)
    requires Settable(c) && k in u
    ensures Apply(Patch(c, u), w) == Apply(c, u + w)
  {
    assert k in u + w;
    if w == map[] {
      assert u + w == u;
    } else {
      PatchTwice(c, u, w);
    }
  }

  lemma SplitEdits(c: Fields, values: map<string, string>, k: string, rest: seq<string>)
    requires k in values && Needs(c, values, k) && k !in rest
    ensures Edits(c, values, {k} + Keys(rest)) != map[]
    ensures Edits(c, values, {k} + Keys(rest)) == map[k := Str(values[k])] + Edits(c, values, Keys(rest))
  {
    assert k in Edits(c, values, {k} + Keys(rest));
  }

  /** Writing one key changes nothing about the others. */
  lemma SameOnOthers(c: Fields, values: map<string, string>, k: string, rest: seq<string>)
    requires Settable(c) && k in values && k !in rest && forall x :: x in rest ==> x in values
    ensures var d := Patch(c, map[k := Str(values[k])]);
            FirstFail(d, rest, values) == FirstFail(c, rest, values)
            && Edits(d, values, Keys(rest)) == Edits(c, values, Keys(rest))
            && Edits(d, values, Keys(rest[..FirstFail(c, rest, values)])) == Edits(c, values, Keys(rest[..FirstFail(c, rest, values)]))
  {
    var d := Patch(c, map[k := Str(values[k])]);
    forall x | x in rest ensures Lookup(d, x) == Lookup(c, x) {
      PatchLookup(c, k, values[k], x);
    }
    PatchLookup(c, k, values[k], k);
    SameFirstFail(c, d, values, rest);
    SameEdits(c, d, values, rest);
    SameEdits(c, d, values, rest[..FirstFail(c, rest, values)]);
  }

  lemma SameEdits(c: Fields, d: Fields, values: map<string, string>, some: seq<string>)
    requires forall x :: x in some ==> x in values && Lookup(d, x) == Lookup(c, x)
    ensures Edits(d, values, Keys(some)) == Edits(c, values, Keys(some))
  {
    assert forall x :: x in Keys(some) ==> x in some;
  }

  lemma {:induction false} SameFirstFail(c: Fields, d: Fields, values: map<string, string>, some: seq<string>)
    requires Settable(c) == Settable(d)
    requires forall x :: x in some ==> x in values && Lookup(d, x) == Lookup(c, x)
    ensures FirstFail(d, some, values) == FirstFail(c, some, values)
  {
    if some != [] {
      SameFirstFail(c, d, values, some[1..]);
    }
  }

  // ---------------------------------------------------------------------------------------------
  // Order.

  ghost predicate IsOrder(order: seq<string>, values: map<string, string>) {
    Compaction.Distinct(order) && Keys(order) == values.Keys && forall k :: k in order ==> k in values
  }

  ghost predicate AnyFails(c: Fields, values: map<string, string>) {
    exists k :: k in values && Fails(c, values, k)
  }

  /** Whether the object completes, and whether it counts as changed, never depends on the order. */
  lemma VerdictIsOrderFree(c: Fields, order: seq<string>, values: map<string, string>)
    requires IsOrder(order, values)
    ensures Rewrite(c, order, values).completed <==> !AnyFails(c, values)
    ensures Rewrite(c, order, values).changed <==> !AnyFails(c, values) && Edits(c, values, values.Keys) != map[]
    ensures !AnyFails(c, values) ==> Rewrite(c, order, values).content == Apply(c, Edits(c, values, values.Keys))
  {
    RewriteExactly(c, order, values);
    var f := FirstFail(c, order, values);
    if AnyFails(c, values) {
      var k :| k in values && Fails(c, values, k);
      assert k in Keys(order);
      var i :| 0 <= i < |order| && order[i] == k;
    }
    assert f < |order| ==> order[f] in values;
    assert order[..|order|] == order;
  }

  /** Some key that does not fail would be edited. */
  ghost predicate AnyEditable(c: Fields, values: map<string, string>) {
    exists k :: k in values && Needs(c, values, k) && !Fails(c, values, k)
  }

  ghost predicate OrderFree(c: Fields, values: map<string, string>) {
    forall order, order' :: IsOrder(order, values) && IsOrder(order', values) ==>
      Rewrite(c, order, values).content == Rewrite(c, order', values).content
  }

  /** The resulting content is the same for every order exactly when nothing fails or nothing else would be edited. */
  lemma OrderFreeIff(c: Fields, values: map<string, string>)
    ensures OrderFree(c, values) <==> !AnyFails(c, values) || !AnyEditable(c, values)
  {
    if !AnyFails(c, values) {
      forall order, order' | IsOrder(order, values) && IsOrder(order', values)
        ensures Rewrite(c, order, values).content == Rewrite(c, order', values).content
      {
        VerdictIsOrderFree(c, order, values);
        VerdictIsOrderFree(c, order', values);
      }
    } else if !AnyEditable(c, values) {
      forall order | IsOrder(order, values) ensures Rewrite(c, order, values).content == c {
        RewriteExactly(c, order, values);
        NoEdits(c, values, order[..FirstFail(c, order, values)]);
      }
    } else {
      var bad :| bad in values && Fails(c, values, bad);
      var good :| good in values && Needs(c, values, good) && !Fails(c, values, good);
      var order := StartingWith(values, good);
      var order' := StartingWith(values, bad);
      GoodFirst(c, values, order, good);
      BadFirst(c, values, order');
    }
  }

  lemma NoEdits(c: Fields, values: map<string, string>, some: seq<string>)
    requires !AnyEditable(c, values)
    requires forall i :: 0 <= i < |some| ==> some[i] in values && !Fails(c, values, some[i])
    ensures Apply(c, Edits(c, values, Keys(some))) == c
  {
    assert Edits(c, values, Keys(some)) == map[];
  }

  lemma BadFirst(c: Fields, values: map<string, string>, order: seq<string>)
    requires IsOrder(order, values) && order != [] && Fails(c, values, order[0])
    ensures Rewrite(c, order, values).content == c
  {
    RewriteExactly(c, order, values);
    assert Edits(c, values, Keys(order[..0])) == map[];
  }

  lemma GoodFirst(c: Fields, values: map<string, string>, order: seq<string>, good: string)
    requires IsOrder(order, values) && order != [] && order[0] == good
    requires Needs(c, values, good) && !Fails(c, values, good)
    ensures Rewrite(c, order, values).content != c
  {
    RewriteExactly(c, order, values);
    var f := FirstFail(c, order, values);
    var u := Edits(c, values, Keys(order[..f]));
    assert order[..f][0] == good && good in Keys(order[..f]);
    assert u[good] == Str(values[good]);
    ApplyLookup(c, u, good);
  }

  lemma {:induction false} OrderOf(keys: set<string>) returns (order: seq<string>)
    ensures Compaction.Distinct(order) && Keys(order) == keys
    decreases |keys|
  {
    if keys == {} {
      order := [];
    } else {
      var k :| k in keys;
      var rest := OrderOf(keys - {k});
      assert forall i :: 0 <= i < |rest| ==> rest[i] in Keys(rest);
      KeysCons(k, rest);
      order := [k] + rest;
    }
  }

  lemma StartingWith(values: map<string, string>, k: string) returns (order: seq<string>)
    requires k in values
    ensures IsOrder(order, values) && order != [] && order[0] == k
  {
    var rest := OrderOf(values.Keys - {k});
    assert forall i :: 0 <= i < |rest| ==> rest[i] in Keys(rest);
    KeysCons(k, rest);
    order := [k] + rest;
    forall x | x in order ensures x in values {
      assert x in Keys(order);
    }
  }

  // ---------------------------------------------------------------------------------------------
  // Second pass.

  lemma ApplyLookup(c: Fields, u: Fields, k: string)
    requires u == map[] || Settable(c)
    ensures Lookup(Apply(c, u), k) == if k in u then (if u[k].Str? then Some(u[k].text) else None) else Lookup(c, k)
    ensures Settable(Apply(c, u)) == Settable(c)
  {
  }

  /** After a pass an object neither changes nor starts to complete, whatever the orders of the two passes. */
  lemma SecondPassUnchanged(c: Fields, order: seq<string>, order': seq<string>, values: map<string, string>)
    requires IsOrder(order, values) && IsOrder(order', values)
    ensures !Rewrite(Rewrite(c, order, values).content, order', values).changed
    ensures Rewrite(c, order, values).completed ==>
              Rewrite(Rewrite(c, order, values).content, order', values) == Outcome(Rewrite(c, order, values).content, true, false)
  {
    RewriteExactly(c, order, values);
    VerdictIsOrderFree(c, order, values);
    var f, d := FirstFail(c, order, values), Rewrite(c, order, values).content;
    var u := Edits(c, values, Keys(order[..f]));
    EditsNeedSettable(c, order, values, f);
    VerdictIsOrderFree(d, order', values);
    if AnyFails(c, values) {
      var k :| k in values && Fails(c, values, k);
      KeyFailsStill(c, values, u, k);
      assert Fails(d, values, k);
    } else {
      assert order[..f] == order;
      forall k | k in values ensures !Needs(d, values, k) {
        ApplyLookup(c, u, k);
      }
      assert Edits(d, values, values.Keys) == map[];
    }
  }

  lemma EditsNeedSettable(c: Fields, order: seq<string>, values: map<string, string>, f: nat)
    requires f <= |order| && forall i :: 0 <= i < f ==> order[i] in values && !Fails(c, values, order[i])
    ensures Edits(c, values, Keys(order[..f])) == map[] || Settable(c)
  {
    var u := Edits(c, values, Keys(order[..f]));
    if u != map[] {
      var k :| k in u;
      var i :| 0 <= i < |order[..f]| && order[..f][i] == k;
      assert order[i] == k;
    }
  }

  lemma KeyFailsStill(c: Fields, values: map<string, string>, u: Fields, k: string)
    requires k in values && Fails(c, values, k) && (u == map[] || Settable(c))
    requires forall x :: x in u ==> x in values && Lookup(c, x).Some?
    ensures Fails(Apply(c, u), values, k)
  {
    ApplyLookup(c, u, k);
  }

  // ---------------------------------------------------------------------------------------------
  // A file of objects.

  /** An object of the file: whether it was decoded as unstructured, and its content. */
  datatype Object = Object(unstructured: bool, content: Fields)

  /** A string field read with "" for anything else. */
  function TextOf(c: Fields, field: string): string {
    if field in c && c[field].Str? then c[field].text else ""
  }

  function FieldsOf(c: Fields, field: string): Fields {
    if field in c && c[field].Map? then c[field].fields else map[]
  }

  /** GetAnnotations: none at all if one of them is not a string. */
  function Annotation(c: Fields, key: string): Option<string> {
    var annotations := FieldsOf(FieldsOf(c, "metadata"), "annotations");
    if key in annotations && forall k :: k in annotations ==> annotations[k].Str? then Some(annotations[key].text) else None
  }

  function ParseBool(s: string): Option<bool> {
    if s in ["1", "t", "T", "true", "TRUE", "True"] then Some(true)
    else if s in ["0", "f", "F", "false", "FALSE", "False"] then Some(false)
    else None
  }

  /** How the code tells whether an object is to be edited. */
  type Gate = Object -> bool

  ghost predicate ReadsOutsideSpec(eligible: Gate) {
    forall o: Object, c: Fields :: c - {"spec"} == o.content - {"spec"} ==> eligible(o.(content := c)) == eligible(o)
  }

  /** The annotation decides if it parses, else the environment if that parses, else injection is off. */
  predicate InjectEnabled(annotation: Option<string>, env: string) {
    if annotation.Some? && ParseBool(annotation.value).Some? then ParseBool(annotation.value).value
    else ParseBool(env) == Some(true)
  }

  predicate IsHelmChart(o: Object) {
    o.unstructured && TextOf(o.content, "apiVersion") == "helm.cattle.io/v1" && TextOf(o.content, "kind") == "HelmChart"
  }

  function Eligible(key: string, env: string): Gate {
    (o: Object) => IsHelmChart(o) && InjectEnabled(Annotation(o.content, key), env)
  }

  lemma SameField(c: Fields, d: Fields, field: string)
    requires c - {"spec"} == d - {"spec"} && field != "spec"
    ensures TextOf(c, field) == TextOf(d, field) && FieldsOf(c, field) == FieldsOf(d, field)
  {
    assert field in c <==> field in c - {"spec"};
    assert field in d <==> field in d - {"spec"};
    if field in c {
      assert c[field] == (c - {"spec"})[field] == (d - {"spec"})[field] == d[field];
    }
  }

  /** Kind, API version and annotations lie outside spec, so an edit of spec never makes an object eligible or stops it being so. */
  lemma EligibleReadsOutsideSpec(key: string, env: string)
    ensures ReadsOutsideSpec(Eligible(key, env))
  {
    forall o: Object, c: Fields | c - {"spec"} == o.content - {"spec"}
      ensures Eligible(key, env)(o.(content := c)) == Eligible(key, env)(o)
    {
      SameField(c, o.content, "apiVersion");
      SameField(c, o.content, "kind");
      SameField(c, o.content, "metadata");
    }
  }

  ghost predicate AreOrders(orders: seq<seq<string>>, n: nat, values: map<string, string>) {
    |orders| == n && forall i :: 0 <= i < n ==> IsOrder(orders[i], values)
  }

  /** The object after its turn, in memory. */
  function RewriteObject(o: Object, order: seq<string>, values: map<string, string>, eligible: Gate): Object
    requires forall k :: k in order ==> k in values
  {
    if eligible(o) then o.(content := Rewrite(o.content, order, values).content) else o
  }

  /** The file is rewritten exactly when some eligible object has no failing key and some key to edit. */
  ghost predicate NeedsWrite(objs: seq<Object>, values: map<string, string>, eligible: Gate) {
    exists i :: 0 <= i < |objs| && ObjectNeedsWrite(objs[i], values, eligible)
  }

  ghost predicate ObjectNeedsWrite(o: Object, values: map<string, string>, eligible: Gate) {
    eligible(o) && !AnyFails(o.content, values) && Edits(o.content, values, values.Keys) != map[]
  }

  method RewriteObjectInPlace(c: Fields, order: seq<string>, values: map<string, string>) returns (content: Fields, changed: bool)
    requires forall k :: k in order ==> k in values
    ensures content == Rewrite(c, order, values).content && changed == Rewrite(c, order, values).changed
  {
    content := c;
    var edited := false;
    assert order[0..] == order;
    for i := 0 to |order|
      invariant Rewrite(c, order, values).content == Rewrite(content, order[i..], values).content
      invariant Rewrite(c, order, values).completed == Rewrite(content, order[i..], values).completed
      invariant Rewrite(c, order, values).changed
             == if edited then Rewrite(content, order[i..], values).completed else Rewrite(content, order[i..], values).changed
    {
      var k := order[i];
      assert order[i..][0] == k && order[i..][1..] == order[i + 1..];
      var current := Lookup(content, k);
      if current.None? {
        return content, false;
      }
      if current.value != values[k] {
        if !Settable(content) {
          return content, false;
        }
        content := Patch(content, map[k := Str(values[k])]);
        edited := true;
      }
    }
    changed := edited;
  }

  /** rewriteChart: the objects written back, or the original ones when nothing counts as changed. */
  method RewriteChart(objs: seq<Object>, orders: seq<seq<string>>, values: map<string, string>, eligible: Gate)
    returns (written: seq<Object>, changed: bool)
    requires AreOrders(orders, |objs|, values)
    ensures changed <==> NeedsWrite(objs, values, eligible)
    ensures !changed ==> written == objs
    ensures |written| == |objs|
    ensures changed ==> forall i :: 0 <= i < |objs| ==> written[i] == RewriteObject(objs[i], orders[i], values, eligible)
  {
    var edited := [];
    changed := false;
    for i := 0 to |objs|
      invariant |edited| == i
      invariant forall j :: 0 <= j < i ==> edited[j] == RewriteObject(objs[j], orders[j], values, eligible)
      invariant changed <==> NeedsWrite(objs[..i], values, eligible)
    {
      var o, now := RewriteOne(objs[i], orders[i], values, eligible);
      OneMoreObject(objs, i, values, eligible);
      edited := edited + [o];
      changed := changed || now;
    }
    assert objs[..|objs|] == objs;
    written := if changed then edited else objs;
  }

  /** One object of the file, in memory, and whether it counts as changed. */
  method RewriteOne(o: Object, order: seq<string>, values: map<string, string>, eligible: Gate) returns (o': Object, now: bool)
    requires IsOrder(order, values)
    ensures o' == RewriteObject(o, order, values, eligible) && now == ObjectNeedsWrite(o, values, eligible)
  {
    o', now := o, false;
    if eligible(o) {
      var content, changed := RewriteObjectInPlace(o.content, order, values);
      VerdictIsOrderFree(o.content, order, values);
      o', now := o.(content := content), changed;
    }
  }

  lemma OneMoreObject(objs: seq<Object>, i: nat, values: map<string, string>, eligible: Gate)
    requires i < |objs|
    ensures NeedsWrite(objs[..i + 1], values, eligible)
       <==> NeedsWrite(objs[..i], values, eligible) || ObjectNeedsWrite(objs[i], values, eligible)
  {
    var more := objs[..i + 1];
    if NeedsWrite(objs[..i], values, eligible) {
      var j :| 0 <= j < i && ObjectNeedsWrite(objs[..i][j], values, eligible);
      assert more[j] == objs[..i][j];
    }
    if NeedsWrite(more, values, eligible) {
      var j :| 0 <= j <= i && ObjectNeedsWrite(more[j], values, eligible);
      assert j < i ==> objs[..i][j] == more[j];
    }
    assert more[i] == objs[i];
  }

  /**
   A file that went through one pass is not touched by a second one with the same values, whatever
   the iteration orders: the second pass over the copied charts leaves them alone.
   */
  lemma SecondPassWritesNothing(objs: seq<Object>, orders: seq<seq<string>>, values: map<string, string>, eligible: Gate, written: seq<Object>)
    requires AreOrders(orders, |objs|, values) && |written| == |objs| && ReadsOutsideSpec(eligible)
    requires if NeedsWrite(objs, values, eligible)
             then forall i :: 0 <= i < |objs| ==> written[i] == RewriteObject(objs[i], orders[i], values, eligible)
             else written == objs
    ensures !NeedsWrite(written, values, eligible)
  {
    if NeedsWrite(objs, values, eligible) {
      forall i | 0 <= i < |written| ensures !ObjectNeedsWrite(written[i], values, eligible) {
        var o, order := objs[i], orders[i];
        if eligible(o) {
          OnlySetKeysChange(o, order, values, eligible);
          SecondPassUnchanged(o.content, order, order, values);
          VerdictIsOrderFree(Rewrite(o.content, order, values).content, order, values);
        }
      }
    }
  }

  /** The content with the given keys of spec.set taken out. */
  function OutsideSet(c: Fields, keys: set<string>): (Fields, Fields, Fields) {
    (c - {"spec"}, SpecOf(c) - {"set"}, SetOf(c) - keys)
  }

  /**
   Nothing but those keys of spec.set changes, only in objects that are to be edited, and only where
   spec and spec.set are maps or absent: a scalar in their place is never overwritten.
   */
  lemma OnlySetKeysChange(o: Object, order: seq<string>, values: map<string, string>, eligible: Gate)
    requires IsOrder(order, values)
    ensures var r := RewriteObject(o, order, values, eligible);
            && r.unstructured == o.unstructured
            && (r.content == o.content || Settable(o.content))
            && OutsideSet(r.content, values.Keys) == OutsideSet(o.content, values.Keys)
            && (!eligible(o) ==> r == o)
  {
    if eligible(o) {
      RewriteExactly(o.content, order, values);
      var f := FirstFail(o.content, order, values);
      EditsNeedSettable(o.content, order, values, f);
      PatchKeepsRest(o.content, Edits(o.content, values, Keys(order[..f])), values.Keys);
    }
  }

  lemma PatchKeepsRest(c: Fields, u: Fields, keys: set<string>)
    requires u.Keys <= keys
    ensures OutsideSet(Apply(c, u), keys) == OutsideSet(c, keys)
  {
    if u != map[] {
      var d := Patch(c, u);
      assert d - {"spec"} == c - {"spec"};
      assert SpecOf(d) - {"set"} == SpecOf(c) - {"set"};
      assert SetOf(d) - keys == SetOf(c) - keys;
    }
  }

  // ---------------------------------------------------------------------------------------------
  // The same in plain terms: where spec.set.<key> stands, when an object is given up, what a completed one has.

  /** spec or spec.set is something else than a map or null. */
  predicate Blocked(c: Fields) {
    "spec" in c
    && match c["spec"]
       case Null => false
       case Map(spec) => "set" in spec && !spec["set"].Null? && !spec["set"].Map?
       case _ => true
  }

  /** spec or spec.set is null. */
  predicate NullOnPath(c: Fields) {
    "spec" in c && (c["spec"].Null? || (c["spec"].Map? && "set" in c["spec"].fields && c["spec"].fields["set"].Null?))
  }

  /** The value at spec.set.<key>. */
  function At(c: Fields, key: string): Option<Value> {
    if "spec" in c && c["spec"].Map? && "set" in c["spec"].fields && c["spec"].fields["set"].Map? && key in c["spec"].fields["set"].fields
    then Some(c["spec"].fields["set"].fields[key])
    else None
  }

  /** A missing key is no failure; a value that is no text, and a blocked path, are; a null on the path is one as soon as there is something to write. */
  lemma FailsIff(c: Fields, values: map<string, string>, k: string)
    requires k in values
    ensures Fails(c, values, k) <==> Blocked(c) || (NullOnPath(c) && values[k] != "") || (At(c, k).Some? && !At(c, k).value.Str?)
  {
  }

  /** An object is gone through to the end, whatever the order, exactly when none of its keys fails in this sense. */
  lemma CompletesIff(c: Fields, order: seq<string>, values: map<string, string>)
    requires IsOrder(order, values)
    ensures Rewrite(c, order, values).completed
       <==> forall k :: k in values ==> !Blocked(c) && (NullOnPath(c) ==> values[k] == "") && (At(c, k).Some? ==> At(c, k).value.Str?)
  {
    VerdictIsOrderFree(c, order, values);
    forall k | k in values
      ensures Fails(c, values, k) <==> !(!Blocked(c) && (NullOnPath(c) ==> values[k] == "") && (At(c, k).Some? ==> At(c, k).value.Str?))
    {
      FailsIff(c, values, k);
    }
  }

  /** The object then has every value, but for an empty one that was not there and is not added. */
  lemma CompletedHasValues(c: Fields, order: seq<string>, values: map<string, string>, k: string)
    requires IsOrder(order, values) && Rewrite(c, order, values).completed && k in values
    ensures var r := Rewrite(c, order, values).content;
            At(r, k) == Some(Str(values[k])) || (values[k] == "" && At(c, k).None? && At(r, k).None?)
  {
    SecondPassUnchanged(c, order, order, values);
    var r := Rewrite(c, order, values).content;
    VerdictIsOrderFree(r, order, values);
    assert !Needs(r, values, k) by {
      assert Edits(r, values, values.Keys) == map[];
      assert k !in Edits(r, values, values.Keys);
    }
    if values[k] == "" {
      RewriteKeepsAbsent(c, order, values, k);
    }
  }

  lemma RewriteKeepsAbsent(c: Fields, order: seq<string>, values: map<string, string>, k: string)
    requires IsOrder(order, values) && k in values && values[k] == ""
    ensures At(Rewrite(c, order, values).content, k).None? ==> At(c, k).None?
  {
    RewriteExactly(c, order, values);
    var f := FirstFail(c, order, values);
    EditsNeedSettable(c, order, values, f);
  }

  /** An object counts as changed exactly when it was gone through to the end and its content is another. */
  lemma ChangedIff(c: Fields, order: seq<string>, values: map<string, string>)
    requires IsOrder(order, values)
    ensures var r := Rewrite(c, order, values); r.changed <==> r.completed && r.content != c
  {
    VerdictIsOrderFree(c, order, values);
    RewriteExactly(c, order, values);
    if !AnyFails(c, values) {
      var u := Edits(c, values, values.Keys);
      if u != map[] {
        var k :| k in u;
        assert Needs(c, values, k);
        CompletedHasValues(c, order, values, k);
      }
    }
  }

  /** The file needs writing for an eligible object that can be gone through and lacks one of the values. */
  lemma NeedsWriteIff(o: Object, values: map<string, string>, eligible: Gate)
    ensures ObjectNeedsWrite(o, values, eligible)
       <==> && eligible(o)
            && (forall k :: k in values ==>
                  !Blocked(o.content) && (NullOnPath(o.content) ==> values[k] == "") && (At(o.content, k).Some? ==> At(o.content, k).value.Str?))
            && exists k :: k in values && At(o.content, k) != Some(Str(values[k])) && !(values[k] == "" && At(o.content, k).None?)
  {
    var c := o.content;
    forall k | k in values
      ensures Fails(c, values, k) <==> Blocked(c) || (NullOnPath(c) && values[k] != "") || (At(c, k).Some? && !At(c, k).value.Str?)
      ensures !Fails(c, values, k) ==> (Needs(c, values, k) <==> At(c, k) != Some(Str(values[k])) && !(values[k] == "" && At(c, k).None?))
    {
      FailsIff(c, values, k);
    }
    if !AnyFails(c, values) {
      assert forall k :: k in values ==> (k in Edits(c, values, values.Keys) <==> Needs(c, values, k));
      assert Edits(c, values, values.Keys) != map[] <==> exists k :: k in Edits(c, values, values.Keys);
    }
  }

  // ---------------------------------------------------------------------------------------------
  // Eligibility in plain terms.

  predicate Yes(s: string) {
    s in ["1", "t", "T", "true", "TRUE", "True"]
  }

  predicate No(s: string) {
    s in ["0", "f", "F", "false", "FALSE", "False"]
  }

  /** A HelmChart whose inject annotation says yes, or says nothing of the kind while the environment says yes. */
  lemma EligibleIff(o: Object, key: string, env: string)
    ensures Eligible(key, env)(o)
       <==> && o.unstructured && "apiVersion" in o.content && o.content["apiVersion"] == Str("helm.cattle.io/v1")
            && "kind" in o.content && o.content["kind"] == Str("HelmChart")
            && var a := Annotation(o.content, key);
               (a.Some? && Yes(a.value)) || ((a.None? || !(Yes(a.value) || No(a.value))) && Yes(env))
  {
  }

  lemma AnnotationIff(c: Fields, key: string, value: string)
    ensures Annotation(c, key) == Some(value)
       <==> && "metadata" in c && c["metadata"].Map? && "annotations" in c["metadata"].fields && c["metadata"].fields["annotations"].Map?
            && var all := c["metadata"].fields["annotations"].fields;
               key in all && all[key] == Str(value) && forall k :: k in all ==> all[k].Str?
  {
  }
}
