/** The ingress rule for host networking: one block per pod CIDR of the flannel nodes, in a canonical order. */
module IngressRule {
  import opened Wrappers
  import opened Compaction

  /** What net.ParseCIDR finds: the address as printed, and whether it is an IPv4 one. */
  datatype Address = Address(text: string, isV4: bool)

  type Parser = string -> Option<Address>

  datatype Node = Node(annotated: bool, podCIDRs: seq<string>, podCIDR: string)

  function CIDRs(node: Node): seq<string> {
    if node.podCIDRs == [] then [node.podCIDR] else node.podCIDRs
  }

  /** The block of a CIDR; one that does not parse is skipped. */
  function Block(parse: Parser, cidr: string): seq<string> {
    match parse(cidr)
    case None => []
    case Some(a) => [a.text + if a.isV4 then "/32" else "/128"]
  }

  /** f of every element, in order, run together. */
  function Flat<T>(f: T -> seq<string>, s: seq<T>): seq<string> {
    if s == [] then [] else Flat(f, s[..|s| - 1]) + f(s[|s| - 1])
  }

  function ToBlock(parse: Parser): string -> seq<string> {
    cidr => Block(parse, cidr)
  }

  function NodeBlocks(parse: Parser, node: Node): seq<string> {
    if node.annotated then Flat(ToBlock(parse), CIDRs(node)) else []
  }

  function ToBlocks(parse: Parser): Node -> seq<string> {
    node => NodeBlocks(parse, node)
  }

  /** One block per parseable CIDR of each annotated node, as met. */
  function Blocks(parse: Parser, nodes: seq<Node>): seq<string> {
    Flat(ToBlocks(parse), nodes)
  }

  // ---------------------------------------------------------------------------------------------
  // String order.

  predicate Leq(a: string, b: string) {
    a == [] || (b != [] && (a[0] < b[0] || (a[0] == b[0] && Leq(a[1..], b[1..]))))
  }

  lemma {:induction false} LeqTotal(a: string, b: string)
    ensures Leq(a, b) || Leq(b, a)
    ensures Leq(a, a)
  {
    if a != [] {
      LeqTotal(a[1..], if b != [] then b[1..] else b);
    }
  }

  lemma {:induction false} LeqAntisymmetric(a: string, b: string)
    requires Leq(a, b) && Leq(b, a)
    ensures a == b
  {
    if a != [] {
      LeqAntisymmetric(a[1..], b[1..]);
      assert a == [a[0]] + a[1..] && b == [b[0]] + b[1..];
    }
  }

  lemma {:induction false} LeqTransitive(a: string, b: string, c: string)
    requires Leq(a, b) && Leq(b, c)
    ensures Leq(a, c)
  {
    if a != [] && a[0] == b[0] == c[0] {
      LeqTransitive(a[1..], b[1..], c[1..]);
    }
  }

  ghost predicate Sorted(s: seq<string>) {
    forall i, j :: 0 <= i < j < |s| ==> Leq(s[i], s[j])
  }

  /** A sorted list is determined by its elements: any correct sort yields the same one. */
  lemma {:induction false} SortedIsUnique(s: seq<string>, t: seq<string>)
    requires Sorted(s) && Sorted(t) && multiset(s) == multiset(t)
    ensures s == t
    decreases |s|
  {
    SameLength(s, t);
    if s != [] {
      SameHead(s, t);
      assert s == [s[0]] + s[1..] && t == [t[0]] + t[1..];
      CancelOne(multiset(s[1..]), multiset(t[1..]), s[0]);
      SortedIsUnique(s[1..], t[1..]);
    }
  }

  lemma SameHead(s: seq<string>, t: seq<string>)
    requires Sorted(s) && Sorted(t) && multiset(s) == multiset(t) && s != [] && t != []
    ensures s[0] == t[0]
  {
    assert s[0] in multiset(t) && t[0] in multiset(s);
    LeastHead(t, s[0]);
    LeastHead(s, t[0]);
    LeqAntisymmetric(s[0], t[0]);
  }

  lemma LeastHead(s: seq<string>, x: string)
    requires Sorted(s) && x in s
    ensures Leq(s[0], x)
  {
    var i :| 0 <= i < |s| && s[i] == x;
    LeqTotal(s[0], s[0]);
  }

  lemma SameLength<T>(s: seq<T>, t: seq<T>)
    requires multiset(s) == multiset(t)
    ensures |s| == |t|
  {
    assert |multiset(s)| == |s| && |multiset(t)| == |t|;
  }

  lemma CancelOne<T>(a: multiset<T>, b: multiset<T>, x: T)
    requires multiset{x} + a == multiset{x} + b
    ensures a == b
  {
    assert a == (multiset{x} + a) - multiset{x};
    assert b == (multiset{x} + b) - multiset{x};
  }

  /** sort.Slice by block text; equal keys are equal elements, so stability does not matter. */
  method Sort(s: seq<string>) returns (r: seq<string>)
    ensures Sorted(r) && multiset(r) == multiset(s)
  {
    r := [];
    for i := 0 to |s|
      invariant Sorted(r) && multiset(r) == multiset(s[..i])
    {
      assert s[..i + 1] == s[..i] + [s[i]];
      r := Insert(r, s[i]);
    }
    assert s[..|s|] == s;
  }

  method Insert(s: seq<string>, x: string) returns (r: seq<string>)
    requires Sorted(s)
    ensures Sorted(r) && multiset(r) == multiset(s) + multiset{x}
  {
    var k := |s|;
    while k > 0 && !Leq(s[k - 1], x)
      invariant 0 <= k <= |s|
      invariant forall j :: k <= j < |s| ==> Leq(x, s[j])
    {
      LeqTotal(s[k - 1], x);
      k := k - 1;
    }
    r := s[..k] + [x] + s[k..];
    InsertKeepsElements(s, x, k);
    LeqBelow(s, x, k);
    InsertKeepsSorted(s, x, k);
  }

  lemma InsertKeepsElements(s: seq<string>, x: string, k: nat)
    requires k <= |s|
    ensures multiset(s[..k] + [x] + s[k..]) == multiset(s) + multiset{x}
  {
    assert s == s[..k] + s[k..];
  }

  lemma LeqBelow(s: seq<string>, x: string, k: nat)
    requires Sorted(s) && k <= |s| && (k > 0 ==> Leq(s[k - 1], x))
    ensures forall j :: 0 <= j < k ==> Leq(s[j], x)
  {
    forall j | 0 <= j < k ensures Leq(s[j], x) {
      if j < k - 1 {
        LeqTransitive(s[j], s[k - 1], x);
      }
    }
  }

  lemma InsertKeepsSorted(s: seq<string>, x: string, k: nat)
    requires Sorted(s) && k <= |s|
    requires forall j :: 0 <= j < k ==> Leq(s[j], x)
    requires forall j :: k <= j < |s| ==> Leq(x, s[j])
    ensures Sorted(s[..k] + [x] + s[k..])
  {
    var r := s[..k] + [x] + s[k..];
    forall i, j | 0 <= i < j < |r| ensures Leq(r[i], r[j]) {
      assert r[i] == if i < k then s[i] else if i == k then x else s[i - 1];
      assert r[j] == if j < k then s[j] else if j == k then x else s[j - 1];
    }
  }

  // ---------------------------------------------------------------------------------------------
  // The rule.

  method AppendBlocks(parse: Parser, before: seq<string>, cidrs: seq<string>) returns (from: seq<string>)
    ensures from == before + Flat(ToBlock(parse), cidrs)
  {
    from := before;
    for j := 0 to |cidrs|
      invariant from == before + Flat(ToBlock(parse), cidrs[..j])
    {
      assert cidrs[..j + 1][..j] == cidrs[..j];
      var a := parse(cidrs[j]);
      if a.Some? {
        from := from + [a.value.text + if a.value.isV4 then "/32" else "/128"];
      }
    }
    assert cidrs[..|cidrs|] == cidrs;
  }

  method GenerateIngressRule(parse: Parser, nodes: seq<Node>) returns (from: seq<string>)
    ensures Sorted(from) && multiset(from) == multiset(Blocks(parse, nodes))
  {
    from := [];
    for i := 0 to |nodes|
      invariant from == Blocks(parse, nodes[..i])
    {
      assert nodes[..i + 1][..i] == nodes[..i];
      var node := nodes[i];
      if node.annotated {
        from := AppendBlocks(parse, from, if |node.podCIDRs| == 0 then [node.podCIDR] else node.podCIDRs);
      }
    }
    assert nodes[..|nodes|] == nodes;
    from := Sort(from);
  }

  // ---------------------------------------------------------------------------------------------
  // Independence of order.

  lemma WithoutMultiset<T>(s: seq<T>, i: nat)
    requires i < |s|
    ensures multiset(s) == multiset{s[i]} + multiset(Without(s, i))
  {
    assert s == s[..i] + [s[i]] + s[i + 1..];
  }

  lemma {:induction false} FlatConcat<T>(f: T -> seq<string>, s: seq<T>, t: seq<T>)
    ensures Flat(f, s + t) == Flat(f, s) + Flat(f, t)
  {
    if t == [] {
      assert s + t == s;
    } else {
      assert (s + t)[..|s + t| - 1] == s + t[..|t| - 1];
      FlatConcat(f, s, t[..|t| - 1]);
    }
  }

  lemma FlatSnoc<T>(f: T -> seq<string>, s: seq<T>, x: T)
    ensures Flat(f, s + [x]) == Flat(f, s) + f(x)
  {
    assert (s + [x])[..|s + [x]| - 1] == s;
  }

  lemma FlatSplit<T>(f: T -> seq<string>, a: seq<T>, x: T, b: seq<T>)
    ensures Flat(f, a + [x] + b) == (Flat(f, a) + f(x)) + Flat(f, b)
  {
    FlatConcat(f, a + [x], b);
    FlatSnoc(f, a, x);
  }

  lemma FlatMiddle<T>(f: T -> seq<string>, a: seq<T>, x: T, b: seq<T>)
    ensures multiset(Flat(f, a + [x] + b)) == multiset(Flat(f, a + b)) + multiset(f(x))
  {
    FlatSplit(f, a, x, b);
    FlatConcat(f, a, b);
    MiddleOut(Flat(f, a), f(x), Flat(f, b));
  }

  lemma Rejoin<T>(s: seq<T>, i: nat)
    requires i < |s|
    ensures s[..i] + [s[i]] + s[i + 1..] == s
  {
  }

  lemma FlatWithout<T>(f: T -> seq<string>, s: seq<T>, i: nat)
    requires i < |s|
    ensures multiset(Flat(f, s)) == multiset(Flat(f, Without(s, i))) + multiset(f(s[i]))
  {
    Rejoin(s, i);
    FlatMiddle(f, s[..i], s[i], s[i + 1..]);
  }

  lemma MiddleOut(a: seq<string>, x: seq<string>, b: seq<string>)
    ensures multiset((a + x) + b) == multiset(a + b) + multiset(x)
  {
  }

  lemma {:induction false} SameCIDRsSameBlocks(parse: Parser, s: seq<string>, t: seq<string>)
    requires multiset(s) == multiset(t)
    ensures multiset(Flat(ToBlock(parse), s)) == multiset(Flat(ToBlock(parse), t))
    decreases |s|
  {
    SameLength(s, t);
    if s != [] {
      var n := |s| - 1;
      assert s[n] in multiset(t);
      var i :| 0 <= i < |t| && t[i] == s[n];
      WithoutMultiset(s, n);
      WithoutMultiset(t, i);
      assert Without(s, n) == s[..n];
      CancelOne(multiset(s[..n]), multiset(Without(t, i)), s[n]);
      SameCIDRsSameBlocks(parse, s[..n], Without(t, i));
      FlatWithout(ToBlock(parse), t, i);
    }
  }

  /** What matters of a node: whether it counts, and its CIDRs without their order. */
  datatype Signature = Ignored | Counted(cidrs: multiset<string>)

  function SignatureOf(node: Node): Signature {
    if node.annotated then Counted(multiset(CIDRs(node))) else Ignored
  }

  function Signatures(nodes: seq<Node>): (r: seq<Signature>)
    ensures |r| == |nodes| && forall i :: 0 <= i < |nodes| ==> r[i] == SignatureOf(nodes[i])
  {
    seq(|nodes|, i requires 0 <= i < |nodes| => SignatureOf(nodes[i]))
  }

  lemma {:induction false} SameNodesSameBlocks(parse: Parser, s: seq<Node>, t: seq<Node>)
    requires multiset(Signatures(s)) == multiset(Signatures(t))
    ensures multiset(Blocks(parse, s)) == multiset(Blocks(parse, t))
    decreases |s|
  {
    SameLength(Signatures(s), Signatures(t));
    if s != [] {
      var n := |s| - 1;
      var i := MatchingNode(s, t);
      SameNodesSameBlocks(parse, s[..n], Without(t, i));
      FlatWithout(ToBlocks(parse), t, i);
      if s[n].annotated {
        SameCIDRsSameBlocks(parse, CIDRs(s[n]), CIDRs(t[i]));
      }
    }
  }

  /** The last node has a counterpart, and the lists without the two still match. */
  lemma MatchingNode(s: seq<Node>, t: seq<Node>) returns (i: nat)
    requires multiset(Signatures(s)) == multiset(Signatures(t)) && s != []
    ensures i < |t| && SignatureOf(t[i]) == SignatureOf(s[|s| - 1])
    ensures multiset(Signatures(s[..|s| - 1])) == multiset(Signatures(Without(t, i)))
  {
    var n, a, b := |s| - 1, Signatures(s), Signatures(t);
    assert a[n] in multiset(b);
    i :| 0 <= i < |b| && b[i] == a[n];
    WithoutMultiset(a, n);
    WithoutMultiset(b, i);
    CancelOne(multiset(Without(a, n)), multiset(Without(b, i)), a[n]);
    SignaturesWithout(s, n);
    SignaturesWithout(t, i);
    assert Without(s, n) == s[..n];
  }

  lemma SignaturesWithout(s: seq<Node>, i: nat)
    requires i < |s|
    ensures Without(Signatures(s), i) == Signatures(Without(s, i))
  {
  }

  /** Nodes listed in another order, each with its CIDRs in another order, give the identical rule. */
  lemma RuleIsCanonical(parse: Parser, s: seq<Node>, t: seq<Node>, from: seq<string>, from': seq<string>)
    requires multiset(Signatures(s)) == multiset(Signatures(t))
    requires Sorted(from) && multiset(from) == multiset(Blocks(parse, s))
    requires Sorted(from') && multiset(from') == multiset(Blocks(parse, t))
    ensures from == from'
  {
    SameNodesSameBlocks(parse, s, t);
    SortedIsUnique(from, from');
  }

  // ---------------------------------------------------------------------------------------------
  // The blocks and their order in plain terms.

  lemma {:induction false} FlatHas<T>(f: T -> seq<string>, s: seq<T>, b: string)
    ensures b in Flat(f, s) <==> exists i :: 0 <= i < |s| && b in f(s[i])
  {
    if s != [] {
      var front := s[..|s| - 1];
      FlatHas(f, front, b);
      if b in Flat(f, front) {
        var i :| 0 <= i < |front| && b in f(front[i]);
        assert b in f(s[i]);
      }
      if i :| 0 <= i < |s| && b in f(s[i]) {
        assert i < |front| ==> front[i] == s[i];
      }
    }
  }

  /** The block is that of a CIDR of the node: its own address with /32, or /128 for IPv6. */
  predicate IsBlockOf(parse: Parser, cidr: string, b: string) {
    parse(cidr).Some? && b == parse(cidr).value.text + if parse(cidr).value.isV4 then "/32" else "/128"
  }

  lemma CIDRsHave(parse: Parser, cidrs: seq<string>, b: string)
    ensures b in Flat(ToBlock(parse), cidrs) <==> exists cidr :: cidr in cidrs && IsBlockOf(parse, cidr, b)
  {
    FlatHas(ToBlock(parse), cidrs, b);
    if b in Flat(ToBlock(parse), cidrs) {
      var i :| 0 <= i < |cidrs| && b in ToBlock(parse)(cidrs[i]);
      assert cidrs[i] in cidrs && IsBlockOf(parse, cidrs[i], b);
    }
    if cidr :| cidr in cidrs && IsBlockOf(parse, cidr, b) {
      var i :| 0 <= i < |cidrs| && cidrs[i] == cidr;
      assert b in ToBlock(parse)(cidrs[i]);
    }
  }

  /** A block is in the rule exactly if it is that of a CIDR of an annotated node; the single CIDR counts only without a list. */
  lemma RuleHas(parse: Parser, nodes: seq<Node>, b: string)
    ensures b in Blocks(parse, nodes)
       <==> exists i :: 0 <= i < |nodes| && nodes[i].annotated
                        && if nodes[i].podCIDRs == [] then IsBlockOf(parse, nodes[i].podCIDR, b)
                           else exists cidr :: cidr in nodes[i].podCIDRs && IsBlockOf(parse, cidr, b)
  {
    FlatHas(ToBlocks(parse), nodes, b);
    forall i | 0 <= i < |nodes|
      ensures b in ToBlocks(parse)(nodes[i])
         <==> nodes[i].annotated && if nodes[i].podCIDRs == [] then IsBlockOf(parse, nodes[i].podCIDR, b)
                                    else exists cidr :: cidr in nodes[i].podCIDRs && IsBlockOf(parse, cidr, b)
    {
      CIDRsHave(parse, CIDRs(nodes[i]), b);
      if nodes[i].podCIDRs == [] && IsBlockOf(parse, nodes[i].podCIDR, b) {
        assert nodes[i].podCIDR in CIDRs(nodes[i]);
      }
    }
  }

  /** How many CIDRs of annotated nodes parse. */
  function Parsed(parse: Parser, cidrs: seq<string>): nat {
    if cidrs == [] then 0 else (if parse(cidrs[0]).Some? then 1 else 0) + Parsed(parse, cidrs[1..])
  }

  function ParsedOfNodes(parse: Parser, nodes: seq<Node>): nat {
    if nodes == [] then 0
    else
      var node := nodes[0];
      (if !node.annotated then 0 else if node.podCIDRs == [] then Parsed(parse, [node.podCIDR]) else Parsed(parse, node.podCIDRs))
      + ParsedOfNodes(parse, nodes[1..])
  }

  lemma {:induction false} CIDRsLength(parse: Parser, cidrs: seq<string>)
    ensures |Flat(ToBlock(parse), cidrs)| == Parsed(parse, cidrs)
  {
    if cidrs != [] {
      CIDRsLength(parse, cidrs[1..]);
      assert cidrs == [cidrs[0]] + cidrs[1..];
      FlatConcat(ToBlock(parse), [cidrs[0]], cidrs[1..]);
      FlatSnoc(ToBlock(parse), [], cidrs[0]);
      assert [] + [cidrs[0]] == [cidrs[0]];
    }
  }

  /** One block for each of them, none dropped or doubled. */
  lemma {:induction false} RuleLength(parse: Parser, nodes: seq<Node>)
    ensures |Blocks(parse, nodes)| == ParsedOfNodes(parse, nodes)
  {
    if nodes != [] {
      RuleLength(parse, nodes[1..]);
      assert nodes == [nodes[0]] + nodes[1..];
      FlatConcat(ToBlocks(parse), [nodes[0]], nodes[1..]);
      FlatSnoc(ToBlocks(parse), [], nodes[0]);
      assert [] + [nodes[0]] == [nodes[0]];
      CIDRsLength(parse, CIDRs(nodes[0]));
    }
  }

  /** The string order: a prefix comes first, else the smaller character at the first difference decides. */
  lemma {:induction false} LeqIff(a: string, b: string)
    ensures Leq(a, b) <==> exists k :: 0 <= k <= |a| && k <= |b| && a[..k] == b[..k] && (k == |a| || (k < |b| && a[k] < b[k]))
  {
    if a == [] {
      assert a[..0] == b[..0];
    } else if b != [] && a[0] == b[0] {
      LeqIff(a[1..], b[1..]);
      if Leq(a, b) {
        var k :| 0 <= k <= |a[1..]| && k <= |b[1..]| && a[1..][..k] == b[1..][..k] && (k == |a[1..]| || (k < |b[1..]| && a[1..][k] < b[1..][k]));
        assert a[..k + 1] == [a[0]] + a[1..][..k] && b[..k + 1] == [b[0]] + b[1..][..k];
      }
      if exists k :: 0 <= k <= |a| && k <= |b| && a[..k] == b[..k] && (k == |a| || (k < |b| && a[k] < b[k])) {
        var k :| 0 <= k <= |a| && k <= |b| && a[..k] == b[..k] && (k == |a| || (k < |b| && a[k] < b[k]));
        assert k > 0;
        assert a[1..][..k - 1] == a[..k][1..] && b[1..][..k - 1] == b[..k][1..];
      }
    } else if b != [] {
      assert a[..0] == b[..0];
      assert forall k :: 0 < k <= |a| && k <= |b| && a[..k] == b[..k] ==> a[..k][0] == a[0] && b[..k][0] == b[0];
    }
  }
}
