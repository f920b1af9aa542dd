/**
 Cleanup of disabled static pods: which components are selected, and the poll that removes their
 sandboxes while compacting the very list it ranges over.
 */
module StaticPodCleanup {
  import opened Compaction

  /** A kube-system pod sandbox; a missing label or annotation reads as the empty string. */
  datatype Sandbox = Sandbox(id: string, component: string, source: string)

  /** What one poll gets from the container runtime. */
  datatype Reply = Unavailable | Listed(items: seq<Sandbox>)

  predicate Matches(pod: Sandbox, component: string) {
    pod.component == component && pod.source == "file"
  }

  predicate Found(items: seq<Sandbox>, component: string) {
    exists q :: 0 <= q < |items| && Matches(items[q], component)
  }

  function Absent(items: seq<Sandbox>): string -> bool {
    c => !Found(items, c)
  }

  function Is(component: string): string -> bool {
    c => c == component
  }

  function MatchingIds(items: seq<Sandbox>, component: string): (ids: seq<string>)
    ensures forall id :: id in ids <==> exists q :: 0 <= q < |items| && items[q].id == id && Matches(items[q], component)
  {
    if items == [] then []
    else
      var init, last := items[..|items| - 1], items[|items| - 1];
      assert forall q :: 0 <= q < |items| - 1 ==> items[q] == init[q];
      MatchingIds(init, component) + (if Matches(last, component) then [last.id] else [])
  }

  // ---------------------------------------------------------------------------------------------
  // The poll as a function of the list: the range runs to the length the list had at the start,
  // and an index beyond the compacted list reads the zero value that DeleteFunc left there.

  function Seen(list: seq<string>, i: nat): string {
    if i < |list| then list[i] else ""
  }

  function Compacted(items: seq<Sandbox>, list: seq<string>, component: string): seq<string> {
    if Found(items, component) then list else Kept(Is(component), list)
  }

  function PollList(items: seq<Sandbox>, list: seq<string>, i: nat, n: nat): seq<string>
    requires i <= n
    decreases n - i
  {
    if i == n then list
    else PollList(items, Compacted(items, list, Seen(list, i)), i + 1, n)
  }

  function PollRemovals(items: seq<Sandbox>, list: seq<string>, i: nat, n: nat): seq<string>
    requires i <= n
    decreases n - i
  {
    if i == n then []
    else MatchingIds(items, Seen(list, i))
         + PollRemovals(items, Compacted(items, list, Seen(list, i)), i + 1, n)
  }

  function Step(list: seq<string>, reply: Reply): seq<string> {
    match reply
    case Unavailable => list
    case Listed(items) => PollList(items, list, 0, |list|)
  }

  function StepRemovals(list: seq<string>, reply: Reply): seq<string> {
    match reply
    case Unavailable => []
    case Listed(items) => PollRemovals(items, list, 0, |list|)
  }

  /** The work list after a whole run of polls. */
  function Run(list: seq<string>, replies: seq<Reply>): seq<string>
    decreases replies
  {
    if replies == [] then list else Run(Step(list, replies[0]), replies[1..])
  }

  function RunRemovals(list: seq<string>, replies: seq<Reply>): seq<string>
    decreases replies
  {
    if replies == [] then []
    else StepRemovals(list, replies[0]) + RunRemovals(Step(list, replies[0]), replies[1..])
  }

  // ---------------------------------------------------------------------------------------------
  // The code: a slice is a backing array and a length.

  /** slices.DeleteFunc: shifts in place, zeroes what is left over, returns the new length. */
  method DeleteFunc(a: array<string>, len: nat, component: string) returns (k: nat)
    requires len <= a.Length
    modifies a
    ensures k <= len && a[..k] == Kept(Is(component), old(a[..len]))
    ensures forall j :: k <= j < len ==> a[j] == ""
    ensures a[len..] == old(a[len..])
  {
    var i := IndexOf(a, len, component);
    if i == len {
      return len;
    }
    k := Shift(a, len, component, i);
    Clear(a, k, len);
  }

  method IndexOf(a: array<string>, len: nat, component: string) returns (i: nat)
    requires len <= a.Length
    ensures i <= len && a[..i] == Kept(Is(component), a[..i])
    ensures i < len ==> a[i] == component
  {
    i := 0;
    while i < len && a[i] != component
      invariant i <= len
      invariant forall j :: 0 <= j < i ==> a[j] != component
    {
      i := i + 1;
    }
    NoneDroppedKept(Is(component), a[..i]);
  }

  method Shift(a: array<string>, len: nat, component: string, i: nat) returns (k: nat)
    requires i < len <= a.Length && a[i] == component
    requires a[..i] == Kept(Is(component), a[..i])
    modifies a
    ensures k < len && a[..k] == Kept(Is(component), old(a[..len]))
    ensures a[len..] == old(a[len..])
  {
    ghost var was := a[..];
    k := i;
    KeptPush(component, was, i);
    for j := i + 1 to len
      invariant k < j
      invariant a[..k] == Kept(Is(component), was[..j])
      invariant a[j..] == was[j..]
    {
      KeptPush(component, was, j);
      var v := a[j];
      assert v == a[j..][0] == was[j];
      assert a[j + 1..] == a[j..][1..];
      if v != component {
        a[k] := v;
        k := k + 1;
      }
    }
  }

  lemma KeptPush(component: string, s: seq<string>, j: nat)
    requires j < |s|
    ensures Kept(Is(component), s[..j + 1])
         == Kept(Is(component), s[..j]) + if s[j] == component then [] else [s[j]]
  {
    assert s[..j + 1] == s[..j] + [s[j]];
    KeptConcat(Is(component), s[..j], [s[j]]);
  }

  method Clear(a: array<string>, k: nat, len: nat)
    requires k <= len <= a.Length
    modifies a
    ensures a[..k] == old(a[..k]) && a[len..] == old(a[len..])
    ensures forall j :: k <= j < len ==> a[j] == ""
  {
    for j := k to len
      invariant forall q :: 0 <= q < k || len <= q < a.Length ==> a[q] == old(a[q])
      invariant forall q :: k <= q < j ==> a[q] == ""
    {
      a[j] := "";
    }
  }

  lemma UnrollPoll(items: seq<Sandbox>, list: seq<string>, i: nat, n: nat)
    requires i < n
    ensures var next := Compacted(items, list, Seen(list, i));
            PollList(items, list, i, n) == PollList(items, next, i + 1, n)
            && PollRemovals(items, list, i, n)
               == MatchingIds(items, Seen(list, i)) + PollRemovals(items, next, i + 1, n)
  {
  }

  class Cleaner {
    var names: array<string>
    var len: nat
    /** Every id handed to RemovePodSandbox, in call order; failures are only logged. */
    var removed: seq<string>

    ghost predicate Valid()
      reads this
    {
      len <= names.Length
    }

    ghost function Remaining(): seq<string>
      requires Valid()
      reads this, names
    {
      names[..len]
    }

    constructor (terminatePods: seq<string>)
      ensures Valid() && fresh(names)
      ensures Remaining() == terminatePods && removed == []
    {
      names := new string[|terminatePods|](i requires 0 <= i < |terminatePods| => terminatePods[i]);
      len := |terminatePods|;
      removed := [];
    }

    /** One poll; the range header is fixed at the start, elements are read live. */
    method Poll(reply: Reply) returns (done: bool)
      requires Valid()
      modifies this, names
      ensures Valid() && names == old(names)
      ensures Remaining() == Step(old(Remaining()), reply)
      ensures removed == old(removed) + StepRemovals(old(Remaining()), reply)
      ensures done <==> reply.Listed? && Remaining() == []
    {
      if reply.Unavailable? {
        return false;
      }
      RangeOver(reply.items, len);
      done := len == 0;
    }

    /** The range loop, over the header the list had at the start. */
    method RangeOver(items: seq<Sandbox>, n: nat)
      requires Valid() && n == len
      modifies this, names
      ensures Valid() && names == old(names)
      ensures names[..len] == PollList(items, old(names[..len]), 0, n)
      ensures removed == old(removed) + PollRemovals(items, old(names[..len]), 0, n)
    {
      ghost var start, log := names[..len], removed;
      ghost var list, all := start, PollRemovals(items, start, 0, n);
      for i := 0 to n
        invariant len <= n <= names.Length && names == old(names)
        invariant forall j :: len <= j < n ==> names[j] == ""
        invariant names[..len] == list
        invariant PollList(items, list, i, n) == PollList(items, start, 0, n)
        invariant removed + PollRemovals(items, list, i, n) == log + all
      {
        ghost var before := removed;
        UnrollPoll(items, list, i, n);
        Visit(items, i, n);
        ghost var next := Compacted(items, list, Seen(list, i));
        Assoc(before, MatchingIds(items, Seen(list, i)), PollRemovals(items, next, i + 1, n));
        list := next;
      }
    }

    /** The body of the range loop at index i of a range of length n. */
    method Visit(items: seq<Sandbox>, i: nat, n: nat)
      requires len <= n <= names.Length && i < n
      requires forall j :: len <= j < n ==> names[j] == ""
      modifies this, names
      ensures len <= n && names == old(names)
      ensures forall j :: len <= j < n ==> names[j] == ""
      ensures names[..len] == Compacted(items, old(names[..len]), Seen(old(names[..len]), i))
      ensures removed == old(removed) + MatchingIds(items, Seen(old(names[..len]), i))
    {
      var component := names[i];
      var found := RemoveMatching(items, component);
      if !found {
        ghost var tail := names[len..];
        var before := len;
        len := DeleteFunc(names, len, component);
        assert forall j :: before <= j < n ==> names[j] == tail[j - before];
      }
    }

    method RemoveMatching(items: seq<Sandbox>, component: string) returns (found: bool)
      modifies this`removed
      ensures found == Found(items, component)
      ensures removed == old(removed) + MatchingIds(items, component)
    {
      found := false;
      for q := 0 to |items|
        invariant found == Found(items[..q], component)
        invariant removed == old(removed) + MatchingIds(items[..q], component)
      {
        assert items[..q + 1][..q] == items[..q];
        if Matches(items[q], component) {
          assert Matches(items[..q + 1][q], component);
          found := true;
          removed := removed + [items[q].id];
        } else {
          assert forall p :: 0 <= p < q ==> items[..q + 1][p] == items[..q][p];
        }
      }
      assert items[..|items|] == items;
    }
  }

  // ---------------------------------------------------------------------------------------------
  // Safety over any run of listings.

  lemma {:induction false} PollSafety(items: seq<Sandbox>, list: seq<string>, i: nat, n: nat, c: string)
    requires i <= n
    ensures c in PollList(items, list, i, n) ==> c in list
    ensures c in list && c !in PollList(items, list, i, n) ==> !Found(items, c)
    decreases n - i
  {
    if i < n {
      KeptMember(Is(Seen(list, i)), list, c);
      PollSafety(items, Compacted(items, list, Seen(list, i)), i + 1, n, c);
    }
  }

  lemma {:induction false} PollRemovalsAreLabelled(items: seq<Sandbox>, list: seq<string>, i: nat, n: nat, id: string)
    requires i <= n
    requires id in PollRemovals(items, list, i, n)
    ensures exists q :: 0 <= q < |items| && items[q].id == id && items[q].source == "file"
                        && (items[q].component in list || items[q].component == "")
    decreases n - i
  {
    if id in MatchingIds(items, Seen(list, i)) {
    } else {
      var next := Compacted(items, list, Seen(list, i));
      PollRemovalsAreLabelled(items, next, i + 1, n, id);
      forall c | c in next ensures c in list {
        KeptMember(Is(Seen(list, i)), list, c);
      }
    }
  }

  ghost predicate ListedAsAbsent(replies: seq<Reply>, c: string) {
    exists j :: 0 <= j < |replies| && replies[j].Listed? && !Runs(replies[j].items, c)
  }

  ghost predicate ListedAsFileSandbox(replies: seq<Reply>, names: seq<string>, id: string) {
    exists j, q :: 0 <= j < |replies| && replies[j].Listed? && 0 <= q < |replies[j].items|
                   && replies[j].items[q].id == id && replies[j].items[q].source == "file"
                   && (replies[j].items[q].component in names || replies[j].items[q].component == "")
  }

  /** A name leaves the list only through a poll whose listing had no file-sourced sandbox for it. */
  lemma {:induction false} NamesLeaveOnlyWhenAbsent(list: seq<string>, replies: seq<Reply>, c: string)
    ensures c in Run(list, replies) ==> c in list
    ensures c in list && c !in Run(list, replies) ==> ListedAsAbsent(replies, c)
    decreases replies
  {
    if replies != [] {
      var next := Step(list, replies[0]);
      if replies[0].Listed? {
        PollSafety(replies[0].items, list, 0, |list|, c);
      }
      NamesLeaveOnlyWhenAbsent(next, replies[1..], c);
      if c in list && c !in Run(list, replies) {
        if c in next {
          var j :| 0 <= j < |replies[1..]| && replies[1..][j].Listed? && !Found(replies[1..][j].items, c);
          assert replies[j + 1] == replies[1..][j];
        } else {
          assert replies[0].Listed? && !Found(replies[0].items, c);
        }
      }
    }
  }

  /** When the polling completes, every original name has been absent from some listing. */
  lemma CompletionMeansAllAbsent(list: seq<string>, replies: seq<Reply>)
    requires Run(list, replies) == []
    ensures forall c :: c in list ==> ListedAsAbsent(replies, c)
  {
    forall c | c in list ensures ListedAsAbsent(replies, c) {
      NamesLeaveOnlyWhenAbsent(list, replies, c);
    }
  }

  /** Nothing is ever removed but file-sourced sandboxes labelled with an original name or with nothing. */
  lemma {:induction false} RemovalsStayInScope(list: seq<string>, replies: seq<Reply>, id: string)
    requires id in RunRemovals(list, replies)
    ensures ListedAsFileSandbox(replies, list, id)
    decreases replies
  {
    var next := Step(list, replies[0]);
    if id in StepRemovals(list, replies[0]) {
      var items := replies[0].items;
      PollRemovalsAreLabelled(items, list, 0, |list|, id);
      var q :| 0 <= q < |items| && items[q].id == id && items[q].source == "file"
               && (items[q].component in list || items[q].component == "");
      assert replies[0].items[q].id == id;
    } else {
      RemovalsStayInScope(next, replies[1..], id);
      var j, q :| 0 <= j < |replies[1..]| && replies[1..][j].Listed? && 0 <= q < |replies[1..][j].items|
                  && replies[1..][j].items[q].id == id && replies[1..][j].items[q].source == "file"
                  && (replies[1..][j].items[q].component in next || replies[1..][j].items[q].component == "");
      var c := replies[1..][j].items[q].component;
      if c in next && replies[0].Listed? {
        PollSafety(replies[0].items, list, 0, |list|, c);
      }
      assert replies[j + 1].items[q].id == id;
    }
  }

  // ---------------------------------------------------------------------------------------------
  // What one poll leaves, exactly, for the lists the caller builds: distinct, non-empty names.

  ghost predicate WorkList(list: seq<string>) {
    Distinct(list) && "" !in list
  }

  lemma {:induction false} RemoveOne(list: seq<string>, i: nat)
    requires Distinct(list) && i < |list|
    ensures Kept(Is(list[i]), list) == list[..i] + list[i + 1..]
  {
    var drop := Is(list[i]);
    assert list == list[..i] + ([list[i]] + list[i + 1..]);
    KeptConcat(drop, list[..i], [list[i]] + list[i + 1..]);
    KeptConcat(drop, [list[i]], list[i + 1..]);
    NoneDroppedKept(drop, list[..i]);
    NoneDroppedKept(drop, list[i + 1..]);
  }

  lemma {:induction false} PollFrom(items: seq<Sandbox>, list: seq<string>, i: nat, n: nat)
    requires WorkList(list) && i <= n && |list| <= n
    ensures PollList(items, list, i, n)
         == if i < |list| then list[..i] + Survivors(Absent(items), list[i..]) else list
    decreases n - i
  {
    if i == n {
    } else if i >= |list| {
      NoneDroppedKept(Is(""), list);
      PollFrom(items, list, i + 1, n);
    } else if Found(items, list[i]) {
      PollFrom(items, list, i + 1, n);
      PassOver(Absent(items), list, i);
    } else {
      RemoveOne(list, i);
      DistinctMinus(list, i);
      PollFrom(items, list[..i] + list[i + 1..], i + 1, n);
      Shield(Absent(items), list, i);
    }
  }

  lemma PassOver(drop: string -> bool, list: seq<string>, i: nat)
    requires i < |list| && !drop(list[i])
    ensures list[..i] + Survivors(drop, list[i..])
         == if i + 1 < |list| then list[..i + 1] + Survivors(drop, list[i + 1..]) else list
  {
    assert list[i..][0] == list[i] && list[i..][1..] == list[i + 1..];
    assert list[..i + 1] == list[..i] + [list[i]];
    if i + 1 == |list| {
      assert Survivors(drop, list[i + 1..]) == [];
    }
  }

  /** Deleting position i and going on at i + 1 keeps the element that slides into i unseen. */
  lemma Shield(drop: string -> bool, list: seq<string>, i: nat)
    requires i < |list| && drop(list[i])
    ensures var next := list[..i] + list[i + 1..];
            list[..i] + Survivors(drop, list[i..])
            == if i + 1 < |next| then next[..i + 1] + Survivors(drop, next[i + 1..]) else next
  {
    var next := list[..i] + list[i + 1..];
    if i + 1 < |list| {
      assert list[i..][0] == list[i] && list[i..][1] == list[i + 1] && list[i..][2..] == list[i + 2..];
      assert next[..i + 1] == list[..i] + [list[i + 1]];
      assert next[i + 1..] == list[i + 2..];
      assert Survivors(drop, list[i..]) == [list[i + 1]] + Survivors(drop, list[i + 2..]);
      if i + 2 == |list| {
        assert Survivors(drop, list[i + 2..]) == [];
        assert next == next[..i + 1];
      }
    }
  }

  lemma DistinctMinus(list: seq<string>, i: nat)
    requires WorkList(list) && i < |list|
    ensures WorkList(list[..i] + list[i + 1..])
  {
    var next := list[..i] + list[i + 1..];
    forall a, b | 0 <= a < b < |next| ensures next[a] != next[b] {
      assert next[a] == list[if a < i then a else a + 1];
      assert next[b] == list[if b < i then b else b + 1];
    }
  }

  /** A deletion shields the next name: that is all that separates the poll from a filter. */
  lemma PollLeaves(items: seq<Sandbox>, list: seq<string>)
    requires WorkList(list)
    ensures Step(list, Listed(items)) == Survivors(Absent(items), list)
    ensures WorkList(Step(list, Listed(items)))
  {
    PollFrom(items, list, 0, |list|);
    assert list[..0] == [] && list[0..] == list;
    SurvivorsDistinct(Absent(items), list);
    SurvivorsWithin(Absent(items), list);
  }

  /** The poll forgets every absent name exactly when no two neighbouring names are both absent. */
  lemma PollIsFilterIff(items: seq<Sandbox>, list: seq<string>)
    requires WorkList(list)
    ensures Step(list, Listed(items)) == Kept(Absent(items), list)
       <==> NoAdjacentDrops(Absent(items), list)
  {
    PollLeaves(items, list);
    SurvivorsAreKeptIff(Absent(items), list);
  }

  /** The list shrinks exactly when some listed name has no sandbox left. */
  lemma PollShrinksIff(items: seq<Sandbox>, list: seq<string>)
    requires WorkList(list)
    ensures |Step(list, Listed(items))| < |list| <==> exists c :: c in list && !Found(items, c)
  {
    PollLeaves(items, list);
    ShrinksIff(Absent(items), list);
  }

  lemma {:induction false} ShrinksIff(drop: string -> bool, s: seq<string>)
    ensures |Survivors(drop, s)| < |s| <==> exists c :: c in s && drop(c)
  {
    if s != [] {
      if drop(s[0]) {
        assert s[0] in s;
      } else {
        ShrinksIff(drop, s[1..]);
        if exists c :: c in s && drop(c) {
          var c :| c in s && drop(c);
          assert c in s[1..];
        }
      }
    }
  }

  // ---------------------------------------------------------------------------------------------
  // Which sandboxes one poll removes, exactly.

  /** The names the range gets to see: the one after a deleted name is passed over. */
  function Visited(drop: string -> bool, s: seq<string>): (r: seq<string>)
    ensures |r| <= |s|
  {
    if s == [] then []
    else if !drop(s[0]) then [s[0]] + Visited(drop, s[1..])
    else if |s| == 1 then [s[0]]
    else [s[0]] + Visited(drop, s[2..])
  }

  function From(list: seq<string>, i: nat): seq<string> {
    if i <= |list| then list[i..] else []
  }

  /** The cells read from index i on: the visited names, then the zeroed tail. */
  function Cells(items: seq<Sandbox>, list: seq<string>, i: nat, n: nat): seq<string>
    requires i <= n && |list| <= n
  {
    var names := Visited(Absent(items), From(list, i));
    names + seq(n - i - |names|, _ => "")
  }

  function IdsFor(items: seq<Sandbox>, names: seq<string>): seq<string> {
    if names == [] then [] else MatchingIds(items, names[0]) + IdsFor(items, names[1..])
  }

  lemma {:induction false} PollVisits(items: seq<Sandbox>, list: seq<string>, i: nat, n: nat)
    requires WorkList(list) && i <= n && |list| <= n
    ensures PollRemovals(items, list, i, n) == IdsFor(items, Cells(items, list, i, n))
    decreases n - i
  {
    if i < n {
      var next := Compacted(items, list, Seen(list, i));
      NextCells(items, list, i, n);
      PollVisits(items, next, i + 1, n);
      assert Cells(items, list, i, n)[1..] == Cells(items, next, i + 1, n);
    }
  }

  lemma NextCells(items: seq<Sandbox>, list: seq<string>, i: nat, n: nat)
    requires WorkList(list) && i < n && |list| <= n
    ensures var next := Compacted(items, list, Seen(list, i));
            WorkList(next) && |next| <= n && Cells(items, list, i, n) == [Seen(list, i)] + Cells(items, next, i + 1, n)
  {
    var next := Compacted(items, list, Seen(list, i));
    if i >= |list| {
      NoneDroppedKept(Is(""), list);
      assert next == list && From(list, i) == [] && From(list, i + 1) == [];
      assert seq(n - i, _ => "") == [""] + seq(n - i - 1, _ => "");
    } else {
      assert list[i..][0] == list[i];
      if Found(items, list[i]) {
        assert list[i..][1..] == From(list, i + 1);
      } else {
        RemoveOne(list, i);
        DistinctMinus(list, i);
        assert |list[i..]| > 1 ==> list[i..][2..] == From(next, i + 1);
      }
    }
  }

  /** One poll removes the file-sourced sandboxes of the names it visits, in order, and for every index past the compacted list those with no label. */
  lemma PollRemoves(items: seq<Sandbox>, list: seq<string>)
    requires WorkList(list)
    ensures var names := Visited(Absent(items), list);
            StepRemovals(list, Listed(items)) == IdsFor(items, names + seq(|list| - |names|, _ => ""))
  {
    PollVisits(items, list, 0, |list|);
    assert From(list, 0) == list;
  }

  lemma {:induction false} VisitedHas(drop: string -> bool, s: seq<string>, j: nat)
    requires j < |s| && (j == 0 || !drop(s[j - 1]))
    ensures s[j] in Visited(drop, s)
  {
    if j > 0 {
      if !drop(s[0]) {
        VisitedHas(drop, s[1..], j - 1);
      } else {
        VisitedHas(drop, s[2..], j - 2);
      }
    }
  }

  lemma {:induction false} IdsForHas(items: seq<Sandbox>, names: seq<string>, c: string, q: nat)
    requires c in names && q < |items| && items[q].component == c && items[q].source == "file"
    ensures items[q].id in IdsFor(items, names)
  {
    if names[0] == c {
      assert Matches(items[q], c);
    } else {
      IdsForHas(items, names[1..], c, q);
    }
  }

  /** A static pod of the component is running. */
  predicate Runs(items: seq<Sandbox>, c: string) {
    exists q :: 0 <= q < |items| && items[q].component == c && items[q].source == "file"
  }

  /** A name whose static pod runs stays on the list, and its sandboxes are removed, unless the name before it has just been forgotten. */
  lemma RunningIsRemoved(items: seq<Sandbox>, list: seq<string>, j: nat, q: nat)
    requires WorkList(list) && j < |list| && (j == 0 || Runs(items, list[j - 1]))
    requires q < |items| && items[q].component == list[j] && items[q].source == "file"
    ensures items[q].id in StepRemovals(list, Listed(items)) && list[j] in Step(list, Listed(items))
  {
    var drop := Absent(items);
    assert Matches(items[q], list[j]);
    if j > 0 {
      var p :| 0 <= p < |items| && items[p].component == list[j - 1] && items[p].source == "file";
      assert Matches(items[p], list[j - 1]);
    }
    VisitedHas(drop, list, j);
    PollRemoves(items, list);
    var names := Visited(drop, list);
    IdsForHas(items, names + seq(|list| - |names|, _ => ""), list[j], q);
    PollSafety(items, list, 0, |list|, list[j]);
  }

  /** In any poll a name whose static pod runs stays. */
  lemma RunningStays(items: seq<Sandbox>, list: seq<string>, c: string)
    requires c in list && Runs(items, c)
    ensures c in Step(list, Listed(items))
  {
    var q :| 0 <= q < |items| && items[q].component == c && items[q].source == "file";
    assert Matches(items[q], c);
    PollSafety(items, list, 0, |list|, c);
  }

  /** The first name goes when its static pod does not run. */
  lemma FirstAbsentGoes(items: seq<Sandbox>, list: seq<string>)
    requires WorkList(list) && list != [] && !Runs(items, list[0])
    ensures list[0] !in Step(list, Listed(items))
  {
    PollLeaves(items, list);
    if |list| > 1 {
      SurvivorsWithin(Absent(items), list[2..]);
    }
  }

  // ---------------------------------------------------------------------------------------------
  // How long a run takes once nothing is running any more.

  function Pow2(k: nat): (p: nat)
    ensures p > 0
  {
    if k == 0 then 1 else 2 * Pow2(k - 1)
  }

  ghost predicate AllGone(list: seq<string>, reply: Reply) {
    reply.Listed? && forall c :: c in list ==> !Found(reply.items, c)
  }

  lemma PollHalves(items: seq<Sandbox>, list: seq<string>)
    requires WorkList(list) && AllGone(list, Listed(items))
    ensures Step(list, Listed(items)) == OddPositions(list)
  {
    PollLeaves(items, list);
    AllDropped(Absent(items), list);
  }

  /** k * p, as repeated addition: every use below is linear. */
  function Times(k: nat, p: nat): (m: nat)
    ensures k > 0 ==> m >= p
  {
    if k == 0 then 0 else Times(k - 1, p) + p
  }

  lemma {:induction false} TimesIsProduct(k: nat, p: nat)
    ensures Times(k, p) == k * p && Times(k, 2 * p) == 2 * Times(k, p)
  {
    if k > 0 {
      TimesIsProduct(k - 1, p);
      assert k * p == (k - 1) * p + p;
    }
  }

  /** r[j] is the (j + 1) * p-th name of list. */
  ghost predicate TakenAt(list: seq<string>, r: seq<string>, p: nat, j: nat)
    requires p > 0 && j < |r|
  {
    Times(j + 1, p) <= |list| && r[j] == list[Times(j + 1, p) - 1]
  }

  /** r is what remains of list when only every p-th name is taken; its length is |list| / p. */
  ghost predicate EveryNth(list: seq<string>, r: seq<string>, p: nat)
    requires p > 0
  {
    Times(|r|, p) <= |list| < Times(|r|, p) + p
    && forall j :: 0 <= j < |r| ==> TakenAt(list, r, p, j)
  }

  lemma EveryNthOfOdd(list: seq<string>, r: seq<string>, p: nat)
    requires p > 0 && EveryNth(OddPositions(list), r, p)
    ensures EveryNth(list, r, 2 * p)
  {
    TimesIsProduct(|r|, p);
    forall j | 0 <= j < |r| ensures TakenAt(list, r, 2 * p, j) {
      TimesIsProduct(j + 1, p);
      assert TakenAt(OddPositions(list), r, p, j);
    }
  }

  /**
   After k polls that find nothing, the list is exactly the names at positions 2^k - 1, 2*2^k - 1, ...:
   n / 2^k of them.  The polling is therefore over after k polls if and only if n < 2^k.
   */
  lemma {:induction false} HalvingRun(list: seq<string>, replies: seq<Reply>)
    requires WorkList(list)
    requires forall j :: 0 <= j < |replies| ==> AllGone(list, replies[j])
    ensures EveryNth(list, Run(list, replies), Pow2(|replies|))
    ensures Run(list, replies) == [] <==> |list| < Pow2(|replies|)
    decreases replies
  {
    if replies != [] {
      assert AllGone(list, replies[0]);
      var next := Step(list, replies[0]);
      PollHalves(replies[0].items, list);
      PollLeaves(replies[0].items, list);
      forall j | 0 <= j < |replies[1..]| ensures AllGone(next, replies[1..][j]) {
        assert replies[1..][j] == replies[j + 1];
      }
      HalvingRun(next, replies[1..]);
      EveryNthOfOdd(list, Run(list, replies), Pow2(|replies| - 1));
    } else {
      TimesIsProduct(|list|, 1);
      forall j | 0 <= j < |list| ensures TakenAt(list, list, 1, j) {
        TimesIsProduct(j + 1, 1);
      }
    }
  }

  // ---------------------------------------------------------------------------------------------
  // Selection of what to clean up.

  datatype Selection = Skipped | DeleteFailed(component: string) | Cleanup(components: seq<string>)

  class Host {
    var dirsPresent: bool
    var manifests: set<string>
    var disabled: map<string, bool>

    constructor (dirsPresent: bool, manifests: set<string>, disabled: map<string, bool>)
      ensures this.dirsPresent == dirsPresent && this.manifests == manifests && this.disabled == disabled
    {
      this.dirsPresent, this.manifests, this.disabled := dirsPresent, manifests, disabled;
    }

    /**
     Selects the disabled components that have a manifest and deletes those manifests.  The comment
     in the source says a cluster reset forces termination of etcd and kube-apiserver even without
     manifests; what the code does is stated here: they are selected exactly when their manifest exists.
     */
    method SelectDisabled(clusterReset: bool, undeletable: set<string>) returns (r: Selection)
      modifies this`manifests, this`disabled
      ensures disabled == if dirsPresent && clusterReset
                          then old(disabled)["etcd" := true]["kube-apiserver" := true] else old(disabled)
      ensures r.Skipped? <==> !dirsPresent || forall c :: c in old(manifests) && c in disabled ==> !disabled[c]
      ensures r.Skipped? ==> manifests == old(manifests)
      ensures r.Cleanup? ==>
                && Distinct(r.components)
                && (forall c :: c in r.components <==> c in disabled && disabled[c] && c in old(manifests))
                && (forall c :: c in manifests <==> c in old(manifests) && c !in r.components)
                && (forall c :: c in r.components ==> c !in undeletable)
      ensures r.Cleanup? && clusterReset ==>
                ("etcd" in r.components <==> "etcd" in old(manifests))
                && ("kube-apiserver" in r.components <==> "kube-apiserver" in old(manifests))
      ensures r.DeleteFailed? ==> r.component in undeletable && r.component in manifests
      ensures manifests <= old(manifests)
      ensures forall c :: c in old(manifests) && !(c in disabled && disabled[c]) ==> c in manifests
    {
      if !dirsPresent {
        return Skipped;
      }
      if clusterReset {
        disabled := disabled["etcd" := true]["kube-apiserver" := true];
      }
      var selected := Collect();
      if selected == [] {
        return Skipped;
      }
      assert selected[0] in selected;
      var failed := DeleteAll(selected, undeletable);
      return if failed < |selected| then DeleteFailed(selected[failed]) else Cleanup(selected);
    }

    /** The disabled components with a manifest, in the order the map happens to be walked. */
    method Collect() returns (selected: seq<string>)
      ensures Distinct(selected)
      ensures forall c :: c in selected <==> c in disabled && disabled[c] && c in manifests
    {
      var pending := disabled.Keys;
      selected := [];
      while pending != {}
        invariant pending <= disabled.Keys
        invariant Distinct(selected) && forall c :: c in selected ==> c !in pending
        invariant forall c :: c in selected <==> c in disabled && disabled[c] && c in manifests && c !in pending
        decreases |pending|
      {
        var c :| c in pending;
        pending := pending - {c};
        if disabled[c] && c in manifests {
          selected := selected + [c];
        }
      }
    }

    /** Deletes manifests until one cannot be deleted; returns its index, or the length. */
    method DeleteAll(selected: seq<string>, undeletable: set<string>) returns (i: nat)
      requires Distinct(selected)
      modifies this`manifests
      ensures i <= |selected|
      ensures forall c :: c in manifests <==> c in old(manifests) && c !in selected[..i]
      ensures forall j :: 0 <= j < i ==> selected[j] !in undeletable
      ensures i < |selected| ==> selected[i] in undeletable
    {
      i := 0;
      while i < |selected| && selected[i] !in undeletable
        invariant i <= |selected|
        invariant forall c :: c in manifests <==> c in old(manifests) && c !in selected[..i]
        invariant forall j :: 0 <= j < i ==> selected[j] !in undeletable
      {
        manifests := manifests - {selected[i]};
        i := i + 1;
      }
    }
  }
}
