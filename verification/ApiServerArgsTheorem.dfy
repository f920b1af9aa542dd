/** The main results about the kube-apiserver arguments. */
module ApiServerArgsTheorem {
  import opened Compaction
  import opened Text
  import opened ApiServerArgs
  import opened ApiServerArgsExact

  ghost predicate Right(c: Config, s: seq<string>) {
    var out := Scan(c, Start(s));
    out.Done? && out.args == Intended(c, s)
  }

  ghost predicate ReportsSeen(c: Config, s: seq<string>) {
    var out := Scan(c, Start(s));
    out.Done? && out.audit == LastAudit(c, "", SeenArgs(c, s)) && out.found == AnyAddressTypes(c, false, SeenArgs(c, s))
  }

  ghost predicate Exact(c: Config, s: seq<string>) {
    (Right(c, s) <==> Safe(c, s)) && (Safe(c, s) ==> ReportsSeen(c, s))
  }

  /** The state when the loop reaches the first dropped flag. */
  function AtFirst(c: Config, s: seq<string>, f: nat): State
    requires f <= |s|
  {
    State(s, s, true, f, LastAudit(c, "", s[..f]), AnyAddressTypes(c, false, s[..f]))
  }

  lemma ReachFirst(c: Config, s: seq<string>, f: nat)
    requires f <= |s| && Clean(c, s[..f])
    ensures WellFormed(AtFirst(c, s, f)) && Scan(c, Start(s)) == Scan(c, AtFirst(c, s, f))
  {
    assert s[0..f] == s[..f];
    SkipClean(c, Start(s), f);
  }

  /**
   The rewriting loop yields the intended arguments if and only if the caller's arguments are Safe;
   and then it reports what it has seen.
   */
  lemma RewriteIsRightIff(c: Config, s: seq<string>)
    requires ValidConfig(c)
    ensures Right(c, s) <==> Safe(c, s)
    ensures Safe(c, s) ==> ReportsSeen(c, s)
  {
    var f := FirstDrop(c, s);
    if f == |s| {
      NothingToDo(c, s);
    } else if !IsRemoved(c, s[f]) {
      FirstIsReplaced(c, s, f);
    } else {
      FirstIsRemoved(c, s, f);
    }
  }

  lemma NothingToDo(c: Config, s: seq<string>)
    requires Clean(c, s)
    ensures Exact(c, s)
  {
    assert s[..|s|] == s;
    ReachFirst(c, s, |s|);
    assert Scan(c, Start(s)) == Done(s, LastAudit(c, "", s), AnyAddressTypes(c, false, s));
    assert Intended(c, s) == s by {
      NoneDroppedKept(Drop(c), s);
      assert forall i :: 0 <= i < |s| ==> !Drop(c)(s[i]);
      assert [] + s == s;
    }
    assert ReportsSeen(c, s) by {
      NoneDroppedSeen(c, s);
      LastTwice(c, "", false, s);
    }
    assert Separated(c, s) by {
      assert forall i :: 0 <= i < |s| ==> !Drop(c)(s[i]);
    }
  }

  lemma LastTwice(c: Config, audit: string, found: bool, s: seq<string>)
    ensures var last := if s == [] then [] else [s[|s| - 1]];
            LastAudit(c, audit, s + last) == LastAudit(c, audit, s)
            && AnyAddressTypes(c, found, s + last) == AnyAddressTypes(c, found, s)
  {
    if s == [] {
      assert s + [] == s;
    } else {
      var pre, z := s[..|s| - 1], s[|s| - 1];
      assert s == pre + [z] && s + [z] == pre + [z, z];
      ReportsConcat(c, audit, found, pre, [z]);
      ReportsConcat(c, audit, found, pre, [z, z]);
      ReportsRepeat(c, LastAudit(c, audit, pre), AnyAddressTypes(c, found, pre), z, [z, z]);
    }
  }

  // ---------------------------------------------------------------------------------------------
  // The first dropped flag is a replaced --etcd-servers.

  lemma FirstIsReplaced(c: Config, s: seq<string>, f: nat)
    requires ValidConfig(c) && f < |s| && Clean(c, s[..f]) && IsReplaced(c, s[f])
    ensures Exact(c, s)
  {
    ReachFirst(c, s, f);
    SplitAt(c, s, f);
    if f == |s| - 1 {
      ReplacedLast(c, s);
    } else if Clean(c, s[f + 1..]) {
      ReplacedThenClean(c, s, f);
    } else if f == |s| - 2 && IsRemoved(c, s[f + 1]) {
      ReplacedThenRemoved(c, s);
    } else {
      ReplacedThenDropped(c, s, f);
    }
  }

  lemma ReplacedLast(c: Config, s: seq<string>)
    requires s != [] && Clean(c, s[..|s| - 1]) && IsReplaced(c, s[|s| - 1])
    ensures Exact(c, s)
  {
    var f := |s| - 1;
    ReachFirst(c, s, f);
    SplitAt(c, s, f);
    var st := AtFirst(c, s, f);
    var next := Next(c, st).value;
    assert next.args == [c.kine] + s[..f];
    assert Scan(c, st) == Done(next.args, st.audit, st.found);
    assert s[..f] + [] == s[..f];
    SafeIfLastOnly(c, s);
    SeenWhenLastOnly(c, s);
  }

  /** The outcome that is right in every respect. */
  function RightOutcome(c: Config, s: seq<string>): Outcome {
    Done(Intended(c, s), LastAudit(c, "", SeenArgs(c, s)), AnyAddressTypes(c, false, SeenArgs(c, s)))
  }

  lemma ReplacedThenClean(c: Config, s: seq<string>, f: nat)
    requires f < |s| - 1 && Clean(c, s[..f]) && IsReplaced(c, s[f]) && Clean(c, s[f + 1..])
    ensures Exact(c, s)
  {
    assert Safe(c, s) by {
      SafeIffReplacedFirst(c, s, f);
    }
    ReplacedCleanOutcome(c, s, f);
  }

  lemma ReplacedCleanOutcome(c: Config, s: seq<string>, f: nat)
    requires f < |s| - 1 && Clean(c, s[..f]) && IsReplaced(c, s[f]) && Clean(c, s[f + 1..])
    ensures Scan(c, Start(s)) == RightOutcome(c, s)
  {
    ReplacedCleanScan(c, s, f);
    IntendedReplaced(c, s, f);
    SeenPastDrop(c, s, f);
    NoneDroppedSeen(c, s[f + 2..]);
  }

  lemma ReplacedCleanScan(c: Config, s: seq<string>, f: nat)
    requires f < |s| - 1 && Clean(c, s[..f]) && IsReplaced(c, s[f]) && Clean(c, s[f + 1..])
    ensures var st, seen := AtFirst(c, s, f), s[f + 2..] + [s[|s| - 1]];
            Clean(c, s[f + 2..])
            && Scan(c, Start(s)) == Done([c.kine] + s[..f] + s[f + 1..], LastAudit(c, st.audit, seen), AnyAddressTypes(c, st.found, seen))
  {
    ReplacedScan(c, s, f);
    ReplacedNext(c, s, f);
    CleanAfterReplaced(c, s, f, Next(c, AtFirst(c, s, f)).value);
  }

  lemma CleanAfterReplaced(c: Config, s: seq<string>, f: nat, next: State)
    requires f < |s| - 1 && Clean(c, s[f + 1..]) && Replaced(c, next, s[..f], s[f + 1..], s[|s| - 1..])
    ensures Clean(c, s[f + 2..])
    ensures var seen := s[f + 2..] + [s[|s| - 1]];
            Scan(c, next) == Done([c.kine] + s[..f] + s[f + 1..], LastAudit(c, next.audit, seen), AnyAddressTypes(c, next.found, seen))
  {
    var t := s[f + 1..];
    DropDrop(s, f + 1, 1);
    assert forall i :: 0 <= i < |t[1..]| ==> t[1..][i] == t[i + 1];
    assert t[|t| - 1] == s[|s| - 1];
    ReplacedCleanRest(c, next, s[..f], t, s[|s| - 1..]);
  }

  lemma ReplacedScan(c: Config, s: seq<string>, f: nat)
    requires f < |s| - 1 && Clean(c, s[..f]) && IsReplaced(c, s[f])
    ensures Next(c, AtFirst(c, s, f)).Some? && Scan(c, Start(s)) == Scan(c, Next(c, AtFirst(c, s, f)).value)
  {
    ReachFirst(c, s, f);
  }

  lemma ReplacedNext(c: Config, s: seq<string>, f: nat)
    requires f < |s| - 1 && IsReplaced(c, s[f]) && Next(c, AtFirst(c, s, f)).Some?
    ensures var st := AtFirst(c, s, f); var next := Next(c, st).value;
            Replaced(c, next, s[..f], s[f + 1..], s[|s| - 1..]) && next.audit == st.audit && next.found == st.found
  {
    AfterReplaceShape(c, AtFirst(c, s, f), s[..f], s[f + 1..], s[|s| - 1..]);
  }

  lemma IntendedReplaced(c: Config, s: seq<string>, f: nat)
    requires f < |s| && Clean(c, s[..f]) && IsReplaced(c, s[f]) && Clean(c, s[f + 1..])
    ensures Intended(c, s) == [c.kine] + s[..f] + s[f + 1..]
  {
    SplitAt(c, s, f);
    NoneDroppedKept(Drop(c), s[f + 1..]);
    assert [c.kine] + s[..f] + s[f + 1..] == [c.kine] + (s[..f] + s[f + 1..]);
  }

  lemma ReplacedThenRemoved(c: Config, s: seq<string>)
    requires |s| >= 2 && Clean(c, s[..|s| - 2]) && IsReplaced(c, s[|s| - 2]) && IsRemoved(c, s[|s| - 1])
    ensures Exact(c, s)
  {
    RemovedAtEndScan(c, s);
    RemovedAtEndIntended(c, s);
    RemovedAtEndReports(c, s);
    assert ReplacedThenRemovedAtEnd(c, s);
  }

  lemma RemovedAtEndScan(c: Config, s: seq<string>)
    requires |s| >= 2 && Clean(c, s[..|s| - 2]) && IsReplaced(c, s[|s| - 2]) && IsRemoved(c, s[|s| - 1])
    ensures var st := AtFirst(c, s, |s| - 2); Scan(c, Start(s)) == Done([c.kine] + s[..|s| - 2], st.audit, st.found)
  {
    var f := |s| - 2;
    ReplacedScan(c, s, f);
    ReplacedNext(c, s, f);
    ReplacedRemovedAtEnd(c, Next(c, AtFirst(c, s, f)).value, s[..f], s[f + 1..], s[|s| - 1..]);
  }

  lemma RemovedAtEndIntended(c: Config, s: seq<string>)
    requires |s| >= 2 && Clean(c, s[..|s| - 2]) && IsReplaced(c, s[|s| - 2]) && IsRemoved(c, s[|s| - 1])
    ensures [c.kine] + s[..|s| - 2] == Intended(c, s)
  {
    var f := |s| - 2;
    SplitAt(c, s, f);
    assert Kept(Drop(c), s[f + 1..]) == [];
    assert s[..f] + [] == s[..f];
  }

  lemma RemovedAtEndReports(c: Config, s: seq<string>)
    requires |s| >= 2 && Clean(c, s[..|s| - 2]) && IsReplaced(c, s[|s| - 2]) && IsRemoved(c, s[|s| - 1])
    ensures var st := AtFirst(c, s, |s| - 2);
            st.audit == LastAudit(c, "", SeenArgs(c, s)) && st.found == AnyAddressTypes(c, false, SeenArgs(c, s))
  {
    var f := |s| - 2;
    var st := AtFirst(c, s, f);
    SeenPastDrop(c, s, f);
    assert s[f + 2..] == [] && [] + [s[|s| - 1]] == [s[|s| - 1]];
    DroppedReportsNothing(c, st.audit, st.found, s[|s| - 1]);
  }

  lemma ReplacedThenDropped(c: Config, s: seq<string>, f: nat)
    requires ValidConfig(c) && f < |s| - 1 && Clean(c, s[..f]) && IsReplaced(c, s[f])
    requires !Clean(c, s[f + 1..]) && !(f == |s| - 2 && IsRemoved(c, s[f + 1]))
    ensures Exact(c, s)
  {
    assert !Safe(c, s) by {
      SafeIffReplacedFirst(c, s, f);
    }
    ReplacedWrongOutcome(c, s, f);
    if Scan(c, Start(s)).Done? {
      WrongIsNotIntended(c, Scan(c, Start(s)), s);
    }
  }

  lemma ReplacedWrongOutcome(c: Config, s: seq<string>, f: nat)
    requires ValidConfig(c) && f < |s| - 1 && Clean(c, s[..f]) && IsReplaced(c, s[f])
    requires !Clean(c, s[f + 1..]) && !(f == |s| - 2 && IsRemoved(c, s[f + 1]))
    ensures Wrong(c, Scan(c, Start(s)), |Kept(Drop(c), s)|)
  {
    ReplacedWrongNext(c, s, f);
    ReachFirst(c, s, f);
    ScanStep(c, AtFirst(c, s, f));
    SplitAt(c, s, f);
  }

  lemma ReplacedWrongNext(c: Config, s: seq<string>, f: nat)
    requires ValidConfig(c) && f < |s| - 1 && IsReplaced(c, s[f])
    requires !Clean(c, s[f + 1..]) && !(f == |s| - 2 && IsRemoved(c, s[f + 1]))
    ensures WellFormed(AtFirst(c, s, f)) && Next(c, AtFirst(c, s, f)).Some?
    ensures Wrong(c, Scan(c, Next(c, AtFirst(c, s, f)).value), |Kept(Drop(c), s[..f] + s[f + 1..])|)
  {
    var st := AtFirst(c, s, f);
    AfterReplaceShape(c, st, s[..f], s[f + 1..], s[|s| - 1..]);
    ReplacedElseWrong(c, Next(c, st).value, s[..f], s[f + 1..], s[|s| - 1..]);
  }

  /** How the intended result and the count of clean arguments split at the first dropped flag. */
  lemma SplitAt(c: Config, s: seq<string>, f: nat)
    requires f < |s| && Clean(c, s[..f]) && Drop(c)(s[f])
    ensures Kept(Drop(c), s) == s[..f] + Kept(Drop(c), s[f + 1..])
    ensures |Kept(Drop(c), s)| == |Kept(Drop(c), s[..f] + s[f + 1..])|
    ensures Header(c, s) == if IsReplaced(c, s[f]) then [c.kine] else Header(c, s[f + 1..])
  {
    var pre, t := s[..f], s[f + 1..];
    assert s == pre + ([s[f]] + t);
    KeptConcat(Drop(c), pre, [s[f]] + t);
    KeptConcat(Drop(c), [s[f]], t);
    KeptConcat(Drop(c), pre, t);
    NoneDroppedKept(Drop(c), pre);
    assert forall i :: 0 <= i < f ==> s[i] == pre[i] && !Drop(c)(pre[i]);
    if AnyReplaced(c, s) && !IsReplaced(c, s[f]) {
      var i :| 0 <= i < |s| && IsReplaced(c, s[i]);
      assert i >= f by {
        assert Drop(c)(s[i]);
      }
      assert t[i - f - 1] == s[i];
    }
    if AnyReplaced(c, t) {
      var i :| 0 <= i < |t| && IsReplaced(c, t[i]);
      assert t[i] == s[f + 1 + i];
    }
  }

  lemma SeenPastDrop(c: Config, s: seq<string>, f: nat)
    requires f < |s| - 1 && Clean(c, s[..f]) && Drop(c)(s[f])
    ensures var st := AtFirst(c, s, f);
            var seen := Seen(c, s[f + 2..]) + [s[|s| - 1]];
            LastAudit(c, "", SeenArgs(c, s)) == LastAudit(c, st.audit, seen)
            && AnyAddressTypes(c, false, SeenArgs(c, s)) == AnyAddressTypes(c, st.found, seen)
  {
    var pre, rest := s[..f], s[f..];
    assert s == pre + rest && rest[0] == s[f] && rest[2..] == s[f + 2..];
    SeenCleanPrefix(c, pre, rest);
    var seen := Seen(c, s[f + 2..]) + [s[|s| - 1]];
    assert SeenArgs(c, s) == pre + seen;
    ReportsConcat(c, "", false, pre, seen);
  }

  lemma NoneDroppedSeen(c: Config, s: seq<string>)
    requires Clean(c, s)
    ensures Seen(c, s) == s
  {
    SeenCleanPrefix(c, s, []);
    assert s + [] == s;
  }

  lemma DroppedReportsNothing(c: Config, audit: string, found: bool, arg: string)
    requires Drop(c)(arg)
    ensures LastAudit(c, audit, Seen(c, []) + [arg]) == audit
    ensures AnyAddressTypes(c, found, Seen(c, []) + [arg]) == found
  {
    OneReport(c, audit, found, arg);
    assert Seen(c, []) + [arg] == [arg];
  }

  lemma SeenWhenLastOnly(c: Config, s: seq<string>)
    requires s != [] && Clean(c, s[..|s| - 1]) && Drop(c)(s[|s| - 1])
    ensures LastAudit(c, "", SeenArgs(c, s)) == LastAudit(c, "", s[..|s| - 1])
    ensures AnyAddressTypes(c, false, SeenArgs(c, s)) == AnyAddressTypes(c, false, s[..|s| - 1])
  {
    var pre, d := s[..|s| - 1], s[|s| - 1];
    assert s == pre + [d];
    SeenCleanPrefix(c, pre, [d]);
    assert SeenArgs(c, s) == pre + [d];
    ReportsConcat(c, "", false, pre, [d]);
    OneReport(c, LastAudit(c, "", pre), AnyAddressTypes(c, false, pre), d);
  }

  lemma SafeIfLastOnly(c: Config, s: seq<string>)
    requires s != [] && Clean(c, s[..|s| - 1])
    ensures Safe(c, s)
  {
    assert forall i :: 0 <= i < |s| - 1 ==> s[i] == s[..|s| - 1][i];
    assert forall i :: 0 <= i < |s| && IsReplaced(c, s[i]) ==> Drop(c)(s[i]);
  }

  lemma SafeIffReplacedFirst(c: Config, s: seq<string>, f: nat)
    requires f < |s| - 1 && Clean(c, s[..f]) && IsReplaced(c, s[f])
    ensures Safe(c, s) <==> Clean(c, s[f + 1..]) || (f == |s| - 2 && IsRemoved(c, s[f + 1]))
  {
    var pre, t := s[..f], s[f + 1..];
    assert forall i :: 0 <= i < f ==> s[i] == pre[i];
    assert forall i :: f < i < |s| ==> s[i] == t[i - f - 1];
    assert Drop(c)(s[f]);
    if Separated(c, s) {
      forall j | 0 <= j < |t| ensures !Drop(c)(t[j]) {
        assert t[j] == s[f + 1 + j];
      }
    }
    if Clean(c, t) {
      assert forall i :: 0 <= i < |s| && i != f ==> !Drop(c)(s[i]);
      assert Separated(c, s);
    }
    assert f < |s| - 2 ==> s[..|s| - 2][f] == s[f];
    if f == |s| - 2 && IsRemoved(c, s[f + 1]) {
      assert ReplacedThenRemovedAtEnd(c, s);
    }
  }

  // ---------------------------------------------------------------------------------------------
  // The first dropped flag is removed.

  lemma FirstIsRemoved(c: Config, s: seq<string>, f: nat)
    requires ValidConfig(c) && f < |s| && Clean(c, s[..f]) && IsRemoved(c, s[f])
    ensures Exact(c, s)
  {
    if f == |s| - 1 {
      RemovedLast(c, s);
    } else if Drop(c)(s[|s| - 1]) {
      RemovedThenLast(c, s, f);
    } else if !Drop(c)(s[f + 1]) {
      RemovedThenClean(c, s, f);
    } else if f == 0 && c.external && s[1] == c.kine {
      RemovedThenKine(c, s);
    } else {
      RemovedThenDropped(c, s, f);
    }
  }

  lemma RemovedLast(c: Config, s: seq<string>)
    requires s != [] && Clean(c, s[..|s| - 1]) && IsRemoved(c, s[|s| - 1])
    ensures Exact(c, s)
  {
    var f := |s| - 1;
    ReachFirst(c, s, f);
    SplitAt(c, s, f);
    var st := AtFirst(c, s, f);
    assert Next(c, st).value.args == s[..f];
    assert Scan(c, st) == Done(s[..f], st.audit, st.found);
    SafeIfLastOnly(c, s);
    SeenWhenLastOnly(c, s);
    assert [] + (s[..f] + []) == s[..f];
  }

  lemma RemovedThenLast(c: Config, s: seq<string>, f: nat)
    requires f < |s| - 1 && Clean(c, s[..f]) && IsRemoved(c, s[f]) && Drop(c)(s[|s| - 1])
    ensures Exact(c, s)
  {
    ReachFirst(c, s, f);
    var next := Next(c, AtFirst(c, s, f)).value;
    assert next.cells[|s| - 1] == s[|s| - 1];
    DroppedLastCellPanics(c, next);
    UnsafeLast(c, s, f);
  }

  lemma UnsafeLast(c: Config, s: seq<string>, f: nat)
    requires f < |s| - 1 && Clean(c, s[..f]) && IsRemoved(c, s[f]) && Drop(c)(s[|s| - 1])
    ensures !Safe(c, s)
  {
    assert s[..|s| - 1][f] == s[f];
    assert Drop(c)(s[..|s| - 1][f]);
    assert f < |s| - 2 ==> s[..|s| - 2][f] == s[f];
  }

  lemma RemovedState(c: Config, s: seq<string>, f: nat)
    requires f < |s| - 1 && IsRemoved(c, s[f]) && !Drop(c)(s[|s| - 1])
    ensures var next := Next(c, AtFirst(c, s, f)).value;
            Shortened(c, next) && next.args == Without(s, f) && next.i == f + 1
            && next.audit == AtFirst(c, s, f).audit && next.found == AtFirst(c, s, f).found
            && next.args[..f + 1] == s[..f] + [s[f + 1]] && next.args[f + 1..] == s[f + 2..]
            && next.args[|next.args| - 1] == s[|s| - 1]
  {
    WithoutShape(s, f);
    StaleAfter(c, s, f);
  }

  lemma StaleAfter(c: Config, s: seq<string>, f: nat)
    requires f < |s| - 1 && IsRemoved(c, s[f])
    ensures Next(c, AtFirst(c, s, f)).value.cells[|s| - 1..] == [s[|s| - 1]]
  {
    var next := Next(c, AtFirst(c, s, f)).value;
    assert next.cells == Without(s, f) + s[|s| - 1..];
  }

  lemma RemovedThenClean(c: Config, s: seq<string>, f: nat)
    requires ValidConfig(c) && f < |s| - 1 && Clean(c, s[..f]) && IsRemoved(c, s[f])
    requires !Drop(c)(s[|s| - 1]) && !Drop(c)(s[f + 1])
    ensures Exact(c, s)
  {
    var w, out := s[f + 2..], Scan(c, Start(s));
    ShiftedOutcome(c, s, f);
    assert Safe(c, s) <==> SafeRest(c, w) by {
      SafeIffRest(c, s, f);
      DropDrop(s, f + 1, 1);
      SafeRestTail(c, s[f + 1..]);
    }
    if SafeRest(c, w) {
      IntendedPastRemoved(c, s, f);
    } else if out.Done? {
      SplitAt(c, s, f);
      WrongIsNotIntended(c, out, s);
    }
  }

  lemma IntendedPastRemoved(c: Config, s: seq<string>, f: nat)
    requires f < |s| - 1 && Clean(c, s[..f]) && IsRemoved(c, s[f]) && !Drop(c)(s[f + 1])
    ensures Intended(c, s) == Header(c, s[f + 2..]) + (s[..f] + [s[f + 1]]) + Kept(Drop(c), s[f + 2..])
  {
    var t, w := s[f + 1..], s[f + 2..];
    SplitAt(c, s, f);
    DropDrop(s, f + 1, 1);
    HeaderTail(c, t);
    Assoc(s[..f], [s[f + 1]], Kept(Drop(c), w));
    Assoc(Header(c, w), s[..f] + [s[f + 1]], Kept(Drop(c), w));
  }

  lemma SafeIffRest(c: Config, s: seq<string>, f: nat)
    requires ValidConfig(c) && f < |s| - 1 && Clean(c, s[..f]) && IsRemoved(c, s[f])
    requires !Drop(c)(s[|s| - 1]) && !Drop(c)(s[f + 1])
    ensures Safe(c, s) <==> SafeRest(c, s[f + 1..])
  {
    var t := s[f + 1..];
    assert forall i :: 0 <= i < f ==> s[i] == s[..f][i];
    assert forall i :: f < i < |s| ==> s[i] == t[i - f - 1];
    assert t[0] == s[f + 1];
    if Separated(c, s) {
      forall i, j | 0 <= i && j == i + 1 && j < |t| ensures !(Drop(c)(t[i]) && Drop(c)(t[j])) {
        assert t[i] == s[f + 1 + i] && t[j] == s[f + 1 + j];
      }
      forall i, j | 0 <= i < j < |t| && IsReplaced(c, t[i]) ensures !Drop(c)(t[j]) {
        assert t[i] == s[f + 1 + i] && t[j] == s[f + 1 + j];
      }
    }
    if SafeRest(c, t) {
      forall i, j | 0 <= i && j == i + 1 && j < |s| ensures !(Drop(c)(s[i]) && Drop(c)(s[j])) {
        if i > f {
          assert s[i] == t[i - f - 1] && s[j] == t[j - f - 1];
        }
      }
      forall i, j | 0 <= i < j < |s| && IsReplaced(c, s[i]) ensures !Drop(c)(s[j]) {
        assert Drop(c)(s[i]);
        assert i > f;
      }
      assert Separated(c, s);
    }
    assert f > 0 ==> !IsRemoved(c, s[0]);
    assert c.external ==> Drop(c)(c.kine);
  }

  lemma RemovedThenKine(c: Config, s: seq<string>)
    requires ValidConfig(c) && c.external && |s| > 1 && IsRemoved(c, s[0]) && s[1] == c.kine && !Drop(c)(s[|s| - 1])
    ensures Exact(c, s)
  {
    assert Safe(c, s) <==> SafeRest(c, s[2..]) && !AnyReplaced(c, s[2..]) by {
      SafeIffKine(c, s);
    }
    KineOutcome(c, s);
  }

  lemma KineOutcome(c: Config, s: seq<string>)
    requires ValidConfig(c) && c.external && |s| > 1 && IsRemoved(c, s[0]) && s[1] == c.kine && !Drop(c)(s[|s| - 1])
    ensures Right(c, s) <==> SafeRest(c, s[2..]) && !AnyReplaced(c, s[2..])
    ensures Right(c, s) ==> ReportsSeen(c, s)
  {
    assert s[..0] == [];
    if SafeRest(c, s[2..]) {
      ShiftedReports(c, s, 0);
      KineSafe(c, s);
    } else {
      KineUnsafe(c, s);
    }
  }

  lemma KineSafe(c: Config, s: seq<string>)
    requires ValidConfig(c) && c.external && |s| > 1 && IsRemoved(c, s[0]) && s[1] == c.kine && !Drop(c)(s[|s| - 1])
    requires SafeRest(c, s[2..])
    ensures Right(c, s) <==> !AnyReplaced(c, s[2..])
  {
    assert s[..0] == [];
    ShiftedArgs(c, s, 0);
    KineRight(c, s);
  }

  lemma KineUnsafe(c: Config, s: seq<string>)
    requires ValidConfig(c) && c.external && |s| > 1 && IsRemoved(c, s[0]) && s[1] == c.kine && !Drop(c)(s[|s| - 1])
    requires !SafeRest(c, s[2..])
    ensures !Right(c, s)
  {
    assert s[..0] == [];
    ShiftedOutcome(c, s, 0);
    KineWrong(c, s);
  }

  lemma KineRight(c: Config, s: seq<string>)
    requires ValidConfig(c) && c.external && |s| > 1 && IsRemoved(c, s[0]) && s[1] == c.kine
    requires var out := Scan(c, Start(s));
             out.Done? && out.args == Header(c, s[2..]) + (s[..0] + [s[1]]) + Kept(Drop(c), s[2..])
    ensures Right(c, s) <==> !AnyReplaced(c, s[2..])
  {
    RightIffKine(c, s, Scan(c, Start(s)));
  }

  lemma KineWrong(c: Config, s: seq<string>)
    requires ValidConfig(c) && c.external && |s| > 1 && IsRemoved(c, s[0]) && s[1] == c.kine
    requires Wrong(c, Scan(c, Start(s)), |Kept(Drop(c), Without(s, 0))|)
    ensures !Right(c, s)
  {
    IntendedKine(c, s);
    if Scan(c, Start(s)).Done? {
      WrongIsNotIntended(c, Scan(c, Start(s)), s);
    }
  }

  /** The loop's outcome once the first dropped flag has been shifted out. */
  lemma ShiftedOutcome(c: Config, s: seq<string>, f: nat)
    requires ValidConfig(c) && f < |s| - 1 && Clean(c, s[..f]) && IsRemoved(c, s[f]) && !Drop(c)(s[|s| - 1])
    ensures var w := s[f + 2..];
            if SafeRest(c, w)
            then ReportsSeen(c, s) && Scan(c, Start(s)).args == Header(c, w) + (s[..f] + [s[f + 1]]) + Kept(Drop(c), w)
            else Wrong(c, Scan(c, Start(s)), |Kept(Drop(c), Without(s, f))|)
  {
    var next := Next(c, AtFirst(c, s, f)).value;
    ReachFirst(c, s, f);
    RemovedState(c, s, f);
    ShortenedRun(c, next);
    assert Scan(c, Start(s)) == Scan(c, next);
    SeenPastDrop(c, s, f);
  }

  lemma ShiftedReports(c: Config, s: seq<string>, f: nat)
    requires ValidConfig(c) && f < |s| - 1 && Clean(c, s[..f]) && IsRemoved(c, s[f]) && !Drop(c)(s[|s| - 1])
    requires SafeRest(c, s[f + 2..])
    ensures ReportsSeen(c, s)
  {
    ShiftedOutcome(c, s, f);
  }

  lemma ShiftedArgs(c: Config, s: seq<string>, f: nat)
    requires ValidConfig(c) && f < |s| - 1 && Clean(c, s[..f]) && IsRemoved(c, s[f]) && !Drop(c)(s[|s| - 1])
    requires SafeRest(c, s[f + 2..])
    ensures var out := Scan(c, Start(s));
            out.Done? && out.args == Header(c, s[f + 2..]) + (s[..f] + [s[f + 1]]) + Kept(Drop(c), s[f + 2..])
  {
    ShiftedOutcome(c, s, f);
  }

  lemma RightIffKine(c: Config, s: seq<string>, out: Outcome)
    requires ValidConfig(c) && c.external && |s| > 1 && IsRemoved(c, s[0]) && s[1] == c.kine
    requires out.Done? && out.args == Header(c, s[2..]) + (s[..0] + [s[1]]) + Kept(Drop(c), s[2..])
    ensures out.args == Intended(c, s) <==> !AnyReplaced(c, s[2..])
  {
    IntendedKine(c, s);
    assert s[..0] + [s[1]] == [c.kine];
    assert [] + [c.kine] == [c.kine];
  }

  lemma IntendedKine(c: Config, s: seq<string>)
    requires ValidConfig(c) && c.external && |s| > 1 && IsRemoved(c, s[0]) && s[1] == c.kine
    ensures Intended(c, s) == [c.kine] + Kept(Drop(c), s[2..])
    ensures |Kept(Drop(c), s)| == |Kept(Drop(c), Without(s, 0))|
  {
    assert s[1..][0] == s[1] && s[1..][1..] == s[2..];
    assert IsReplaced(c, s[1]) && Drop(c)(s[0]) && Drop(c)(s[1]);
    assert AnyReplaced(c, s);
    assert Kept(Drop(c), s) == Kept(Drop(c), s[1..]) == Kept(Drop(c), s[2..]);
    assert Without(s, 0) == s[1..];
  }

  lemma SafeIffKine(c: Config, s: seq<string>)
    requires ValidConfig(c) && c.external && |s| > 1 && IsRemoved(c, s[0]) && s[1] == c.kine && !Drop(c)(s[|s| - 1])
    ensures Safe(c, s) <==> SafeRest(c, s[2..]) && !AnyReplaced(c, s[2..])
  {
    assert Drop(c)(s[0]) && Drop(c)(s[1]);
    if !AnyReplaced(c, s[2..]) {
      NoReplacedIsSafe(c, s[2..]);
    }
  }

  lemma NoReplacedIsSafe(c: Config, w: seq<string>)
    requires !AnyReplaced(c, w)
    ensures ReplacedIsLastDrop(c, w)
  {
  }

  lemma RemovedThenDropped(c: Config, s: seq<string>, f: nat)
    requires ValidConfig(c) && f < |s| - 1 && Clean(c, s[..f]) && IsRemoved(c, s[f])
    requires !Drop(c)(s[|s| - 1]) && Drop(c)(s[f + 1])
    requires f > 0 || !c.external || s[1] != c.kine
    ensures Exact(c, s)
  {
    assert !Safe(c, s) by {
      assert Drop(c)(s[f]);
      assert f > 0 ==> !Drop(c)(s[..f][0]);
    }
    ShieldedDropIsWrong(c, s, f);
  }

  lemma ShieldedDropIsWrong(c: Config, s: seq<string>, f: nat)
    requires ValidConfig(c) && f < |s| - 1 && Clean(c, s[..f]) && IsRemoved(c, s[f]) && Drop(c)(s[f + 1])
    requires f > 0 || !c.external || s[1] != c.kine
    ensures !Right(c, s)
  {
    var out := Scan(c, Start(s));
    var q := DroppedStays(c, s, f);
    if out.Done? {
      KeptHasNoDrops(Drop(c), s);
      if q >= 1 {
        assert DroppedAt(c, out.args, q);
        WrongIsNotIntended(c, out, s);
      }
    }
  }

  lemma DroppedStays(c: Config, s: seq<string>, f: nat) returns (q: nat)
    requires f < |s| - 1 && Clean(c, s[..f]) && IsRemoved(c, s[f])
    ensures var out := Scan(c, Start(s)); out.Done? ==> f <= q < |out.args| && out.args[q] == s[f + 1]
  {
    ReachFirst(c, s, f);
    var next := Next(c, AtFirst(c, s, f)).value;
    WithoutShape(s, f);
    q := PassedStays(c, next, f);
  }

  // ---------------------------------------------------------------------------------------------
  // A concrete failure.

  lemma ExampleFlags(value: string)
    ensures FlagOf("--advertise-port" + "=" + value) == Removed
    ensures FlagOf("--basic-auth-file" + "=" + value) == Removed
    ensures FlagOf("--v" + "=" + value) == Plain
  {
    NameValue("--advertise-port", value);
    NameValue("--basic-auth-file", value);
    NameValue("--v", value);
  }

  /** Two removed flags in a row: the second one reaches the kube-apiserver, which does not know it. */
  lemma AdjacentRemovedFlagSurvives(socket: string)
    ensures var c := ServerConfig(false, socket);
            var b := "--basic-auth-file" + "=" + "2";
            var s := ["--advertise-port" + "=" + "2", b, "--v" + "=" + "2"];
            Scan(c, Start(s)).Done? && !Right(c, s) && b in Scan(c, Start(s)).args
  {
    ExampleFlags("2");
    ServerConfigIsValid(false, socket);
    SecondSurvives(ServerConfig(false, socket), "--advertise-port" + "=" + "2", "--basic-auth-file" + "=" + "2", "--v" + "=" + "2");
  }

  lemma SecondSurvives(c: Config, a: string, b: string, z: string)
    requires ValidConfig(c) && IsRemoved(c, a) && IsRemoved(c, b) && c.flag(z) == Plain
    ensures Scan(c, Start([a, b, z])).Done? && !Right(c, [a, b, z]) && b in Scan(c, Start([a, b, z])).args
  {
    var s := [a, b, z];
    var one := Next(c, Start(s)).value;
    assert one.args == [b, z] && one.cells == [b, z, z];
    var two := Next(c, one).value;
    assert two.args == [b, z] && two.cells == [b, z, z] && two.i == 2;
    var three := Next(c, two).value;
    assert three.args == [b, z] && three.i == 3;
    assert Scan(c, three) == Done(three.args, three.audit, three.found);
    assert Scan(c, two) == Scan(c, three);
    assert Scan(c, one) == Scan(c, two);
    assert Scan(c, Start(s)) == Scan(c, one);
    assert Drop(c)(s[0]) && Drop(c)(s[1]);
    RewriteIsRightIff(c, s);
    assert !Safe(c, s);
  }
}
