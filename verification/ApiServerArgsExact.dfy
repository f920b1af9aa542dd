/** When the argument rewriting does what it is meant to do: an exact condition on the caller's arguments. */
module ApiServerArgsExact {
  import opened Compaction
  import opened Text
  import opened ApiServerArgs

  ghost predicate Clean(c: Config, s: seq<string>) {
    NoneDropped(Drop(c), s)
  }

  /** A replaced flag is the last flag that is dropped at all (so there is at most one). */
  ghost predicate ReplacedIsLastDrop(c: Config, s: seq<string>) {
    forall i, j :: 0 <= i < j < |s| && IsReplaced(c, s[i]) ==> !Drop(c)(s[j])
  }

  /** The ordinary way to be safe. */
  ghost predicate Separated(c: Config, s: seq<string>) {
    NoAdjacentDrops(Drop(c), s) && LastDroppedAlone(Drop(c), s) && ReplacedIsLastDrop(c, s)
  }

  /** The list ends with the replaced flag and one removed flag, which is then re-read from the stale cell. */
  ghost predicate ReplacedThenRemovedAtEnd(c: Config, s: seq<string>) {
    |s| >= 2 && IsReplaced(c, s[|s| - 2]) && IsRemoved(c, s[|s| - 1]) && Clean(c, s[..|s| - 2])
  }

  /** A removed flag in front shields an --etcd-servers that already is the kine address. */
  ghost predicate KineShieldedInFront(c: Config, s: seq<string>) {
    c.external && |s| >= 3 && IsRemoved(c, s[0]) && s[1] == c.kine
    && !AnyReplaced(c, s[2..]) && NoAdjacentDrops(Drop(c), s[2..]) && !Drop(c)(s[|s| - 1])
  }

  ghost predicate Safe(c: Config, s: seq<string>) {
    Separated(c, s) || ReplacedThenRemovedAtEnd(c, s) || KineShieldedInFront(c, s)
  }

  // ---------------------------------------------------------------------------------------------
  // What any run keeps.

  /** Reading clean cells only collects the reports. */
  lemma {:induction false} SkipClean(c: Config, st: State, j: nat)
    requires WellFormed(st) && st.i <= j <= |st.cells| && Clean(c, st.cells[st.i..j])
    ensures WellFormed(st.(i := j))
    ensures Scan(c, st) == Scan(c, st.(i := j, audit := LastAudit(c, st.audit, st.cells[st.i..j]),
                                       found := AnyAddressTypes(c, st.found, st.cells[st.i..j])))
    decreases j - st.i
  {
    if st.i < j {
      var inspected := st.cells[st.i..j];
      assert inspected[0] == st.cells[st.i] && inspected[1..] == st.cells[st.i + 1..j];
      assert !Drop(c)(inspected[0]);
      SkipClean(c, Next(c, st).value, j);
    }
  }

  lemma AllClean(c: Config, st: State)
    requires WellFormed(st) && Clean(c, st.cells[st.i..])
    ensures Scan(c, st) == Done(st.args, LastAudit(c, st.audit, st.cells[st.i..]), AnyAddressTypes(c, st.found, st.cells[st.i..]))
  {
    assert st.cells[st.i..|st.cells|] == st.cells[st.i..];
    SkipClean(c, st, |st.cells|);
  }

  /** An argument at an index the loop has passed is never taken away, only pushed to the right. */
  lemma {:induction false} PassedStays(c: Config, st: State, p: nat) returns (q: nat)
    requires WellFormed(st) && p < st.i && p < |st.args|
    ensures var out := Scan(c, st); out.Done? ==> p <= q < |out.args| && out.args[q] == st.args[p]
    decreases |st.cells| - st.i
  {
    q := p;
    if st.i < |st.cells| && Next(c, st).Some? {
      var at := PassedNext(c, st, p);
      q := PassedStays(c, Next(c, st).value, at);
    }
  }

  lemma PassedNext(c: Config, st: State, p: nat) returns (q: nat)
    requires WellFormed(st) && p < st.i < |st.cells| && p < |st.args| && Next(c, st).Some?
    ensures var next := Next(c, st).value; p <= q < next.i && q < |next.args| && next.args[q] == st.args[p]
  {
    q := p;
    if Drop(c)(st.cells[st.i]) {
      assert Without(st.args, st.i)[p] == st.args[p];
      q := if IsRemoved(c, st.cells[st.i]) then p else p + 1;
    }
  }

  /** No clean argument is ever added. */
  lemma {:induction false} CleanNeverGrows(c: Config, st: State)
    requires WellFormed(st) && ValidConfig(c)
    ensures var out := Scan(c, st); out.Done? ==> |Kept(Drop(c), out.args)| <= |Kept(Drop(c), st.args)|
    decreases |st.cells| - st.i
  {
    if st.i < |st.cells| {
      var step := Next(c, st);
      if step.Some? {
        var next := step.value;
        if Drop(c)(st.cells[st.i]) {
          KeptWithout(c, st.args, st.i);
          KeptConcat(Drop(c), [c.kine], Without(st.args, st.i));
        }
        CleanNeverGrows(c, next);
      }
    }
  }

  lemma KeptWithout(c: Config, s: seq<string>, i: nat)
    requires i < |s|
    ensures |Kept(Drop(c), Without(s, i))| == |Kept(Drop(c), s)| - if Drop(c)(s[i]) then 0 else 1
  {
    assert s == s[..i] + ([s[i]] + s[i + 1..]);
    KeptConcat(Drop(c), s[..i], [s[i]] + s[i + 1..]);
    KeptConcat(Drop(c), [s[i]], s[i + 1..]);
    KeptConcat(Drop(c), s[..i], s[i + 1..]);
  }

  /** Once the slice is shorter than the range, a dropped flag in the last cell is out of range. */
  lemma {:induction false} DroppedLastCellPanics(c: Config, st: State)
    requires WellFormed(st) && |st.args| < |st.cells| && st.i < |st.cells|
    requires Drop(c)(st.cells[|st.cells| - 1])
    ensures Scan(c, st) == Panic
    decreases |st.cells| - st.i
  {
    if Next(c, st).Some? {
      DroppedLastCellPanics(c, Next(c, st).value);
    }
  }

  // ---------------------------------------------------------------------------------------------
  // Ways to be wrong.

  ghost predicate DroppedAt(c: Config, s: seq<string>, p: nat) {
    p < |s| && Drop(c)(s[p])
  }

  /** The outcome panics, still holds a dropped flag past its head, or lost a clean argument. */
  ghost predicate Wrong(c: Config, out: Outcome, clean: nat) {
    out.Done? ==> (exists p :: p >= 1 && DroppedAt(c, out.args, p)) || |Kept(Drop(c), out.args)| < clean
  }

  lemma WrongIsNotIntended(c: Config, out: Outcome, s: seq<string>)
    requires ValidConfig(c) && Wrong(c, out, |Kept(Drop(c), s)|) && out.Done?
    ensures out.args != Intended(c, s)
  {
    var kept := Kept(Drop(c), s);
    KeptHasNoDrops(Drop(c), s);
    KeptConcat(Drop(c), Header(c, s), kept);
    NoneDroppedKept(Drop(c), kept);
    assert AnyReplaced(c, s) ==> Drop(c)(c.kine);
    assert Kept(Drop(c), Header(c, s)) == [];
    assert Kept(Drop(c), Intended(c, s)) == [] + kept == kept;
  }

  lemma DirtyPassed(c: Config, st: State, p: nat, clean: nat)
    requires WellFormed(st) && p < st.i && 1 <= p && DroppedAt(c, st.args, p)
    ensures Wrong(c, Scan(c, st), clean)
  {
    var q := PassedStays(c, st, p);
    var out := Scan(c, st);
    if out.Done? {
      assert DroppedAt(c, out.args, q);
    }
  }

  lemma LostClean(c: Config, st: State, clean: nat)
    requires WellFormed(st) && ValidConfig(c) && |Kept(Drop(c), st.args)| < clean
    ensures Wrong(c, Scan(c, st), clean)
  {
    CleanNeverGrows(c, st);
  }

  // ---------------------------------------------------------------------------------------------
  // What the loop reports.

  /** The arguments the loop inspects while going down the list: each deletion hides the next one. */
  function Seen(c: Config, s: seq<string>): seq<string> {
    if s == [] then []
    else if !Drop(c)(s[0]) then [s[0]] + Seen(c, s[1..])
    else if |s| == 1 then []
    else Seen(c, s[2..])
  }

  /** The final argument is inspected in any case: if it was hidden, its stale copy is read. */
  function SeenArgs(c: Config, s: seq<string>): seq<string> {
    Seen(c, s) + if s == [] then [] else [s[|s| - 1]]
  }

  lemma {:induction false} ReportsConcat(c: Config, audit: string, found: bool, s: seq<string>, t: seq<string>)
    ensures LastAudit(c, audit, s + t) == LastAudit(c, LastAudit(c, audit, s), t)
    ensures AnyAddressTypes(c, found, s + t) == AnyAddressTypes(c, AnyAddressTypes(c, found, s), t)
    decreases s
  {
    if s == [] {
      assert s + t == t;
    } else {
      assert (s + t)[1..] == s[1..] + t;
      ReportsConcat(c, if c.flag(s[0]).AuditPath? then Value(s[0]) else audit, found || c.flag(s[0]).AddressTypes?, s[1..], t);
    }
  }

  lemma {:induction false} ReportsRepeat(c: Config, audit: string, found: bool, z: string, stale: seq<string>)
    requires stale != [] && forall j :: 0 <= j < |stale| ==> stale[j] == z
    ensures LastAudit(c, audit, stale) == LastAudit(c, audit, [z])
    ensures AnyAddressTypes(c, found, stale) == AnyAddressTypes(c, found, [z])
    decreases stale
  {
    assert [z][1..] == [];
    if |stale| > 1 {
      var a, f := if c.flag(z).AuditPath? then Value(z) else audit, found || c.flag(z).AddressTypes?;
      assert LastAudit(c, audit, stale) == LastAudit(c, a, stale[1..]);
      ReportsRepeat(c, a, f, z, stale[1..]);
    } else {
      assert stale == [z];
    }
  }

  lemma {:induction false} SeenCleanPrefix(c: Config, pre: seq<string>, t: seq<string>)
    requires Clean(c, pre)
    ensures Seen(c, pre + t) == pre + Seen(c, t)
  {
    if pre == [] {
      assert pre + t == t;
    } else {
      assert !Drop(c)(pre[0]);
      assert (pre + t)[1..] == pre[1..] + t;
      SeenCleanPrefix(c, pre[1..], t);
    }
  }

  // ---------------------------------------------------------------------------------------------
  // After the replacement: the range still walks the old array, one position behind the new slice.

  ghost predicate Stale(s: seq<string>, z: string) {
    s != [] && forall j :: 0 <= j < |s| ==> s[j] == z
  }

  ghost predicate Replaced(c: Config, st: State, pre: seq<string>, t: seq<string>, stale: seq<string>) {
    && WellFormed(st) && !st.aliased && t != []
    && st.args == [c.kine] + pre + t && st.i == |pre| + 1
    && st.cells[st.i..] == t[1..] + stale && Stale(stale, t[|t| - 1])
  }

  lemma ReplacedCleanRest(c: Config, st: State, pre: seq<string>, t: seq<string>, stale: seq<string>)
    requires Replaced(c, st, pre, t, stale) && Clean(c, t)
    ensures var z := [t[|t| - 1]];
            Scan(c, st) == Done(st.args, LastAudit(c, st.audit, t[1..] + z), AnyAddressTypes(c, st.found, t[1..] + z))
  {
    AllClean(c, st);
    var z := t[|t| - 1];
    ReportsConcat(c, st.audit, st.found, t[1..], stale);
    ReportsConcat(c, st.audit, st.found, t[1..], [z]);
    ReportsRepeat(c, LastAudit(c, st.audit, t[1..]), AnyAddressTypes(c, st.found, t[1..]), z, stale);
  }

  lemma ReplacedRemovedAtEnd(c: Config, st: State, pre: seq<string>, t: seq<string>, stale: seq<string>)
    requires Replaced(c, st, pre, t, stale) && |t| == 1 && |stale| == 1 && IsRemoved(c, t[0])
    ensures Scan(c, st) == Done([c.kine] + pre, st.audit, st.found)
  {
    assert st.cells[st.i] == st.cells[st.i..][0] == t[0];
    assert |st.cells| == st.i + 1;
    var next := Next(c, st).value;
    assert next.args == [c.kine] + pre;
    assert Scan(c, next) == Done(next.args, next.audit, next.found);
  }

  lemma ReplacedElseWrong(c: Config, st: State, pre: seq<string>, t: seq<string>, stale: seq<string>)
    requires Replaced(c, st, pre, t, stale) && ValidConfig(c) && c.external
    requires !Clean(c, t) && !(|t| == 1 && |stale| == 1 && IsRemoved(c, t[0]))
    ensures Wrong(c, Scan(c, st), |Kept(Drop(c), pre + t)|)
  {
    var clean, p := |Kept(Drop(c), pre + t)|, FirstDrop(c, t);
    if p > 0 {
      // the flag in front of the first dropped one is deleted in its place
      ShadowedDeletion(c, st, pre, t, stale, p);
      Assoc([c.kine], pre, t);
      assert Kept(Drop(c), [c.kine] + (pre + t)) == Kept(Drop(c), pre + t) by {
        KeptConcat(Drop(c), [c.kine], pre + t);
      }
    } else if |t| == 1 {
      OnlyReplacedLeft(c, st, pre, t, stale, clean);
    } else {
      HiddenDropStays(c, st, pre, t, stale, clean);
    }
  }

  /** The first flag of the rest is hidden; whatever comes next leaves a dropped flag behind. */
  lemma HiddenDropStays(c: Config, st: State, pre: seq<string>, t: seq<string>, stale: seq<string>, clean: nat)
    requires Replaced(c, st, pre, t, stale) && ValidConfig(c) && c.external && |t| > 1 && Drop(c)(t[0])
    ensures Wrong(c, Scan(c, st), clean)
  {
    assert st.cells[st.i] == st.cells[st.i..][0] == t[1];
    assert st.args[st.i] == t[0] && st.args[st.i + 1] == t[1];
    var next := Next(c, st).value;
    assert Scan(c, st) == Scan(c, next);
    if IsReplaced(c, t[1]) {
      assert next.args[1] == c.kine;
      DirtyPassed(c, next, 1, clean);
    } else {
      assert next.args[st.i] == if Drop(c)(t[1]) then t[1] else t[0];
      DirtyPassed(c, next, st.i, clean);
    }
  }

  lemma ShadowedDeletion(c: Config, st: State, pre: seq<string>, t: seq<string>, stale: seq<string>, p: nat)
    requires Replaced(c, st, pre, t, stale) && ValidConfig(c) && c.external
    requires 0 < p < |t| && Clean(c, t[..p]) && Drop(c)(t[p])
    ensures Wrong(c, Scan(c, st), |Kept(Drop(c), st.args)|)
  {
    var j := st.i + p - 1;
    ShadowedCells(c, st, pre, t, stale, p);
    SkipClean(c, st, j);
    var at := st.(i := j, audit := LastAudit(c, st.audit, st.cells[st.i..j]),
                  found := AnyAddressTypes(c, st.found, st.cells[st.i..j]));
    DeletesClean(c, at);
  }

  lemma ShadowedCells(c: Config, st: State, pre: seq<string>, t: seq<string>, stale: seq<string>, p: nat)
    requires Replaced(c, st, pre, t, stale) && 0 < p < |t| && Clean(c, t[..p])
    ensures var j := st.i + p - 1;
            j < |st.cells| && Clean(c, st.cells[st.i..j]) && st.cells[j] == t[p]
            && j < |st.args| && st.args[j] == t[p - 1] && !Drop(c)(t[p - 1])
  {
    var j := st.i + p - 1;
    var rest := st.cells[st.i..];
    assert st.cells[j] == rest[p - 1] == t[1..][p - 1];
    assert st.args[j] == t[p - 1] == t[..p][p - 1];
    forall q | 0 <= q < p - 1 ensures !Drop(c)(st.cells[st.i..j][q]) {
      assert st.cells[st.i..j][q] == rest[q] == t[1..][q] == t[..p][q + 1];
    }
  }

  lemma DeletesClean(c: Config, st: State)
    requires WellFormed(st) && !st.aliased && ValidConfig(c) && c.external && st.i < |st.args|
    requires st.i < |st.cells| && Drop(c)(st.cells[st.i]) && !Drop(c)(st.args[st.i])
    ensures Wrong(c, Scan(c, st), |Kept(Drop(c), st.args)|)
  {
    KeptWithout(c, st.args, st.i);
    KeptConcat(Drop(c), [c.kine], Without(st.args, st.i));
    LostClean(c, Next(c, st).value, |Kept(Drop(c), st.args)|);
  }

  lemma OnlyReplacedLeft(c: Config, st: State, pre: seq<string>, t: seq<string>, stale: seq<string>, clean: nat)
    requires Replaced(c, st, pre, t, stale) && ValidConfig(c) && c.external
    requires |t| == 1 && Drop(c)(t[0]) && !(|stale| == 1 && IsRemoved(c, t[0]))
    ensures Wrong(c, Scan(c, st), clean)
  {
    assert st.cells[st.i] == st.cells[st.i..][0] == t[0];
    var next := Next(c, st).value;
    if IsRemoved(c, t[0]) {
      assert st.cells[st.i + 1] == st.cells[st.i..][1] == t[0];
      assert Next(c, next).None?;
    } else {
      assert next.args[1] == c.kine;
      DirtyPassed(c, next, 1, clean);
    }
  }

  function FirstDrop(c: Config, s: seq<string>): (p: nat)
    ensures p <= |s| && Clean(c, s[..p])
    ensures p < |s| ==> Drop(c)(s[p])
    ensures p == |s| <==> Clean(c, s)
  {
    if s == [] then 0
    else if Drop(c)(s[0]) then 0
    else
      var p := FirstDrop(c, s[1..]);
      assert forall i :: 1 <= i < |s| ==> s[i] == s[1..][i - 1];
      assert s[..p + 1] == [s[0]] + s[1..][..p];
      p + 1
  }

  // ---------------------------------------------------------------------------------------------
  // After a removal: the slice is shorter than the range and the cells behind it repeat the last argument.

  ghost predicate Shortened(c: Config, st: State) {
    && WellFormed(st) && st.aliased && 1 <= st.i <= |st.args|
    && Stale(st.cells[|st.args|..], st.args[|st.args| - 1]) && !Drop(c)(st.args[|st.args| - 1])
  }

  ghost predicate SafeRest(c: Config, w: seq<string>) {
    NoAdjacentDrops(Drop(c), w) && ReplacedIsLastDrop(c, w)
  }

  /** What the loop ends with when the rest of the arguments, from index i, is safe. */
  function Expected(c: Config, args: seq<string>, i: nat, audit: string, found: bool): Outcome
    requires 1 <= i <= |args|
  {
    var w := args[i..];
    var seen := Seen(c, w) + [args[|args| - 1]];
    Done(Header(c, w) + args[..i] + Kept(Drop(c), w), LastAudit(c, audit, seen), AnyAddressTypes(c, found, seen))
  }

  ghost predicate Meets(c: Config, out: Outcome, args: seq<string>, i: nat, audit: string, found: bool)
    requires 1 <= i <= |args|
  {
    if SafeRest(c, args[i..]) then out == Expected(c, args, i, audit, found)
    else Wrong(c, out, |Kept(Drop(c), args)|)
  }

  ghost predicate AsExpected(c: Config, st: State)
    requires WellFormed(st) && 1 <= st.i <= |st.args|
  {
    Meets(c, Scan(c, st), st.args, st.i, st.audit, st.found)
  }

  lemma {:induction false} ShortenedRun(c: Config, st: State)
    requires Shortened(c, st) && ValidConfig(c)
    ensures AsExpected(c, st)
    decreases |st.cells| - st.i, 1
  {
    var args, i := st.args, st.i;
    if i == |args| {
      ShortenedEnd(c, st);
    } else {
      assert st.cells[i] == args[i];
      if !Drop(c)(args[i]) {
        RunKeep(c, st);
      } else if !IsRemoved(c, args[i]) {
        ShortenedReplace(c, st);
      } else if Drop(c)(args[i + 1]) {
        RemovedTwice(c, st);
      } else {
        RunRemove(c, st);
      }
    }
  }

  lemma {:induction false} RunKeep(c: Config, st: State)
    requires Shortened(c, st) && ValidConfig(c) && st.i < |st.args|
    requires st.cells[st.i] == st.args[st.i] && !Drop(c)(st.args[st.i])
    ensures AsExpected(c, st)
    decreases |st.cells| - st.i, 0
  {
    var next := ShortenedKeep(c, st);
    ShortenedRun(c, next);
    OutcomeKeep(c, Scan(c, next), next.args, st.i, st.audit, st.found, next.i, next.audit, next.found);
  }

  lemma {:induction false} RunRemove(c: Config, st: State)
    requires Shortened(c, st) && ValidConfig(c) && st.i < |st.args| - 1
    requires st.cells[st.i] == st.args[st.i] && IsRemoved(c, st.args[st.i]) && !Drop(c)(st.args[st.i + 1])
    ensures AsExpected(c, st)
    decreases |st.cells| - st.i, 0
  {
    var next := ShortenedNext(c, st);
    ShortenedRun(c, next);
    MeetsRemove(c, st, next);
  }

  lemma ShortenedKeep(c: Config, st: State) returns (next: State)
    requires Shortened(c, st) && st.i < |st.args| && st.cells[st.i] == st.args[st.i] && !Drop(c)(st.args[st.i])
    ensures Shortened(c, next) && next.args == st.args && next.i == st.i + 1 && |next.cells| == |st.cells|
    ensures next.audit == if c.flag(st.args[st.i]).AuditPath? then Value(st.args[st.i]) else st.audit
    ensures next.found == (st.found || c.flag(st.args[st.i]).AddressTypes?)
    ensures Scan(c, st) == Scan(c, next)
  {
    next := Next(c, st).value;
  }

  lemma ShortenedEnd(c: Config, st: State)
    requires Shortened(c, st) && st.i == |st.args|
    ensures AsExpected(c, st)
  {
    AllClean(c, st);
    ReportsRepeat(c, st.audit, st.found, st.args[|st.args| - 1], st.cells[st.i..]);
    ExpectedEnd(c, st.args, st.audit, st.found);
  }

  lemma ExpectedEnd(c: Config, args: seq<string>, audit: string, found: bool)
    requires args != []
    ensures var z := [args[|args| - 1]];
            Expected(c, args, |args|, audit, found) == Done(args, LastAudit(c, audit, z), AnyAddressTypes(c, found, z))
    ensures SafeRest(c, args[|args|..])
  {
    var z := args[|args| - 1];
    assert args[|args|..] == [] && Seen(c, []) == [] && Kept(Drop(c), []) == [];
    assert [] + [z] == [z];
    assert args == [] + args[..|args|] + [];
  }

  lemma OutcomeKeep(c: Config, out: Outcome, args: seq<string>, i: nat, audit: string, found: bool, i': nat, audit': string, found': bool)
    requires 1 <= i < |args| && i' == i + 1 && !Drop(c)(args[i])
    requires audit' == if c.flag(args[i]).AuditPath? then Value(args[i]) else audit
    requires found' == (found || c.flag(args[i]).AddressTypes?)
    requires Meets(c, out, args, i', audit', found')
    ensures Meets(c, out, args, i, audit, found)
  {
    SafeRestKeep(c, args, i);
    ExpectedKeep(c, args, i, audit, found, audit', found');
    MeetsSame(c, out, args, i', audit', found', args, i, audit, found);
  }

  /** Two positions with the same expectation are met by the same outcomes. */
  lemma MeetsSame(c: Config, out: Outcome, args: seq<string>, i: nat, audit: string, found: bool,
                  args': seq<string>, i': nat, audit': string, found': bool)
    requires 1 <= i <= |args| && 1 <= i' <= |args'| && Meets(c, out, args, i, audit, found)
    requires SafeRest(c, args[i..]) <==> SafeRest(c, args'[i'..])
    requires Expected(c, args, i, audit, found) == Expected(c, args', i', audit', found')
    requires |Kept(Drop(c), args)| == |Kept(Drop(c), args')|
    ensures Meets(c, out, args', i', audit', found')
  {
  }

  lemma SafeRestKeep(c: Config, args: seq<string>, i: nat)
    requires i < |args| && !Drop(c)(args[i])
    ensures SafeRest(c, args[i..]) <==> SafeRest(c, args[i + 1..])
  {
    DropDrop(args, i, 1);
    SafeRestTail(c, args[i..]);
  }

  lemma MeetsRemove(c: Config, st: State, next: State)
    requires WellFormed(st) && WellFormed(next) && 1 <= st.i < |st.args| - 1
    requires IsRemoved(c, st.args[st.i]) && !Drop(c)(st.args[st.i + 1])
    requires next.args == Without(st.args, st.i) && next.i == st.i + 1
    requires next.audit == st.audit && next.found == st.found
    requires Scan(c, st) == Scan(c, next) && AsExpected(c, next)
    ensures AsExpected(c, st)
  {
    SafeRestRemove(c, st.args, st.i);
    ExpectedRemove(c, st.args, st.i, st.audit, st.found);
    KeptWithout(c, st.args, st.i);
    MeetsSame(c, Scan(c, next), next.args, next.i, next.audit, next.found, st.args, st.i, st.audit, st.found);
  }

  lemma ExpectedKeep(c: Config, args: seq<string>, i: nat, audit: string, found: bool, audit': string, found': bool)
    requires 1 <= i < |args| && !Drop(c)(args[i])
    requires audit' == if c.flag(args[i]).AuditPath? then Value(args[i]) else audit
    requires found' == (found || c.flag(args[i]).AddressTypes?)
    ensures Expected(c, args, i, audit, found) == Expected(c, args, i + 1, audit', found')
  {
    var w, w', z := args[i..], args[i + 1..], args[|args| - 1];
    DropDrop(args, i, 1);
    HeaderTail(c, w);
    Assoc([w[0]], Seen(c, w'), [z]);
    ReportsConcat(c, audit, found, [w[0]], Seen(c, w') + [z]);
    OneReport(c, audit, found, w[0]);
    TakeOneMore(args, i);
    Regroup(Header(c, w), args[..i], [w[0]], Kept(Drop(c), w'));
  }

  lemma Regroup(a: seq<string>, b: seq<string>, x: seq<string>, r: seq<string>)
    ensures a + b + (x + r) == a + (b + x) + r
  {
  }

  lemma OneReport(c: Config, audit: string, found: bool, arg: string)
    ensures LastAudit(c, audit, [arg]) == if c.flag(arg).AuditPath? then Value(arg) else audit
    ensures AnyAddressTypes(c, found, [arg]) == (found || c.flag(arg).AddressTypes?)
  {
    assert [arg][1..] == [];
  }

  lemma SafeRestRemove(c: Config, args: seq<string>, i: nat)
    requires 1 <= i < |args| - 1 && IsRemoved(c, args[i]) && !Drop(c)(args[i + 1])
    ensures SafeRest(c, args[i..]) <==> SafeRest(c, Without(args, i)[i + 1..])
    ensures Header(c, args[i..]) == Header(c, Without(args, i)[i + 1..])
  {
    var w := args[i..];
    WithoutShape(args, i);
    DropDrop(args, i, 1);
    DropDrop(args, i + 1, 1);
    SafeRestTail(c, w);
    SafeRestTail(c, w[1..]);
    HeaderTail(c, w);
    HeaderTail(c, w[1..]);
  }

  lemma WithoutShape(args: seq<string>, i: nat)
    requires i < |args| - 1
    ensures var next := Without(args, i);
            next[i + 1..] == args[i + 2..] && next[|next| - 1] == args[|args| - 1]
            && next[..i + 1] == args[..i] + [args[i + 1]] && next[i] == args[i + 1]
  {
  }

  lemma ExpectedRemove(c: Config, args: seq<string>, i: nat, audit: string, found: bool)
    requires 1 <= i < |args| - 1 && IsRemoved(c, args[i]) && !Drop(c)(args[i + 1])
    ensures Expected(c, args, i, audit, found) == Expected(c, Without(args, i), i + 1, audit, found)
  {
    var w, rest := args[i..], args[i + 2..];
    SafeRestRemove(c, args, i);
    WithoutShape(args, i);
    DropDrop(args, i, 1);
    DropDrop(args, i, 2);
    DropDrop(args, i + 1, 1);
    assert Kept(Drop(c), w) == Kept(Drop(c), w[1..]) == [args[i + 1]] + Kept(Drop(c), rest);
    Regroup(Header(c, w), args[..i], [args[i + 1]], Kept(Drop(c), rest));
  }

  lemma RemovedTwice(c: Config, st: State)
    requires Shortened(c, st) && st.i < |st.args| - 1
    requires st.cells[st.i] == st.args[st.i] && IsRemoved(c, st.args[st.i]) && Drop(c)(st.args[st.i + 1])
    ensures AsExpected(c, st)
  {
    var next := Next(c, st).value;
    assert next.args[st.i] == st.args[st.i + 1];
    DirtyPassed(c, next, st.i, |Kept(Drop(c), st.args)|);
    var w := st.args[st.i..];
    assert Drop(c)(w[0]) && Drop(c)(w[1]);
  }

  lemma ShortenedNext(c: Config, st: State) returns (next: State)
    requires Shortened(c, st) && st.i < |st.args| - 1
    requires st.cells[st.i] == st.args[st.i] && IsRemoved(c, st.args[st.i])
    ensures Shortened(c, next) && next.args == Without(st.args, st.i) && next.i == st.i + 1
    ensures |next.cells| == |st.cells| && next.audit == st.audit && next.found == st.found
    ensures Scan(c, st) == Scan(c, next)
  {
    StaleGrows(c, st);
    next := Next(c, st).value;
  }

  lemma StaleGrows(c: Config, st: State)
    requires Shortened(c, st) && st.i < |st.args| - 1
    ensures var cells := CellsAfter(st);
            cells[|st.args| - 1..] == [st.args[|st.args| - 1]] + st.cells[|st.args|..]
            && Stale(cells[|st.args| - 1..], st.args[|st.args| - 1])
            && Without(st.args, st.i)[|st.args| - 2] == st.args[|st.args| - 1]
  {
    assert st.cells[|st.args| - 1] == st.args[|st.args| - 1];
    assert st.cells[|st.args| - 1..] == [st.cells[|st.args| - 1]] + st.cells[|st.args|..];
  }

  lemma ShortenedReplace(c: Config, st: State)
    requires Shortened(c, st) && ValidConfig(c) && st.i < |st.args|
    requires st.cells[st.i] == st.args[st.i] && IsReplaced(c, st.args[st.i])
    ensures AsExpected(c, st)
  {
    var args, i := st.args, st.i;
    assert SafeRest(c, args[i..]) <==> Clean(c, args[i + 1..]) by {
      DropDrop(args, i, 1);
      SafeRestAfterReplaced(c, args[i..]);
    }
    ReplaceShape(c, st);
    var next, stale := Next(c, st).value, st.cells[|args| - 1..];
    if Clean(c, args[i + 1..]) {
      ReplacedCleanRest(c, next, args[..i], args[i + 1..], stale);
      DropDrop(args, i + 1, 1);
      ExpectedReplace(c, args, i, st.audit, st.found);
    } else {
      ReplaceIsWrong(c, st);
    }
  }

  lemma ReplaceShape(c: Config, st: State)
    requires Shortened(c, st) && st.i < |st.args|
    requires st.cells[st.i] == st.args[st.i] && IsReplaced(c, st.args[st.i])
    ensures Replaced(c, Next(c, st).value, st.args[..st.i], st.args[st.i + 1..], st.cells[|st.args| - 1..])
    ensures |st.cells[|st.args| - 1..]| > 1
  {
    StaleGrows(c, st);
    AfterReplaceShape(c, st, st.args[..st.i], st.args[st.i + 1..], st.cells[|st.args| - 1..]);
  }

  lemma ReplaceIsWrong(c: Config, st: State)
    requires Shortened(c, st) && ValidConfig(c) && st.i < |st.args|
    requires st.cells[st.i] == st.args[st.i] && IsReplaced(c, st.args[st.i]) && !Clean(c, st.args[st.i + 1..])
    ensures Wrong(c, Scan(c, st), |Kept(Drop(c), st.args)|)
  {
    ReplaceShape(c, st);
    KeptWithout(c, st.args, st.i);
    ReplacedElseWrong(c, Next(c, st).value, st.args[..st.i], st.args[st.i + 1..], st.cells[|st.args| - 1..]);
  }

  lemma ExpectedReplace(c: Config, args: seq<string>, i: nat, audit: string, found: bool)
    requires 1 <= i < |args| - 1 && IsReplaced(c, args[i]) && Clean(c, args[i + 1..])
    ensures var seen := args[i + 2..] + [args[|args| - 1]];
            Expected(c, args, i, audit, found)
            == Done([c.kine] + args[..i] + args[i + 1..], LastAudit(c, audit, seen), AnyAddressTypes(c, found, seen))
  {
    var w, t := args[i..], args[i + 1..];
    assert w[0] == args[i] && w[1..] == t && w[2..] == args[i + 2..] == t[1..];
    assert Drop(c)(w[0]) && IsReplaced(c, w[0]);
    NoneDroppedKept(Drop(c), t);
    assert Clean(c, t[1..]);
    SeenCleanPrefix(c, t[1..], []);
    assert t[1..] + [] == t[1..];
  }

  lemma AfterReplaceShape(c: Config, st: State, pre: seq<string>, t: seq<string>, stale: seq<string>)
    requires WellFormed(st) && st.aliased && st.i < |st.args| - 1
    requires pre == st.args[..st.i] && t == st.args[st.i + 1..]
    requires stale == st.cells[|st.args| - 1..] && Stale(stale, st.args[|st.args| - 1])
    requires st.cells[st.i] == st.args[st.i] && IsReplaced(c, st.args[st.i]) && !IsRemoved(c, st.args[st.i])
    ensures Replaced(c, Next(c, st).value, pre, t, stale)
  {
    var next := Next(c, st).value;
    assert next.args == [c.kine] + pre + t;
    assert next.cells == (pre + t) + stale;
    assert next.cells[next.i..] == t[1..] + stale;
  }

  lemma SafeRestTail(c: Config, w: seq<string>)
    requires w != [] && !IsReplaced(c, w[0]) && (|w| > 1 ==> !(Drop(c)(w[0]) && Drop(c)(w[1])))
    ensures SafeRest(c, w) <==> SafeRest(c, w[1..])
  {
    NoAdjacentTail(Drop(c), w);
    if ReplacedIsLastDrop(c, w) {
      forall i, j | 0 <= i < j < |w[1..]| && IsReplaced(c, w[1..][i]) ensures !Drop(c)(w[1..][j]) {
        assert w[1..][i] == w[i + 1] && w[1..][j] == w[j + 1];
      }
    }
    if ReplacedIsLastDrop(c, w[1..]) {
      forall i, j | 0 <= i < j < |w| && IsReplaced(c, w[i]) ensures !Drop(c)(w[j]) {
        assert w[1..][i - 1] == w[i] && w[1..][j - 1] == w[j];
      }
    }
  }

  lemma SafeRestAfterReplaced(c: Config, w: seq<string>)
    requires w != [] && IsReplaced(c, w[0])
    ensures SafeRest(c, w) <==> Clean(c, w[1..])
  {
    forall j | 1 <= j < |w| ensures w[j] == w[1..][j - 1] {
    }
    if SafeRest(c, w) {
      forall j | 0 <= j < |w[1..]| ensures !Drop(c)(w[1..][j]) {
        assert w[1..][j] == w[j + 1];
      }
    }
  }

  lemma HeaderTail(c: Config, w: seq<string>)
    requires w != [] && !IsReplaced(c, w[0])
    ensures Header(c, w) == Header(c, w[1..])
  {
    if AnyReplaced(c, w) {
      var i :| 0 <= i < |w| && IsReplaced(c, w[i]);
      assert w[1..][i - 1] == w[i];
    }
    if AnyReplaced(c, w[1..]) {
      var i :| 0 <= i < |w[1..]| && IsReplaced(c, w[1..][i]);
      assert w[1..][i] == w[i + 1];
    }
  }
}
