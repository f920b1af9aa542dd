/**
 Restricting the default service account by get / modify / update against an API server that other
 writers use at the same time.  What the others do, and which calls fail, is a script fixed in
 advance: a statement about every script is a statement about every interleaving.  The calls are
 functions of the server's history; the class runs the loops and computes exactly these functions.
 */
module ServiceAccounts {
  import opened Wrappers

  datatype Error = NotFound | Conflict | Other

  /** A stored revision: its resource version, the field this code owns, and everything else. */
  datatype Account = Account(version: nat, automount: Option<bool>, rest: string)

  datatype Write = Put(automount: Option<bool>, rest: string) | Delete

  /** A call may fail without effect, or take effect and lose its answer. */
  datatype Fault = Fine | Refused | Lost

  /** What happens right before one of our calls, and how that call fares. */
  datatype Turn = Turn(others: seq<Write>, fault: Fault)

  /** All that was ever stored, None standing for a deletion, and what is still to come. */
  datatype State = State(history: seq<Option<Account>>, clock: nat, turns: seq<Turn>)

  // ---------------------------------------------------------------------------------------------
  // The others.

  function ClockAfter(clock: nat, xs: seq<Write>): nat {
    if xs == [] then clock else ClockAfter(clock, xs[..|xs| - 1]) + if xs[|xs| - 1].Put? then 1 else 0
  }

  /** What the writes of others store, one after the other. */
  function Values(clock: nat, xs: seq<Write>): seq<Option<Account>> {
    if xs == [] then []
    else
      var front, x := xs[..|xs| - 1], xs[|xs| - 1];
      Values(clock, front) + [if x.Put? then Some(Account(ClockAfter(clock, front), x.automount, x.rest)) else None]
  }

  function AfterWrites(s: State, xs: seq<Write>): State {
    s.(history := s.history + Values(s.clock, xs), clock := ClockAfter(s.clock, xs))
  }

  /** The others take their turn before a call. */
  function Meanwhile(s: State): State {
    if s.turns == [] then s else AfterWrites(s.(turns := s.turns[1..]), s.turns[0].others)
  }

  function FaultOf(s: State): Fault {
    if s.turns == [] then Fine else s.turns[0].fault
  }

  function Now(s: State): Option<Account> {
    if s.history == [] then None else s.history[|s.history| - 1]
  }

  // ---------------------------------------------------------------------------------------------
  // The calls.

  datatype Reply = Ok(account: Account) | Err(error: Error)

  function Reading(s: State): (State, Reply) {
    (Meanwhile(s), Replied(Now(Meanwhile(s)), FaultOf(s)))
  }

  function Replied(now: Option<Account>, fault: Fault): Reply {
    if !fault.Fine? then Err(Other) else if now.None? then Err(NotFound) else Ok(now.value)
  }

  /** The server afterwards, what the client gets to hear, and the number of updates tried. */
  datatype Result = Result(state: State, error: Option<Error>, updates: nat)

  function Updating(s: State, sent: Account): Result {
    Swapped(Meanwhile(s), FaultOf(s), sent)
  }

  /** Compare-and-swap on the resource version; the answer may be lost. */
  function Swapped(s: State, fault: Fault, sent: Account): Result {
    if fault.Refused? then Result(s, Some(Other), 1)
    else if Now(s).None? then Result(s, Some(if fault.Fine? then NotFound else Other), 1)
    else if Now(s).value.version != sent.version then Result(s, Some(if fault.Fine? then Conflict else Other), 1)
    else Result(Stored(s, sent), if fault.Fine? then None else Some(Other), 1)
  }

  function Stored(s: State, sent: Account): State {
    s.(history := s.history + [Some(sent.(version := s.clock))], clock := s.clock + 1)
  }

  function Restricted(sa: Account): Account {
    sa.(automount := Some(false))
  }

  function After(k: nat, r: Result): Result {
    r.(updates := k + r.updates)
  }

  /** retry.RetryOnConflict around set-automount-and-update: a conflict refreshes the copy and is retried. */
  function Attempting(s: State, sa: Account, steps: nat): Result
    requires steps > 0
    decreases steps
  {
    var u := Updating(s, Restricted(sa));
    if u.error != Some(Conflict) then u
    else
      var (m, reply) := Reading(u.state);
      if reply.Err? then Result(m, Some(reply.error), 1)
      else if steps == 1 then Result(m, Some(Conflict), 1)
      else After(1, Attempting(m, reply.account, steps - 1))
  }

  /** One round of the outer loop. */
  function Trying(s: State, inner: nat): Result
    requires inner > 0
  {
    var (m, reply) := Reading(s);
    if reply.Err? then Result(m, Some(reply.error), 0) else Attempting(m, reply.account, inner)
  }

  /** restrictServiceAccount: retry.OnError around get and the inner loop, retrying only NotFound. */
  function Restricting(s: State, outer: nat, inner: nat): Result
    requires outer > 0 && inner > 0
    decreases outer
  {
    var r := Trying(s, inner);
    if r.error == Some(NotFound) && outer > 1 then After(r.updates, Restricting(r.state, outer - 1, inner)) else r
  }

  // ---------------------------------------------------------------------------------------------
  // The code.

  class Server {
    var stored: Option<Account>
    var clock: nat
    var turns: seq<Turn>
    ghost var updates: nat
    ghost var history: seq<Option<Account>>

    ghost function View(): State
      reads this
    {
      State(history, clock, turns)
    }

    /** The history ends with what is stored. */
    ghost predicate Valid()
      reads this
    {
      stored == Now(View())
    }

    constructor (stored: Option<Account>, turns: seq<Turn>)
      ensures Valid() && View() == State([stored], clock, turns) && Ordered(View()) && updates == 0
    {
      this.stored, this.turns, this.updates, this.history := stored, turns, 0, [stored];
      this.clock := if stored.Some? then stored.value.version + 1 else 0;
    }

    method Apply(w: Write)
      requires Valid()
      modifies this
      ensures Valid() && View() == AfterWrites(old(View()), [w]) && updates == old(updates)
    {
      assert [w][..0] == [] && Values(clock, []) == [] && ClockAfter(clock, []) == clock;
      assert ClockAfter(clock, [w]) == clock + if w.Put? then 1 else 0;
      match w
      case Put(automount, rest) =>
        stored, clock := Some(Account(clock, automount, rest)), clock + 1;
        history := history + [stored];
      case Delete =>
        stored := None;
        history := history + [stored];
    }

    method Interfere() returns (fault: Fault)
      requires Valid()
      modifies this
      ensures Valid() && View() == Meanwhile(old(View())) && fault == FaultOf(old(View())) && updates == old(updates)
    {
      fault := Fine;
      if turns != [] {
        var turn := turns[0];
        turns := turns[1..];
        fault := turn.fault;
        ghost var start := View();
        for i := 0 to |turn.others|
          invariant Valid() && View() == AfterWrites(start, turn.others[..i]) && updates == old(updates)
        {
          OneMoreWrite(start, turn.others, i);
          Apply(turn.others[i]);
        }
        assert turn.others[..|turn.others|] == turn.others;
      }
    }

    method Get() returns (r: Reply)
      requires Valid()
      modifies this
      ensures Valid() && Reading(old(View())) == (View(), r) && updates == old(updates)
    {
      var fault := Interfere();
      if !fault.Fine? {
        return Err(Other);
      }
      r := if stored.None? then Err(NotFound) else Ok(stored.value);
    }

    method Update(sent: Account) returns (error: Option<Error>)
      requires Valid()
      modifies this
      ensures Valid() && updates == old(updates) + 1 && Updating(old(View()), sent) == Result(View(), error, 1)
    {
      updates := updates + 1;
      var fault := Interfere();
      if fault.Refused? {
        return Some(Other);
      }
      if stored.None? {
        return Some(if fault.Fine? then NotFound else Other);
      }
      if stored.value.version != sent.version {
        return Some(if fault.Fine? then Conflict else Other);
      }
      stored, clock := Some(sent.(version := clock)), clock + 1;
      history := history + [stored];
      return if fault.Fine? then None else Some(Other);
    }

    method UpdateOnConflict(start: Account, steps: nat) returns (error: Option<Error>)
      requires Valid() && steps > 0
      modifies this
      ensures Valid() && old(updates) <= updates && Attempting(old(View()), start, steps) == Result(View(), error, updates - old(updates))
    {
      error := None;
      var sa := start;
      for i := 0 to steps
        invariant Valid() && (i > 0 ==> error == Some(Conflict)) && updates == old(updates) + i
        invariant Attempting(old(View()), start, steps)
               == if i < steps then After(i, Attempting(View(), sa, steps - i)) else Result(View(), error, i)
      {
        sa := sa.(automount := Some(false));
        error := Update(sa);
        if error.None? || !error.value.Conflict? {
          return;
        }
        var r := Get();
        if r.Err? {
          return Some(r.error);
        }
        sa := r.account;
      }
    }

    method RestrictServiceAccount(outer: nat, inner: nat) returns (error: Option<Error>)
      requires Valid() && outer > 0 && inner > 0
      modifies this
      ensures Valid() && old(updates) <= updates && Restricting(old(View()), outer, inner) == Result(View(), error, updates - old(updates))
    {
      error := None;
      for i := 0 to outer
        invariant Valid() && (i > 0 ==> error == Some(NotFound)) && old(updates) <= updates
        invariant Restricting(old(View()), outer, inner)
               == var k := updates - old(updates);
                  if i < outer then After(k, Restricting(View(), outer - i, inner)) else Result(View(), error, k)
      {
        var r := Get();
        if r.Err? {
          error := Some(r.error);
        } else {
          error := UpdateOnConflict(r.account, inner);
        }
        if error != Some(NotFound) {
          return;
        }
      }
    }
  }

  // ---------------------------------------------------------------------------------------------
  // Histories.

  lemma {:induction false} ValuesConcat(clock: nat, xs: seq<Write>, ys: seq<Write>)
    ensures ClockAfter(clock, xs + ys) == ClockAfter(ClockAfter(clock, xs), ys)
    ensures Values(clock, xs + ys) == Values(clock, xs) + Values(ClockAfter(clock, xs), ys)
  {
    if ys == [] {
      assert xs + ys == xs;
    } else {
      var front := ys[..|ys| - 1];
      ValuesConcat(clock, xs, front);
      assert (xs + ys)[..|xs + ys| - 1] == xs + front;
    }
  }

  lemma WritesConcat(s: State, xs: seq<Write>, ys: seq<Write>)
    ensures AfterWrites(s, xs + ys) == AfterWrites(AfterWrites(s, xs), ys)
  {
    ValuesConcat(s.clock, xs, ys);
  }

  lemma OneMoreWrite(s: State, xs: seq<Write>, i: nat)
    requires i < |xs|
    ensures AfterWrites(s, xs[..i + 1]) == AfterWrites(AfterWrites(s, xs[..i]), [xs[i]])
  {
    assert xs[..i + 1] == xs[..i] + [xs[i]];
    WritesConcat(s, xs[..i], [xs[i]]);
  }

  /** Versions rise along the history and stay below the clock. */
  ghost predicate Ordered(s: State) {
    && (forall i :: 0 <= i < |s.history| && s.history[i].Some? ==> s.history[i].value.version < s.clock)
    && (forall i, j :: 0 <= i < j < |s.history| && s.history[i].Some? && s.history[j].Some? ==> s.history[i].value.version < s.history[j].value.version)
  }

  /** The copy is some stored revision, apart from automount. */
  ghost predicate Knows(s: State, sa: Account) {
    exists i :: 0 <= i < |s.history| && s.history[i].Some? && s.history[i].value.version == sa.version && s.history[i].value.rest == sa.rest
  }

  /** All writes of others in these turns, in order. */
  function Writes(turns: seq<Turn>): seq<Write> {
    if turns == [] then [] else turns[0].others + Writes(turns[1..])
  }

  /** What the others make of the server in the next n turns. */
  function Later(s: State, n: nat): State
    decreases n
  {
    if n == 0 || s.turns == [] then s else Later(Meanwhile(s), n - 1)
  }

  /** From a to b only the others wrote, and just what the script says. */
  ghost predicate OthersOnly(a: State, b: State) {
    |b.turns| <= |a.turns| && b == Later(a, |a.turns| - |b.turns|)
  }

  /**
   From a to b the same, and then one revision of ours: it directly follows the one it was made from,
   in which it changes nothing but automount.
   */
  ghost predicate OneOfOurs(a: State, b: State) {
    && b.history != [] && b.clock > 0
    && var m := b.(history := b.history[..|b.history| - 1], clock := b.clock - 1);
    OthersOnly(a, m) && Now(m).Some? && Now(b) == Some(Now(m).value.(automount := Some(false), version := m.clock))
  }

  /** Success is exactly one commit; a failure hides one only if its answer was lost. */
  ghost predicate Outcome(a: State, r: Result) {
    || (OthersOnly(a, r.state) && r.error.Some?)
    || (OneOfOurs(a, r.state) && (r.error.None? || r.error == Some(Other)))
  }

  lemma {:induction false} LaterTurns(s: State, n: nat)
    requires n <= |s.turns|
    ensures Later(s, n).turns == s.turns[n..]
    decreases n
  {
    if n > 0 {
      LaterTurns(Meanwhile(s), n - 1);
    }
  }

  lemma {:induction false} LaterStill(s: State, n: nat, k: nat)
    requires n + k <= |s.turns|
    ensures Later(s, n + k) == Later(Later(s, n), k)
    decreases n
  {
    if n > 0 {
      LaterStill(Meanwhile(s), n - 1, k);
    }
  }

  lemma OthersThenOthers(a: State, b: State, c: State)
    requires OthersOnly(a, b) && OthersOnly(b, c)
    ensures OthersOnly(a, c)
  {
    LaterStill(a, |a.turns| - |b.turns|, |b.turns| - |c.turns|);
  }

  lemma MeanwhileIsOthers(s: State)
    ensures OthersOnly(s, Meanwhile(s))
  {
    if s.turns != [] {
      assert Later(s, 1) == Later(Meanwhile(s), 0) == Meanwhile(s);
    }
  }

  lemma OthersThenOurs(a: State, b: State, c: State)
    requires OthersOnly(a, b) && OneOfOurs(b, c)
    ensures OneOfOurs(a, c)
  {
    OthersThenOthers(a, b, c.(history := c.history[..|c.history| - 1], clock := c.clock - 1));
  }

  // ---------------------------------------------------------------------------------------------
  // What every call keeps.

  lemma {:induction false} WritesKeepOrder(s: State, xs: seq<Write>)
    requires Ordered(s)
    ensures Ordered(AfterWrites(s, xs)) && s.history <= AfterWrites(s, xs).history
  {
    if xs != [] {
      var i := |xs| - 1;
      WritesKeepOrder(s, xs[..i]);
      OneMoreWrite(s, xs, i);
      assert xs[..i + 1] == xs;
      OneWriteKeepsOrder(AfterWrites(s, xs[..i]), xs[i]);
    } else {
      assert AfterWrites(s, xs) == s;
    }
  }

  lemma OneWriteKeepsOrder(s: State, x: Write)
    requires Ordered(s)
    ensures Ordered(AfterWrites(s, [x])) && s.history <= AfterWrites(s, [x]).history
  {
    assert [x][..0] == [] && Values(s.clock, []) == [] && ClockAfter(s.clock, []) == s.clock;
  }

  lemma MeanwhileKeepsOrder(s: State)
    requires Ordered(s)
    ensures Ordered(Meanwhile(s)) && s.history <= Meanwhile(s).history
  {
    if s.turns != [] {
      WritesKeepOrder(s.(turns := s.turns[1..]), s.turns[0].others);
    }
  }

  lemma StillKnows(s: State, t: State, sa: Account)
    requires Knows(s, sa) && s.history <= t.history
    ensures Knows(t, sa)
  {
    var i :| 0 <= i < |s.history| && s.history[i].Some? && s.history[i].value.version == sa.version && s.history[i].value.rest == sa.rest;
    assert t.history[i] == s.history[i];
  }

  /** A copy that has the current version is the current revision, apart from automount. */
  lemma KnownIsNow(s: State, sa: Account)
    requires Ordered(s) && Knows(s, sa) && Now(s).Some? && Now(s).value.version == sa.version
    ensures Restricted(sa) == Restricted(Now(s).value)
  {
    var i :| 0 <= i < |s.history| && s.history[i].Some? && s.history[i].value.version == sa.version && s.history[i].value.rest == sa.rest;
    assert i == |s.history| - 1;
  }

  lemma StoredIsOurs(s: State, m: State, sa: Account)
    requires OthersOnly(s, m) && Ordered(m) && Knows(m, sa) && Now(m).Some? && Now(m).value.version == sa.version
    ensures OneOfOurs(s, Stored(m, Restricted(sa))) && Ordered(Stored(m, Restricted(sa)))
  {
    KnownIsNow(m, sa);
    var b := Stored(m, Restricted(sa));
    assert b.history[..|b.history| - 1] == m.history;
  }

  lemma SwapOutcome(s: State, m: State, fault: Fault, sa: Account)
    requires OthersOnly(s, m) && Ordered(m) && Knows(m, sa)
    ensures var u := Swapped(m, fault, Restricted(sa)); Outcome(s, u) && Ordered(u.state)
  {
    if Now(m).Some? && Now(m).value.version == sa.version {
      StoredIsOurs(s, m, sa);
    }
  }

  lemma UpdateOutcome(s: State, sa: Account)
    requires Ordered(s) && Knows(s, sa)
    ensures var u := Updating(s, Restricted(sa)); Outcome(s, u) && Ordered(u.state)
  {
    MeanwhileIsOthers(s);
    MeanwhileKeepsOrder(s);
    StillKnows(s, Meanwhile(s), sa);
    SwapOutcome(s, Meanwhile(s), FaultOf(s), sa);
  }

  lemma ReadOutcome(s: State)
    requires Ordered(s)
    ensures var (m, reply) := Reading(s);
            && OthersOnly(s, m) && Ordered(m)
            && (reply.Ok? ==> Knows(m, reply.account)) && (reply.Err? ==> !reply.error.Conflict?)
  {
    MeanwhileIsOthers(s);
    MeanwhileKeepsOrder(s);
    var m := Meanwhile(s);
    assert Now(m).Some? ==> m.history[|m.history| - 1] == Now(m);
  }

  lemma OutcomeAfterOthers(a: State, b: State, r: Result, k: nat)
    requires OthersOnly(a, b) && Outcome(b, r)
    ensures Outcome(a, After(k, r))
  {
    if OthersOnly(b, r.state) {
      OthersThenOthers(a, b, r.state);
    }
    if OneOfOurs(b, r.state) {
      OthersThenOurs(a, b, r.state);
    }
  }

  /** The inner loop, for every script: at most one commit, and of nothing but the current revision. */
  lemma {:induction false} AttemptOutcome(s: State, sa: Account, steps: nat)
    requires Ordered(s) && Knows(s, sa) && steps > 0
    ensures var r := Attempting(s, sa, steps); Outcome(s, r) && Ordered(r.state) && 0 < r.updates <= steps
    decreases steps
  {
    var u := Updating(s, Restricted(sa));
    UpdateOutcome(s, sa);
    if u.error == Some(Conflict) {
      ReadOutcome(u.state);
      var (m, reply) := Reading(u.state);
      OthersThenOthers(s, u.state, m);
      if reply.Ok? && steps > 1 {
        AttemptOutcome(m, reply.account, steps - 1);
        OutcomeAfterOthers(s, m, Attempting(m, reply.account, steps - 1), 1);
      }
    }
  }

  /** A conflict is returned only when all attempts are used up, and a missing account only if it is missing. */
  lemma {:induction false} AttemptErrors(s: State, sa: Account, steps: nat)
    requires steps > 0
    ensures var r := Attempting(s, sa, steps);
            (r.error == Some(Conflict) ==> r.updates == steps) && (r.error == Some(NotFound) ==> Now(r.state).None?)
    decreases steps
  {
    var u := Updating(s, Restricted(sa));
    if u.error == Some(Conflict) && steps > 1 {
      var (m, reply) := Reading(u.state);
      if reply.Ok? {
        AttemptErrors(m, reply.account, steps - 1);
      }
    }
  }

  lemma TryOutcome(s: State, inner: nat)
    requires Ordered(s) && inner > 0
    ensures var r := Trying(s, inner); Outcome(s, r) && Ordered(r.state) && r.updates <= inner
  {
    ReadOutcome(s);
    var (m, reply) := Reading(s);
    if reply.Ok? {
      AttemptOutcome(m, reply.account, inner);
      OutcomeAfterOthers(s, m, Attempting(m, reply.account, inner), 0);
    }
  }

  /** The whole call, for every script. */
  lemma {:induction false} RestrictOutcome(s: State, outer: nat, inner: nat)
    requires Ordered(s) && outer > 0 && inner > 0
    ensures var r := Restricting(s, outer, inner); Outcome(s, r) && Ordered(r.state)
    decreases outer
  {
    var r := Trying(s, inner);
    TryOutcome(s, inner);
    if r.error == Some(NotFound) && outer > 1 {
      RestrictOutcome(r.state, outer - 1, inner);
      OutcomeAfterOthers(s, r.state, Restricting(r.state, outer - 1, inner), r.updates);
    }
  }

  lemma {:induction false} RestrictUpdates(s: State, outer: nat, inner: nat)
    requires Ordered(s) && outer > 0 && inner > 0
    ensures Restricting(s, outer, inner).updates <= outer * inner
    decreases outer
  {
    var r := Trying(s, inner);
    TryOutcome(s, inner);
    MoreRounds(outer, inner);
    if r.error == Some(NotFound) && outer > 1 {
      RestrictUpdates(r.state, outer - 1, inner);
    }
  }

  lemma MoreRounds(outer: nat, inner: nat)
    requires outer > 0
    ensures inner <= inner + (outer - 1) * inner == outer * inner
  {
  }

  // ---------------------------------------------------------------------------------------------
  // No lost update.

  /** What is stored when the writes have been applied to it. */
  function Applied(stored: Option<Account>, clock: nat, xs: seq<Write>): Option<Account>
    decreases xs
  {
    if xs == [] then stored
    else
      match xs[0]
      case Put(automount, rest) => Applied(Some(Account(clock, automount, rest)), clock + 1, xs[1..])
      case Delete => Applied(None, clock, xs[1..])
  }

  lemma {:induction false} NowIsApplied(s: State, xs: seq<Write>)
    ensures Now(AfterWrites(s, xs)) == Applied(Now(s), s.clock, xs)
    decreases xs
  {
    if xs == [] {
      assert AfterWrites(s, xs) == s;
    } else {
      assert xs == [xs[0]] + xs[1..];
      WritesConcat(s, [xs[0]], xs[1..]);
      assert [xs[0]][..0] == [] && Values(s.clock, []) == [] && ClockAfter(s.clock, []) == s.clock;
      NowIsApplied(AfterWrites(s, [xs[0]]), xs[1..]);
    }
  }

  /** The server has what the writes of the others have made of the account, and only they were stored. */
  ghost predicate Theirs(a: State, b: State) {
    && |b.turns| <= |a.turns|
    && var xs := Writes(a.turns[..|a.turns| - |b.turns|]);
    Now(b) == Applied(Now(a), a.clock, xs) && b.history == a.history + Values(a.clock, xs)
  }

  /** The same but for automount and a version of its own, stored right after the last of them. */
  ghost predicate OursOnTop(a: State, b: State) {
    && |b.turns| <= |a.turns|
    && var xs := Writes(a.turns[..|a.turns| - |b.turns|]); var theirs := Applied(Now(a), a.clock, xs);
    && theirs.Some? && Now(b) == Some(theirs.value.(automount := Some(false), version := ClockAfter(a.clock, xs)))
    && b.history == a.history + Values(a.clock, xs) + [Now(b)]
  }

  /**
   After a call that succeeds, or whose last answer was lost, the server has what all writes of the
   others so far would have made of the account, none left out, but for automount and a version of
   its own.  Nothing is undone, a deletion neither.
   */
  lemma NoLostUpdate(s: State, outer: nat, inner: nat)
    requires Ordered(s) && outer > 0 && inner > 0
    ensures var r := Restricting(s, outer, inner);
            (Theirs(s, r.state) && r.error.Some?) || (OursOnTop(s, r.state) && (r.error.None? || r.error == Some(Other)))
  {
    RestrictOutcome(s, outer, inner);
    OutcomeExactly(s, Restricting(s, outer, inner));
  }

  lemma OutcomeExactly(a: State, r: Result)
    requires Outcome(a, r)
    ensures (Theirs(a, r.state) && r.error.Some?) || (OursOnTop(a, r.state) && (r.error.None? || r.error == Some(Other)))
  {
    if OthersOnly(a, r.state) && r.error.Some? {
      LaterExactly(a, |a.turns| - |r.state.turns|);
    } else {
      OursExactly(a, r.state);
    }
  }

  lemma OursExactly(a: State, b: State)
    requires OneOfOurs(a, b)
    ensures OursOnTop(a, b)
  {
    var front := b.history[..|b.history| - 1];
    assert b.history == front + [Now(b)];
    LaterExactly(a, |a.turns| - |b.turns|);
  }

  /** What the others make of the server: their writes one after the other. */
  lemma {:induction false} LaterExactly(s: State, n: nat)
    requires n <= |s.turns|
    ensures var xs := Writes(s.turns[..n]); var t := Later(s, n);
            t.history == s.history + Values(s.clock, xs) && t.clock == ClockAfter(s.clock, xs) && Now(t) == Applied(Now(s), s.clock, xs)
    decreases n
  {
    var xs := Writes(s.turns[..n]);
    if n == 0 {
      assert AfterWrites(s, []) == s;
    } else {
      var m := Meanwhile(s);
      LaterExactly(m, n - 1);
      assert s.turns[..n][0] == s.turns[0] && s.turns[..n][1..] == s.turns[1..][..n - 1];
      WritesConcat(s, s.turns[0].others, Writes(s.turns[1..][..n - 1]));
    }
    NowIsApplied(s, xs);
  }

  // ---------------------------------------------------------------------------------------------
  // Success.

  /** No fault and no deletion. */
  ghost predicate Benign(turns: seq<Turn>) {
    forall i :: 0 <= i < |turns| ==> turns[i].fault.Fine? && Delete !in turns[i].others
  }

  lemma BenignMeanwhile(s: State)
    requires Benign(s.turns) && Now(s).Some?
    ensures var m := Meanwhile(s); Benign(m.turns) && Now(m).Some? && FaultOf(s).Fine?
    ensures |Meanwhile(s).turns| == if s.turns == [] then 0 else |s.turns| - 1
  {
    if s.turns != [] {
      var xs := s.turns[0].others;
      if xs != [] {
        assert xs[|xs| - 1] in xs;
      }
    }
  }

  /** With a current copy and fewer disturbed calls ahead than attempts, the inner loop succeeds. */
  lemma {:induction false} AttemptSucceeds(s: State, sa: Account, steps: nat)
    requires Benign(s.turns) && Now(s).Some? && Now(s).value.version == sa.version && |s.turns| < steps
    ensures Attempting(s, sa, steps).error.None?
    decreases steps
  {
    BenignMeanwhile(s);
    var u := Updating(s, Restricted(sa));
    if u.error == Some(Conflict) {
      BenignMeanwhile(u.state);
      var (m, reply) := Reading(u.state);
      AttemptSucceeds(m, reply.account, steps - 1);
    }
  }

  lemma RestrictSucceeds(s: State, outer: nat, inner: nat)
    requires Benign(s.turns) && Now(s).Some? && |s.turns| <= inner && outer > 0 && inner > 0
    ensures Restricting(s, outer, inner).error.None?
  {
    BenignMeanwhile(s);
    var (m, reply) := Reading(s);
    AttemptSucceeds(m, reply.account, inner);
  }

  /** An account that is missing at first is waited for, one round after the other. */
  lemma {:induction false} RestrictWaits(s: State, outer: nat, inner: nat, i: nat)
    requires Benign(s.turns) && |s.turns| <= inner && inner > 0
    requires i < outer && i < |s.turns| && s.turns[i].others != []
    ensures Restricting(s, outer, inner).error.None?
    decreases outer
  {
    if Now(s).Some? {
      RestrictSucceeds(s, outer, inner);
    } else {
      var m := Meanwhile(s);
      assert m.turns == s.turns[1..];
      if i == 0 {
        PutsStore(s.(turns := s.turns[1..]), s.turns[0].others);
        AttemptSucceeds(m, Now(m).value, inner);
      } else if Now(m).Some? {
        AttemptSucceeds(m, Now(m).value, inner);
      } else {
        assert Trying(s, inner) == Result(m, Some(NotFound), 0);
        RestrictWaits(m, outer - 1, inner, i - 1);
      }
    }
  }

  lemma PutsStore(s: State, xs: seq<Write>)
    requires xs != [] && Delete !in xs
    ensures Now(AfterWrites(s, xs)).Some?
  {
    assert xs[|xs| - 1] in xs;
  }

  // ---------------------------------------------------------------------------------------------
  // Faults.

  /** The error is Other if and only if one of the turns used up was disturbed by a fault. */
  ghost predicate TellsFaults(s: State, r: Result) {
    && |r.state.turns| <= |s.turns| && r.state.turns == s.turns[|s.turns| - |r.state.turns|..]
    && (r.error == Some(Other) <==> exists i :: 0 <= i < |s.turns| - |r.state.turns| && !s.turns[i].fault.Fine?)
  }

  lemma MeanwhileTells(s: State)
    ensures Meanwhile(s).turns == (if s.turns == [] then [] else s.turns[1..])
    ensures FaultOf(s).Fine? <==> forall i :: 0 <= i < |s.turns| - |Meanwhile(s).turns| ==> s.turns[i].fault.Fine?
  {
  }

  lemma TellsThenTells(s: State, m: State, r: Result, k: nat)
    requires |m.turns| <= |s.turns| && m.turns == s.turns[|s.turns| - |m.turns|..]
    requires forall i :: 0 <= i < |s.turns| - |m.turns| ==> s.turns[i].fault.Fine?
    requires TellsFaults(m, r)
    ensures TellsFaults(s, After(k, r))
  {
    var n := |s.turns| - |m.turns|;
    assert s.turns[n..][|m.turns| - |r.state.turns|..] == s.turns[|s.turns| - |r.state.turns|..];
    if r.error == Some(Other) {
      var i :| 0 <= i < |m.turns| - |r.state.turns| && !m.turns[i].fault.Fine?;
      assert s.turns[n + i] == m.turns[i];
    }
    if exists i :: 0 <= i < |s.turns| - |r.state.turns| && !s.turns[i].fault.Fine? {
      var i :| 0 <= i < |s.turns| - |r.state.turns| && !s.turns[i].fault.Fine?;
      assert i >= n && m.turns[i - n] == s.turns[i];
    }
  }

  /** One turn used up, and a fault in it told. */
  ghost predicate TellsOne(s: State, m: State, error: Option<Error>) {
    m.turns == Meanwhile(s).turns && (error == Some(Other) <==> !FaultOf(s).Fine?)
  }

  lemma OneTurnTells(s: State, r: Result)
    requires TellsOne(s, r.state, r.error)
    ensures TellsFaults(s, r)
  {
    MeanwhileTells(s);
  }

  lemma FineTurnThenTells(s: State, m: State, r: Result, k: nat)
    requires m.turns == Meanwhile(s).turns && FaultOf(s).Fine? && TellsFaults(m, r)
    ensures TellsFaults(s, After(k, r))
  {
    MeanwhileTells(s);
    TellsThenTells(s, m, r, k);
  }

  lemma UpdateTells(s: State, sent: Account)
    ensures var u := Updating(s, sent); TellsOne(s, u.state, u.error)
  {
  }

  lemma ReadTells(s: State)
    ensures var (m, reply) := Reading(s); TellsOne(s, m, if reply.Err? then Some(reply.error) else None)
  {
  }

  /** What comes after a conflict. */
  function Refreshed(s: State, steps: nat): Result
    requires steps > 0
  {
    var (m, reply) := Reading(s);
    if reply.Err? then Result(m, Some(reply.error), 0)
    else if steps == 1 then Result(m, Some(Conflict), 0)
    else Attempting(m, reply.account, steps - 1)
  }

  lemma {:induction false} AttemptTells(s: State, sa: Account, steps: nat)
    requires steps > 0
    ensures TellsFaults(s, Attempting(s, sa, steps))
    decreases steps, 1
  {
    var u := Updating(s, Restricted(sa));
    UpdateTells(s, Restricted(sa));
    if u.error == Some(Conflict) {
      RefreshTells(u.state, steps);
      FineTurnThenTells(s, u.state, Refreshed(u.state, steps), 1);
    } else {
      OneTurnTells(s, u);
    }
  }

  lemma {:induction false} RefreshTells(s: State, steps: nat)
    requires steps > 0
    ensures TellsFaults(s, Refreshed(s, steps))
    decreases steps, 0
  {
    ReadTells(s);
    var (m, reply) := Reading(s);
    if reply.Ok? && steps > 1 {
      AttemptTells(m, reply.account, steps - 1);
      FineTurnThenTells(s, m, Attempting(m, reply.account, steps - 1), 0);
    } else {
      OneTurnTells(s, Refreshed(s, steps));
    }
  }

  lemma TryTells(s: State, inner: nat)
    requires inner > 0
    ensures TellsFaults(s, Trying(s, inner))
  {
    ReadTells(s);
    var (m, reply) := Reading(s);
    if reply.Ok? {
      AttemptTells(m, reply.account, inner);
      FineTurnThenTells(s, m, Attempting(m, reply.account, inner), 0);
    } else {
      OneTurnTells(s, Trying(s, inner));
    }
  }

  /** A refused or lost answer ends the call with that error, and nothing else does: no fault is overlooked or retried. */
  lemma {:induction false} FaultsEndTheCall(s: State, outer: nat, inner: nat)
    requires outer > 0 && inner > 0
    ensures TellsFaults(s, Restricting(s, outer, inner))
    decreases outer
  {
    var r := Trying(s, inner);
    TryTells(s, inner);
    if r.error == Some(NotFound) && outer > 1 {
      FaultsEndTheCall(r.state, outer - 1, inner);
      TellsThenTells(s, r.state, Restricting(r.state, outer - 1, inner), r.updates);
    }
  }

  /** A refused update leaves nothing. */
  lemma RefusedLeavesNothing(s: State, sent: Account)
    requires FaultOf(s).Refused?
    ensures Updating(s, sent) == Result(Meanwhile(s), Some(Other), 1)
  {
  }
}
