/** What the rewriting loop reports about the caller's flags, and exactly when that is right. */
module ApiServerReports {
  import opened Text
  import opened ApiServerArgs
  import opened ApiServerArgsExact
  import opened ApiServerArgsTheorem

  /** After these arguments the next one is not read: a dropped flag was read last. */
  predicate Shields(c: Config, s: seq<string>) {
    s != [] && Drop(c)(s[|s| - 1]) && !Shields(c, s[..|s| - 1])
  }

  /** The last --audit-log-path is shielded and has another value than the one read before it. */
  predicate AuditMisread(c: Config, s: seq<string>) {
    s != []
    && var front, last := s[..|s| - 1], s[|s| - 1];
    if c.flag(last).AuditPath? then Shields(c, front) && Value(last) != LastAudit(c, "", Seen(c, front))
    else AuditMisread(c, front)
  }

  /** Some --kubelet-preferred-address-types is not shielded. */
  predicate AddressRead(c: Config, s: seq<string>) {
    s != []
    && var front, last := s[..|s| - 1], s[|s| - 1];
    (c.flag(last).AddressTypes? && !Shields(c, front)) || AddressRead(c, front)
  }

  /** The final argument is always read, if only from the stale cell. */
  predicate AuditReadRight(c: Config, s: seq<string>) {
    s == [] || c.flag(s[|s| - 1]).AuditPath? || !AuditMisread(c, s[..|s| - 1])
  }

  predicate AddressReadRight(c: Config, s: seq<string>) {
    AnyAddressTypes(c, false, s) ==> c.flag(s[|s| - 1]).AddressTypes? || AddressRead(c, s[..|s| - 1])
  }

  lemma {:induction false} ShieldsTail(c: Config, s: seq<string>)
    requires s != [] && !Drop(c)(s[0])
    ensures Shields(c, s) == Shields(c, s[1..])
  {
    if |s| > 1 {
      var front := s[..|s| - 1];
      ShieldsTail(c, front);
      assert s[1..][..|s| - 2] == front[1..];
    }
  }

  lemma {:induction false} ShieldsPair(c: Config, s: seq<string>)
    requires |s| >= 2 && Drop(c)(s[0])
    ensures Shields(c, s) == Shields(c, s[2..])
  {
    var front := s[..|s| - 1];
    if |s| > 2 {
      ShieldsPair(c, front);
      assert s[2..][..|s| - 3] == front[2..];
    } else {
      assert front == [s[0]] && front[..0] == [];
    }
  }

  /** What is read, built from the other end. */
  lemma {:induction false} SeenMore(c: Config, s: seq<string>, z: string)
    ensures Seen(c, s + [z]) == if Shields(c, s) || Drop(c)(z) then Seen(c, s) else Seen(c, s) + [z]
    decreases s
  {
    var more := s + [z];
    if s == [] {
      assert more == [z] && more[1..] == [];
    } else if !Drop(c)(s[0]) {
      assert more[1..] == s[1..] + [z];
      SeenMore(c, s[1..], z);
      ShieldsTail(c, s);
    } else if |s| == 1 {
      assert more[2..] == [] && s[..0] == [];
    } else {
      assert more[2..] == s[2..] + [z];
      SeenMore(c, s[2..], z);
      ShieldsPair(c, s);
    }
  }

  lemma LastReport(c: Config, s: seq<string>, z: string)
    ensures LastAudit(c, "", s + [z]) == if c.flag(z).AuditPath? then Value(z) else LastAudit(c, "", s)
    ensures AnyAddressTypes(c, false, s + [z]) == (AnyAddressTypes(c, false, s) || c.flag(z).AddressTypes?)
  {
    ReportsConcat(c, "", false, s, [z]);
    OneReport(c, LastAudit(c, "", s), AnyAddressTypes(c, false, s), z);
  }

  lemma {:induction false} AuditSeenIff(c: Config, s: seq<string>)
    ensures LastAudit(c, "", Seen(c, s)) == LastAudit(c, "", s) <==> !AuditMisread(c, s)
  {
    if s != [] {
      var front, last := s[..|s| - 1], s[|s| - 1];
      assert s == front + [last];
      AuditSeenIff(c, front);
      SeenMore(c, front, last);
      LastReport(c, front, last);
      LastReport(c, Seen(c, front), last);
    }
  }

  lemma {:induction false} AddressSeen(c: Config, s: seq<string>)
    ensures AnyAddressTypes(c, false, Seen(c, s)) == AddressRead(c, s)
  {
    if s != [] {
      var front, last := s[..|s| - 1], s[|s| - 1];
      assert s == front + [last];
      AddressSeen(c, front);
      SeenMore(c, front, last);
      LastReport(c, Seen(c, front), last);
    }
  }

  /** What is read of all arguments: what is read before the final one, and the final one. */
  lemma ReadAll(c: Config, s: seq<string>)
    requires s != []
    ensures var front, last := s[..|s| - 1], s[|s| - 1];
            && LastAudit(c, "", SeenArgs(c, s)) == (if c.flag(last).AuditPath? then Value(last) else LastAudit(c, "", Seen(c, front)))
            && AnyAddressTypes(c, false, SeenArgs(c, s)) == (AnyAddressTypes(c, false, Seen(c, front)) || c.flag(last).AddressTypes?)
  {
    var front, last := s[..|s| - 1], s[|s| - 1];
    assert s == front + [last];
    SeenMore(c, front, last);
    LastReport(c, Seen(c, s), last);
    LastReport(c, Seen(c, front), last);
  }

  /** On safe arguments, exactly when the reported audit path and the report on the address types are right. */
  lemma ReportsRightIff(c: Config, s: seq<string>)
    requires ValidConfig(c) && Safe(c, s)
    ensures var out := Scan(c, Start(s));
            && out.Done? && (out.audit == LastAudit(c, "", s) <==> AuditReadRight(c, s))
            && (out.found == AnyAddressTypes(c, false, s) <==> AddressReadRight(c, s))
  {
    RewriteIsRightIff(c, s);
    if s == [] {
      assert SeenArgs(c, s) == [];
    } else {
      var front, last := s[..|s| - 1], s[|s| - 1];
      assert s == front + [last];
      ReadAll(c, s);
      AuditSeenIff(c, front);
      AddressSeen(c, front);
      LastReport(c, front, last);
      if AddressRead(c, front) {
        AddressReadIsThere(c, front);
      }
    }
  }

  /** Everything the loop yields is right if and only if the arguments are safe and no report is misread. */
  lemma OutcomeIsRightIff(c: Config, s: seq<string>)
    requires ValidConfig(c)
    ensures Scan(c, Start(s)) == Done(Intended(c, s), LastAudit(c, "", s), AnyAddressTypes(c, false, s))
       <==> Safe(c, s) && AuditReadRight(c, s) && AddressReadRight(c, s)
  {
    RewriteIsRightIff(c, s);
    if Safe(c, s) {
      ReportsRightIff(c, s);
    }
  }

  lemma {:induction false} AddressReadIsThere(c: Config, s: seq<string>)
    requires AddressRead(c, s)
    ensures AnyAddressTypes(c, false, s)
  {
    var front, last := s[..|s| - 1], s[|s| - 1];
    assert s == front + [last];
    LastReport(c, front, last);
    if AddressRead(c, front) {
      AddressReadIsThere(c, front);
    }
  }

  /** A removed flag in front of --audit-log-path: the arguments come out right, the path is not noticed. */
  lemma HiddenAuditPath(c: Config, a: string, b: string, z: string)
    requires ValidConfig(c) && IsRemoved(c, a) && c.flag(b).AuditPath? && c.flag(z) == Plain && Value(b) != ""
    ensures Right(c, [a, b, z])
    ensures var out := Scan(c, Start([a, b, z])); out.Done? && out.audit == "" && LastAudit(c, "", [a, b, z]) == Value(b)
  {
    var s := [a, b, z];
    OneRemovedIsSafe(c, a, b, z);
    RewriteIsRightIff(c, s);
    HiddenReports(c, a, b, z);
  }

  lemma OneRemovedIsSafe(c: Config, a: string, b: string, z: string)
    requires IsRemoved(c, a) && !Drop(c)(b) && !Drop(c)(z)
    ensures Safe(c, [a, b, z])
  {
    var s := [a, b, z];
    assert s[0] == a && s[1] == b && s[2] == z;
    assert forall i :: 0 < i < |s| ==> !Drop(c)(s[i]);
    assert !IsReplaced(c, s[0]);
  }

  lemma HiddenReports(c: Config, a: string, b: string, z: string)
    requires IsRemoved(c, a) && c.flag(b).AuditPath? && c.flag(z) == Plain
    ensures LastAudit(c, "", SeenArgs(c, [a, b, z])) == "" && LastAudit(c, "", [a, b, z]) == Value(b)
  {
    var s := [a, b, z];
    assert SeenArgs(c, s) == [z, z] by {
      assert s[2..] == [z] && Seen(c, s) == Seen(c, [z]);
      SeenMore(c, [], z);
      assert [] + [z] == [z];
    }
    ReportsRepeat(c, "", false, z, [z, z]);
    OneReport(c, "", false, z);
    assert [a, b] + [z] == s && [a] + [b] == [a, b];
    LastReport(c, [a, b], z);
    LastReport(c, [a], b);
  }

  lemma HiddenAuditPathExample(socket: string)
    ensures var c := ServerConfig(false, socket);
            var s := ["--advertise-port" + "=" + "2", "--audit-log-path" + "=" + "/log", "--v" + "=" + "2"];
            Right(c, s) && Scan(c, Start(s)).audit == "" && LastAudit(c, "", s) == "/log"
  {
    ExampleFlags("2");
    NameValue("--audit-log-path", "/log");
    ServerConfigIsValid(false, socket);
    HiddenAuditPath(ServerConfig(false, socket), "--advertise-port" + "=" + "2", "--audit-log-path" + "=" + "/log", "--v" + "=" + "2");
  }
}
