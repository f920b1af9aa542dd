/** The arguments the kube-apiserver static pod ends up with, and which of two equal flags wins. */
module ApiServerPod {
  import opened Wrappers
  import opened Compaction
  import opened Text
  import opened ApiServerArgs
  import opened ApiServerArgsExact
  import opened ApiServerArgsTheorem
  import opened ApiServerReports

  const DEFAULT_AUDIT_POLICY_FILE := "/etc/rancher/rke2/audit-policy.yaml"

  const ADDRESS_TYPES := "--kubelet-preferred-address-types"
  const DEFAULT_ADDRESS_TYPES := "InternalIP,ExternalIP,Hostname"

  const ADMISSION_CONFIG := "--admission-control-config-file"
  const AUDIT_POLICY := "--audit-policy-file"
  const AUDIT_MAXAGE := "--audit-log-maxage"
  const AUDIT_MAXBACKUP := "--audit-log-maxbackup"
  const AUDIT_MAXSIZE := "--audit-log-maxsize"
  const AUDIT_PATH := "--audit-log-path"
  const TOKEN_EXPIRATION := "--service-account-extend-token-expiration"

  function Assign(flag: string, value: string): string {
    flag + "=" + value
  }

  function AdmissionArgs(psaFile: string): seq<string> {
    [Assign(ADMISSION_CONFIG, psaFile)]
  }

  function AuditArgs(policyFile: string, auditDefault: string, audit: string): seq<string> {
    if policyFile == "" then []
    else
      [Assign(AUDIT_POLICY, policyFile), Assign(AUDIT_MAXAGE, "30"), Assign(AUDIT_MAXBACKUP, "10"), Assign(AUDIT_MAXSIZE, "100")]
      + (if audit == "" then [Assign(AUDIT_PATH, auditDefault)] else [])
  }

  function TokenArgs(cis: bool): seq<string> {
    if cis then [Assign(TOKEN_EXPIRATION, "false")] else []
  }

  function AddressArgs(found: bool): seq<string> {
    if found then [] else [Assign(ADDRESS_TYPES, DEFAULT_ADDRESS_TYPES)]
  }

  /** What is put in front of the rewritten arguments. */
  function Injected(psaFile: string, cis: bool, policyFile: string, auditDefault: string, audit: string, found: bool): seq<string> {
    AdmissionArgs(psaFile) + AuditArgs(policyFile, auditDefault, audit) + TokenArgs(cis) + AddressArgs(found)
  }

  /** The audit log reported to the rest of the pod, whose directory is mounted. */
  function AuditLog(policyFile: string, auditDefault: string, audit: string): string {
    if policyFile != "" && audit == "" then auditDefault else audit
  }

  datatype Result = Panicked | PolicyFileError | Args(args: seq<string>, auditLog: string)

  class StaticPodConfig {
    const config: Config
    const psaFile: string
    const cis: bool
    const auditDefault: string
    var auditPolicyFile: string

    constructor (config: Config, psaFile: string, cis: bool, auditDefault: string, auditPolicyFile: string)
      ensures this.config == config && this.psaFile == psaFile && this.cis == cis
      ensures this.auditDefault == auditDefault && this.auditPolicyFile == auditPolicyFile
    {
      this.config, this.psaFile, this.cis := config, psaFile, cis;
      this.auditDefault, this.auditPolicyFile := auditDefault, auditPolicyFile;
    }

    /** The argument part of APIServer(): rewrite, then a chain of prepends. */
    method ApiServerArguments(args: array<string>, policyFileWritable: bool) returns (r: Result)
      modifies args, this`auditPolicyFile
      ensures var out := Scan(config, Start(old(args[..])));
              && auditPolicyFile == (if out.Done? && cis && old(auditPolicyFile) == "" then "/etc/rancher/rke2/audit-policy.yaml" else old(auditPolicyFile))
              && r == (if out.Panic? then Panicked
                       else if auditPolicyFile != "" && !policyFileWritable then PolicyFileError
                       else Args(Injected(psaFile, cis, auditPolicyFile, auditDefault, out.audit, out.found) + out.args,
                                 AuditLog(auditPolicyFile, auditDefault, out.audit)))
    {
      var out := RewriteArgs(config, args);
      if out.Panic? {
        return Panicked;
      }
      var list := AddressArgs(out.found) + out.args;
      list := TokenArgs(cis) + list;
      if cis && auditPolicyFile == "" {
        auditPolicyFile := DEFAULT_AUDIT_POLICY_FILE;
      }
      var auditLog := out.audit;
      if auditPolicyFile != "" {
        if !policyFileWritable {
          return PolicyFileError;
        }
        if auditLog == "" {
          auditLog := auditDefault;
        }
      }
      list := AuditArgs(auditPolicyFile, auditDefault, out.audit) + list;
      list := AdmissionArgs(psaFile) + list;
      Reassociate(AdmissionArgs(psaFile), AuditArgs(auditPolicyFile, auditDefault, out.audit), TokenArgs(cis),
                  AddressArgs(out.found), out.args);
      return Args(list, auditLog);
    }
  }

  lemma Reassociate(a: seq<string>, b: seq<string>, c: seq<string>, d: seq<string>, e: seq<string>)
    ensures a + (b + (c + (d + e))) == a + b + c + d + e
  {
  }

  // ---------------------------------------------------------------------------------------------
  // Last occurrence wins.

  /** The value a flag has when a later occurrence overrides an earlier one. */
  function Effective(name: string, args: seq<string>): Option<string> {
    if args == [] then None
    else
      var last := args[|args| - 1];
      if Name(last) == name then Some(Value(last)) else Effective(name, args[..|args| - 1])
  }

  predicate Mentions(name: string, args: seq<string>) {
    exists i :: 0 <= i < |args| && Name(args[i]) == name
  }

  lemma {:induction false} EffectiveConcat(name: string, front: seq<string>, args: seq<string>)
    ensures Effective(name, front + args)
         == if Mentions(name, args) then Effective(name, args) else Effective(name, front)
  {
    if args == [] {
      assert front + args == front;
    } else {
      var init, last := args[..|args| - 1], args[|args| - 1];
      assert (front + args)[..|front + args| - 1] == front + init;
      assert (front + args)[|front + args| - 1] == last;
      EffectiveConcat(name, front, init);
      if Name(last) != name && Mentions(name, args) {
        var i :| 0 <= i < |args| && Name(args[i]) == name;
        assert init[i] == args[i];
      }
      if Mentions(name, init) {
        var i :| 0 <= i < |init| && Name(init[i]) == name;
        assert args[i] == init[i];
      }
    }
  }

  /** Keeping all flags of a name keeps what that name means. */
  lemma {:induction false} EffectiveKept(c: Config, name: string, s: seq<string>)
    requires forall i :: 0 <= i < |s| && Name(s[i]) == name ==> !Drop(c)(s[i])
    ensures Effective(name, Kept(Drop(c), s)) == Effective(name, s)
    ensures Mentions(name, Kept(Drop(c), s)) <==> Mentions(name, s)
  {
    if s != [] {
      var init, last := s[..|s| - 1], s[|s| - 1];
      assert s == init + [last];
      KeptConcat(Drop(c), init, [last]);
      assert forall i :: 0 <= i < |init| ==> init[i] == s[i];
      EffectiveKept(c, name, init);
      var kept := Kept(Drop(c), init);
      MentionsLast(name, init, last);
      MentionsLast(name, kept, last);
      if !Drop(c)(last) {
        assert Kept(Drop(c), s) == kept + [last];
        assert (kept + [last])[..|kept|] == kept;
      } else {
        assert Kept(Drop(c), s) == kept;
      }
    }
  }

  lemma MentionsLast(name: string, init: seq<string>, last: string)
    ensures Mentions(name, init + [last]) <==> Mentions(name, init) || Name(last) == name
  {
    if Mentions(name, init + [last]) && Name(last) != name {
      var i :| 0 <= i < |init + [last]| && Name((init + [last])[i]) == name;
      assert (init + [last])[i] == init[i];
    }
    if Mentions(name, init) {
      var i :| 0 <= i < |init| && Name(init[i]) == name;
      assert (init + [last])[i] == init[i];
    }
    assert (init + [last])[|init|] == last;
  }

  /** A flag whose arguments are all dropped is not left over. */
  lemma {:induction false} DroppedNotMentioned(c: Config, name: string, s: seq<string>)
    requires forall i :: 0 <= i < |s| && Name(s[i]) == name ==> Drop(c)(s[i])
    ensures !Mentions(name, Kept(Drop(c), s))
  {
    if s != [] {
      var init, last := s[..|s| - 1], s[|s| - 1];
      assert s == init + [last];
      KeptConcat(Drop(c), init, [last]);
      assert forall i :: 0 <= i < |init| ==> init[i] == s[i];
      DroppedNotMentioned(c, name, init);
      MentionsLast(name, Kept(Drop(c), init), last);
    }
  }

  /** What a flag means to the kube-apiserver in the end, given what is put in front. */
  function Meaning(c: Config, s: seq<string>, injected: seq<string>, name: string): Option<string> {
    if !Mentions(name, s) || Classify(name).Removed? then Effective(name, injected)
    else if c.external && Classify(name).EtcdServers? then Some(Value(c.kine))
    else Effective(name, s)
  }

  /** The same for the arguments the loop is meant to produce. */
  lemma IntendedMeaning(c: Config, s: seq<string>, injected: seq<string>, name: string)
    requires c.flag == FlagOf && ValidConfig(c)
    ensures Effective(name, injected + Intended(c, s)) == Meaning(c, s, injected, name)
  {
    var header, kept := Header(c, s), Kept(Drop(c), s);
    Assoc(injected, header, kept);
    EffectiveConcat(name, injected + header, kept);
    EffectiveConcat(name, injected, header);
    if Classify(name).Removed? || (c.external && Classify(name).EtcdServers?) {
      DroppedNotMentioned(c, name, s);
    } else {
      EffectiveKept(c, name, s);
    }
    HeaderMeaning(c, s, name);
  }

  lemma HeaderMeaning(c: Config, s: seq<string>, name: string)
    requires c.flag == FlagOf && ValidConfig(c)
    ensures Mentions(name, Header(c, s)) <==> c.external && Classify(name).EtcdServers? && Mentions(name, s)
    ensures Mentions(name, Header(c, s)) ==> Effective(name, Header(c, s)) == Some(Value(c.kine))
  {
    if AnyReplaced(c, s) {
      var i :| 0 <= i < |s| && IsReplaced(c, s[i]);
      OneEtcdName(Name(s[i]), Name(c.kine));
      assert Mentions(Name(c.kine), s);
      assert Header(c, s)[0] == c.kine;
      if Classify(name).EtcdServers? {
        OneEtcdName(name, Name(c.kine));
      }
    }
  }

  lemma OneEtcdName(a: string, b: string)
    requires Classify(a).EtcdServers? && Classify(b).EtcdServers?
    ensures a == b
  {
  }

  /**
   On safe arguments, whatever is injected in front: a flag the caller never gave, or one of those
   to be removed, has its injected value; a replaced --etcd-servers has the kine address; and every
   other flag of the caller keeps the value the caller gave it.
   */
  lemma CallerFlagsWin(external: bool, socket: string, s: seq<string>, injected: seq<string>, name: string)
    requires Safe(ServerConfig(external, socket), s)
    ensures var c := ServerConfig(external, socket); var out := Scan(c, Start(s));
            out.Done? && Effective(name, injected + out.args) == Meaning(c, s, injected, name)
  {
    var c := ServerConfig(external, socket);
    ServerConfigIsValid(external, socket);
    RewriteIsRightIff(c, s);
    IntendedMeaning(c, s, injected, name);
  }

  lemma {:induction false} AddressTypesReported(c: Config, s: seq<string>, found: bool)
    requires c.flag == FlagOf
    ensures AnyAddressTypes(c, found, s) == (found || Mentions(ADDRESS_TYPES, s))
    decreases s
  {
    if s != [] {
      assert c.flag(s[0]).AddressTypes? <==> Name(s[0]) == ADDRESS_TYPES;
      AddressTypesReported(c, s[1..], found || c.flag(s[0]).AddressTypes?);
      if Mentions(ADDRESS_TYPES, s) && Name(s[0]) != ADDRESS_TYPES {
        var i :| 0 <= i < |s| && Name(s[i]) == ADDRESS_TYPES;
        assert s[1..][i - 1] == s[i];
      }
      if Mentions(ADDRESS_TYPES, s[1..]) {
        var i :| 0 <= i < |s[1..]| && Name(s[1..][i]) == ADDRESS_TYPES;
        assert s[i + 1] == s[1..][i];
      }
    }
  }

  // ---------------------------------------------------------------------------------------------
  // What is injected, flag by flag.

  function Or(x: Option<string>, y: Option<string>): Option<string> {
    if x.Some? then x else y
  }

  function If(b: bool, value: string): Option<string> {
    if b then Some(value) else None
  }

  lemma {:induction false} EffectiveIffMentions(name: string, s: seq<string>)
    ensures Effective(name, s).Some? <==> Mentions(name, s)
  {
    if s != [] {
      var front, last := s[..|s| - 1], s[|s| - 1];
      assert s == front + [last];
      EffectiveIffMentions(name, front);
      MentionsLast(name, front, last);
    }
  }

  lemma EffectiveOr(name: string, s: seq<string>, t: seq<string>)
    ensures Effective(name, s + t) == Or(Effective(name, t), Effective(name, s))
  {
    EffectiveConcat(name, s, t);
    EffectiveIffMentions(name, t);
  }

  lemma OneFlag(name: string, flag: string, value: string)
    requires '=' !in flag
    ensures Effective(name, [Assign(flag, value)]) == If(name == flag, value)
  {
    NameValue(flag, value);
    var s := [Assign(flag, value)];
    assert Name(s[0]) == flag && s[..0] == [];
  }

  lemma FlagThen(name: string, flag: string, value: string, rest: seq<string>)
    requires '=' !in flag
    ensures Effective(name, [Assign(flag, value)] + rest) == Or(Effective(name, rest), If(name == flag, value))
  {
    OneFlag(name, flag, value);
    EffectiveOr(name, [Assign(flag, value)], rest);
  }

  /** What the injected audit arguments say about a flag. */
  function AuditMeaning(policyFile: string, auditDefault: string, audit: string, name: string): Option<string> {
    if policyFile == "" then None
    else if name == AUDIT_PATH && audit == "" then Some(auditDefault)
    else if name == AUDIT_MAXSIZE then Some("100")
    else if name == AUDIT_MAXBACKUP then Some("10")
    else if name == AUDIT_MAXAGE then Some("30")
    else if name == AUDIT_POLICY then Some(policyFile)
    else None
  }

  lemma AuditArgsMean(policyFile: string, auditDefault: string, audit: string, name: string)
    ensures Effective(name, AuditArgs(policyFile, auditDefault, audit)) == AuditMeaning(policyFile, auditDefault, audit, name)
  {
    if policyFile != "" {
      var path := if audit == "" then [Assign(AUDIT_PATH, auditDefault)] else [];
      OptionalFlag(name, AUDIT_PATH, auditDefault, audit == "");
      FourFlagsThen(name, AUDIT_POLICY, policyFile, AUDIT_MAXAGE, "30", AUDIT_MAXBACKUP, "10", AUDIT_MAXSIZE, "100", path);
    }
  }

  lemma FourFlagsThen(name: string, f: string, x: string, g: string, y: string, h: string, z: string, i: string, u: string, rest: seq<string>)
    requires '=' !in f && '=' !in g && '=' !in h && '=' !in i
    ensures Effective(name, [Assign(f, x), Assign(g, y), Assign(h, z), Assign(i, u)] + rest)
         == Or(Or(Or(Or(Effective(name, rest), If(name == i, u)), If(name == h, z)), If(name == g, y)), If(name == f, x))
  {
    var three := [Assign(i, u)] + rest;
    var two := [Assign(h, z)] + three;
    var one := [Assign(g, y)] + two;
    FlagThen(name, i, u, rest);
    FlagThen(name, h, z, three);
    FlagThen(name, g, y, two);
    FlagThen(name, f, x, one);
    assert [Assign(f, x), Assign(g, y), Assign(h, z), Assign(i, u)] + rest == [Assign(f, x)] + one;
  }

  /** What the injected arguments as a whole say about a flag. */
  function InjectedMeaning(psaFile: string, cis: bool, policyFile: string, auditDefault: string, audit: string, found: bool, name: string): Option<string> {
    if name == ADDRESS_TYPES && !found then Some(DEFAULT_ADDRESS_TYPES)
    else if name == TOKEN_EXPIRATION && cis then Some("false")
    else Or(AuditMeaning(policyFile, auditDefault, audit, name), If(name == ADMISSION_CONFIG, psaFile))
  }

  lemma InjectedMeans(psaFile: string, cis: bool, policyFile: string, auditDefault: string, audit: string, found: bool, name: string)
    ensures Effective(name, Injected(psaFile, cis, policyFile, auditDefault, audit, found))
         == InjectedMeaning(psaFile, cis, policyFile, auditDefault, audit, found, name)
  {
    FourParts(name, AdmissionArgs(psaFile), AuditArgs(policyFile, auditDefault, audit), TokenArgs(cis), AddressArgs(found));
    AuditArgsMean(policyFile, auditDefault, audit, name);
    AdmissionArgsMean(psaFile, name);
    TokenArgsMean(cis, name);
    AddressArgsMean(found, name);
  }

  lemma AdmissionArgsMean(psaFile: string, name: string)
    ensures Effective(name, AdmissionArgs(psaFile)) == If(name == ADMISSION_CONFIG, psaFile)
  {
    OneFlag(name, ADMISSION_CONFIG, psaFile);
  }

  lemma TokenArgsMean(cis: bool, name: string)
    ensures Effective(name, TokenArgs(cis)) == If(cis && name == TOKEN_EXPIRATION, "false")
  {
    OptionalFlag(name, TOKEN_EXPIRATION, "false", cis);
  }

  lemma AddressArgsMean(found: bool, name: string)
    ensures Effective(name, AddressArgs(found)) == If(!found && name == ADDRESS_TYPES, DEFAULT_ADDRESS_TYPES)
  {
    OptionalFlag(name, ADDRESS_TYPES, DEFAULT_ADDRESS_TYPES, !found);
  }

  lemma FourParts(name: string, a: seq<string>, b: seq<string>, c: seq<string>, d: seq<string>)
    ensures Effective(name, a + b + c + d) == Or(Effective(name, d), Or(Effective(name, c), Or(Effective(name, b), Effective(name, a))))
  {
    EffectiveOr(name, a + b + c, d);
    EffectiveOr(name, a + b, c);
    EffectiveOr(name, a, b);
  }

  lemma OptionalFlag(name: string, flag: string, value: string, given: bool)
    requires '=' !in flag
    ensures Effective(name, if given then [Assign(flag, value)] else []) == If(given && name == flag, value)
  {
    OneFlag(name, flag, value);
  }

  // ---------------------------------------------------------------------------------------------
  // End to end, in terms of what the caller gave.

  /** The arguments the kube-apiserver is started with. */
  function FinalArguments(c: Config, s: seq<string>, psaFile: string, cis: bool, policyFile: string, auditDefault: string): seq<string>
    requires Scan(c, Start(s)).Done?
  {
    var out := Scan(c, Start(s));
    Injected(psaFile, cis, policyFile, auditDefault, out.audit, out.found) + out.args
  }

  /** The last --audit-log-path is the one that counts. */
  lemma {:induction false} LastAuditIsEffective(c: Config, s: seq<string>)
    requires c.flag == FlagOf
    ensures LastAudit(c, "", s) == if Effective(AUDIT_PATH, s).Some? then Effective(AUDIT_PATH, s).value else ""
  {
    if s != [] {
      var front, last := s[..|s| - 1], s[|s| - 1];
      assert s == front + [last];
      LastAuditIsEffective(c, front);
      LastReport(c, front, last);
      AuditPathFlag(last);
    }
  }

  lemma AuditPathFlag(arg: string)
    ensures FlagOf(arg).AuditPath? <==> Name(arg) == AUDIT_PATH
  {
  }

  /** Without an --audit-log-path none is reported. */
  lemma {:induction false} NoneMisread(c: Config, s: seq<string>)
    requires c.flag == FlagOf && !Mentions(AUDIT_PATH, s)
    ensures !AuditMisread(c, s) && AuditReadRight(c, s)
  {
    if s != [] {
      var front, last := s[..|s| - 1], s[|s| - 1];
      assert s == front + [last];
      MentionsLast(AUDIT_PATH, front, last);
      AuditPathFlag(last);
      NoneMisread(c, front);
    }
  }

  /** A flag that is neither removed nor replaced: the caller's value if given, else the injected one. */
  lemma GivenElseInjected(external: bool, socket: string, s: seq<string>, psaFile: string, cis: bool, policyFile: string, auditDefault: string, name: string)
    requires Safe(ServerConfig(external, socket), s) && !Classify(name).Removed? && !Classify(name).EtcdServers?
    ensures var c := ServerConfig(external, socket); var out := Scan(c, Start(s));
            out.Done? && Effective(name, FinalArguments(c, s, psaFile, cis, policyFile, auditDefault))
                         == if Mentions(name, s) then Effective(name, s)
                            else InjectedMeaning(psaFile, cis, policyFile, auditDefault, out.audit, out.found, name)
  {
    FinalMeaning(external, socket, s, psaFile, cis, policyFile, auditDefault, name);
    var out := Scan(ServerConfig(external, socket), Start(s));
    InjectedMeans(psaFile, cis, policyFile, auditDefault, out.audit, out.found, name);
  }

  /** With a policy file there is an audit log: the caller's if given, else the default one. */
  lemma AuditPathEndToEnd(external: bool, socket: string, s: seq<string>, psaFile: string, cis: bool, policyFile: string, auditDefault: string)
    requires Safe(ServerConfig(external, socket), s)
    ensures var c := ServerConfig(external, socket);
            Scan(c, Start(s)).Done?
            && Effective("--audit-log-path", FinalArguments(c, s, psaFile, cis, policyFile, auditDefault))
               == if Mentions("--audit-log-path", s) then Effective("--audit-log-path", s)
                  else if policyFile != "" then Some(auditDefault) else None
  {
    var c := ServerConfig(external, socket);
    ServerConfigIsValid(external, socket);
    GivenElseInjected(external, socket, s, psaFile, cis, policyFile, auditDefault, AUDIT_PATH);
    ReportsRightIff(c, s);
    LastAuditIsEffective(c, s);
    EffectiveIffMentions(AUDIT_PATH, s);
    if !Mentions(AUDIT_PATH, s) {
      NoneMisread(c, s);
    }
  }

  /** The reported audit log is the one in use, if the report is right and the caller did not give an empty path. */
  lemma ReportedLogIsInUse(external: bool, socket: string, s: seq<string>, psaFile: string, cis: bool, policyFile: string, auditDefault: string)
    requires var c := ServerConfig(external, socket); Safe(c, s) && AuditReadRight(c, s)
    requires policyFile != "" && Effective("--audit-log-path", s) != Some("")
    ensures var c := ServerConfig(external, socket); var out := Scan(c, Start(s));
            out.Done? && Effective("--audit-log-path", FinalArguments(c, s, psaFile, cis, policyFile, auditDefault))
                         == Some(AuditLog(policyFile, auditDefault, out.audit))
  {
    var c := ServerConfig(external, socket);
    ServerConfigIsValid(external, socket);
    AuditPathEndToEnd(external, socket, s, psaFile, cis, policyFile, auditDefault);
    ReportsRightIff(c, s);
    LastAuditIsEffective(c, s);
    EffectiveIffMentions(AUDIT_PATH, s);
  }

  /** The audit policy file, and with it the limits of the log; the token expiration under a CIS profile; the admission configuration. */
  lemma PolicyEndToEnd(external: bool, socket: string, s: seq<string>, psaFile: string, cis: bool, policyFile: string, auditDefault: string, name: string, value: string)
    requires Safe(ServerConfig(external, socket), s) && !Mentions(name, s)
    requires || (policyFile != "" && name == "--audit-policy-file" && value == policyFile)
             || (policyFile != "" && name == "--audit-log-maxage" && value == "30")
             || (policyFile != "" && name == "--audit-log-maxbackup" && value == "10")
             || (policyFile != "" && name == "--audit-log-maxsize" && value == "100")
             || (cis && name == "--service-account-extend-token-expiration" && value == "false")
             || (name == "--admission-control-config-file" && value == psaFile)
    ensures var c := ServerConfig(external, socket);
            Scan(c, Start(s)).Done? && Effective(name, FinalArguments(c, s, psaFile, cis, policyFile, auditDefault)) == Some(value)
  {
    PlainNames(name);
    GivenElseInjected(external, socket, s, psaFile, cis, policyFile, auditDefault, name);
  }

  lemma PlainNames(name: string)
    requires name in [AUDIT_POLICY, AUDIT_MAXAGE, AUDIT_MAXBACKUP, AUDIT_MAXSIZE, TOKEN_EXPIRATION, ADMISSION_CONFIG]
    ensures Classify(name).Plain? && name != ADDRESS_TYPES
  {
  }

  /** The caller's address types if any were given, else the default. */
  lemma AddressTypesEndToEnd(external: bool, socket: string, s: seq<string>, psaFile: string, cis: bool, policyFile: string, auditDefault: string)
    requires Safe(ServerConfig(external, socket), s)
    ensures var c := ServerConfig(external, socket);
            Scan(c, Start(s)).Done?
            && Effective("--kubelet-preferred-address-types", FinalArguments(c, s, psaFile, cis, policyFile, auditDefault))
               == if Mentions("--kubelet-preferred-address-types", s) then Effective("--kubelet-preferred-address-types", s)
                  else Some("InternalIP,ExternalIP,Hostname")
  {
    var c := ServerConfig(external, socket);
    ServerConfigIsValid(external, socket);
    ReportsRightIff(c, s);
    AddressTypesReported(c, s, false);
    GivenElseInjected(external, socket, s, psaFile, cis, policyFile, auditDefault, ADDRESS_TYPES);
  }

  /** A replaced --etcd-servers is the kine socket. */
  lemma EtcdServersEndToEnd(socket: string, s: seq<string>, psaFile: string, cis: bool, policyFile: string, auditDefault: string)
    requires Safe(ServerConfig(true, socket), s) && Mentions("--etcd-servers", s)
    ensures var c := ServerConfig(true, socket);
            Scan(c, Start(s)).Done?
            && Effective("--etcd-servers", FinalArguments(c, s, psaFile, cis, policyFile, auditDefault)) == Some("unixs://" + socket)
  {
    EtcdName();
    ReplacedEndToEnd(socket, s, psaFile, cis, policyFile, auditDefault, "--etcd-servers");
  }

  lemma EtcdName()
    ensures Classify("--etcd-servers").EtcdServers?
  {
  }

  lemma ReplacedEndToEnd(socket: string, s: seq<string>, psaFile: string, cis: bool, policyFile: string, auditDefault: string, name: string)
    requires Safe(ServerConfig(true, socket), s) && Mentions(name, s) && Classify(name).EtcdServers?
    ensures var c := ServerConfig(true, socket);
            Scan(c, Start(s)).Done? && Effective(name, FinalArguments(c, s, psaFile, cis, policyFile, auditDefault)) == Some("unixs://" + socket)
  {
    FinalMeaning(true, socket, s, psaFile, cis, policyFile, auditDefault, name);
    ServerConfigIsValid(true, socket);
  }

  lemma FinalMeaning(external: bool, socket: string, s: seq<string>, psaFile: string, cis: bool, policyFile: string, auditDefault: string, name: string)
    requires Safe(ServerConfig(external, socket), s)
    ensures var c := ServerConfig(external, socket); var out := Scan(c, Start(s));
            out.Done? && Effective(name, FinalArguments(c, s, psaFile, cis, policyFile, auditDefault))
                         == Meaning(c, s, Injected(psaFile, cis, policyFile, auditDefault, out.audit, out.found), name)
  {
    var c := ServerConfig(external, socket);
    ServerConfigIsValid(external, socket);
    RewriteIsRightIff(c, s);
    var out := Scan(c, Start(s));
    CallerFlagsWin(external, socket, s, Injected(psaFile, cis, policyFile, auditDefault, out.audit, out.found), name);
  }
}
