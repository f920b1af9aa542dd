/** Parsing of the comma separated name=value lists that configure control plane resources and probes. */
module ControlPlaneConfig {
  import opened Wrappers
  import opened Text

  /** All comma separated segments of the given flag values, in order. */
  function Segments(values: seq<string>): seq<string> {
    if values == [] then [] else Segments(values[..|values| - 1]) + Split(values[|values| - 1], ',')
  }

  /** The position of the last segment for the name, or -1. */
  function LastFor(segments: seq<string>, name: string): (i: int)
    ensures -1 <= i < |segments|
    ensures i >= 0 ==> Name(segments[i]) == name
    ensures forall j :: i < j < |segments| ==> Name(segments[j]) != name
  {
    if segments == [] then -1
    else
      var n := |segments| - 1;
      if Name(segments[n]) == name then n else LastFor(segments[..n], name)
  }

  /** How a segment's value is read; None rejects it. */
  type Reader<T> = string -> Option<T>

  predicate Acceptable<T>(reader: Reader<T>, segment: string) {
    HasAssign(segment) && reader(Value(segment)).Some?
  }

  ghost predicate AllAcceptable<T>(reader: Reader<T>, segments: seq<string>) {
    forall i :: 0 <= i < |segments| ==> Acceptable(reader, segments[i])
  }

  /** The table with every segment entered in turn, under its name with the suffix. */
  function Enter<T>(reader: Reader<T>, segments: seq<string>, suffix: string, table: map<string, T>): map<string, T>
    requires AllAcceptable(reader, segments)
  {
    if segments == [] then table
    else
      var n := |segments| - 1;
      Enter(reader, segments[..n], suffix, table)[Name(segments[n]) + suffix := reader(Value(segments[n])).value]
  }

  method EnterSegments<T>(reader: Reader<T>, segments: seq<string>, suffix: string, start: map<string, T>)
    returns (table: Option<map<string, T>>)
    ensures table.Some? <==> AllAcceptable(reader, segments)
    ensures table.Some? ==> table.value == Enter(reader, segments, suffix, start)
  {
    var t := start;
    for i := 0 to |segments|
      invariant AllAcceptable(reader, segments[..i])
      invariant t == Enter(reader, segments[..i], suffix, start)
    {
      if !HasAssign(segments[i]) {
        return None;
      }
      var v := reader(Value(segments[i]));
      if v.None? {
        return None;
      }
      assert segments[..i + 1][..i] == segments[..i];
      t := t[Name(segments[i]) + suffix := v.value];
    }
    assert segments[..|segments|] == segments;
    return Some(t);
  }

  /** The nested loops over flag values and segments: an error exactly when some segment is not acceptable. */
  method ParseAssignments<T>(reader: Reader<T>, values: seq<string>, suffix: string, start: map<string, T>)
    returns (table: Option<map<string, T>>)
    ensures table.Some? <==> AllAcceptable(reader, Segments(values))
    ensures table.Some? ==> table.value == Enter(reader, Segments(values), suffix, start)
  {
    table := Some(start);
    for i := 0 to |values|
      invariant table.Some? && AllAcceptable(reader, Segments(values[..i]))
      invariant table.value == Enter(reader, Segments(values[..i]), suffix, start)
    {
      var more := Split(values[i], ',');
      ghost var before := Segments(values[..i]);
      assert values[..i + 1][..i] == values[..i];
      SegmentsPrefix(values, i);
      table := EnterSegments(reader, more, suffix, table.value);
      if table.None? {
        MoreSegments(reader, before, more, Segments(values));
        return;
      }
      EnterConcat(reader, before, more, suffix, start);
    }
    assert values[..|values|] == values;
  }

  lemma {:induction false} SegmentsPrefix(values: seq<string>, i: nat)
    requires i < |values|
    ensures Segments(values[..i]) + Split(values[i], ',') <= Segments(values)
    decreases |values|
  {
    var n := |values| - 1;
    if i == n {
      assert Segments(values) == Segments(values[..n]) + Split(values[n], ',');
    } else {
      SegmentsPrefix(values[..n], i);
      assert values[..n][..i] == values[..i];
    }
  }

  lemma MoreSegments<T>(reader: Reader<T>, before: seq<string>, more: seq<string>, all: seq<string>)
    requires before + more <= all && !AllAcceptable(reader, more)
    ensures !AllAcceptable(reader, all)
  {
    var i :| 0 <= i < |more| && !Acceptable(reader, more[i]);
    assert all[|before| + i] == (before + more)[|before| + i] == more[i];
  }

  lemma {:induction false} EnterConcat<T>(reader: Reader<T>, s: seq<string>, t: seq<string>, suffix: string, start: map<string, T>)
    requires AllAcceptable(reader, s) && AllAcceptable(reader, t)
    ensures AllAcceptable(reader, s + t)
    ensures Enter(reader, s + t, suffix, start) == Enter(reader, t, suffix, Enter(reader, s, suffix, start))
  {
    if t == [] {
      assert s + t == s;
    } else {
      var n := |t| - 1;
      assert (s + t)[..|s + t| - 1] == s + t[..n];
      EnterConcat(reader, s, t[..n], suffix, start);
    }
  }

  lemma SuffixInjective(a: string, b: string, suffix: string)
    requires a + suffix == b + suffix
    ensures a == b
  {
    assert a == (a + suffix)[..|a|] && b == (b + suffix)[..|b|];
  }

  /** The table holds, for each name, its last segment; other entries stay. */
  lemma {:induction false} LastSegmentWins<T>(reader: Reader<T>, segments: seq<string>, suffix: string, table: map<string, T>, name: string)
    requires AllAcceptable(reader, segments)
    ensures var r, i := Enter(reader, segments, suffix, table), LastFor(segments, name);
            if i >= 0 then name + suffix in r && Some(r[name + suffix]) == reader(Value(segments[i]))
            else (name + suffix in r <==> name + suffix in table) && (name + suffix in r ==> r[name + suffix] == table[name + suffix])
  {
    if segments != [] {
      var n := |segments| - 1;
      LastSegmentWins(reader, segments[..n], suffix, table, name);
      if Name(segments[n]) != name && Name(segments[n]) + suffix == name + suffix {
        SuffixInjective(Name(segments[n]), name, suffix);
      }
    }
  }

  /** Segments never touch keys that do not end in their suffix. */
  lemma {:induction false} OtherKeysStay<T>(reader: Reader<T>, segments: seq<string>, suffix: string, table: map<string, T>, key: string)
    requires AllAcceptable(reader, segments)
    requires forall name: string :: name + suffix != key
    ensures var r := Enter(reader, segments, suffix, table);
            (key in r <==> key in table) && (key in r ==> r[key] == table[key])
  {
    if segments != [] {
      OtherKeysStay(reader, segments[..|segments| - 1], suffix, table, key);
    }
  }

  /** Writing through the map of field pointers, in whatever order it is walked. */
  method Fill<F(==), T>(fields: set<F>, value: F -> T) returns (result: map<F, T>)
    ensures result.Keys == fields && forall f :: f in fields ==> result[f] == value(f)
  {
    var pending := fields;
    result := map[];
    while pending != {}
      invariant pending <= fields && result.Keys == fields - pending
      invariant forall f :: f in result ==> result[f] == value(f)
      decreases |pending|
    {
      var f :| f in pending;
      pending := pending - {f};
      result := result[f := value(f)];
    }
  }

  // ---------------------------------------------------------------------------------------------
  // Resources.

  datatype Component = KubeAPIServer | KubeScheduler | KubeControllerManager | KubeProxy | Etcd | CloudControllerManager

  datatype Resource = CPURequest | CPULimit | MemoryRequest | MemoryLimit

  datatype Field = Field(component: Component, resource: Resource)

  function ComponentName(c: Component): string {
    match c
    case KubeAPIServer => "kube-apiserver"
    case KubeScheduler => "kube-scheduler"
    case KubeControllerManager => "kube-controller-manager"
    case KubeProxy => "kube-proxy"
    case Etcd => "etcd"
    case CloudControllerManager => "cloud-controller-manager"
  }

  /** The name a segment uses for a field. */
  function SegmentName(f: Field): string {
    ComponentName(f.component) + if f.resource.CPURequest? || f.resource.CPULimit? then "-cpu" else "-memory"
  }

  predicate IsLimit(r: Resource) {
    r.CPULimit? || r.MemoryLimit?
  }

  const REQUEST := "-request"
  const LIMIT := "-limit"

  function KeyOf(f: Field): string {
    SegmentName(f) + if IsLimit(f.resource) then LIMIT else REQUEST
  }

  function DefaultOf(f: Field): string {
    match f.resource
    case CPURequest => (match f.component
                        case KubeAPIServer => "250m"
                        case KubeScheduler => "100m"
                        case KubeControllerManager => "200m"
                        case KubeProxy => "250m"
                        case Etcd => "200m"
                        case CloudControllerManager => "100m")
    case MemoryRequest => (match f.component
                           case KubeAPIServer => "1024Mi"
                           case KubeScheduler => "128Mi"
                           case KubeControllerManager => "256Mi"
                           case KubeProxy => "128Mi"
                           case Etcd => "512Mi"
                           case CloudControllerManager => "128Mi")
    case _ => ""
  }

  const FIELDS: set<Field> :=
    set c <- {KubeAPIServer, KubeScheduler, KubeControllerManager, KubeProxy, Etcd, CloudControllerManager},
        r <- {CPURequest, CPULimit, MemoryRequest, MemoryLimit} :: Field(c, r)

  function AsIs(value: string): Option<string> {
    Some(value)
  }

  /** What a field ends up with: its last segment on its own side, else its default, else "". */
  function Configured(requests: seq<string>, limits: seq<string>, f: Field): string {
    var segments := Segments(if IsLimit(f.resource) then limits else requests);
    var i := LastFor(segments, SegmentName(f));
    if i >= 0 then Value(segments[i]) else DefaultOf(f)
  }

  lemma {:induction false} SidesAreApart(a: string, b: string)
    ensures a + REQUEST != b + LIMIT
  {
    var x, y := a + REQUEST, b + LIMIT;
    assert x[|x| - 2] == 's' && y[|y| - 2] == 'i';
  }

  /** What the two parsing loops leave for a field: only its own side counts. */
  lemma TableHolds(requests: seq<string>, limits: seq<string>, f: Field)
    requires AllAcceptable(AsIs, Segments(requests)) && AllAcceptable(AsIs, Segments(limits))
    ensures var table := Enter(AsIs, Segments(limits), LIMIT, Enter(AsIs, Segments(requests), REQUEST, map[]));
            (if KeyOf(f) in table then table[KeyOf(f)] else DefaultOf(f)) == Configured(requests, limits, f)
  {
    var first := Enter(AsIs, Segments(requests), REQUEST, map[]);
    var name := SegmentName(f);
    if IsLimit(f.resource) {
      LastSegmentWins(AsIs, Segments(limits), LIMIT, first, name);
      forall n: string ensures n + REQUEST != name + LIMIT {
        SidesAreApart(n, name);
      }
      OtherKeysStay(AsIs, Segments(requests), REQUEST, map[], name + LIMIT);
    } else {
      LastSegmentWins(AsIs, Segments(requests), REQUEST, map[], name);
      forall n: string ensures n + LIMIT != name + REQUEST {
        SidesAreApart(name, n);
      }
      OtherKeysStay(AsIs, Segments(limits), LIMIT, first, name + REQUEST);
    }
  }

  /** Fails exactly when some segment lacks "="; otherwise every field is as configured, in whatever order the map is walked. */
  method ParseControlPlaneResources(requests: seq<string>, limits: seq<string>) returns (fields: Option<map<Field, string>>)
    ensures fields.Some? <==> (forall i :: 0 <= i < |Segments(requests)| ==> HasAssign(Segments(requests)[i]))
                              && forall i :: 0 <= i < |Segments(limits)| ==> HasAssign(Segments(limits)[i])
    ensures fields.Some? ==> fields.value.Keys == FIELDS && forall f :: f in FIELDS ==> fields.value[f] == Configured(requests, limits, f)
  {
    AcceptableAsIs(Segments(requests));
    AcceptableAsIs(Segments(limits));
    var first := ParseAssignments(AsIs, requests, REQUEST, map[]);
    if first.None? {
      return None;
    }
    var table := ParseAssignments(AsIs, limits, LIMIT, first.value);
    if table.None? {
      return None;
    }
    var t := table.value;
    var result := Fill(FIELDS, (f: Field) => if KeyOf(f) in t then t[KeyOf(f)] else DefaultOf(f));
    forall f | f in FIELDS ensures result[f] == Configured(requests, limits, f) {
      TableHolds(requests, limits, f);
    }
    fields := Some(result);
  }

  lemma AcceptableAsIs(segments: seq<string>)
    ensures AllAcceptable(AsIs, segments) <==> forall i :: 0 <= i < |segments| ==> HasAssign(segments[i])
  {
    assert forall i :: 0 <= i < |segments| ==> (Acceptable(AsIs, segments[i]) <==> HasAssign(segments[i]));
  }

  // ---------------------------------------------------------------------------------------------
  // Probes.

  predicate AllDigits(s: string) {
    s != "" && forall i :: 0 <= i < |s| ==> '0' <= s[i] <= '9'
  }

  /** strconv.ParseInt(s, 10, 32) followed by the sign check: an optional sign, digits, and 0 .. 2^31 - 1. */
  function ReadCount(s: string): Option<int> {
    var digits := if s != "" && (s[0] == '+' || s[0] == '-') then s[1..] else s;
    if !AllDigits(digits) then None
    else
      var n := if s[0] == '-' then -Undecimal(digits) else Undecimal(digits);
      if 0 <= n < 0x8000_0000 then Some(n) else None
  }

  /** Every count that fits is accepted as printed. */
  lemma ReadCountOfDecimal(n: nat)
    ensures ReadCount(Decimal(n)) == if n < 0x8000_0000 then Some(n) else None
  {
    DecimalRoundTrip(n);
    DecimalDigits(n);
  }

  lemma {:induction false} DecimalDigits(n: nat)
    ensures AllDigits(Decimal(n))
  {
    if n >= 10 {
      DecimalDigits(n / 10);
    }
  }

  datatype Probe = Liveness | Readiness | Startup

  datatype Threshold = InitialDelaySeconds | TimeoutSeconds | FailureThreshold | PeriodSeconds

  datatype Setting = Setting(component: Component, probe: Probe, threshold: Threshold)

  const SETTINGS: set<Setting> :=
    set c <- {KubeAPIServer, KubeScheduler, KubeControllerManager, KubeProxy, Etcd, CloudControllerManager},
        p <- {Liveness, Readiness, Startup},
        t <- {InitialDelaySeconds, TimeoutSeconds, FailureThreshold, PeriodSeconds} :: Setting(c, p, t)

  function SettingName(s: Setting): string {
    ComponentName(s.component)
    + (match s.probe case Liveness => "-liveness" case Readiness => "-readiness" case Startup => "-startup")
    + (match s.threshold
       case InitialDelaySeconds => "-initial-delay-seconds"
       case TimeoutSeconds => "-timeout-seconds"
       case FailureThreshold => "-failure-threshold"
       case PeriodSeconds => "-period-seconds")
  }

  function DefaultSetting(s: Setting): int {
    match s.threshold
    case InitialDelaySeconds => if s.probe.Readiness? then 0 else 10
    case TimeoutSeconds => 15
    case FailureThreshold => (match s.probe case Liveness => 8 case Readiness => 3 case Startup => 24)
    case PeriodSeconds => if s.probe.Readiness? then 1 else 10
  }

  function ConfiguredSetting(values: seq<string>, s: Setting): Option<int> {
    var i := LastFor(Segments(values), SettingName(s));
    if i >= 0 then ReadCount(Value(Segments(values)[i])) else Some(DefaultSetting(s))
  }

  lemma SettingHolds(values: seq<string>, s: Setting)
    requires AllAcceptable(ReadCount, Segments(values))
    ensures var table := Enter(ReadCount, Segments(values), "", map[]);
            ConfiguredSetting(values, s) == Some(if SettingName(s) in table then table[SettingName(s)] else DefaultSetting(s))
  {
    LastSegmentWins(ReadCount, Segments(values), "", map[], SettingName(s));
    assert SettingName(s) + "" == SettingName(s);
  }

  /** Fails exactly when some segment lacks "=" or its value is no count; otherwise every setting is as configured. */
  method ParseControlPlaneProbeConfs(values: seq<string>) returns (confs: Option<map<Setting, int>>)
    ensures confs.Some? <==> AllAcceptable(ReadCount, Segments(values))
    ensures confs.Some? ==> confs.value.Keys == SETTINGS
                            && forall s :: s in SETTINGS ==> Some(confs.value[s]) == ConfiguredSetting(values, s)
  {
    var table := ParseAssignments(ReadCount, values, "", map[]);
    if table.None? {
      return None;
    }
    var t := table.value;
    var result := Fill(SETTINGS, (s: Setting) => if SettingName(s) in t then t[SettingName(s)] else DefaultSetting(s));
    forall s | s in SETTINGS ensures Some(result[s]) == ConfiguredSetting(values, s) {
      SettingHolds(values, s);
    }
    confs := Some(result);
  }

  // ---------------------------------------------------------------------------------------------
  // The tables and the reading of values in plain terms.

  lemma {:induction false} JoinConcat(a: seq<string>, b: seq<string>, sep: char)
    requires a != [] && b != []
    ensures Join(a + b, sep) == Join(a, sep) + [sep] + Join(b, sep)
  {
    if |a| == 1 {
      assert (a + b)[1..] == b;
    } else {
      assert (a + b)[1..] == a[1..] + b;
      JoinConcat(a[1..], b, sep);
    }
  }

  /** The segments are what lies between the commas of all the values, in order, nothing lost. */
  lemma {:induction false} SegmentsJoin(values: seq<string>)
    requires values != []
    ensures Segments(values) != [] && Join(Segments(values), ',') == Join(values, ',')
    ensures forall i :: 0 <= i < |Segments(values)| ==> ',' !in Segments(values)[i]
  {
    var front, last := values[..|values| - 1], values[|values| - 1];
    SplitJoin(last, ',');
    if front == [] {
      assert Segments(front) == [] && values == [last];
      assert [] + Split(last, ',') == Split(last, ',');
    } else {
      SegmentsJoin(front);
      JoinConcat(Segments(front), Split(last, ','), ',');
      JoinConcat(front, [last], ',');
      assert values == front + [last];
    }
  }

  /** The value of the last segment for the name, else the default. */
  function Last(values: seq<string>, name: string, default_: string): string {
    var i := LastFor(Segments(values), name);
    if i >= 0 then Value(Segments(values)[i]) else default_
  }

  lemma ConfiguredIsLast(requests: seq<string>, limits: seq<string>, f: Field, name: string)
    requires SegmentName(f) == name
    ensures Configured(requests, limits, f) == Last(if IsLimit(f.resource) then limits else requests, name, DefaultOf(f))
  {
  }

  /** Requests come from the requests, under the component's name. */
  lemma RequestsAreRequests(requests: seq<string>, limits: seq<string>, c: Component)
    ensures Configured(requests, limits, Field(c, CPURequest)) == Last(requests, ComponentName(c) + "-cpu", DefaultOf(Field(c, CPURequest)))
    ensures Configured(requests, limits, Field(c, MemoryRequest)) == Last(requests, ComponentName(c) + "-memory", DefaultOf(Field(c, MemoryRequest)))
  {
    ConfiguredIsLast(requests, limits, Field(c, CPURequest), ComponentName(c) + "-cpu");
    ConfiguredIsLast(requests, limits, Field(c, MemoryRequest), ComponentName(c) + "-memory");
  }

  /** Limits come from the limits, and have no default. */
  lemma LimitsAreLimits(requests: seq<string>, limits: seq<string>, c: Component)
    ensures Configured(requests, limits, Field(c, CPULimit)) == Last(limits, ComponentName(c) + "-cpu", "")
    ensures Configured(requests, limits, Field(c, MemoryLimit)) == Last(limits, ComponentName(c) + "-memory", "")
  {
    ConfiguredIsLast(requests, limits, Field(c, CPULimit), ComponentName(c) + "-cpu");
    ConfiguredIsLast(requests, limits, Field(c, MemoryLimit), ComponentName(c) + "-memory");
  }

  /** Names and defaults, one by one. */
  lemma ComponentDefaults()
    ensures ComponentName(KubeAPIServer) == "kube-apiserver"
    ensures ComponentName(KubeScheduler) == "kube-scheduler"
    ensures ComponentName(KubeControllerManager) == "kube-controller-manager"
    ensures ComponentName(KubeProxy) == "kube-proxy"
    ensures ComponentName(Etcd) == "etcd"
    ensures ComponentName(CloudControllerManager) == "cloud-controller-manager"
    ensures DefaultOf(Field(KubeAPIServer, CPURequest)) == "250m" && DefaultOf(Field(KubeAPIServer, MemoryRequest)) == "1024Mi"
    ensures DefaultOf(Field(KubeScheduler, CPURequest)) == "100m" && DefaultOf(Field(KubeScheduler, MemoryRequest)) == "128Mi"
    ensures DefaultOf(Field(KubeControllerManager, CPURequest)) == "200m" && DefaultOf(Field(KubeControllerManager, MemoryRequest)) == "256Mi"
    ensures DefaultOf(Field(KubeProxy, CPURequest)) == "250m" && DefaultOf(Field(KubeProxy, MemoryRequest)) == "128Mi"
    ensures DefaultOf(Field(Etcd, CPURequest)) == "200m" && DefaultOf(Field(Etcd, MemoryRequest)) == "512Mi"
    ensures DefaultOf(Field(CloudControllerManager, CPURequest)) == "100m" && DefaultOf(Field(CloudControllerManager, MemoryRequest)) == "128Mi"
  {
  }

  lemma AnyComponent(c: Component)
    ensures c in {KubeAPIServer, KubeScheduler, KubeControllerManager, KubeProxy, Etcd, CloudControllerManager}
  {
    match c
    case KubeAPIServer =>
    case KubeScheduler =>
    case KubeControllerManager =>
    case KubeProxy =>
    case Etcd =>
    case CloudControllerManager =>
  }

  lemma AnyResource(r: Resource)
    ensures r in {CPURequest, CPULimit, MemoryRequest, MemoryLimit}
  {
    match r
    case CPURequest =>
    case CPULimit =>
    case MemoryRequest =>
    case MemoryLimit =>
  }

  lemma AnyProbe(p: Probe)
    ensures p in {Liveness, Readiness, Startup}
  {
    match p
    case Liveness =>
    case Readiness =>
    case Startup =>
  }

  lemma AnyThreshold(t: Threshold)
    ensures t in {InitialDelaySeconds, TimeoutSeconds, FailureThreshold, PeriodSeconds}
  {
    match t
    case InitialDelaySeconds =>
    case TimeoutSeconds =>
    case FailureThreshold =>
    case PeriodSeconds =>
  }

  /** Every component and resource has its field. */
  lemma NoFieldMissing(f: Field)
    ensures f in FIELDS
  {
    AnyComponent(f.component);
    AnyResource(f.resource);
    assert f == Field(f.component, f.resource);
  }

  /** Every component, probe and threshold has its setting. */
  lemma NoSettingMissing(s: Setting)
    ensures s in SETTINGS
  {
    AnyComponent(s.component);
    AnyProbe(s.probe);
    AnyThreshold(s.threshold);
    assert s == Setting(s.component, s.probe, s.threshold);
  }

  lemma SettingNames(c: Component)
    ensures SettingName(Setting(c, Liveness, InitialDelaySeconds)) == ComponentName(c) + "-liveness" + "-initial-delay-seconds"
    ensures SettingName(Setting(c, Liveness, TimeoutSeconds)) == ComponentName(c) + "-liveness" + "-timeout-seconds"
    ensures SettingName(Setting(c, Liveness, FailureThreshold)) == ComponentName(c) + "-liveness" + "-failure-threshold"
    ensures SettingName(Setting(c, Liveness, PeriodSeconds)) == ComponentName(c) + "-liveness" + "-period-seconds"
    ensures SettingName(Setting(c, Readiness, InitialDelaySeconds)) == ComponentName(c) + "-readiness" + "-initial-delay-seconds"
    ensures SettingName(Setting(c, Readiness, TimeoutSeconds)) == ComponentName(c) + "-readiness" + "-timeout-seconds"
    ensures SettingName(Setting(c, Readiness, FailureThreshold)) == ComponentName(c) + "-readiness" + "-failure-threshold"
    ensures SettingName(Setting(c, Readiness, PeriodSeconds)) == ComponentName(c) + "-readiness" + "-period-seconds"
    ensures SettingName(Setting(c, Startup, InitialDelaySeconds)) == ComponentName(c) + "-startup" + "-initial-delay-seconds"
    ensures SettingName(Setting(c, Startup, TimeoutSeconds)) == ComponentName(c) + "-startup" + "-timeout-seconds"
    ensures SettingName(Setting(c, Startup, FailureThreshold)) == ComponentName(c) + "-startup" + "-failure-threshold"
    ensures SettingName(Setting(c, Startup, PeriodSeconds)) == ComponentName(c) + "-startup" + "-period-seconds"
  {
  }

  lemma SettingDefaults(c: Component)
    ensures DefaultSetting(Setting(c, Liveness, InitialDelaySeconds)) == 10 && DefaultSetting(Setting(c, Liveness, TimeoutSeconds)) == 15
    ensures DefaultSetting(Setting(c, Liveness, FailureThreshold)) == 8 && DefaultSetting(Setting(c, Liveness, PeriodSeconds)) == 10
    ensures DefaultSetting(Setting(c, Readiness, InitialDelaySeconds)) == 0 && DefaultSetting(Setting(c, Readiness, TimeoutSeconds)) == 15
    ensures DefaultSetting(Setting(c, Readiness, FailureThreshold)) == 3 && DefaultSetting(Setting(c, Readiness, PeriodSeconds)) == 1
    ensures DefaultSetting(Setting(c, Startup, InitialDelaySeconds)) == 10 && DefaultSetting(Setting(c, Startup, TimeoutSeconds)) == 15
    ensures DefaultSetting(Setting(c, Startup, FailureThreshold)) == 24 && DefaultSetting(Setting(c, Startup, PeriodSeconds)) == 10
  {
  }

  /** A value is accepted exactly as an optional sign and digits for a number below 2^31, a minus only in front of zero. */
  lemma ReadCountIff(s: string, n: int)
    ensures ReadCount(s) == Some(n)
       <==> 0 <= n < 0x8000_0000
            && exists digits: string :: AllDigits(digits) && Undecimal(digits) == n
                                        && (s == digits || s == "+" + digits || (n == 0 && s == "-" + digits))
  {
    if ReadCount(s) == Some(n) {
      var digits := if s[0] == '+' || s[0] == '-' then s[1..] else s;
      assert s[0] == '+' ==> s == "+" + digits;
      assert s[0] == '-' ==> s == "-" + digits;
      UndecimalNat(digits);
      assert AllDigits(digits) && Undecimal(digits) == n;
    }
    if digits: string :| AllDigits(digits) && Undecimal(digits) == n && 0 <= n < 0x8000_0000
                         && (s == digits || s == "+" + digits || (n == 0 && s == "-" + digits)) {
      assert s == digits ==> '0' <= s[0] <= '9';
      assert s != digits ==> s[1..] == digits;
    }
  }

  lemma {:induction false} UndecimalNat(digits: string)
    requires forall i :: 0 <= i < |digits| ==> '0' <= digits[i] <= '9'
    ensures Undecimal(digits) >= 0
  {
    if digits != "" {
      UndecimalNat(digits[..|digits| - 1]);
    }
  }
}
