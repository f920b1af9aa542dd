/** The string handling the other modules share. */
module Text {

  /** strings.Cut(arg, "="): where the first "=" stands, or the length. */
  function CutAt(arg: string): (k: nat)
    ensures k <= |arg| && '=' !in arg[..k]
    ensures k < |arg| ==> arg[k] == '='
  {
    if arg == "" || arg[0] == '=' then 0
    else
      var k := CutAt(arg[1..]);
      assert arg[..k + 1] == [arg[0]] + arg[1..][..k];
      k + 1
  }

  function Name(arg: string): string {
    arg[..CutAt(arg)]
  }

  function Value(arg: string): string {
    if CutAt(arg) < |arg| then arg[CutAt(arg) + 1..] else ""
  }

  lemma NameValue(name: string, value: string)
    requires '=' !in name
    ensures Name(name + "=" + value) == name && Value(name + "=" + value) == value
  {
    var arg := name + "=" + value;
    assert CutAt(arg) == |name| by {
      CutAtName(name, value);
    }
    assert arg[..|name|] == name && arg[|name| + 1..] == value;
  }

  lemma {:induction false} CutAtName(name: string, value: string)
    requires '=' !in name
    ensures CutAt(name + "=" + value) == |name|
  {
    if name != "" {
      assert (name + "=" + value)[1..] == name[1..] + "=" + value;
      CutAtName(name[1..], value);
    }
  }

  predicate HasAssign(arg: string) {
    CutAt(arg) < |arg|
  }

  /** strings.Split(s, sep) for a one-character separator: never empty. */
  function Split(s: string, sep: char): (r: seq<string>)
    ensures |r| > 0
  {
    if s == "" then [""]
    else
      var r := Split(s[1..], sep);
      if s[0] == sep then [""] + r else [[s[0]] + r[0]] + r[1..]
  }

  function Join(parts: seq<string>, sep: char): string
    requires parts != []
  {
    if |parts| == 1 then parts[0] else parts[0] + [sep] + Join(parts[1..], sep)
  }

  /** Splitting loses nothing, and the parts are free of the separator. */
  lemma {:induction false} SplitJoin(s: string, sep: char)
    ensures Join(Split(s, sep), sep) == s
    ensures forall i :: 0 <= i < |Split(s, sep)| ==> sep !in Split(s, sep)[i]
  {
    if s != "" {
      SplitJoin(s[1..], sep);
      var r := Split(s[1..], sep);
      if s[0] == sep {
        assert ([""] + r)[1..] == r;
        assert Join([""] + r, sep) == "" + [sep] + Join(r, sep);
      } else {
        var t := [[s[0]] + r[0]] + r[1..];
        if |r| > 1 {
          assert t[1..] == r[1..];
          assert Join(t, sep) == [s[0]] + r[0] + [sep] + Join(r[1..], sep) == [s[0]] + Join(r, sep);
        }
      }
    }
  }

  function Digit(n: nat): (c: char)
    requires n < 10
    ensures '0' <= c <= '9'
  {
    ('0' as int + n) as char
  }

  /** Decimal printing of an index. */
  function Decimal(n: nat): (s: string)
    ensures s != ""
  {
    if n < 10 then [Digit(n)] else Decimal(n / 10) + [Digit(n % 10)]
  }

  function Undecimal(s: string): int {
    if s == "" then 0 else 10 * Undecimal(s[..|s| - 1]) + (s[|s| - 1] as int - '0' as int)
  }

  lemma {:induction false} DecimalRoundTrip(n: nat)
    ensures Undecimal(Decimal(n)) == n
  {
    if n >= 10 {
      DecimalRoundTrip(n / 10);
      assert Decimal(n)[..|Decimal(n)| - 1] == Decimal(n / 10);
    } else {
      assert Decimal(n)[..0] == "";
    }
  }

  lemma DecimalInjective(m: nat, n: nat)
    requires Decimal(m) == Decimal(n)
    ensures m == n
  {
    DecimalRoundTrip(m);
    DecimalRoundTrip(n);
  }

  /** Without "=" the whole argument is the name. */
  lemma NoAssign(arg: string)
    requires '=' !in arg
    ensures Name(arg) == arg && Value(arg) == "" && !HasAssign(arg)
  {
  }

  lemma AssignIff(arg: string)
    ensures HasAssign(arg) <==> '=' in arg
    ensures HasAssign(arg) ==> arg == Name(arg) + "=" + Value(arg) && '=' !in Name(arg)
  {
    assert arg[..|arg|] == arg;
  }

  lemma {:induction false} FreeSplit(s: string, sep: char)
    requires sep !in s
    ensures Split(s, sep) == [s]
  {
    if s != "" {
      FreeSplit(s[1..], sep);
      assert [s[0]] + s[1..] == s && s[0] in s;
    }
  }

  lemma {:induction false} SplitCons(part: string, rest: string, sep: char)
    requires sep !in part
    ensures Split(part + [sep] + rest, sep) == [part] + Split(rest, sep)
  {
    var s := part + [sep] + rest;
    if part == "" {
      assert s[1..] == rest;
    } else {
      assert s[1..] == part[1..] + [sep] + rest;
      SplitCons(part[1..], rest, sep);
      assert [part[0]] + part[1..] == part && part[0] in part;
      assert ([part[1..]] + Split(rest, sep))[1..] == Split(rest, sep);
    }
  }

  /** Parts free of the separator are what joining and splitting them again yields. */
  lemma {:induction false} JoinSplit(parts: seq<string>, sep: char)
    requires parts != [] && forall i :: 0 <= i < |parts| ==> sep !in parts[i]
    ensures Split(Join(parts, sep), sep) == parts
  {
    if |parts| == 1 {
      FreeSplit(parts[0], sep);
    } else {
      JoinSplit(parts[1..], sep);
      SplitCons(parts[0], Join(parts[1..], sep), sep);
    }
  }

  lemma DecimalMore(n: nat, d: nat)
    requires n > 0 && d < 10
    ensures Decimal(10 * n + d) == Decimal(n) + ["0123456789"[d]]
    ensures Decimal(d) == ["0123456789"[d]]
  {
    assert (10 * n + d) / 10 == n && (10 * n + d) % 10 == d;
  }
}
