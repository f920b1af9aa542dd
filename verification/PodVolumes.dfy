/** Host path volumes of a static pod: how they are named and mounted. */
module PodVolumes {
  import opened Compaction
  import opened Text

  datatype Kind = Socket | Dir | File | Extra

  function Prefix(kind: Kind): string {
    match kind
    case Socket => "socket"
    case Dir => "dir"
    case File => "file"
    case Extra => "extra-mount-"
  }

  /** A volume is identified by its kind and the index of its source in the list it came from. */
  datatype Slot = Slot(kind: Kind, index: nat)

  function VolumeName(slot: Slot): string {
    Prefix(slot.kind) + Decimal(slot.index)
  }

  datatype Volume = Volume(name: string, path: string, hostType: string)

  datatype Mount = Mount(name: string, readOnly: bool, path: string)

  /** What os.Stat tells about a mount source. */
  datatype Stat = Unreachable | IsSocket | IsDirectory | IsOther

  type FileSystem = string -> Stat

  /** A planned volume with its mount. */
  datatype Entry = Entry(slot: Slot, source: string, hostType: string, readOnly: bool, target: string)

  function VolumeOf(e: Entry): Volume {
    Volume(VolumeName(e.slot), e.source, e.hostType)
  }

  function MountOf(e: Entry): Mount {
    Mount(VolumeName(e.slot), e.readOnly, e.target)
  }

  function HostType(kind: Kind): string {
    match kind
    case Dir => "DirectoryOrCreate"
    case Socket => "Socket"
    case _ => "File"
  }

  function EntryFor(kind: Kind, i: nat, source: string): Entry {
    Entry(Slot(kind, i), source, HostType(kind), !(kind.Dir? || kind.Socket?), source)
  }

  function Detect(stat: Stat): string {
    match stat
    case Unreachable => "DirectoryOrCreate"
    case IsSocket => "Socket"
    case IsDirectory => "Directory"
    case IsOther => "File"
  }

  function Lower(c: char): char {
    if 'A' <= c <= 'Z' then (c as int + 32) as char else c
  }

  predicate IsOption(s: string, a: char, b: char) {
    |s| == 2 && Lower(s[0]) == a && Lower(s[1]) == b
  }

  /** source:dest, source:dest:ro|rw or source:dest:anything:type; the third field of four is not looked at. */
  predicate ValidMount(raw: string) {
    var m := Split(raw, ':');
    |m| == 2 || |m| == 4 || (|m| == 3 && (IsOption(m[2], 'r', 'o') || IsOption(m[2], 'r', 'w')))
  }

  function ExtraEntry(fs: FileSystem, i: nat, raw: string): Entry
    requires ValidMount(raw)
  {
    var m := Split(raw, ':');
    Entry(Slot(Extra, i), m[0],
          if |m| == 4 && m[3] != "" then m[3] else Detect(fs(m[0])),
          |m| == 3 && IsOption(m[2], 'r', 'o'), m[1])
  }

  function EntriesFor(kind: Kind, sources: seq<string>): seq<Entry> {
    seq(|sources|, i requires 0 <= i < |sources| => EntryFor(kind, i, sources[i]))
  }

  /** The valid extra mounts, each keeping the index it has in the whole list. */
  function ExtraEntries(fs: FileSystem, mounts: seq<string>): seq<Entry> {
    if mounts == [] then []
    else
      var n := |mounts| - 1;
      ExtraEntries(fs, mounts[..n]) + if ValidMount(mounts[n]) then [ExtraEntry(fs, n, mounts[n])] else []
  }

  lemma OneMoreExtra(fs: FileSystem, mounts: seq<string>, i: nat)
    requires i < |mounts|
    ensures ExtraEntries(fs, mounts[..i + 1])
         == if ValidMount(mounts[i]) then ExtraEntries(fs, mounts[..i]) + [ExtraEntry(fs, i, mounts[i])] else ExtraEntries(fs, mounts[..i])
  {
    assert mounts[..i + 1][..i] == mounts[..i];
  }

  class Pod {
    var volumes: seq<Volume>
    var mounts: seq<Mount>

    constructor ()
      ensures volumes == [] && mounts == []
    {
      volumes, mounts := [], [];
    }

    /** The pod's volumes and mounts are those of the entries, in order. */
    ghost predicate Holds(entries: seq<Entry>)
      reads this
    {
      |volumes| == |mounts| == |entries|
      && forall i :: 0 <= i < |entries| ==> volumes[i] == VolumeOf(entries[i]) && mounts[i] == MountOf(entries[i])
    }

    method Push(e: Entry, ghost before: seq<Entry>)
      requires Holds(before)
      modifies this
      ensures Holds(before + [e])
    {
      volumes := volumes + [VolumeOf(e)];
      mounts := mounts + [MountOf(e)];
    }

    method AddVolumes(sources: seq<string>, kind: Kind, ghost before: seq<Entry>)
      requires Holds(before) && !kind.Extra?
      modifies this
      ensures Holds(before + EntriesFor(kind, sources))
    {
      for i := 0 to |sources|
        invariant Holds(before + EntriesFor(kind, sources)[..i])
      {
        var e := EntryFor(kind, i, sources[i]);
        Push(e, before + EntriesFor(kind, sources)[..i]);
        assert EntriesFor(kind, sources)[..i + 1] == EntriesFor(kind, sources)[..i] + [e];
        Assoc(before, EntriesFor(kind, sources)[..i], [e]);
      }
      assert EntriesFor(kind, sources)[..|sources|] == EntriesFor(kind, sources);
    }

    method AddExtraMounts(fs: FileSystem, extra: seq<string>, ghost before: seq<Entry>)
      requires Holds(before)
      modifies this
      ensures Holds(before + ExtraEntries(fs, extra))
    {
      for i := 0 to |extra|
        invariant Holds(before + ExtraEntries(fs, extra[..i]))
      {
        OneMoreExtra(fs, extra, i);
        if ValidMount(extra[i]) {
          var e := ExtraEntry(fs, i, extra[i]);
          Push(e, before + ExtraEntries(fs, extra[..i]));
          Assoc(before, ExtraEntries(fs, extra[..i]), [e]);
        }
      }
      assert extra[..|extra|] == extra;
    }

    /** All volumes of a pod: distinct names, and the i-th mount mounts the i-th volume. */
    method AddAll(fs: FileSystem, sockets: seq<string>, dirs: seq<string>, files: seq<string>, extra: seq<string>)
      requires volumes == [] && mounts == []
      modifies this
      ensures Holds(AllEntries(fs, sockets, dirs, files, extra))
      ensures forall i, j :: 0 <= i < j < |volumes| ==> volumes[i].name != volumes[j].name
      ensures |mounts| == |volumes| && forall i :: 0 <= i < |volumes| ==> mounts[i].name == volumes[i].name
    {
      AddVolumes(sockets, Socket, []);
      AddVolumes(dirs, Dir, [] + EntriesFor(Socket, sockets));
      AddVolumes(files, File, [] + EntriesFor(Socket, sockets) + EntriesFor(Dir, dirs));
      AddExtraMounts(fs, extra, [] + EntriesFor(Socket, sockets) + EntriesFor(Dir, dirs) + EntriesFor(File, files));
      NamesAreDistinct(fs, sockets, dirs, files, extra);
    }
  }

  function AllEntries(fs: FileSystem, sockets: seq<string>, dirs: seq<string>, files: seq<string>, extra: seq<string>): seq<Entry> {
    [] + EntriesFor(Socket, sockets) + EntriesFor(Dir, dirs) + EntriesFor(File, files) + ExtraEntries(fs, extra)
  }

  /** Prefixes start with different characters and decimal printing is injective. */
  lemma NameIsInjective(a: Slot, b: Slot)
    requires VolumeName(a) == VolumeName(b)
    ensures a == b
  {
    assert VolumeName(a)[0] == Prefix(a.kind)[0] && VolumeName(b)[0] == Prefix(b.kind)[0];
    assert a.kind == b.kind;
    assert VolumeName(a)[|Prefix(a.kind)|..] == Decimal(a.index);
    assert VolumeName(b)[|Prefix(b.kind)|..] == Decimal(b.index);
    DecimalInjective(a.index, b.index);
  }

  function Rank(kind: Kind): nat {
    match kind
    case Socket => 0
    case Dir => 1
    case File => 2
    case Extra => 3
  }

  predicate Before(a: Slot, b: Slot) {
    Rank(a.kind) < Rank(b.kind) || (a.kind == b.kind && a.index < b.index)
  }

  ghost predicate Increasing(s: seq<Entry>) {
    forall i, j :: 0 <= i < j < |s| ==> Before(s[i].slot, s[j].slot)
  }

  lemma IncreasingConcat(s: seq<Entry>, t: seq<Entry>)
    requires Increasing(s) && Increasing(t)
    requires forall i, j :: 0 <= i < |s| && 0 <= j < |t| ==> Before(s[i].slot, t[j].slot)
    ensures Increasing(s + t)
  {
  }

  lemma {:induction false} ExtraIncreasing(fs: FileSystem, mounts: seq<string>)
    ensures Increasing(ExtraEntries(fs, mounts))
    ensures forall i :: 0 <= i < |ExtraEntries(fs, mounts)| ==>
              ExtraEntries(fs, mounts)[i].slot.kind.Extra? && ExtraEntries(fs, mounts)[i].slot.index < |mounts|
  {
    if mounts != [] {
      ExtraIncreasing(fs, mounts[..|mounts| - 1]);
    }
  }

  lemma NamesAreDistinct(fs: FileSystem, sockets: seq<string>, dirs: seq<string>, files: seq<string>, extra: seq<string>)
    ensures var all := AllEntries(fs, sockets, dirs, files, extra);
            forall i, j :: 0 <= i < j < |all| ==> VolumeName(all[i].slot) != VolumeName(all[j].slot)
  {
    var a, b, c, d := EntriesFor(Socket, sockets), EntriesFor(Dir, dirs), EntriesFor(File, files), ExtraEntries(fs, extra);
    ExtraIncreasing(fs, extra);
    IncreasingConcat([] + a, b);
    IncreasingConcat([] + a + b, c);
    IncreasingConcat([] + a + b + c, d);
    var all := AllEntries(fs, sockets, dirs, files, extra);
    forall i, j | 0 <= i < j < |all| ensures VolumeName(all[i].slot) != VolumeName(all[j].slot) {
      assert Before(all[i].slot, all[j].slot);
      if VolumeName(all[i].slot) == VolumeName(all[j].slot) {
        NameIsInjective(all[i].slot, all[j].slot);
      }
    }
  }

  // ---------------------------------------------------------------------------------------------
  // Volumes and mounts in plain terms.

  /** Sockets and directories are writable, files are not; each is mounted where it is. */
  lemma PlainVolumes(sources: seq<string>, i: nat)
    requires i < |sources|
    ensures VolumeOf(EntriesFor(Socket, sources)[i]) == Volume("socket" + Decimal(i), sources[i], "Socket")
    ensures MountOf(EntriesFor(Socket, sources)[i]) == Mount("socket" + Decimal(i), false, sources[i])
    ensures VolumeOf(EntriesFor(Dir, sources)[i]) == Volume("dir" + Decimal(i), sources[i], "DirectoryOrCreate")
    ensures MountOf(EntriesFor(Dir, sources)[i]) == Mount("dir" + Decimal(i), false, sources[i])
    ensures VolumeOf(EntriesFor(File, sources)[i]) == Volume("file" + Decimal(i), sources[i], "File")
    ensures MountOf(EntriesFor(File, sources)[i]) == Mount("file" + Decimal(i), true, sources[i])
  {
  }

  predicate ReadOnly(option: string) {
    option in ["ro", "rO", "Ro", "RO"]
  }

  predicate ReadWrite(option: string) {
    option in ["rw", "rW", "Rw", "RW"]
  }

  lemma OptionsAre(s: string)
    ensures IsOption(s, 'r', 'o') <==> ReadOnly(s)
    ensures IsOption(s, 'r', 'w') <==> ReadWrite(s)
  {
    if |s| == 2 {
      assert s == [s[0], s[1]];
      assert Lower(s[0]) == 'r' <==> s[0] == 'r' || s[0] == 'R';
      assert Lower(s[1]) == 'o' <==> s[1] == 'o' || s[1] == 'O';
      assert Lower(s[1]) == 'w' <==> s[1] == 'w' || s[1] == 'W';
    }
  }

  /** The host type of a source whose type is not given. */
  lemma Detected()
    ensures Detect(Unreachable) == "DirectoryOrCreate" && Detect(IsSocket) == "Socket"
    ensures Detect(IsDirectory) == "Directory" && Detect(IsOther) == "File"
  {
  }

  /**
   What stands between the colons: source and target, then nothing, or an option, or anything and a
   type.  Any other number of parts, and any other option, is not valid.
   */
  lemma ExtraMountParts(fs: FileSystem, i: nat, parts: seq<string>)
    requires parts != [] && forall j :: 0 <= j < |parts| ==> ':' !in parts[j]
    ensures var raw := Join(parts, ':');
            && (ValidMount(raw) <==> |parts| == 2 || |parts| == 4 || (|parts| == 3 && (ReadOnly(parts[2]) || ReadWrite(parts[2]))))
            && (ValidMount(raw) ==>
                  VolumeOf(ExtraEntry(fs, i, raw))
                  == Volume("extra-mount-" + Decimal(i), parts[0], if |parts| == 4 && parts[3] != "" then parts[3] else Detect(fs(parts[0])))
                  && MountOf(ExtraEntry(fs, i, raw)) == Mount("extra-mount-" + Decimal(i), |parts| == 3 && ReadOnly(parts[2]), parts[1]))
  {
    JoinSplit(parts, ':');
    if |parts| == 3 {
      OptionsAre(parts[2]);
    }
  }

  /** The entry of the i-th extra mount, which is valid. */
  predicate IsExtra(fs: FileSystem, mounts: seq<string>, i: int, e: Entry) {
    0 <= i < |mounts| && ValidMount(mounts[i]) && e == ExtraEntry(fs, i, mounts[i])
  }

  lemma ExtraStaysIn(fs: FileSystem, mounts: seq<string>, n: nat, e: Entry)
    requires n < |mounts| && e in ExtraEntries(fs, mounts[..n])
    ensures e in ExtraEntries(fs, mounts[..n + 1])
  {
    OneMoreExtra(fs, mounts, n);
  }

  lemma LastIsIn(fs: FileSystem, mounts: seq<string>, n: nat)
    requires n < |mounts| && ValidMount(mounts[n])
    ensures ExtraEntry(fs, n, mounts[n]) in ExtraEntries(fs, mounts[..n + 1])
  {
    OneMoreExtra(fs, mounts, n);
  }

  lemma {:induction false} ExtraIsIn(fs: FileSystem, mounts: seq<string>, n: nat, i: nat)
    requires i < n <= |mounts| && ValidMount(mounts[i])
    ensures ExtraEntry(fs, i, mounts[i]) in ExtraEntries(fs, mounts[..n])
  {
    if i == n - 1 {
      LastIsIn(fs, mounts, i);
    } else {
      ExtraIsIn(fs, mounts, n - 1, i);
      ExtraStaysIn(fs, mounts, n - 1, ExtraEntry(fs, i, mounts[i]));
    }
  }

  lemma {:induction false} ExtraIsOf(fs: FileSystem, mounts: seq<string>, n: nat, e: Entry) returns (i: nat)
    requires n <= |mounts| && e in ExtraEntries(fs, mounts[..n])
    ensures i < n && ValidMount(mounts[i]) && e == ExtraEntry(fs, i, mounts[i])
  {
    OneMoreExtra(fs, mounts, n - 1);
    if e in ExtraEntries(fs, mounts[..n - 1]) {
      i := ExtraIsOf(fs, mounts, n - 1, e);
    } else {
      i := n - 1;
    }
  }

  /** Exactly the valid extra mounts are entered, each under the index it has in the list. */
  lemma ExtraHas(fs: FileSystem, mounts: seq<string>, e: Entry)
    ensures e in ExtraEntries(fs, mounts) <==> exists i :: 0 <= i < |mounts| && IsExtra(fs, mounts, i, e)
  {
    assert mounts[..|mounts|] == mounts;
    if e in ExtraEntries(fs, mounts) {
      var i := ExtraIsOf(fs, mounts, |mounts|, e);
      assert IsExtra(fs, mounts, i, e);
    }
    if i :| 0 <= i < |mounts| && IsExtra(fs, mounts, i, e) {
      ExtraIsIn(fs, mounts, |mounts|, i);
    }
  }

  /** No socket, directory, file or valid extra mount is left out, and nothing else is entered. */
  lemma AllEntriesHave(fs: FileSystem, sockets: seq<string>, dirs: seq<string>, files: seq<string>, extra: seq<string>, e: Entry)
    ensures e in AllEntries(fs, sockets, dirs, files, extra)
       <==> || (exists i :: 0 <= i < |sockets| && e == EntryFor(Socket, i, sockets[i]))
            || (exists i :: 0 <= i < |dirs| && e == EntryFor(Dir, i, dirs[i]))
            || (exists i :: 0 <= i < |files| && e == EntryFor(File, i, files[i]))
            || (exists i :: 0 <= i < |extra| && IsExtra(fs, extra, i, e))
  {
    EntriesHave(Socket, sockets, e);
    EntriesHave(Dir, dirs, e);
    EntriesHave(File, files, e);
    ExtraHas(fs, extra, e);
  }

  lemma EntriesHave(kind: Kind, sources: seq<string>, e: Entry)
    ensures e in EntriesFor(kind, sources) <==> exists i :: 0 <= i < |sources| && e == EntryFor(kind, i, sources[i])
  {
    if i :| 0 <= i < |sources| && e == EntryFor(kind, i, sources[i]) {
      assert EntriesFor(kind, sources)[i] == e;
    }
  }
}
