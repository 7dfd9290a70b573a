/**
 * The config-archive pass of the online monitor's archive loop: the two
 * front-end config files are read into a property tree, the top-level keys
 * are snapshotted, and for each snapshotted key the `json` references of its
 * devices' entries and of its own entries are read and attached at the top
 * level.  Files are a map from path to parsed tree; a missing path is the
 * exception `read_json` throws, and a missing child the one `get_child`
 * throws.
 */
module ConfigArchive {
  import opened Common
  import OnlineMonitor
  import Text

  /** A property-tree node: its data string and its ordered, keyed children. */
  datatype Tree = Node(data: string, children: seq<Child>)
  datatype Child = Child(key: string, tree: Tree)

  datatype ArchiveError =
    | MissingKey(key: string)
    | MissingDevices(key: string)
    | ReadFailed(file: string)

  /** Parsed config files by path. */
  type Files = map<string, Tree>

  function Keys(cs: seq<Child>): (ks: seq<string>)
    ensures |ks| == |cs|
    ensures forall i :: 0 <= i < |cs| ==> ks[i] == cs[i].key
  {
    seq(|cs|, i requires 0 <= i < |cs| => cs[i].key)
  }

  /** `get_child(key)`: the first child with that key. */
  function GetChild(cs: seq<Child>, key: string): (r: Option<Tree>)
    ensures r.Some? ==> Child(key, r.value) in cs
    ensures r.None? ==> forall i :: 0 <= i < |cs| ==> cs[i].key != key
  {
    if cs == [] then None
    else if cs[0].key == key then Some(cs[0].tree)
    else GetChild(cs[1..], key)
  }

  /** `put_child(key, t)`: replaces the first child with that key, or appends one. */
  function PutChild(cs: seq<Child>, key: string, t: Tree): (r: seq<Child>)
    ensures Child(key, t) in r
    ensures |cs| <= |r| <= |cs| + 1
  {
    if cs == [] then [Child(key, t)]
    else if cs[0].key == key then [Child(key, t)] + cs[1..]
    else [cs[0]] + PutChild(cs[1..], key, t)
  }

  lemma KeysCons(c: Child, cs: seq<Child>)
    ensures Keys([c] + cs) == [c.key] + Keys(cs)
  {
  }

  /** A lookup succeeds exactly for the keys present. */
  lemma {:induction false} GetChildPresent(cs: seq<Child>, key: string)
    ensures GetChild(cs, key).Some? <==> key in Keys(cs)
    decreases |cs|
  {
    if cs != [] {
      assert cs == [cs[0]] + cs[1..];
      KeysCons(cs[0], cs[1..]);
      GetChildPresent(cs[1..], key);
    }
  }

  /** A lookup finds the first child with the key. */
  lemma {:induction false} GetChildFirst(cs: seq<Child>, key: string)
    requires GetChild(cs, key).Some?
    ensures exists i :: 0 <= i < |cs| && cs[i] == Child(key, GetChild(cs, key).value) && key !in Keys(cs[..i])
    decreases |cs|
  {
    if cs[0].key == key {
      assert cs[..0] == [];
    } else {
      var v := GetChild(cs, key).value;
      GetChildFirst(cs[1..], key);
      var i :| 0 <= i < |cs[1..]| && cs[1..][i] == Child(key, v) && key !in Keys(cs[1..][..i]);
      assert cs[..i + 1] == [cs[0]] + cs[1..][..i];
      KeysCons(cs[0], cs[1..][..i]);
      assert cs[i + 1] == Child(key, v);
    }
  }

  /** After `put_child`, the key reads back the new tree and every other key reads as before. */
  lemma {:induction false} PutChildReads(cs: seq<Child>, key: string, t: Tree, other: string)
    ensures GetChild(PutChild(cs, key, t), key) == Some(t)
    ensures other != key ==> GetChild(PutChild(cs, key, t), other) == GetChild(cs, other)
    decreases |cs|
  {
    if cs != [] && cs[0].key != key {
      PutChildReads(cs[1..], key, t, other);
      var r := PutChild(cs, key, t);
      assert r[1..] == PutChild(cs[1..], key, t);
    } else if cs != [] {
      var r := PutChild(cs, key, t);
      assert r[1..] == cs[1..];
    }
  }

  /** `put_child` keeps the key order, appending the key only when it is new. */
  lemma {:induction false} PutChildKeys(cs: seq<Child>, key: string, t: Tree)
    ensures Keys(PutChild(cs, key, t)) == if key in Keys(cs) then Keys(cs) else Keys(cs) + [key]
    decreases |cs|
  {
    if cs != [] {
      assert cs == [cs[0]] + cs[1..];
      KeysCons(cs[0], cs[1..]);
      if cs[0].key == key {
        KeysCons(Child(key, t), cs[1..]);
      } else {
        PutChildKeys(cs[1..], key, t);
        KeysCons(cs[0], PutChild(cs[1..], key, t));
      }
    }
  }

  /** `read_json` of a path. */
  function ReadJson(files: Files, path: string): (r: Result<Tree, ArchiveError>)
    ensures r.Ok? <==> path in files
    ensures r.Ok? ==> r.value == files[path]
    ensures r.Err? ==> r.error == ReadFailed(path)
  {
    if path in files then Ok(files[path]) else Err(ReadFailed(path))
  }

  /** The archive built so far and the config paths read while building it. */
  datatype Pass = Pass(archive: seq<Child>, loaded: seq<string>)

  // ---------------------------------------------------------------------
  // Reference definitions

  /** The data strings of `entries` that are json references, in order. */
  function JsonValues(entries: seq<Child>): seq<string> {
    if entries == [] then []
    else
      (if OnlineMonitor.IsJsonReference(entries[0].tree.data) then [entries[0].tree.data] else [])
        + JsonValues(entries[1..])
  }

  /** The keys of `entries` whose data are json references. */
  function JsonKeys(entries: seq<Child>): set<string> {
    set i | 0 <= i < |entries| && OnlineMonitor.IsJsonReference(entries[i].tree.data) :: entries[i].key
  }

  /** The json values of every entry of every device, device by device. */
  function DeviceJsonValues(devices: seq<Child>): seq<string> {
    if devices == [] then [] else JsonValues(devices[0].tree.children) + DeviceJsonValues(devices[1..])
  }

  /** Each name resolved against the config directory. */
  function Under(dir: string, names: seq<string>): (paths: seq<string>)
    ensures |paths| == |names|
    ensures forall i :: 0 <= i < |names| ==> paths[i] == dir + names[i]
  {
    seq(|names|, i requires 0 <= i < |names| => dir + names[i])
  }

  /** Every name resolves to a readable file. */
  predicate Readable(files: Files, dir: string, names: seq<string>) {
    forall i :: 0 <= i < |names| ==> dir + names[i] in files
  }

  /** A path in the config directory naming a json reference. */
  predicate IsJsonPath(dir: string, path: string) {
    |dir| <= |path| && path[..|dir|] == dir && OnlineMonitor.IsJsonReference(path[|dir|..])
  }

  predicate AllJsonPaths(dir: string, paths: seq<string>) {
    forall i :: 0 <= i < |paths| ==> IsJsonPath(dir, paths[i])
  }

  /** The archive only grows: old keys keep their place, and new ones are appended. */
  predicate Grows(before: seq<Child>, after: seq<Child>) {
    Keys(before) <= Keys(after)
  }

  // ---------------------------------------------------------------------
  // The pass

  /**
   * Follows each entry whose data is a json reference: reads the file under
   * `dir` and puts it at the top level of the archive under the entry's key.
   */
  function FollowEntries(files: Files, dir: string, archive: seq<Child>, entries: seq<Child>): (r: Result<Pass, ArchiveError>)
    ensures r.Err? ==> r.error.ReadFailed?
    ensures r.Ok? ==> |r.value.loaded| <= |entries|
    decreases |entries|
  {
    if entries == [] then Ok(Pass(archive, []))
    else if !OnlineMonitor.IsJsonReference(entries[0].tree.data) then
      FollowEntries(files, dir, archive, entries[1..])
    else
      var e := entries[0];
      match ReadJson(files, dir + e.tree.data)
      case Err(x) => Err(x)
      case Ok(t) =>
        match FollowEntries(files, dir, PutChild(archive, e.key, t), entries[1..])
        case Err(x) => Err(x)
        case Ok(p) => Ok(Pass(p.archive, [dir + e.tree.data] + p.loaded))
  }

  /** Follows the json references of every entry of every device, device by device. */
  function FollowDevices(files: Files, dir: string, archive: seq<Child>, devices: seq<Child>): (r: Result<Pass, ArchiveError>)
    ensures r.Err? ==> r.error.ReadFailed?
    decreases |devices|
  {
    if devices == [] then Ok(Pass(archive, []))
    else
      match FollowEntries(files, dir, archive, devices[0].tree.children)
      case Err(x) => Err(x)
      case Ok(p1) =>
        match FollowDevices(files, dir, p1.archive, devices[1..])
        case Err(x) => Err(x)
        case Ok(p2) => Ok(Pass(p2.archive, p1.loaded + p2.loaded))
  }

  /**
   * Expands one snapshotted key: first its devices' entries, then (looking
   * the key up again) its own first-level entries.
   */
  function ExpandKey(files: Files, dir: string, archive: seq<Child>, key: string): (r: Result<Pass, ArchiveError>)
    ensures GetChild(archive, key).None? ==> r == Err(MissingKey(key))
    ensures r.Err? ==> r.error.ReadFailed? || r.error == MissingKey(key) || r.error == MissingDevices(key)
  {
    match GetChild(archive, key)
    case None => Err(MissingKey(key))
    case Some(node) =>
      match GetChild(node.children, "devices")
      case None => Err(MissingDevices(key))
      case Some(devices) =>
        match FollowDevices(files, dir, archive, devices.children)
        case Err(x) => Err(x)
        case Ok(p1) =>
          match GetChild(p1.archive, key)
          case None => Err(MissingKey(key))
          case Some(again) =>
            match FollowEntries(files, dir, p1.archive, again.children)
            case Err(x) => Err(x)
            case Ok(p2) => Ok(Pass(p2.archive, p1.loaded + p2.loaded))
  }

  /** Expands each snapshotted key in turn. */
  function ExpandAll(files: Files, dir: string, archive: seq<Child>, keys: seq<string>): (r: Result<Pass, ArchiveError>)
    ensures r.Err? ==> r.error.ReadFailed? || exists i :: 0 <= i < |keys| && r.error.key == keys[i]
    decreases |keys|
  {
    if keys == [] then Ok(Pass(archive, []))
    else
      match ExpandKey(files, dir, archive, keys[0])
      case Err(x) => Err(x)
      case Ok(p1) =>
        match ExpandAll(files, dir, p1.archive, keys[1..])
        case Err(x) => Err(x)
        case Ok(p2) => Ok(Pass(p2.archive, p1.loaded + p2.loaded))
  }

  /** Reads a front-end config file named in the database, when the name is set, into the archive. */
  function LoadFrontEnd(files: Files, dir: string, start: Pass, fileName: Option<string>, key: string): (r: Result<Pass, ArchiveError>)
    ensures r.Err? <==> fileName.Some? && dir + fileName.value !in files
    ensures r.Err? ==> r.error == ReadFailed(dir + fileName.value)
    ensures r.Ok? && fileName.Some? ==> r.value.archive == PutChild(start.archive, key, files[dir + fileName.value])
    ensures r.Ok? ==> r.value.loaded == start.loaded + (if fileName.Some? then [dir + fileName.value] else [])
  {
    match fileName
    case None => Ok(start)
    case Some(name) =>
      match ReadJson(files, dir + name)
      case Err(x) => Err(x)
      case Ok(t) => Ok(Pass(PutChild(start.archive, key, t), start.loaded + [dir + name]))
  }

  /** The whole pass: both front-end files, the key snapshot, and the expansion of each snapshotted key. */
  function ArchivePass(files: Files, dir: string, sis3302: Option<string>, sis3316: Option<string>): (r: Result<Pass, ArchiveError>)
    ensures sis3302.Some? && dir + sis3302.value !in files ==> r == Err(ReadFailed(dir + sis3302.value))
    ensures r.Ok? ==> sis3316.Some? ==> dir + sis3316.value in files
  {
    match LoadFrontEnd(files, dir, Pass([], []), sis3302, "fe_sis3302")
    case Err(x) => Err(x)
    case Ok(p0) =>
      match LoadFrontEnd(files, dir, p0, sis3316, "fe_sis3316")
      case Err(x) => Err(x)
      case Ok(p1) =>
        match ExpandAll(files, dir, p1.archive, Keys(p1.archive))
        case Err(x) => Err(x)
        case Ok(p2) => Ok(Pass(p2.archive, p1.loaded + p2.loaded))
  }

  // ---------------------------------------------------------------------
  // Properties

  lemma GrowsTransitive(a: seq<Child>, b: seq<Child>, c: seq<Child>)
    requires Grows(a, b) && Grows(b, c)
    ensures Grows(a, c)
  {
  }

  lemma PutChildGrows(cs: seq<Child>, key: string, t: Tree)
    ensures Grows(cs, PutChild(cs, key, t))
  {
    PutChildKeys(cs, key, t);
  }

  lemma ReadableCons(files: Files, dir: string, v: string, vs: seq<string>)
    ensures Readable(files, dir, [v] + vs) <==> dir + v in files && Readable(files, dir, vs)
    ensures Under(dir, [v] + vs) == [dir + v] + Under(dir, vs)
  {
    var all := [v] + vs;
    assert all[0] == v;
    if Readable(files, dir, all) {
      forall i | 0 <= i < |vs| ensures dir + vs[i] in files {
        assert vs[i] == all[i + 1];
      }
    }
    if dir + v in files && Readable(files, dir, vs) {
      forall i | 0 <= i < |all| ensures dir + all[i] in files {
        if i > 0 {
          assert all[i] == vs[i - 1];
        }
      }
    }
  }

  /** Following entries reads exactly the json values among them, in order, and fails exactly when one is unreadable. */
  lemma {:induction false} FollowEntriesReads(files: Files, dir: string, archive: seq<Child>, entries: seq<Child>)
    ensures var r := FollowEntries(files, dir, archive, entries);
      && (r.Ok? <==> Readable(files, dir, JsonValues(entries)))
      && (r.Err? ==> r.error.ReadFailed?)
      && (r.Ok? ==> r.value.loaded == Under(dir, JsonValues(entries)))
    decreases |entries|
  {
    if entries != [] {
      var e := entries[0];
      var rest := entries[1..];
      if !OnlineMonitor.IsJsonReference(e.tree.data) {
        assert JsonValues(entries) == JsonValues(rest);
        FollowEntriesReads(files, dir, archive, rest);
      } else {
        assert JsonValues(entries) == [e.tree.data] + JsonValues(rest);
        ReadableCons(files, dir, e.tree.data, JsonValues(rest));
        if dir + e.tree.data in files {
          FollowEntriesReads(files, dir, PutChild(archive, e.key, files[dir + e.tree.data]), rest);
        }
      }
    }
  }

  /** Following entries only grows the archive, and only by keys of json entries. */
  lemma {:induction false} FollowEntriesGrows(files: Files, dir: string, archive: seq<Child>, entries: seq<Child>)
    ensures var r := FollowEntries(files, dir, archive, entries);
      r.Ok? ==> (Grows(archive, r.value.archive)
                 && forall k :: k in Keys(r.value.archive) ==> k in Keys(archive) || k in JsonKeys(entries))
    decreases |entries|
  {
    if entries != [] {
      var e := entries[0];
      var rest := entries[1..];
      assert JsonKeys(rest) <= JsonKeys(entries) by {
        forall k | k in JsonKeys(rest) ensures k in JsonKeys(entries) {
          var i :| 0 <= i < |rest| && OnlineMonitor.IsJsonReference(rest[i].tree.data) && rest[i].key == k;
          assert entries[i + 1] == rest[i];
        }
      }
      if !OnlineMonitor.IsJsonReference(e.tree.data) {
        FollowEntriesGrows(files, dir, archive, rest);
      } else if dir + e.tree.data in files {
        var grown := PutChild(archive, e.key, files[dir + e.tree.data]);
        FollowEntriesGrows(files, dir, grown, rest);
        PutChildGrows(archive, e.key, files[dir + e.tree.data]);
        PutChildKeys(archive, e.key, files[dir + e.tree.data]);
        assert e.key in JsonKeys(entries) by {
          assert entries[0] == e;
        }
        var r := FollowEntries(files, dir, archive, entries);
        if r.Ok? {
          GrowsTransitive(archive, grown, r.value.archive);
        }
      }
    }
  }

  /** Following the devices reads the json values of their entries, device by device. */
  lemma {:induction false} FollowDevicesReads(files: Files, dir: string, archive: seq<Child>, devices: seq<Child>)
    ensures var r := FollowDevices(files, dir, archive, devices);
      && (r.Err? ==> r.error.ReadFailed?)
      && (r.Ok? ==> r.value.loaded == Under(dir, DeviceJsonValues(devices)) && Grows(archive, r.value.archive))
    decreases |devices|
  {
    if devices != [] {
      var entries := devices[0].tree.children;
      FollowEntriesReads(files, dir, archive, entries);
      FollowEntriesGrows(files, dir, archive, entries);
      var r1 := FollowEntries(files, dir, archive, entries);
      if r1.Ok? {
        FollowDevicesReads(files, dir, r1.value.archive, devices[1..]);
        var r2 := FollowDevices(files, dir, r1.value.archive, devices[1..]);
        if r2.Ok? {
          assert Under(dir, DeviceJsonValues(devices)) == Under(dir, JsonValues(entries)) + Under(dir, DeviceJsonValues(devices[1..]));
          GrowsTransitive(archive, r1.value.archive, r2.value.archive);
        }
      }
    }
  }

  /** Every value `JsonValues` keeps is a json reference. */
  lemma {:induction false} JsonValuesAreReferences(entries: seq<Child>)
    ensures forall i :: 0 <= i < |JsonValues(entries)| ==> OnlineMonitor.IsJsonReference(JsonValues(entries)[i])
    decreases |entries|
  {
    if entries != [] {
      JsonValuesAreReferences(entries[1..]);
    }
  }

  lemma {:induction false} DeviceJsonValuesAreReferences(devices: seq<Child>)
    ensures forall i :: 0 <= i < |DeviceJsonValues(devices)| ==> OnlineMonitor.IsJsonReference(DeviceJsonValues(devices)[i])
    decreases |devices|
  {
    if devices != [] {
      JsonValuesAreReferences(devices[0].tree.children);
      DeviceJsonValuesAreReferences(devices[1..]);
    }
  }

  lemma UnderJsonPaths(dir: string, names: seq<string>)
    requires forall i :: 0 <= i < |names| ==> OnlineMonitor.IsJsonReference(names[i])
    ensures AllJsonPaths(dir, Under(dir, names))
  {
    forall i | 0 <= i < |names| ensures IsJsonPath(dir, Under(dir, names)[i]) {
      assert (dir + names[i])[|dir|..] == names[i];
    }
  }

  lemma AllJsonPathsAppend(dir: string, a: seq<string>, b: seq<string>)
    requires AllJsonPaths(dir, a) && AllJsonPaths(dir, b)
    ensures AllJsonPaths(dir, a + b)
  {
    assert forall i :: |a| <= i < |a + b| ==> (a + b)[i] == b[i - |a|];
  }

  /**
   * Expanding a key present in the archive fails only on a missing
   * `devices` child or an unreadable file; otherwise it grows the archive
   * and reads only json references.
   */
  lemma ExpandKeyOutcome(files: Files, dir: string, archive: seq<Child>, key: string)
    requires key in Keys(archive)
    ensures var r := ExpandKey(files, dir, archive, key);
      && (r.Err? ==> r.error.ReadFailed? || r.error == MissingDevices(key))
      && (r.Ok? ==> Grows(archive, r.value.archive) && AllJsonPaths(dir, r.value.loaded))
  {
    GetChildPresent(archive, key);
    var node := GetChild(archive, key).value;
    var d := GetChild(node.children, "devices");
    if d.Some? {
      var devices := d.value.children;
      FollowDevicesReads(files, dir, archive, devices);
      var r1 := FollowDevices(files, dir, archive, devices);
      if r1.Ok? {
        var a1 := r1.value.archive;
        assert key in Keys(a1);
        GetChildPresent(a1, key);
        var again := GetChild(a1, key).value;
        FollowEntriesReads(files, dir, a1, again.children);
        FollowEntriesGrows(files, dir, a1, again.children);
        var r2 := FollowEntries(files, dir, a1, again.children);
        if r2.Ok? {
          DeviceJsonValuesAreReferences(devices);
          JsonValuesAreReferences(again.children);
          UnderJsonPaths(dir, DeviceJsonValues(devices));
          UnderJsonPaths(dir, JsonValues(again.children));
          AllJsonPathsAppend(dir, r1.value.loaded, r2.value.loaded);
          GrowsTransitive(archive, a1, r2.value.archive);
        }
      }
    }
  }

  lemma GrowsKeepsKeys(a: seq<Child>, b: seq<Child>, k: string)
    requires Grows(a, b) && k in Keys(a)
    ensures k in Keys(b)
  {
    var j :| 0 <= j < |Keys(a)| && Keys(a)[j] == k;
    assert Keys(b)[j] == k;
  }

  /**
   * Expanding snapshotted keys fails only on a snapshotted key without
   * `devices` or on an unreadable file; otherwise the archive grows and
   * every file read is a json reference in the config directory.
   */
  lemma {:induction false} ExpandAllOutcome(files: Files, dir: string, archive: seq<Child>, keys: seq<string>)
    requires forall i :: 0 <= i < |keys| ==> keys[i] in Keys(archive)
    ensures var r := ExpandAll(files, dir, archive, keys);
      && (r.Err? ==> r.error.ReadFailed? || exists i :: 0 <= i < |keys| && r.error == MissingDevices(keys[i]))
      && (r.Ok? ==> Grows(archive, r.value.archive) && AllJsonPaths(dir, r.value.loaded))
    decreases |keys|
  {
    if keys != [] {
      ExpandKeyOutcome(files, dir, archive, keys[0]);
      var r1 := ExpandKey(files, dir, archive, keys[0]);
      if r1.Ok? {
        var a1 := r1.value.archive;
        forall i | 0 <= i < |keys[1..]| ensures keys[1..][i] in Keys(a1) {
          assert keys[1..][i] == keys[i + 1];
          GrowsKeepsKeys(archive, a1, keys[i + 1]);
        }
        ExpandAllOutcome(files, dir, a1, keys[1..]);
        var r2 := ExpandAll(files, dir, a1, keys[1..]);
        if r2.Err? && !r2.error.ReadFailed? {
          var i :| 0 <= i < |keys[1..]| && r2.error == MissingDevices(keys[1..][i]);
          assert keys[i + 1] == keys[1..][i];
        }
        if r2.Ok? {
          AllJsonPathsAppend(dir, r1.value.loaded, r2.value.loaded);
          GrowsTransitive(archive, a1, r2.value.archive);
        }
      }
    }
  }

  /** The keys the snapshot holds: the front-end files whose names are set. */
  function FrontEndKeys(sis3302: Option<string>, sis3316: Option<string>): seq<string> {
    (if sis3302.Some? then ["fe_sis3302"] else []) + (if sis3316.Some? then ["fe_sis3316"] else [])
  }

  /** The front-end files read first, when their names are set. */
  function FrontEndFiles(dir: string, sis3302: Option<string>, sis3316: Option<string>): seq<string> {
    (if sis3302.Some? then [dir + sis3302.value] else []) + (if sis3316.Some? then [dir + sis3316.value] else [])
  }

  /**
   * The pass reads the front-end files first and then only json references
   * in the config directory; its archive starts with the snapshotted keys;
   * it fails only on an unreadable file or a front-end tree without
   * `devices`.
   */
  lemma ArchivePassOutcome(files: Files, dir: string, sis3302: Option<string>, sis3316: Option<string>)
    ensures var r := ArchivePass(files, dir, sis3302, sis3316);
      && (r.Err? ==> r.error.ReadFailed? || r.error in {MissingDevices("fe_sis3302"), MissingDevices("fe_sis3316")})
      && (r.Ok? ==> FrontEndKeys(sis3302, sis3316) <= Keys(r.value.archive))
      && (r.Ok? ==> var n := |FrontEndFiles(dir, sis3302, sis3316)|;
                    n <= |r.value.loaded|
                    && r.value.loaded[..n] == FrontEndFiles(dir, sis3302, sis3316)
                    && AllJsonPaths(dir, r.value.loaded[n..]))
  {
    var r0 := LoadFrontEnd(files, dir, Pass([], []), sis3302, "fe_sis3302");
    if r0.Ok? {
      var p0 := r0.value;
      assert Keys(p0.archive) == (if sis3302.Some? then ["fe_sis3302"] else []);
      var r1 := LoadFrontEnd(files, dir, p0, sis3316, "fe_sis3316");
      if r1.Ok? {
        var p1 := r1.value;
        if sis3316.Some? {
          PutChildKeys(p0.archive, "fe_sis3316", files[dir + sis3316.value]);
        }
        assert Keys(p1.archive) == FrontEndKeys(sis3302, sis3316);
        assert p1.loaded == FrontEndFiles(dir, sis3302, sis3316);
        var keys := Keys(p1.archive);
        assert forall i :: 0 <= i < |keys| ==> keys[i] in Keys(p1.archive);
        ExpandAllOutcome(files, dir, p1.archive, keys);
        var r2 := ExpandAll(files, dir, p1.archive, keys);
        if r2.Err? && !r2.error.ReadFailed? {
          var i :| 0 <= i < |keys| && r2.error == MissingDevices(keys[i]);
        }
        if r2.Ok? {
          var all := p1.loaded + r2.value.loaded;
          assert all[..|p1.loaded|] == p1.loaded;
          assert all[|p1.loaded|..] == r2.value.loaded;
        }
      }
    }
  }

  // ---------------------------------------------------------------------
  // The snapshot: keys added during the pass are never expanded

  /** The keys of the json entries of every device. */
  function DeviceJsonKeys(devices: seq<Child>): set<string> {
    if devices == [] then {} else JsonKeys(devices[0].tree.children) + DeviceJsonKeys(devices[1..])
  }

  /** The devices of a front-end tree, or none when it has no `devices` child. */
  function Devices(t: Tree): seq<Child> {
    match GetChild(t.children, "devices")
    case None => []
    case Some(d) => d.children
  }

  /** The keys that expanding a tree puts at the top level. */
  function Touched(t: Tree): set<string> {
    DeviceJsonKeys(Devices(t)) + JsonKeys(t.children)
  }

  /** The files expanding a tree reads: its devices' json values, then its own. */
  function ExpandedFiles(dir: string, t: Tree): seq<string> {
    Under(dir, DeviceJsonValues(Devices(t)) + JsonValues(t.children))
  }

  function ExpandedAll(dir: string, ts: seq<Tree>): seq<string> {
    if ts == [] then [] else ExpandedFiles(dir, ts[0]) + ExpandedAll(dir, ts[1..])
  }

  /** No tree puts anything at the top level under one of the keys. */
  predicate Untouched(ts: seq<Tree>, keys: seq<string>) {
    forall i, j :: 0 <= i < |ts| && 0 <= j < |keys| ==> keys[j] !in Touched(ts[i])
  }

  /** The front-end trees the pass starts from. */
  function FrontEndTrees(files: Files, dir: string, sis3302: Option<string>, sis3316: Option<string>): seq<Tree> {
    (if sis3302.Some? && dir + sis3302.value in files then [files[dir + sis3302.value]] else [])
      + (if sis3316.Some? && dir + sis3316.value in files then [files[dir + sis3316.value]] else [])
  }

  lemma UnderAppend(dir: string, a: seq<string>, b: seq<string>)
    ensures Under(dir, a + b) == Under(dir, a) + Under(dir, b)
  {
  }

  lemma JsonKeysTail(entries: seq<Child>)
    requires entries != []
    ensures JsonKeys(entries[1..]) <= JsonKeys(entries)
    ensures OnlineMonitor.IsJsonReference(entries[0].tree.data) ==> entries[0].key in JsonKeys(entries)
  {
    var rest := entries[1..];
    forall k | k in JsonKeys(rest) ensures k in JsonKeys(entries) {
      var i :| 0 <= i < |rest| && OnlineMonitor.IsJsonReference(rest[i].tree.data) && rest[i].key == k;
      assert entries[i + 1] == rest[i];
    }
  }

  /** Following entries leaves every key that is not one of theirs as it was. */
  lemma {:induction false} FollowEntriesKeeps(files: Files, dir: string, archive: seq<Child>, entries: seq<Child>, k: string)
    requires k !in JsonKeys(entries)
    ensures var r := FollowEntries(files, dir, archive, entries);
      r.Ok? ==> GetChild(r.value.archive, k) == GetChild(archive, k)
    decreases |entries|
  {
    if entries != [] {
      var e := entries[0];
      JsonKeysTail(entries);
      if !OnlineMonitor.IsJsonReference(e.tree.data) {
        FollowEntriesKeeps(files, dir, archive, entries[1..], k);
      } else if dir + e.tree.data in files {
        var t := files[dir + e.tree.data];
        PutChildReads(archive, e.key, t, k);
        FollowEntriesKeeps(files, dir, PutChild(archive, e.key, t), entries[1..], k);
      }
    }
  }

  lemma {:induction false} FollowDevicesKeeps(files: Files, dir: string, archive: seq<Child>, devices: seq<Child>, k: string)
    requires k !in DeviceJsonKeys(devices)
    ensures var r := FollowDevices(files, dir, archive, devices);
      r.Ok? ==> GetChild(r.value.archive, k) == GetChild(archive, k)
    decreases |devices|
  {
    if devices != [] {
      FollowEntriesKeeps(files, dir, archive, devices[0].tree.children, k);
      var r1 := FollowEntries(files, dir, archive, devices[0].tree.children);
      if r1.Ok? {
        FollowDevicesKeeps(files, dir, r1.value.archive, devices[1..], k);
      }
    }
  }

  /**
   * Expanding a key whose tree does not overwrite the key itself reads
   * exactly that tree's referenced files, and leaves every key the tree
   * does not touch as it was.
   */
  lemma ExpandKeyFiles(files: Files, dir: string, archive: seq<Child>, key: string, t: Tree)
    requires GetChild(archive, key) == Some(t) && key !in DeviceJsonKeys(Devices(t))
    ensures var r := ExpandKey(files, dir, archive, key);
      r.Ok? ==> r.value.loaded == ExpandedFiles(dir, t)
    ensures var r := ExpandKey(files, dir, archive, key);
      forall k :: k !in Touched(t) && r.Ok? ==> GetChild(r.value.archive, k) == GetChild(archive, k)
  {
    var r := ExpandKey(files, dir, archive, key);
    if r.Ok? {
      var devices := Devices(t);
      FollowDevicesReads(files, dir, archive, devices);
      FollowDevicesKeeps(files, dir, archive, devices, key);
      var p1 := FollowDevices(files, dir, archive, devices).value;
      assert GetChild(p1.archive, key) == Some(t);
      FollowEntriesReads(files, dir, p1.archive, t.children);
      var p2 := FollowEntries(files, dir, p1.archive, t.children).value;
      assert r.value == Pass(p2.archive, p1.loaded + p2.loaded);
      UnderAppend(dir, DeviceJsonValues(devices), JsonValues(t.children));
      forall k | k !in Touched(t) ensures GetChild(r.value.archive, k) == GetChild(archive, k) {
        FollowDevicesKeeps(files, dir, archive, devices, k);
        FollowEntriesKeeps(files, dir, p1.archive, t.children, k);
      }
    }
  }

  /**
   * Expanding keys whose trees touch none of them reads, key by key, exactly
   * the files those trees refer to, whatever the files read contain.
   */
  lemma {:induction false} ExpandAllFiles(files: Files, dir: string, archive: seq<Child>, keys: seq<string>, ts: seq<Tree>)
    requires |ts| == |keys|
    requires forall i :: 0 <= i < |keys| ==> GetChild(archive, keys[i]) == Some(ts[i])
    requires Untouched(ts, keys)
    ensures var r := ExpandAll(files, dir, archive, keys);
      r.Ok? ==> r.value.loaded == ExpandedAll(dir, ts)
    decreases |keys|
  {
    var r := ExpandAll(files, dir, archive, keys);
    if keys != [] && r.Ok? {
      assert keys[0] !in Touched(ts[0]);
      ExpandKeyFiles(files, dir, archive, keys[0], ts[0]);
      var p1 := ExpandKey(files, dir, archive, keys[0]).value;
      forall i | 0 <= i < |keys[1..]| ensures GetChild(p1.archive, keys[1..][i]) == Some(ts[1..][i]) {
        assert keys[1..][i] == keys[i + 1] && ts[1..][i] == ts[i + 1];
        assert keys[i + 1] !in Touched(ts[0]);
      }
      assert Untouched(ts[1..], keys[1..]) by {
        forall i, j | 0 <= i < |ts[1..]| && 0 <= j < |keys[1..]| ensures keys[1..][j] !in Touched(ts[1..][i]) {
          assert keys[1..][j] == keys[j + 1] && ts[1..][i] == ts[i + 1];
        }
      }
      ExpandAllFiles(files, dir, p1.archive, keys[1..], ts[1..]);
    }
  }

  /**
   * The snapshot rule for every input: unless a front-end tree overwrites
   * one of the snapshotted keys (undefined behaviour in the source), a
   * successful pass reads the front-end files and then exactly the files the
   * two front-end trees refer to, tree by tree, and nothing that a file it
   * read in turn refers to.
   */
  lemma ArchivePassReadsSnapshotOnly(files: Files, dir: string, sis3302: Option<string>, sis3316: Option<string>)
    requires Untouched(FrontEndTrees(files, dir, sis3302, sis3316), FrontEndKeys(sis3302, sis3316))
    ensures var r := ArchivePass(files, dir, sis3302, sis3316);
      r.Ok? ==> r.value.loaded == FrontEndFiles(dir, sis3302, sis3316) + ExpandedAll(dir, FrontEndTrees(files, dir, sis3302, sis3316))
  {
    var r := ArchivePass(files, dir, sis3302, sis3316);
    if r.Ok? {
      var p0 := LoadFrontEnd(files, dir, Pass([], []), sis3302, "fe_sis3302").value;
      var p1 := LoadFrontEnd(files, dir, p0, sis3316, "fe_sis3316").value;
      var ts := FrontEndTrees(files, dir, sis3302, sis3316);
      var keys := FrontEndKeys(sis3302, sis3316);
      if sis3316.Some? {
        PutChildKeys(p0.archive, "fe_sis3316", files[dir + sis3316.value]);
        PutChildReads(p0.archive, "fe_sis3316", files[dir + sis3316.value], "fe_sis3302");
      }
      assert Keys(p1.archive) == keys;
      assert p1.loaded == FrontEndFiles(dir, sis3302, sis3316);
      assert |ts| == |keys|;
      forall i | 0 <= i < |keys| ensures GetChild(p1.archive, keys[i]) == Some(ts[i]) {
      }
      ExpandAllFiles(files, dir, p1.archive, keys, ts);
    }
  }

  // A front-end file whose one device entry refers to `w.json`, which in
  // turn refers to a file that does not exist.
  const WiringTree := Node("", [Child("devices", Node("", [])), Child("cable", Node("missing.json", []))])
  const ScopeTree := Node("", [Child("wiring", Node("w.json", []))])
  const FrontEndTree := Node("", [Child("devices", Node("", [Child("scope", ScopeTree)]))])
  const ExampleFiles: Files := map["c/a.json" := FrontEndTree, "c/w.json" := WiringTree]

  lemma ExampleReferences()
    ensures OnlineMonitor.IsJsonReference("w.json")
    ensures OnlineMonitor.IsJsonReference("missing.json")
    ensures !OnlineMonitor.IsJsonReference("")
  {
    assert Text.OccursAt("w.json", "json", 2);
    assert Text.OccursAt("missing.json", "json", 8);
  }

  lemma ExampleDevices()
    ensures FollowDevices(ExampleFiles, "c/", [Child("fe_sis3302", FrontEndTree)], [Child("scope", ScopeTree)])
         == Ok(Pass([Child("fe_sis3302", FrontEndTree), Child("wiring", WiringTree)], ["c/w.json"]))
  {
    ExampleReferences();
    var start := [Child("fe_sis3302", FrontEndTree)];
    var grown := [Child("fe_sis3302", FrontEndTree), Child("wiring", WiringTree)];
    assert "c/" + "w.json" == "c/w.json";
    assert ReadJson(ExampleFiles, "c/w.json") == Ok(WiringTree);
    assert PutChild(start, "wiring", WiringTree) == grown by {
      assert start[1..] == [];
    }
    assert ScopeTree.children[1..] == [];
    assert ScopeTree.children[0].tree.data == "w.json";
    assert FollowEntries(ExampleFiles, "c/", grown, []) == Ok(Pass(grown, []));
    assert ["c/w.json"] + [] == ["c/w.json"];
    assert FollowEntries(ExampleFiles, "c/", start, ScopeTree.children) == Ok(Pass(grown, ["c/w.json"]));
    assert FollowDevices(ExampleFiles, "c/", grown, []) == Ok(Pass(grown, []));
  }

  lemma ExampleFirstLevel()
    ensures var grown := [Child("fe_sis3302", FrontEndTree), Child("wiring", WiringTree)];
      FollowEntries(ExampleFiles, "c/", grown, FrontEndTree.children) == Ok(Pass(grown, []))
  {
    ExampleReferences();
  }

  lemma ExampleWiringFails()
    ensures ExpandKey(ExampleFiles, "c/", [Child("wiring", WiringTree)], "wiring") == Err(ReadFailed("c/missing.json"))
  {
    ExampleReferences();
    var a := [Child("wiring", WiringTree)];
    assert "c/" + "missing.json" == "c/missing.json";
    assert "c/missing.json" !in ExampleFiles;
    assert FollowDevices(ExampleFiles, "c/", a, []) == Ok(Pass(a, []));
    assert WiringTree.children[1..] == [Child("cable", Node("missing.json", []))];
    assert FollowEntries(ExampleFiles, "c/", a, WiringTree.children) == Err(ReadFailed("c/missing.json"));
  }

  /**
   * Keys added during the pass are not themselves expanded: the `wiring`
   * tree the pass brings in refers to a file that does not exist, yet the
   * pass succeeds, while expanding `wiring` on its own would fail.
   */
  lemma AddedKeysNotExpanded()
    ensures ArchivePass(ExampleFiles, "c/", Some("a.json"), None)
         == Ok(Pass([Child("fe_sis3302", FrontEndTree), Child("wiring", WiringTree)], ["c/a.json", "c/w.json"]))
    ensures ExpandKey(ExampleFiles, "c/", [Child("wiring", WiringTree)], "wiring") == Err(ReadFailed("c/missing.json"))
  {
    var start := [Child("fe_sis3302", FrontEndTree)];
    var grown := [Child("fe_sis3302", FrontEndTree), Child("wiring", WiringTree)];
    assert "c/" + "a.json" == "c/a.json";
    assert ReadJson(ExampleFiles, "c/a.json") == Ok(FrontEndTree);
    assert PutChild([], "fe_sis3302", FrontEndTree) == start;
    assert [] + ["c/a.json"] == ["c/a.json"];
    assert LoadFrontEnd(ExampleFiles, "c/", Pass([], []), Some("a.json"), "fe_sis3302") == Ok(Pass(start, ["c/a.json"]));
    assert Keys(start) == ["fe_sis3302"];
    ExampleDevices();
    ExampleFirstLevel();
    assert GetChild(start, "fe_sis3302") == Some(FrontEndTree);
    assert GetChild(FrontEndTree.children, "devices") == Some(Node("", [Child("scope", ScopeTree)]));
    assert GetChild(grown, "fe_sis3302") == Some(FrontEndTree);
    assert ["c/w.json"] + [] == ["c/w.json"];
    assert ExpandKey(ExampleFiles, "c/", start, "fe_sis3302") == Ok(Pass(grown, ["c/w.json"]));
    assert ExpandAll(ExampleFiles, "c/", grown, []) == Ok(Pass(grown, []));
    assert ExpandAll(ExampleFiles, "c/", start, ["fe_sis3302"]) == Ok(Pass(grown, ["c/w.json"]));
    assert LoadFrontEnd(ExampleFiles, "c/", Pass(start, ["c/a.json"]), None, "fe_sis3316") == Ok(Pass(start, ["c/a.json"]));
    assert ["c/a.json"] + ["c/w.json"] == ["c/a.json", "c/w.json"];
    ExampleWiringFails();
  }
}
