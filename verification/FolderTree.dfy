/** The folders a migration creates: one for every path and every prefix of one, each
    under its parent. */
module FolderTree {
  import opened Wrappers
  import opened ImapText

  const SEPARATOR: char := '\U{1F}'

  /** A folder of the target; folder 0 is the subtree they all hang off. */
  datatype Folder = Folder(parent: nat, name: string)

  /** Parents come before their children. */
  predicate TreeOk(folders: seq<Folder>) {
    |folders| >= 1 && forall i :: 1 <= i < |folders| ==> folders[i].parent < i
  }

  function PathOf(folders: seq<Folder>, id: nat): (path: seq<string>)
    requires TreeOk(folders) && id < |folders|
    decreases id
  {
    if id == 0 then [] else PathOf(folders, folders[id].parent) + [folders[id].name]
  }

  /** A path component as FolderInfo::path gives it, without the separator character. */
  predicate Clean(part: string) { part != "" && SEPARATOR !in part }

  predicate CleanPath(path: seq<string>) { forall i :: 0 <= i < |path| ==> Clean(path[i]) }

  /** The key of a path: its parts with separators between them. */
  function Key(path: seq<string>): string {
    if path == [] then ""
    else Extend(Key(path[..|path| - 1]), path[|path| - 1])
  }

  function Extend(prefix: string, part: string): string {
    if prefix == "" then part else prefix + [SEPARATOR] + part
  }

  lemma {:induction false} KeyEmpty(path: seq<string>)
    requires CleanPath(path)
    ensures Key(path) == "" <==> path == []
  {
    if path != [] { KeyEmpty(path[..|path| - 1]); }
  }

  /** The last part of a key is what follows the last separator. */
  lemma ExtendSplit(prefix: string, part: string)
    requires Clean(part)
    ensures FindLast(Extend(prefix, part), SEPARATOR) == if prefix == "" then None else Some(|prefix|)
  {
    var s := Extend(prefix, part);
    if prefix != "" {
      assert s[|prefix|] == SEPARATOR;
      forall j | |prefix| < j < |s| ensures s[j] != SEPARATOR { assert s[j] == part[j - |prefix| - 1]; }
    }
  }

  lemma ExtendInjective(p: string, a: string, q: string, b: string)
    requires Clean(a) && Clean(b) && Extend(p, a) == Extend(q, b)
    ensures p == q && a == b
  {
    hide FindLast;
    ExtendSplit(p, a);
    ExtendSplit(q, b);
    var s, t := Extend(p, a), Extend(q, b);
    if p != "" {
      assert s[..|p|] == p && s[|p| + 1..] == a;
      assert t[..|q|] == q && t[|q| + 1..] == b;
    }
  }

  /** Different clean paths have different keys. */
  lemma {:induction false} KeyInjective(a: seq<string>, b: seq<string>)
    requires CleanPath(a) && CleanPath(b) && Key(a) == Key(b)
    ensures a == b
  {
    hide Extend, Clean;
    KeyEmpty(a);
    KeyEmpty(b);
    if a != [] {
      var m, n := |a| - 1, |b| - 1;
      assert Clean(a[m]) && Clean(b[n]);
      ExtendInjective(Key(a[..m]), a[m], Key(b[..n]), b[n]);
      KeyInjective(a[..m], b[..n]);
      assert a == a[..m] + [a[m]] && b == b[..n] + [b[n]];
    }
  }

  /** A path as FolderInfo::path gives it: no name is empty. */
  predicate Named(path: seq<string>) { forall i :: 0 <= i < |path| ==> path[i] != "" }

  /** The separator stands in `s` with something on either side. */
  predicate Inside(s: string) { exists k :: 0 < k < |s| - 1 && s[k] == SEPARATOR }

  lemma KeyOfOne(s: string)
    ensures Key([s]) == s
  {
    assert [s][..0] == [];
  }

  lemma KeyOfTwo(s: string, t: string)
    requires s != ""
    ensures Key([s, t]) == s + [SEPARATOR] + t
  {
    KeyOfOne(s);
    assert [s, t][..1] == [s];
  }

  lemma {:induction false} KeyNotEmpty(path: seq<string>)
    requires Named(path) && path != []
    ensures Key(path) != ""
  {
  }

  /** Two names or more: a separator between them. */
  lemma LongInside(path: seq<string>)
    requires Named(path) && |path| >= 2
    ensures Inside(Key(path))
  {
    var n := |path| - 1;
    KeyNotEmpty(path[..n]);
    assert Key(path)[|Key(path[..n])|] == SEPARATOR;
  }

  /** Exactly which paths share a key: those whose key has the separator strictly inside.
      For a single name that is the name itself; a longer path always does, with the single
      name that spells its key. */
  lemma SharesKey(path: seq<string>)
    requires Named(path) && path != []
    ensures (exists other :: Named(other) && other != path && Key(other) == Key(path)) <==> Inside(Key(path))
    ensures |path| == 1 ==> Key(path) == path[0]
    ensures |path| >= 2 ==> Inside(Key(path))
  {
    hide Inside;
    var key := Key(path);
    if |path| >= 2 {
      LongInside(path);
      KeyNotEmpty(path);
      KeyOfOne(key);
      var other := [key];
      assert Named(other) && other != path && Key(other) == key;
    } else {
      KeyOfOne(path[0]);
      assert path == [key];
      if Inside(key) { SplitsInside(key); }
      if other :| Named(other) && other != path && Key(other) == key {
        KeyNotEmpty(path);
        if |other| >= 2 { LongInside(other); } else { OneName(other); }
      }
    }
  }

  lemma OneName(path: seq<string>)
    requires |path| == 1
    ensures path == [Key(path)]
  {
    KeyOfOne(path[0]);
    assert path == [path[0]];
  }

  /** A name cut at a separator inside it. */
  lemma SplitsInside(s: string)
    requires Inside(s)
    ensures exists other :: Named(other) && other != [s] && Key(other) == s
  {
    var k :| 0 < k < |s| - 1 && s[k] == SEPARATOR;
    var other := [s[..k], s[k + 1..]];
    KeyOfTwo(s[..k], s[k + 1..]);
    assert s == s[..k] + [SEPARATOR] + s[k + 1..];
    assert Named(other) && |other| == 2 && Key(other) == s;
  }

  /** Two paths with one key. */
  lemma KeysCollide()
    ensures Key([['a', SEPARATOR, 'b']]) == Key(["a", "b"]) && Named([['a', SEPARATOR, 'b']]) && Named(["a", "b"])
  {
    KeyOfOne(['a', SEPARATOR, 'b']);
    KeyOfTwo("a", "b");
  }

  // ------------------------------------------------------------ path names

  /** The parts of a listed name between its delimiters, empty ones left out. */
  function PartsFrom(name: string, delimiter: char, current: string): (parts: seq<string>) {
    if name == [] then if current == "" then [] else [current]
    else if name[0] == delimiter then (if current == "" then [] else [current]) + PartsFrom(name[1..], delimiter, "")
    else PartsFrom(name[1..], delimiter, current + [name[0]])
  }

  /** A name without a delimiter is one part. */
  function Parts(name: string, delimiter: Option<char>): (parts: seq<string>) {
    match delimiter
    case None => if name == "" then [] else [name]
    case Some(d) => PartsFrom(name, d, "")
  }

  method SplitName(name: string, delimiter: Option<char>) returns (parts: seq<string>)
    ensures parts == Parts(name, delimiter) && Named(parts)
  {
    parts := [];
    if delimiter.None? {
      if name != "" { parts := [name]; }
      return;
    }
    var current := "";
    assert name[0..] == name;
    for i := 0 to |name|
      invariant parts + PartsFrom(name[i..], delimiter.value, current) == PartsFrom(name, delimiter.value, "") && Named(parts)
    {
      assert name[i..][1..] == name[i + 1..];
      if name[i] == delimiter.value {
        if current != "" { parts := parts + [current]; }
        current := "";
      } else {
        current := current + [name[i]];
      }
    }
    if current != "" { parts := parts + [current]; }
  }

  /** The parts of a name without the separator character are clean. */
  lemma {:induction false} PartsClean(name: string, d: char, current: string)
    requires SEPARATOR !in name && SEPARATOR !in current
    ensures CleanPath(PartsFrom(name, d, current))
    decreases |name|
  {
    if name != [] {
      PartsClean(name[1..], d, "");
      PartsClean(name[1..], d, current + [name[0]]);
    }
  }

  lemma NameClean(name: string, delimiter: Option<char>)
    requires SEPARATOR !in name
    ensures CleanPath(Parts(name, delimiter))
  {
    if delimiter.Some? { PartsClean(name, delimiter.value, ""); }
  }

  // ------------------------------------------------------------- the table

  function Keys(folders: seq<Folder>): (keys: seq<string>)
    requires TreeOk(folders)
    ensures |keys| == |folders| && forall id :: 0 <= id < |keys| ==> keys[id] == Key(PathOf(folders, id))
  {
    seq(|folders|, id requires 0 <= id < |folders| => Key(PathOf(folders, id)))
  }

  /** Each key but the first is filed under its place, and nothing else is filed. */
  ghost predicate Filed(keys: seq<string>, byPath: map<string, nat>) {
    && (forall id :: 1 <= id < |keys| ==> keys[id] in byPath && byPath[keys[id]] == id)
    && (forall key :: key in byPath ==> 1 <= byPath[key] < |keys| && keys[byPath[key]] == key)
  }

  ghost predicate AllClean(folders: seq<Folder>)
    requires TreeOk(folders)
  {
    forall id :: 0 <= id < |folders| ==> CleanPath(PathOf(folders, id))
  }

  ghost predicate AllNamed(folders: seq<Folder>)
    requires TreeOk(folders)
  {
    forall id :: 0 <= id < |folders| ==> Named(PathOf(folders, id))
  }

  /** The table knows every folder under the key of its path. */
  ghost predicate TableOk(folders: seq<Folder>, byPath: map<string, nat>) {
    TreeOk(folders) && AllNamed(folders) && Filed(Keys(folders), byPath)
  }

  lemma FiledSnoc(keys: seq<string>, byPath: map<string, nat>, key: string)
    requires Filed(keys, byPath) && key !in byPath && |keys| >= 1
    ensures Filed(keys + [key], byPath[key := |keys|])
  {
    var now, table := keys + [key], byPath[key := |keys|];
    forall k | k in table ensures 1 <= table[k] < |now| && now[table[k]] == k {
      if k != key { assert now[byPath[k]] == keys[byPath[k]]; }
    }
  }

  lemma {:induction false} PathKept(folders: seq<Folder>, f: Folder, id: nat)
    requires TreeOk(folders) && id < |folders| && f.parent < |folders|
    ensures TreeOk(folders + [f]) && PathOf(folders + [f], id) == PathOf(folders, id)
    decreases id
  {
    if id > 0 { PathKept(folders, f, folders[id].parent); }
  }

  /** A folder added has its parent's path and its name; the other paths stay. */
  lemma NewPath(folders: seq<Folder>, f: Folder)
    requires TreeOk(folders) && f.parent < |folders|
    ensures var now := folders + [f];
            && TreeOk(now) && PathOf(now, |folders|) == PathOf(folders, f.parent) + [f.name]
            && forall id :: 0 <= id < |folders| ==> PathOf(now, id) == PathOf(folders, id)
  {
    hide PathOf;
    forall id: nat | id < |folders| ensures PathOf(folders + [f], id) == PathOf(folders, id) { PathKept(folders, f, id); }
    LastPath(folders + [f]);
  }

  lemma NewNames(folders: seq<Folder>, f: Folder)
    requires TreeOk(folders) && f.parent < |folders| && f.name != "" && AllNamed(folders)
    ensures TreeOk(folders + [f]) && AllNamed(folders + [f]) && (AllClean(folders) && Clean(f.name) ==> AllClean(folders + [f]))
  {
    hide PathOf, Named, CleanPath, Clean;
    NewPath(folders, f);
    LongerPath(PathOf(folders, f.parent), f.name);
    assert Named(PathOf(folders, f.parent));
  }

  lemma NewFolder(folders: seq<Folder>, byPath: map<string, nat>, parent: nat, name: string)
    requires TableOk(folders, byPath) && parent < |folders| && name != ""
    requires Extend(Key(PathOf(folders, parent)), name) !in byPath
    ensures var now, key := folders + [Folder(parent, name)], Extend(Key(PathOf(folders, parent)), name);
            TableOk(now, byPath[key := |folders|]) && PathOf(now, |folders|) == PathOf(folders, parent) + [name]
            && (forall id :: 0 <= id < |folders| ==> PathOf(now, id) == PathOf(folders, id))
            && (AllClean(folders) && Clean(name) ==> AllClean(now))
  {
    hide Clean, Extend, Filed, PathOf, Key, AllClean, AllNamed;
    var f := Folder(parent, name);
    NewPath(folders, f);
    NewNames(folders, f);
    PathSnoc(PathOf(folders, parent), name);
    assert Keys(folders + [f]) == Keys(folders) + [Extend(Key(PathOf(folders, parent)), name)];
    FiledSnoc(Keys(folders), byPath, Extend(Key(PathOf(folders, parent)), name));
  }

  lemma LastPath(folders: seq<Folder>)
    requires TreeOk(folders) && |folders| >= 2
    ensures var f := folders[|folders| - 1]; PathOf(folders, |folders| - 1) == PathOf(folders, f.parent) + [f.name]
  {
  }

  lemma LongerPath(path: seq<string>, name: string)
    ensures Named(path) && name != "" ==> Named(path + [name])
    ensures CleanPath(path) && Clean(name) ==> CleanPath(path + [name])
  {
  }

  /** A key in the table leads to a folder with that key. */
  lemma KnownFolder(folders: seq<Folder>, byPath: map<string, nat>, path: seq<string>)
    requires TableOk(folders, byPath) && Key(path) in byPath
    ensures byPath[Key(path)] < |folders| && Key(PathOf(folders, byPath[Key(path)])) == Key(path)
    ensures AllClean(folders) && CleanPath(path) ==> PathOf(folders, byPath[Key(path)]) == path
  {
    hide Key, PathOf;
    var id := byPath[Key(path)];
    assert Keys(folders)[id] == Key(path);
    if AllClean(folders) && CleanPath(path) { KeyInjective(PathOf(folders, id), path); }
  }

  /** The folder for a path. Missing ones on the way are created, each once; every folder
      already there stays as it is. The folder's own path has the key of the path asked for,
      and is that path as long as no name holds the separator. */
  method FolderFor(folders: seq<Folder>, byPath: map<string, nat>, path: seq<string>)
    returns (now: seq<Folder>, table: map<string, nat>, id: nat)
    requires TableOk(folders, byPath) && Named(path)
    ensures TableOk(now, table) && folders <= now && id < |now|
    ensures Key(PathOf(now, id)) == Key(path)
    ensures AllClean(folders) && CleanPath(path) ==> AllClean(now) && PathOf(now, id) == path
    ensures forall k :: 0 <= k < |folders| ==> PathOf(now, k) == PathOf(folders, k)
  {
    hide Clean, Extend, TableOk, PathOf, Key, AllClean;
    now, table, id := folders, byPath, 0;
    TableTree(folders, byPath);
    var prefix := "";
    for i := 0 to |path|
      invariant TableOk(now, table) && TreeOk(now) && folders <= now && id < |now|
      invariant Key(PathOf(now, id)) == prefix == Key(path[..i])
      invariant AllClean(folders) && CleanPath(path) ==> AllClean(now) && PathOf(now, id) == path[..i]
      invariant forall k :: 0 <= k < |folders| ==> PathOf(now, k) == PathOf(folders, k)
    {
      var part := path[i];
      KeySnoc(path, i);
      prefix := Extend(prefix, part);
      if prefix !in table {
        NewFolder(now, table, id, part);
        PathSnoc(PathOf(now, id), part);
        now, table := now + [Folder(id, part)], table[prefix := |now|];
        TableTree(now, table);
      } else {
        KnownFolder(now, table, path[..i + 1]);
      }
      id := table[prefix];
    }
    assert path[..|path|] == path;
  }

  /** No two folders have the same path. */
  lemma OnePerPath(folders: seq<Folder>, byPath: map<string, nat>, a: nat, b: nat)
    requires TableOk(folders, byPath) && a < |folders| && b < |folders| && PathOf(folders, a) == PathOf(folders, b)
    ensures a == b
  {
    var keys := Keys(folders);
    assert keys[a] == keys[b];
    RootOnly(folders, a);
    RootOnly(folders, b);
  }

  lemma RootOnly(folders: seq<Folder>, id: nat)
    requires TreeOk(folders) && id < |folders|
    ensures PathOf(folders, id) == [] <==> id == 0
  {
  }

  lemma TableTree(folders: seq<Folder>, byPath: map<string, nat>)
    requires TableOk(folders, byPath)
    ensures TreeOk(folders) && |folders| >= 1 && PathOf(folders, 0) == [] && Key([]) == ""
  {
  }

  lemma PathSnoc(path: seq<string>, part: string)
    ensures Key(path + [part]) == Extend(Key(path), part)
  {
    assert (path + [part])[..|path|] == path;
  }

  lemma KeySnoc(path: seq<string>, i: nat)
    requires i < |path|
    ensures Key(path[..i + 1]) == Extend(Key(path[..i]), path[i]) && path[..i + 1] == path[..i] + [path[i]]
    ensures CleanPath(path) ==> CleanPath(path[..i + 1]) && Clean(path[i])
  {
    hide Clean, Extend;
    assert path[..i + 1][..i] == path[..i];
  }
}
