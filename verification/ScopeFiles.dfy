/** Paths of scope configuration files, and the scan of an installation directory for them. */
module ScopeFiles {
  import opened Bytes
  import opened Results

  // ----- paths, as Boost.Filesystem takes them apart

  const SLASH: Byte := '/'
  const DOT: Byte := '.'
  const INI: Str := ".ini"
  const SETTINGS_INI: Str := "-settings.ini"

  predicate EndsWith(s: Str, suffix: Str) {
    |suffix| <= |s| && s[|s| - |suffix|..] == suffix
  }

  /** The position after the last `c`; 0 if there is none. */
  function AfterLast(s: Str, c: Byte): (k: nat)
    ensures k <= |s| && c !in s[k..]
    ensures k > 0 ==> s[k - 1] == c
  {
    if s == [] then 0
    else if s[|s| - 1] == c then |s|
    else
      var k := AfterLast(s[..|s| - 1], c);
      assert s[k..] == s[..|s| - 1][k..] + [s[|s| - 1]];
      k
  }

  /** Drops trailing slashes, but not the root directory. */
  function Trim(s: Str): Str {
    if |s| > 1 && s[|s| - 1] == SLASH then Trim(s[..|s| - 1]) else s
  }

  function ParentPath(p: Str): Str {
    if Trim(p) == [SLASH] then []
    else if p != [] && p[|p| - 1] == SLASH then Trim(p)
    else Trim(p[..AfterLast(p, SLASH)])
  }

  /** ScopesWatcher::parent_dir(): one trailing slash is ignored. */
  function ParentDir(p: Str): Str {
    if p != [] && p[|p| - 1] == SLASH then ParentPath(p[..|p| - 1]) else ParentPath(p)
  }

  function FileName(p: Str): Str {
    if Trim(p) == [SLASH] then [SLASH]
    else if p != [] && p[|p| - 1] == SLASH then [DOT]
    else p[AfterLast(p, SLASH)..]
  }

  predicate IsDots(name: Str) {
    name == [DOT] || name == [DOT, DOT]
  }

  function Extension(p: Str): Str {
    var name := FileName(p);
    var k := AfterLast(name, DOT);
    if IsDots(name) || k == 0 then [] else name[k - 1..]
  }

  function Stem(p: Str): Str {
    var name := FileName(p);
    var k := AfterLast(name, DOT);
    if IsDots(name) || k == 0 then name else name[..k - 1]
  }

  predicate IsConfig(p: Str) {
    Extension(p) == INI && !EndsWith(p, SETTINGS_INI)
  }

  function Join(dir: Str, name: Str): Str {
    dir + [SLASH] + name
  }

  lemma {:induction false} AfterLastIs(s: Str, c: Byte, k: nat)
    requires k <= |s| && c !in s[k..] && (k > 0 ==> s[k - 1] == c)
    ensures AfterLast(s, c) == k
  {
    var l := AfterLast(s, c);
    assert forall i :: l <= i < |s| ==> s[i] == s[l..][i - l];
    assert forall i :: k <= i < |s| ==> s[i] == s[k..][i - k];
  }

  /** A directory path that needs no trimming. */
  predicate Plain(dir: Str) {
    dir != [] && dir[|dir| - 1] != SLASH
  }

  lemma {:induction false} JoinParts(dir: Str, name: Str)
    requires Plain(dir) && name != [] && SLASH !in name
    ensures FileName(Join(dir, name)) == name
    ensures ParentPath(Join(dir, name)) == dir && ParentDir(Join(dir, name)) == dir
    ensures Plain(Join(dir, name))
  {
    var p := Join(dir, name);
    var k := |dir| + 1;
    assert p[k..] == name && p[..k] == dir + [SLASH];
    assert p[|p| - 1] == name[|name| - 1] && name[|name| - 1] in name;
    AfterLastIs(p, SLASH, k);
    assert (dir + [SLASH])[..|dir|] == dir;
    assert Trim(p) == p && Trim(dir + [SLASH]) == Trim(dir) == dir;
  }

  /** The id of a scope is the name of its configuration file without the suffix. */
  lemma {:induction false} ConfigParts(dir: Str, id: Str)
    requires Plain(dir) && SLASH !in id && !EndsWith(Join(dir, id + INI), SETTINGS_INI)
    ensures IsConfig(Join(dir, id + INI)) && Stem(Join(dir, id + INI)) == id
    ensures ParentPath(Join(dir, id + INI)) == dir
  {
    var name := id + INI;
    assert forall c :: c in name ==> c in id || c in INI;
    JoinParts(dir, name);
    assert name[|id| + 1..] == INI[1..] && name[|id|] == DOT && name[|id|..] == INI && name[..|id|] == id;
    AfterLastIs(name, DOT, |id| + 1);
    assert |name| >= 4;
  }

  /** Exactly the names that end in ".ini", but not in "-settings.ini", are configuration files. */
  lemma {:induction false} ConfigIffIni(dir: Str, name: Str)
    requires Plain(dir) && name != [] && SLASH !in name
    ensures IsConfig(Join(dir, name)) <==> EndsWith(name, ".ini") && !EndsWith(Join(dir, name), "-settings.ini")
  {
    JoinParts(dir, name);
    var k := AfterLast(name, DOT);
    if EndsWith(name, INI) {
      IniExtension(name);
    }
    assert k > 0 && name[k - 1..] == INI ==> |name| - (k - 1) == |INI| == 4;
  }

  lemma IniExtension(name: Str)
    requires EndsWith(name, INI)
    ensures AfterLast(name, DOT) == |name| - 3 && name[|name| - 4..] == INI && !IsDots(name)
  {
    var tail := name[|name| - 4..];
    assert forall i :: |name| - 4 <= i < |name| ==> name[i] == tail[i - (|name| - 4)];
    assert name[|name| - 3..] == tail[1..] == INI[1..];
    assert DOT !in INI[1..];
    AfterLastIs(name, DOT, |name| - 3);
  }

  // ----- scanning

  predicate Offers(path: Str, id: Str) {
    IsConfig(path) && Stem(path) == id
  }

  /** The first configuration file for `id` among the files of one directory. */
  function InFolder(paths: seq<Str>, id: Str): Option<Str> {
    if paths == [] then None
    else if Offers(paths[0], id) then Some(paths[0])
    else InFolder(paths[1..], id)
  }

  /** The first one in the first directory that has one. */
  function Found(folders: seq<seq<Str>>, id: Str): Option<Str> {
    if folders == [] then None
    else if InFolder(folders[0], id).Some? then InFolder(folders[0], id)
    else Found(folders[1..], id)
  }

  /** `folders[i][k]` is the first file for `id`, directory by directory in listing order. */
  ghost predicate IsFirst(folders: seq<seq<Str>>, id: Str, i: nat, k: nat) {
    && i < |folders| && k < |folders[i]| && Offers(folders[i][k], id)
    && (forall l :: 0 <= l < k ==> !Offers(folders[i][l], id))
    && (forall j :: 0 <= j < i ==> Silent(folders[j], id))
  }

  ghost predicate Silent(paths: seq<Str>, id: Str) {
    forall l :: 0 <= l < |paths| ==> !Offers(paths[l], id)
  }

  /** Which of the files offer the id. */
  function Marks(paths: seq<Str>, id: Str): seq<bool> {
    Images(paths, path => Offers(path, id))
  }

  function Images(paths: seq<Str>, f: Str -> bool): seq<bool> {
    seq(|paths|, i requires 0 <= i < |paths| => f(paths[i]))
  }

  lemma ImagesRest(paths: seq<Str>, f: Str -> bool)
    requires paths != []
    ensures Images(paths[1..], f) == Images(paths, f)[1..]
  {
    assert forall i :: 0 < i < |paths| ==> paths[i] == paths[1..][i - 1];
  }

  function FirstMarked(paths: seq<Str>, marks: seq<bool>): Option<Str>
    requires |marks| == |paths|
  {
    if paths == [] then None else if marks[0] then Some(paths[0]) else FirstMarked(paths[1..], marks[1..])
  }

  lemma {:induction false} InFolderByMark(paths: seq<Str>, id: Str)
    ensures InFolder(paths, id) == FirstMarked(paths, Marks(paths, id))
  {
    if paths != [] {
      ImagesRest(paths, path => Offers(path, id));
      InFolderByMark(paths[1..], id);
    }
  }

  lemma {:induction false} FirstMark(paths: seq<Str>, marks: seq<bool>) returns (k: nat)
    requires |marks| == |paths|
    ensures k <= |paths| && (FirstMarked(paths, marks).None? <==> k == |paths|)
    ensures forall l :: 0 <= l < k ==> !marks[l]
    ensures k < |paths| ==> marks[k] && FirstMarked(paths, marks) == Some(paths[k])
  {
    if paths == [] || marks[0] {
      return 0;
    }
    k := FirstMark(paths[1..], marks[1..]);
    assert forall l :: 1 <= l < |marks| ==> marks[l] == marks[1..][l - 1];
    k := k + 1;
  }

  lemma InFolderIsFirst(paths: seq<Str>, id: Str) returns (k: nat)
    ensures k <= |paths| && (InFolder(paths, id).None? <==> k == |paths|)
    ensures forall l :: 0 <= l < k ==> !Offers(paths[l], id)
    ensures k < |paths| ==> Offers(paths[k], id) && InFolder(paths, id) == Some(paths[k])
  {
    var marks := Marks(paths, id);
    InFolderByMark(paths, id);
    k := FirstMark(paths, marks);
    assert forall l :: 0 <= l < |paths| ==> marks[l] == Offers(paths[l], id);
  }

  lemma FirstInRest(folders: seq<seq<Str>>, id: Str, i: nat, k: nat)
    requires folders != [] && Silent(folders[0], id) && IsFirst(folders[1..], id, i, k)
    ensures IsFirst(folders, id, i + 1, k)
  {
    assert forall j :: 1 <= j < |folders| ==> folders[j] == folders[1..][j - 1];
  }

  lemma InFirstFolder(folders: seq<seq<Str>>, id: Str) returns (k: nat)
    requires folders != []
    ensures InFolder(folders[0], id).Some? ==> IsFirst(folders, id, 0, k) && InFolder(folders[0], id) == Some(folders[0][k])
    ensures InFolder(folders[0], id).None? ==> Silent(folders[0], id)
  {
    k := InFolderIsFirst(folders[0], id);
  }

  /** No directory has a file for the id. */
  ghost predicate AllSilent(folders: seq<seq<Str>>, id: Str) {
    forall j :: 0 <= j < |folders| ==> Silent(folders[j], id)
  }

  lemma SilentRest(folders: seq<seq<Str>>, id: Str)
    requires folders != [] && Silent(folders[0], id) && AllSilent(folders[1..], id)
    ensures AllSilent(folders, id)
  {
    assert forall j :: 1 <= j < |folders| ==> folders[j] == folders[1..][j - 1];
  }

  /** First listed directory wins, and nothing is overlooked. */
  lemma {:induction false} FoundIsFirst(folders: seq<seq<Str>>, id: Str) returns (i: nat, k: nat)
    ensures Found(folders, id).Some? ==> IsFirst(folders, id, i, k) && Found(folders, id) == Some(folders[i][k])
    ensures Found(folders, id).None? ==> AllSilent(folders, id)
  {
    i, k := 0, 0;
    if folders != [] {
      k := InFirstFolder(folders, id);
      if InFolder(folders[0], id).None? {
        i, k := FoundIsFirst(folders[1..], id);
        if Found(folders[1..], id).Some? {
          FirstInRest(folders, id, i, k);
        } else {
          SilentRest(folders, id);
        }
        i := i + 1;
      }
    }
  }

  function At(m: map<Str, Str>, id: Str): Option<Str> {
    if id in m then Some(m[id]) else None
  }

  ghost predicate TabulatesFolder(m: map<Str, Str>, paths: seq<Str>) {
    forall id :: At(m, id) == InFolder(paths, id)
  }

  ghost predicate Tabulates(m: map<Str, Str>, folders: seq<seq<Str>>) {
    forall id :: At(m, id) == Found(folders, id)
  }

  lemma {:induction false} InFolderSplit(a: seq<Str>, b: seq<Str>, id: Str)
    ensures InFolder(a + b, id) == if InFolder(a, id).Some? then InFolder(a, id) else InFolder(b, id)
  {
    if a == [] {
      assert a + b == b;
    } else {
      assert (a + b)[1..] == a[1..] + b;
      InFolderSplit(a[1..], b, id);
    }
  }

  lemma {:induction false} FoundSplit(a: seq<seq<Str>>, b: seq<seq<Str>>, id: Str)
    ensures Found(a + b, id) == if Found(a, id).Some? then Found(a, id) else Found(b, id)
  {
    if a == [] {
      assert a + b == b;
    } else {
      assert (a + b)[1..] == a[1..] + b;
      FoundSplit(a[1..], b, id);
    }
  }

  lemma OneMoreFile(paths: seq<Str>, path: Str, files: map<Str, Str>)
    requires TabulatesFolder(files, paths)
    ensures TabulatesFolder(if IsConfig(path) && Stem(path) !in files then files[Stem(path) := path] else files, paths + [path])
  {
    forall id: Str {
      InFolderSplit(paths, [path], id);
    }
    assert forall id :: InFolder([path], id) == if IsConfig(path) && Stem(path) == id then Some(path) else None;
  }

  method FindScopeDirConfigs(paths: seq<Str>) returns (files: map<Str, Str>)
    ensures TabulatesFolder(files, paths)
  {
    files := map[];
    for i := 0 to |paths|
      invariant TabulatesFolder(files, paths[..i])
    {
      var path := paths[i];
      assert paths[..i + 1] == paths[..i] + [path];
      OneMoreFile(paths[..i], path, files);
      if Extension(path) != INI || EndsWith(path, SETTINGS_INI) {
        continue;
      }
      var id := Stem(path);
      if id !in files {
        files := files[id := path];
      }
    }
    assert paths[..|paths|] == paths;
  }

  /** Adding the configurations of one more directory to those already seen. */
  lemma OneMoreFolder(folders: seq<seq<Str>>, paths: seq<Str>, files: map<Str, Str>, configs: map<Str, Str>)
    requires Tabulates(files, folders) && TabulatesFolder(configs, paths)
    ensures Tabulates(configs + files, folders + [paths])
  {
    forall id: Str {
      FoundSplit(folders, [paths], id);
    }
    assert forall id :: Found([paths], id) == InFolder(paths, id);
  }

  /** map::insert of every entry: entries that are already there stay. */
  method InsertAll(seen: map<Str, Str>, configs: map<Str, Str>) returns (files: map<Str, Str>)
    ensures files == configs + seen
  {
    files := seen;
    var todo := configs.Keys;
    while todo != {}
      invariant todo <= configs.Keys && files.Keys == seen.Keys + (configs.Keys - todo)
      invariant forall id :: id in seen ==> files[id] == seen[id]
      invariant forall id :: id in files && id !in seen ==> id in configs && files[id] == configs[id]
    {
      var id :| id in todo;
      todo := todo - {id};
      if id !in files {
        files := files[id := configs[id]];
      }
    }
  }

  method FindInstallDirConfigs(folders: seq<seq<Str>>) returns (files: map<Str, Str>)
    ensures Tabulates(files, folders)
  {
    files := map[];
    for i := 0 to |folders|
      invariant Tabulates(files, folders[..i])
    {
      var configs := FindScopeDirConfigs(folders[i]);
      OneMoreFolder(folders[..i], folders[i], files, configs);
      files := InsertAll(files, configs);
      assert folders[..i + 1] == folders[..i] + [folders[i]];
    }
    assert folders[..|folders|] == folders;
  }
}
