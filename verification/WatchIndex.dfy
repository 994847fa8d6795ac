/** The index of the scopes watcher as a value: which scope directory holds which configuration file, which scope
    directories belong to which installation directory, and which scope ids are announced to the registry. */
module WatchIndex {
  import opened Bytes
  import opened Results
  import opened ScopeFiles

  datatype Folder = Folder(subdirs: seq<Str>, files: seq<Str>)

  /** What the file system looks like while one event is handled: the names in each directory, and the
      files that are not empty. */
  datatype Disk = Disk(folders: map<Str, Folder>, filled: set<Str>)

  function Paths(dir: Str, names: seq<Str>): seq<Str> {
    seq(|names|, i requires 0 <= i < |names| => Join(dir, names[i]))
  }

  /** find_entries(): a path that is not a directory has no entries. */
  function FilesIn(disk: Disk, dir: Str): seq<Str> {
    if dir in disk.folders then Paths(dir, disk.folders[dir].files) else []
  }

  function SubdirsIn(disk: Disk, dir: Str): seq<Str> {
    if dir in disk.folders then Paths(dir, disk.folders[dir].subdirs) else []
  }

  datatype Index = Index(scopes: map<Str, Str>, installs: map<Str, set<Str>>, announced: set<Str>)

  const EMPTY := Index(map[], map[], {})

  // ----- operations

  /** The ids configured in a directory. */
  ghost function IdsIn(disk: Disk, dir: Str): set<Str> {
    set path | path in FilesIn(disk, dir) && IsConfig(path) :: Stem(path)
  }

  /** The configuration that add_scope_dir() uses: the one with the least id, unless it is still empty. */
  ghost function Chosen(disk: Disk, dir: Str): Option<Str> {
    if IdsIn(disk, dir) == {} then None
    else
      var path := InFolder(FilesIn(disk, dir), Least(IdsIn(disk, dir)));
      if path.Some? && path.value in disk.filled then path else None
  }

  function Enlist(installs: map<Str, set<Str>>, dir: Str): map<Str, set<Str>> {
    var parent := ParentDir(dir);
    if parent in installs then installs[parent := installs[parent] + {dir}] else installs
  }

  function Delist(installs: map<Str, set<Str>>, dir: Str): map<Str, set<Str>> {
    var parent := ParentDir(dir);
    if parent in installs then installs[parent := installs[parent] - {dir}] else installs
  }

  function Announce(ix: Index, dir: Str, path: Str): Index {
    ix.(scopes := ix.scopes[dir := path], announced := ix.announced + {Stem(path)})
  }

  ghost function AddScope(ix: Index, disk: Disk, dir: Str): Index {
    var path := Chosen(disk, dir);
    if path.None? then ix else Announce(ix, dir, path.value).(installs := Enlist(ix.installs, dir))
  }

  ghost function AddScopes(ix: Index, disk: Disk, dirs: seq<Str>): Index {
    if dirs == [] then ix else AddScope(AddScopes(ix, disk, dirs[..|dirs| - 1]), disk, dirs[|dirs| - 1])
  }

  function DropScope(ix: Index, dir: Str): Index {
    if dir !in ix.scopes then ix
    else Index(ix.scopes - {dir}, Delist(ix.installs, dir), ix.announced - {Stem(ix.scopes[dir])})
  }

  function DropScopes(ix: Index, dirs: seq<Str>): Index {
    if dirs == [] then ix else DropScope(DropScopes(ix, dirs[..|dirs| - 1]), dirs[|dirs| - 1])
  }

  /** The path without one trailing slash. */
  function InstallKey(dir: Str): Str {
    if dir != [] && dir[|dir| - 1] == SLASH then dir[..|dir| - 1] else dir
  }

  ghost function AddInstall(ix: Index, disk: Disk, dir: Str): Index {
    AddScopes(ix.(installs := ix.installs[InstallKey(dir) := {}]), disk, SubdirsIn(disk, dir))
  }

  ghost function DropInstall(ix: Index, dir: Str): Index {
    if dir in ix.installs then DropScopes(ix, SortedKeys(ix.installs[dir])) else ix
  }

  /** The registry refuses to remove the empty id, the stem of a file called ".ini". */
  predicate Unnamed(ix: Index, dir: Str) {
    dir in ix.scopes && Stem(ix.scopes[dir]) == []
  }

  ghost predicate AnyUnnamed(ix: Index, dirs: set<Str>) {
    exists d :: d in dirs && Unnamed(ix, d)
  }

  /** The directories that are dropped before the registry refuses, including the one it refuses. */
  function Dropped(ix: Index, dirs: seq<Str>): seq<Str> {
    if dirs == [] then []
    else if Unnamed(ix, dirs[0]) then [dirs[0]]
    else [dirs[0]] + Dropped(ix, dirs[1..])
  }

  lemma {:induction false} DroppedUpTo(ix: Index, dirs: seq<Str>, k: nat)
    requires k <= |dirs| && forall j :: 0 <= j < k ==> !Unnamed(ix, dirs[j])
    ensures k == |dirs| ==> Dropped(ix, dirs) == dirs
    ensures k < |dirs| && Unnamed(ix, dirs[k]) ==> Dropped(ix, dirs) == dirs[..k + 1]
  {
    if k > 0 {
      assert forall j :: 0 <= j < k - 1 ==> dirs[1..][j] == dirs[j + 1];
      DroppedUpTo(ix, dirs[1..], k - 1);
      assert dirs == [dirs[0]] + dirs[1..];
      assert k < |dirs| ==> dirs[..k + 1] == [dirs[0]] + dirs[1..][..k];
    } else {
      assert dirs != [] ==> dirs[..1] == [dirs[0]];
    }
  }

  // ----- events

  datatype Change = Added | Modified | Removed

  datatype Event =
    | Install(disk: Disk, dir: Str)
    | Changed(disk: Disk, change: Change, isFile: bool, path: Str)

  ghost function Handle(ix: Index, e: Event): Index {
    match e
    case Install(disk, dir) => AddInstall(ix, disk, dir)
    case Changed(disk, change, isFile, path) =>
      if isFile && IsConfig(path) then ConfigChanged(ix, disk, change, path)
      else if path in ix.installs then
        (match change
         case Added => AddInstall(ix, disk, path)
         case Removed => DropInstall(ix, path)
         case Modified => ix)
      else if ParentDir(path) in ix.installs then
        (match change
         case Added => AddScope(ix, disk, path)
         case Removed => DropScope(ix, path)
         case Modified => ix)
      else ix
  }

  /** The exception, if any, that ends the handling of an event and with it the watcher's thread. */
  ghost function Failure(ix: Index, watched: set<Str>, disk: Disk, change: Change, isFile: bool, path: Str): Option<Exception> {
    if isFile && IsConfig(path) then
      if change == Removed && Stem(path) == [] then Some(InvalidArgument) else None
    else if path in ix.installs then
      if change == Added && (path in watched || (path == ParentDir(path) && path in disk.folders)) then Some(Logic)
      else if change == Removed && AnyUnnamed(ix, ix.installs[path]) then Some(InvalidArgument)
      else None
    else if change == Removed && ParentDir(path) in ix.installs && Unnamed(ix, path) then Some(InvalidArgument)
    else None
  }

  /** What such an event leaves behind. */
  ghost function Aborted(ix: Index, disk: Disk, change: Change, isFile: bool, path: Str): Index {
    if isFile && IsConfig(path) then ConfigChanged(ix, disk, change, path)
    else if path in ix.installs then
      if change == Added then ix.(installs := ix.installs[InstallKey(path) := {}])
      else DropScopes(ix, Dropped(ix, SortedKeys(ix.installs[path])))
    else DropScope(ix, path)
  }

  function ConfigChanged(ix: Index, disk: Disk, change: Change, path: Str): Index {
    match change
    case Added => if path in disk.filled then Announce(ix, ParentPath(path), path) else ix
    case Modified => Announce(ix, ParentPath(path), path)
    case Removed => ix.(scopes := ix.scopes - {ParentPath(path)}, announced := ix.announced - {Stem(path)})
  }

  ghost function Run(es: seq<Event>): Index {
    if es == [] then EMPTY else Handle(Run(es[..|es| - 1]), es[|es| - 1])
  }

  // ----- scope directories are listed under their parents, in every run

  ghost predicate Rooted(ix: Index) {
    forall i, d :: i in ix.installs && d in ix.installs[i] ==> ParentDir(d) == i
  }

  lemma {:induction false} AddScopesRooted(ix: Index, disk: Disk, dirs: seq<Str>)
    requires Rooted(ix)
    ensures Rooted(AddScopes(ix, disk, dirs))
  {
    if dirs != [] {
      AddScopesRooted(ix, disk, dirs[..|dirs| - 1]);
      OneScopeRooted(AddScopes(ix, disk, dirs[..|dirs| - 1]), disk, dirs[|dirs| - 1]);
    }
  }

  lemma {:induction false} DropScopesRooted(ix: Index, dirs: seq<Str>)
    requires Rooted(ix)
    ensures Rooted(DropScopes(ix, dirs))
  {
    if dirs != [] {
      DropScopesRooted(ix, dirs[..|dirs| - 1]);
    }
  }

  lemma AddInstallRooted(ix: Index, disk: Disk, dir: Str)
    requires Rooted(ix)
    ensures Rooted(AddInstall(ix, disk, dir))
  {
    AddScopesRooted(ix.(installs := ix.installs[InstallKey(dir) := {}]), disk, SubdirsIn(disk, dir));
  }

  lemma EnlistRooted(ix: Index, ix': Index, dir: Str)
    requires Rooted(ix) && ix'.installs in {ix.installs, Enlist(ix.installs, dir), Delist(ix.installs, dir)}
    ensures Rooted(ix')
  {
  }

  lemma OneScopeRooted(ix: Index, disk: Disk, dir: Str)
    requires Rooted(ix)
    ensures Rooted(AddScope(ix, disk, dir)) && Rooted(DropScope(ix, dir))
  {
    EnlistRooted(ix, AddScope(ix, disk, dir), dir);
    EnlistRooted(ix, DropScope(ix, dir), dir);
  }

  lemma ConfigChangedRooted(ix: Index, disk: Disk, change: Change, path: Str)
    requires Rooted(ix)
    ensures Rooted(ConfigChanged(ix, disk, change, path))
  {
    assert ConfigChanged(ix, disk, change, path).installs == ix.installs;
  }

  lemma HandleRooted(ix: Index, e: Event)
    requires Rooted(ix)
    ensures Rooted(Handle(ix, e))
  {
    match e
    case Install(disk, dir) =>
      AddInstallRooted(ix, disk, dir);
    case Changed(disk, change, isFile, path) =>
      if isFile && IsConfig(path) {
        ConfigChangedRooted(ix, disk, change, path);
      } else if path in ix.installs {
        AddInstallRooted(ix, disk, path);
        DropScopesRooted(ix, SortedKeys(ix.installs[path]));
      } else {
        OneScopeRooted(ix, disk, path);
      }
  }

  lemma {:induction false} ListedUnderParent(es: seq<Event>)
    ensures Rooted(Run(es))
  {
    if es != [] {
      ListedUnderParent(es[..|es| - 1]);
      HandleRooted(Run(es[..|es| - 1]), es[|es| - 1]);
    }
  }

  // ----- the announced scopes are those of the index

  ghost predicate Agrees(ix: Index) {
    forall id :: id in ix.announced <==> Configured(ix.scopes, id)
  }

  ghost predicate Configured(scopes: map<Str, Str>, id: Str) {
    exists d :: d in scopes && Stem(scopes[d]) == id
  }

  lemma ConfiguredAfterPut(s: map<Str, Str>, dir: Str, path: Str, id: Str)
    ensures Configured(s[dir := path], id) <==> id == Stem(path) || Configured(s - {dir}, id)
  {
    var s', rest := s[dir := path], s - {dir};
    assert s'[dir] == path;
    assert forall d :: d in s' ==> d == dir || (d in rest && rest[d] == s'[d]);
    assert forall d :: d in rest ==> d in s' && rest[d] == s'[d];
  }

  lemma ConfiguredWithout(s: map<Str, Str>, dir: Str, id: Str)
    requires dir in s
    ensures Configured(s, id) <==> id == Stem(s[dir]) || Configured(s - {dir}, id)
  {
    assert s[dir := s[dir]] == s;
    ConfiguredAfterPut(s, dir, s[dir], id);
  }

  /** Putting `path` in place of the configuration of `dir` leaves the old scope without one. */
  ghost predicate Displaces(s: map<Str, Str>, dir: Str, path: Str) {
    dir in s && Stem(s[dir]) != Stem(path) && !Configured(s - {dir}, Stem(s[dir]))
  }

  lemma AnnounceAgrees(ix: Index, dir: Str, path: Str, id: Str)
    requires Agrees(ix) && !Displaces(ix.scopes, dir, path)
    ensures id in Announce(ix, dir, path).announced <==> Configured(ix.scopes[dir := path], id)
  {
    ConfiguredAfterPut(ix.scopes, dir, path, id);
    if dir in ix.scopes {
      ConfiguredWithout(ix.scopes, dir, id);
    } else {
      assert ix.scopes - {dir} == ix.scopes;
    }
  }

  /** Announcing a configuration keeps the agreement exactly if it does not displace another scope's last one. */
  lemma AnnounceAgreesIff(ix: Index, dir: Str, path: Str)
    requires Agrees(ix)
    ensures Agrees(Announce(ix, dir, path)) <==> !Displaces(ix.scopes, dir, path)
  {
    if Displaces(ix.scopes, dir, path) {
      var lost := Stem(ix.scopes[dir]);
      ConfiguredAfterPut(ix.scopes, dir, path, lost);
      ConfiguredWithout(ix.scopes, dir, lost);
      assert lost in Announce(ix, dir, path).announced;
    } else {
      forall id: Str {
        AnnounceAgrees(ix, dir, path, id);
      }
    }
  }

  /** Removing a scope directory keeps the agreement exactly if no other directory holds a scope with the same id. */
  lemma DropAgreesIff(ix: Index, dir: Str)
    requires Agrees(ix) && dir in ix.scopes
    ensures Agrees(DropScope(ix, dir)) <==> !Configured(ix.scopes - {dir}, Stem(ix.scopes[dir]))
  {
    var s := ix.scopes;
    assert forall d :: d in s && d != dir ==> d in s - {dir} && (s - {dir})[d] == s[d];
  }

  /** Removing a configuration file keeps the agreement exactly if no other directory holds a scope with that id and
      the directory's entry, if it is another file, is not the last configuration of its scope. */
  lemma ConfigRemovedAgreesIff(ix: Index, disk: Disk, path: Str)
    requires Agrees(ix)
    ensures var dir, id := ParentPath(path), Stem(path);
            Agrees(ConfigChanged(ix, disk, Removed, path)) <==>
            && !Configured(ix.scopes - {dir}, id)
            && (dir in ix.scopes && Stem(ix.scopes[dir]) != id ==> Configured(ix.scopes - {dir}, Stem(ix.scopes[dir])))
  {
    RemovalAgreesIff(ix, ParentPath(path), Stem(path));
  }

  lemma RemovalAgreesIff(ix: Index, dir: Str, id: Str)
    requires Agrees(ix)
    ensures Agrees(ix.(scopes := ix.scopes - {dir}, announced := ix.announced - {id})) <==>
            && !Configured(ix.scopes - {dir}, id)
            && (dir in ix.scopes && Stem(ix.scopes[dir]) != id ==> Configured(ix.scopes - {dir}, Stem(ix.scopes[dir])))
  {
    var s, rest := ix.scopes, ix.scopes - {dir};
    if dir in s {
      forall x: Str {
        ConfiguredWithout(s, dir, x);
      }
    } else {
      assert rest == s;
    }
  }

  /** `ids` gives every scope directory its one scope id, and different directories different ids. */
  ghost predicate OneToOne(ids: map<Str, Str>) {
    forall c, d :: c in ids && d in ids && ids[c] == ids[d] ==> c == d
  }

  /** Every configuration file that the event touches or the disk shows is the one that `ids` expects. */
  ghost predicate Tidy(ids: map<Str, Str>, e: Event) {
    && (forall d, path :: d in e.disk.folders && path in FilesIn(e.disk, d) && IsConfig(path) ==>
          d in ids && ids[d] == Stem(path))
    && (e.Changed? && e.isFile && IsConfig(e.path) ==>
          ParentPath(e.path) in ids && ids[ParentPath(e.path)] == Stem(e.path))
  }

  ghost predicate Matches(ix: Index, ids: map<Str, Str>) {
    && (forall d :: d in ix.scopes ==> d in ids && ids[d] == Stem(ix.scopes[d]))
    && Agrees(ix)
  }

  lemma AnnounceMatches(ix: Index, ids: map<Str, Str>, dir: Str, path: Str)
    requires Matches(ix, ids) && dir in ids && ids[dir] == Stem(path)
    ensures Matches(Announce(ix, dir, path), ids)
  {
    AnnounceAgreesIff(ix, dir, path);
  }

  lemma OnlyInstallsDiffer(ix: Index, ids: map<Str, Str>, installs: map<Str, set<Str>>)
    requires Matches(ix, ids)
    ensures Matches(ix.(installs := installs), ids)
  {
  }

  lemma EraseMatches(ix: Index, ids: map<Str, Str>, dir: Str, id: Str, installs: map<Str, set<Str>>)
    requires Matches(ix, ids) && OneToOne(ids) && dir in ids && ids[dir] == id
    ensures Matches(Index(ix.scopes - {dir}, installs, ix.announced - {id}), ids)
  {
    var s, s' := ix.scopes, ix.scopes - {dir};
    assert forall d :: d in s' ==> s'[d] == s[d];
    assert forall d :: d in s && d != dir ==> d in s';
  }

  lemma ChosenIsTidy(disk: Disk, dir: Str)
    requires Chosen(disk, dir).Some?
    ensures dir in disk.folders && Chosen(disk, dir).value in FilesIn(disk, dir) && IsConfig(Chosen(disk, dir).value)
  {
    var k := InFolderIsFirst(FilesIn(disk, dir), Least(IdsIn(disk, dir)));
  }

  lemma {:induction false} AddScopesMatch(ix: Index, ids: map<Str, Str>, e: Event, dirs: seq<Str>)
    requires Matches(ix, ids) && Tidy(ids, e)
    ensures Matches(AddScopes(ix, e.disk, dirs), ids)
  {
    if dirs != [] {
      var dir := dirs[|dirs| - 1];
      AddScopesMatch(ix, ids, e, dirs[..|dirs| - 1]);
      AddScopeMatches(AddScopes(ix, e.disk, dirs[..|dirs| - 1]), ids, e, dir);
    }
  }

  lemma AddConfigMatches(ix: Index, ids: map<Str, Str>, dir: Str, path: Str)
    requires Matches(ix, ids) && dir in ids && ids[dir] == Stem(path)
    ensures Matches(Announce(ix, dir, path).(installs := Enlist(ix.installs, dir)), ids)
  {
    AnnounceMatches(ix, ids, dir, path);
    OnlyInstallsDiffer(Announce(ix, dir, path), ids, Enlist(ix.installs, dir));
  }

  lemma TidyConfig(ids: map<Str, Str>, e: Event, dir: Str, path: Str)
    requires Tidy(ids, e) && dir in e.disk.folders && path in FilesIn(e.disk, dir) && IsConfig(path)
    ensures dir in ids && ids[dir] == Stem(path)
  {
  }

  lemma AddScopeMatches(ix: Index, ids: map<Str, Str>, e: Event, dir: Str)
    requires Matches(ix, ids) && Tidy(ids, e)
    ensures Matches(AddScope(ix, e.disk, dir), ids)
  {
    if Chosen(e.disk, dir).Some? {
      var path := Chosen(e.disk, dir).value;
      assert dir in ids && ids[dir] == Stem(path) by {
        ChosenIsTidy(e.disk, dir);
        TidyConfig(ids, e, dir, path);
      }
      AddConfigMatches(ix, ids, dir, path);
    }
  }

  lemma DropScopeMatches(ix: Index, ids: map<Str, Str>, dir: Str)
    requires Matches(ix, ids) && OneToOne(ids)
    ensures Matches(DropScope(ix, dir), ids)
  {
    if dir in ix.scopes {
      EraseMatches(ix, ids, dir, Stem(ix.scopes[dir]), Delist(ix.installs, dir));
    }
  }

  lemma {:induction false} DropScopesMatch(ix: Index, ids: map<Str, Str>, dirs: seq<Str>)
    requires Matches(ix, ids) && OneToOne(ids)
    ensures Matches(DropScopes(ix, dirs), ids)
  {
    if dirs != [] {
      DropScopesMatch(ix, ids, dirs[..|dirs| - 1]);
      DropScopeMatches(DropScopes(ix, dirs[..|dirs| - 1]), ids, dirs[|dirs| - 1]);
    }
  }

  lemma AddInstallMatches(ix: Index, ids: map<Str, Str>, e: Event, dir: Str)
    requires Matches(ix, ids) && Tidy(ids, e)
    ensures Matches(AddInstall(ix, e.disk, dir), ids)
  {
    AddScopesMatch(ix.(installs := ix.installs[InstallKey(dir) := {}]), ids, e, SubdirsIn(e.disk, dir));
  }

  lemma ConfigChangedMatches(ix: Index, ids: map<Str, Str>, disk: Disk, change: Change, path: Str)
    requires Matches(ix, ids) && OneToOne(ids) && ParentPath(path) in ids && ids[ParentPath(path)] == Stem(path)
    ensures Matches(ConfigChanged(ix, disk, change, path), ids)
  {
    AnnounceMatches(ix, ids, ParentPath(path), path);
    EraseMatches(ix, ids, ParentPath(path), Stem(path), ix.installs);
  }

  lemma HandleMatches(ix: Index, ids: map<Str, Str>, e: Event)
    requires Matches(ix, ids) && OneToOne(ids) && Tidy(ids, e)
    ensures Matches(Handle(ix, e), ids)
  {
    match e
    case Install(disk, dir) =>
      AddInstallMatches(ix, ids, e, dir);
    case Changed(disk, change, isFile, path) =>
      if isFile && IsConfig(path) {
        ConfigChangedMatches(ix, ids, disk, change, path);
      } else if path in ix.installs {
        AddInstallMatches(ix, ids, e, path);
        DropScopesMatch(ix, ids, SortedKeys(ix.installs[path]));
      } else {
        AddScopeMatches(ix, ids, e, path);
        DropScopeMatches(ix, ids, path);
      }
  }

  /** In every run in which each directory only ever holds one scope and different directories hold different ones,
      the ids announced and not since removed are those of the configuration files in the index. */
  lemma {:induction false} AnnouncedAreIndexed(es: seq<Event>, ids: map<Str, Str>)
    requires OneToOne(ids) && forall i :: 0 <= i < |es| ==> Tidy(ids, es[i])
    ensures Matches(Run(es), ids)
  {
    if es != [] {
      var before := es[..|es| - 1];
      assert forall i :: 0 <= i < |before| ==> before[i] == es[i];
      AnnouncedAreIndexed(before, ids);
      HandleMatches(Run(before), ids, es[|es| - 1]);
    }
  }

  // ----- removing an installation directory

  lemma {:induction false} DropScopesRemoves(ix: Index, dirs: seq<Str>)
    ensures DropScopes(ix, dirs).scopes == ix.scopes - (set d | d in dirs)
  {
    if dirs != [] {
      var before := dirs[..|dirs| - 1];
      DropScopesRemoves(ix, before);
      assert dirs == before + [dirs[|dirs| - 1]];
    }
  }

  lemma StillUnnamed(ix: Index, dirs: seq<Str>, k: nat)
    requires k < |dirs| && Distinct(dirs)
    ensures Unnamed(DropScopes(ix, dirs[..k]), dirs[k]) == Unnamed(ix, dirs[k])
  {
    DropScopesRemoves(ix, dirs[..k]);
    assert dirs[k] !in dirs[..k];
  }

  /** Removing an installation directory clears every scope below it exactly if every such scope was listed. */
  lemma InstallDirIsClearedIff(ix: Index, e: Event)
    requires Rooted(ix) && e.Changed? && e.change == Removed && e.path in ix.installs && !(e.isFile && IsConfig(e.path))
    ensures (forall d :: d in Handle(ix, e).scopes ==> ParentDir(d) != e.path) <==>
            (forall d :: d in ix.scopes && ParentDir(d) == e.path ==> d in ix.installs[e.path])
    ensures forall d :: d in ix.scopes && ParentDir(d) != e.path ==> d in Handle(ix, e).scopes
  {
    DropScopesRemoves(ix, SortedKeys(ix.installs[e.path]));
  }

  lemma RunStep(es: seq<Event>, e: Event, ix: Index, next: Index)
    requires Run(es) == ix && Handle(ix, e) == next
    ensures Run(es + [e]) == next
  {
    assert (es + [e])[..|es|] == es;
  }

  lemma TwoConfigs(dir: Str, p: Str, q: Str, a: Str, b: Str)
    requires a != b
    ensures map[][dir := p] == map[dir := p] && map[dir := p][dir := q] == map[dir := q] && map[dir := q] - {dir} == map[]
    ensures {} + {a} == {a} && {a} + {b} == {a, b} && {a, b} - {a} == {b}
  {
  }

  lemma RunConfig(es: seq<Event>, disk: Disk, path: Str, dir: Str, id: Str, ix: Index)
    requires IsConfig(path) && ParentPath(path) == dir && Stem(path) == id && Run(es) == ix
    ensures Run(es + [Changed(disk, Modified, true, path)]) == Index(ix.scopes[dir := path], ix.installs, ix.announced + {id})
    ensures Run(es + [Changed(disk, Removed, true, path)]) == Index(ix.scopes - {dir}, ix.installs, ix.announced - {id})
  {
    RunStep(es, Changed(disk, Modified, true, path), ix, Announce(ix, dir, path));
    RunStep(es, Changed(disk, Removed, true, path), ix, Index(ix.scopes - {dir}, ix.installs, ix.announced - {id}));
  }

  ghost predicate ConfigsIn(dir: Str, paths: map<Str, Str>) {
    forall id :: id in paths ==> IsConfig(paths[id]) && ParentPath(paths[id]) == dir && Stem(paths[id]) == id
  }

  lemma RunTwoConfigs(dir: Str, paths: map<Str, Str>, a: Str, b: Str, disk: Disk)
    requires ConfigsIn(dir, paths) && a != b && a in paths && b in paths
    ensures var es := [] + [Changed(disk, Modified, true, paths[a])] + [Changed(disk, Modified, true, paths[b])]
                      + [Changed(disk, Removed, true, paths[a])];
            Run(es).announced == {b} && Run(es).scopes == map[]
  {
    var p, q := paths[a], paths[b];
    var ix1, ix2 := Index(map[dir := p], map[], {a}), Index(map[dir := q], map[], {a, b});
    TwoConfigs(dir, p, q, a, b);
    var es1 := [] + [Changed(disk, Modified, true, p)];
    assert Run(es1) == ix1 by {
      RunConfig([], disk, p, dir, a, EMPTY);
    }
    var es2 := es1 + [Changed(disk, Modified, true, q)];
    assert Run(es2) == ix2 by {
      RunConfig(es1, disk, q, dir, b, ix1);
    }
    assert Run(es2 + [Changed(disk, Removed, true, p)]) == Index(map[], map[], {b}) by {
      RunConfig(es2, disk, p, dir, a, ix2);
    }
  }

  /** None of the ids contains a slash or makes its file look like a settings file. */
  ghost predicate ScopeIds(dir: Str, ids: set<Str>) {
    forall id :: id in ids ==> SLASH !in id && !EndsWith(Join(dir, id + INI), SETTINGS_INI)
  }

  ghost function ConfigPaths(dir: Str, ids: set<Str>): map<Str, Str> {
    map id | id in ids :: Join(dir, id + INI)
  }

  lemma IdsNameConfigs(dir: Str, ids: set<Str>)
    requires Plain(dir) && ScopeIds(dir, ids)
    ensures ConfigsIn(dir, ConfigPaths(dir, ids))
  {
    forall id | id in ids
      ensures var p := Join(dir, id + INI); IsConfig(p) && ParentPath(p) == dir && Stem(p) == id
    {
      ConfigParts(dir, id);
    }
  }

  /** Two configuration files in one directory: once both have been seen and the first is gone, the second is
      announced but no longer indexed. */
  lemma TwoConfigsDrift(dir: Str, ids: set<Str>, a: Str, b: Str, disk: Disk)
    requires Plain(dir) && ScopeIds(dir, ids) && {a, b} <= ids && a != b
    ensures var p, q := ConfigPaths(dir, ids)[a], ConfigPaths(dir, ids)[b];
            var es := [] + [Changed(disk, Modified, true, p)] + [Changed(disk, Modified, true, q)]
                      + [Changed(disk, Removed, true, p)];
            Run(es).announced == {b} && Run(es).scopes == map[]
  {
    IdsNameConfigs(dir, ids);
    RunTwoConfigs(dir, ConfigPaths(dir, ids), a, b, disk);
  }

  /** A directory without files adds nothing. */
  lemma EmptyFolder(ix: Index, disk: Disk, dir: Str)
    requires dir in disk.folders && disk.folders[dir] == Folder([], [])
    ensures AddScope(ix, disk, dir) == ix
    ensures AddInstall(ix, disk, dir) == ix.(installs := ix.installs[InstallKey(dir) := {}])
  {
    assert FilesIn(disk, dir) == [];
    assert IdsIn(disk, dir) == {};
  }

  /** What the file system looks like at the four events: an empty installation directory, a new empty directory in
      it, a configuration file in that, and then the whole installation directory moved away. */
  ghost function Disks(install: Str, name: Str, file: Str): seq<Disk> {
    var dir := Join(install, name);
    [Disk(map[install := Folder([], [])], {}),
     Disk(map[install := Folder([name], []), dir := Folder([], [])], {}),
     Disk(map[install := Folder([name], []), dir := Folder([], [file])], {Join(dir, file)}),
     Disk(map[], {})]
  }

  lemma OutlivingSteps(install: Str, dir: Str, path: Str, id: Str, disks: seq<Disk>)
    requires Plain(install) && dir != install && ParentDir(dir) == install
    requires IsConfig(path) && ParentPath(path) == dir && Stem(path) == id
    requires |disks| == 4 && install in disks[0].folders && dir in disks[1].folders
    requires disks[0].folders[install] == Folder([], []) && disks[1].folders[dir] == Folder([], [])
    ensures var es := [] + [Install(disks[0], install)] + [Changed(disks[1], Added, false, dir)]
                      + [Changed(disks[2], Modified, true, path)] + [Changed(disks[3], Removed, false, install)];
            Run(es).scopes == map[dir := path] && Run(es).announced == {id}
  {
    var e1, e2 := Install(disks[0], install), Changed(disks[1], Added, false, dir);
    var e3, e4 := Changed(disks[2], Modified, true, path), Changed(disks[3], Removed, false, install);
    var ix1, ix3 := Index(map[], map[install := {}], {}), Index(map[dir := path], map[install := {}], {id});
    var es1, es2 := [] + [e1], [] + [e1] + [e2];
    var es3 := es2 + [e3];
    assert Run(es1) == ix1 by {
      EmptyFolder(EMPTY, disks[0], install);
      RunStep([], e1, EMPTY, ix1);
    }
    assert Run(es2) == ix1 by {
      EmptyFolder(ix1, disks[1], dir);
      RunStep(es1, e2, ix1, ix1);
    }
    assert Run(es3) == ix3 by {
      RunConfig(es2, disks[2], path, dir, id, ix1);
    }
    assert Run(es3 + [e4]) == ix3 by {
      RunStep(es3, e4, ix3, ix3);
    }
  }

  /** A scope whose configuration file appears in a directory that was empty when it was found is never listed, so
      it stays announced when its installation directory is moved away. */
  lemma ScopeOutlivesItsInstallDir(install: Str, name: Str, id: Str)
    requires Plain(install) && name != [] && SLASH !in name
    requires ScopeIds(Join(install, name), {id})
    ensures var dir, disks := Join(install, name), Disks(install, name, id + INI);
            var path := Join(dir, id + INI);
            var es := [] + [Install(disks[0], install)] + [Changed(disks[1], Added, false, dir)]
                      + [Changed(disks[2], Modified, true, path)] + [Changed(disks[3], Removed, false, install)];
            Run(es).scopes == map[dir := path] && Run(es).announced == {id}
  {
    var dir := Join(install, name);
    assert dir != install && ParentDir(dir) == install && Plain(dir) by {
      JoinParts(install, name);
      assert |dir| > |install|;
    }
    var path := Join(dir, id + INI);
    assert IsConfig(path) && ParentPath(path) == dir && Stem(path) == id by {
      IdsNameConfigs(dir, {id});
      assert ConfigPaths(dir, {id})[id] == path;
    }
    OutlivingSteps(install, dir, path, id, Disks(install, name, id + INI));
  }
}
