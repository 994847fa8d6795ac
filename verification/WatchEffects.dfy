/** What the watcher does with scope directories that come and go, said on the file system. */
module WatchEffects {
  import opened Bytes
  import opened Results
  import opened ScopeFiles
  import opened WatchIndex

  /** `path` is the configuration file with the least id in the directory, in particular if it is the only one; of
      several files for that id it is the one that is listed first. */
  ghost predicate LeastConfig(disk: Disk, dir: Str, path: Str) {
    && (exists k :: FirstFor(FilesIn(disk, dir), path, k))
    && forall other :: other in FilesIn(disk, dir) && IsConfig(other) ==> !StrLess(Stem(other), Stem(path))
  }

  ghost predicate FirstFor(files: seq<Str>, path: Str, k: int) {
    && 0 <= k < |files| && files[k] == path && IsConfig(path)
    && forall j :: 0 <= j < k ==> !Offers(files[j], Stem(path))
  }

  ghost predicate NoConfig(disk: Disk, dir: Str) {
    forall path :: path in FilesIn(disk, dir) ==> !IsConfig(path)
  }

  /** Everything about other scope directories and other ids is as before. */
  ghost predicate SameBut(ix: Index, ix': Index, dir: Str, id: Str) {
    && (forall d :: d != dir ==> (d in ix'.scopes <==> d in ix.scopes) && (d in ix.scopes ==> ix'.scopes[d] == ix.scopes[d]))
    && (forall x :: x != id ==> (x in ix'.announced <==> x in ix.announced))
    && ix'.installs.Keys == ix.installs.Keys
    && (forall i, d :: i in ix.installs && d != dir ==> (d in ix'.installs[i] <==> d in ix.installs[i]))
  }

  /** The scope is indexed under its directory, announced, and listed under its installation directory. */
  ghost predicate PickedUp(ix: Index, dir: Str, path: Str) {
    && dir in ix.scopes && ix.scopes[dir] == path && Stem(path) in ix.announced
    && ParentDir(dir) in ix.installs && dir in ix.installs[ParentDir(dir)]
  }

  lemma LeastConfigIsChosen(disk: Disk, dir: Str, path: Str)
    requires LeastConfig(disk, dir, path)
    ensures Chosen(disk, dir) == if path in disk.filled then Some(path) else None
  {
    var paths, id := FilesIn(disk, dir), Stem(path);
    var k :| FirstFor(paths, path, k);
    assert id == Least(IdsIn(disk, dir)) && IdsIn(disk, dir) != {} by {
      assert path in paths && id in IdsIn(disk, dir);
      forall x | x in IdsIn(disk, dir) && x != id
        ensures StrLess(id, x)
      {
        StrTrichotomy(id, x);
      }
      LeastIsUnique(id, IdsIn(disk, dir));
    }
    FirstIsFound(paths, id, k);
  }

  lemma FirstIsFound(paths: seq<Str>, id: Str, k: nat)
    requires k < |paths| && Offers(paths[k], id) && forall j :: 0 <= j < k ==> !Offers(paths[j], id)
    ensures InFolder(paths, id) == Some(paths[k])
  {
    var marks := Marks(paths, id);
    InFolderByMark(paths, id);
    var j := FirstMark(paths, marks);
    assert forall l :: 0 <= l < |paths| ==> marks[l] == Offers(paths[l], id);
    assert marks[k] && forall l :: 0 <= l < k ==> !marks[l];
  }

  /** A directory with a configuration file has a least one. */
  lemma LeastConfigExists(disk: Disk, dir: Str) returns (path: Str)
    requires !NoConfig(disk, dir)
    ensures LeastConfig(disk, dir, path)
  {
    var paths, ids := FilesIn(disk, dir), IdsIn(disk, dir);
    var some :| some in paths && IsConfig(some);
    assert Stem(some) in ids;
    var id := LeastExists(ids);
    path := FirstOffer(paths, id);
    forall other | other in paths && IsConfig(other)
      ensures !StrLess(Stem(other), id)
    {
      assert Stem(other) in ids;
      StrTrichotomy(id, Stem(other));
    }
  }

  lemma FirstOffer(paths: seq<Str>, id: Str) returns (path: Str)
    requires exists one :: one in paths && Offers(one, id)
    ensures Stem(path) == id && exists k :: FirstFor(paths, path, k)
  {
    var k := InFolderIsFirst(paths, id);
    var one :| one in paths && Offers(one, id);
    var j :| 0 <= j < |paths| && paths[j] == one;
    path := paths[k];
    assert FirstFor(paths, path, k);
  }

  lemma NoConfigIsChosen(disk: Disk, dir: Str)
    requires NoConfig(disk, dir)
    ensures Chosen(disk, dir) == None
  {
    assert IdsIn(disk, dir) == {};
  }

  ghost function Take(ix: Index, dir: Str, pick: Option<Str>): Index {
    if pick.None? then ix else Announce(ix, dir, pick.value).(installs := Enlist(ix.installs, dir))
  }

  lemma TakeKeepsOthers(ix: Index, dir: Str, path: Str, id: Str)
    requires Stem(path) == id
    ensures SameBut(ix, Take(ix, dir, Some(path)), dir, id)
  {
  }

  lemma AddConfig(ix: Index, disk: Disk, dir: Str, path: Str)
    requires LeastConfig(disk, dir, path) && ParentDir(dir) in ix.installs
    ensures path in disk.filled ==> PickedUp(AddScope(ix, disk, dir), dir, path)
    ensures SameBut(ix, AddScope(ix, disk, dir), dir, Stem(path))
    ensures path !in disk.filled ==> AddScope(ix, disk, dir) == ix
  {
    LeastConfigIsChosen(disk, dir, path);
    assert AddScope(ix, disk, dir) == Take(ix, dir, if path in disk.filled then Some(path) else None);
    TakeKeepsOthers(ix, dir, path, Stem(path));
  }

  /** A directory that appears inside an installation directory. */
  ghost function Appears(disk: Disk, isFile: bool, dir: Str): Event {
    Changed(disk, Added, isFile, dir)
  }

  /** A directory that appears inside an installation directory is picked up with its first configuration file, unless
      that file is still empty; and nothing else changes. A directory without one changes nothing. */
  lemma NewScopeIsPickedUp(ix: Index, disk: Disk, isFile: bool, dir: Str, path: Str)
    requires ParentDir(dir) in ix.installs && dir !in ix.installs && !(isFile && IsConfig(dir))
    ensures LeastConfig(disk, dir, path) && path in disk.filled ==>
              PickedUp(Handle(ix, Appears(disk, isFile, dir)), dir, path)
    ensures LeastConfig(disk, dir, path) ==> SameBut(ix, Handle(ix, Appears(disk, isFile, dir)), dir, Stem(path))
    ensures (LeastConfig(disk, dir, path) && path !in disk.filled) || NoConfig(disk, dir) ==>
              Handle(ix, Appears(disk, isFile, dir)) == ix
  {
    if LeastConfig(disk, dir, path) {
      AddConfig(ix, disk, dir, path);
    }
    if NoConfig(disk, dir) {
      NoConfigIsChosen(disk, dir);
    }
  }

  lemma DropKeepsOthers(ix: Index, dir: Str, id: Str)
    requires dir in ix.scopes && Stem(ix.scopes[dir]) == id
    ensures SameBut(ix, DropScope(ix, dir), dir, id)
    ensures dir !in DropScope(ix, dir).scopes && id !in DropScope(ix, dir).announced
    ensures ParentDir(dir) in ix.installs ==> dir !in DropScope(ix, dir).installs[ParentDir(dir)]
  {
  }

  /** A directory that goes takes its scope with it, and nothing else. */
  lemma GoneScopeIsDropped(ix: Index, disk: Disk, isFile: bool, dir: Str)
    requires ParentDir(dir) in ix.installs && dir !in ix.installs && !(isFile && IsConfig(dir)) && dir in ix.scopes
    ensures var ix', id := Handle(ix, Changed(disk, Removed, isFile, dir)), Stem(ix.scopes[dir]);
            && SameBut(ix, ix', dir, id)
            && dir !in ix'.scopes && id !in ix'.announced && dir !in ix'.installs[ParentDir(dir)]
  {
    DropKeepsOthers(ix, dir, Stem(ix.scopes[dir]));
  }

  /** Directories outside the installation directories are ignored, and so are changes of directories. */
  lemma OtherEventsAreIgnored(ix: Index, disk: Disk, change: Change, isFile: bool, path: Str)
    requires !(isFile && IsConfig(path))
    requires change == Modified || (path !in ix.installs && ParentDir(path) !in ix.installs)
    ensures Handle(ix, Changed(disk, change, isFile, path)) == ix
  {
  }

  /** A configuration file that is written, or appears with something in it, is indexed under its directory and
      announced; one that appears empty waits; one that goes is dropped. The listing stays as it is. */
  lemma ConfigEvents(ix: Index, disk: Disk, change: Change, path: Str)
    requires IsConfig(path)
    ensures var ix', dir := Handle(ix, Changed(disk, change, true, path)), ParentPath(path);
            && ix'.installs == ix.installs && SameBut(ix, ix', dir, Stem(path))
            && (change == Modified || (change == Added && path in disk.filled) ==>
                dir in ix'.scopes && ix'.scopes[dir] == path && Stem(path) in ix'.announced)
            && (change == Added && path !in disk.filled ==> ix' == ix)
            && (change == Removed ==> dir !in ix'.scopes && Stem(path) !in ix'.announced)
  {
  }

  // ----- whole installation directories

  /** What each directory of a scan contributes. */
  type Picks = map<Str, Option<Str>>

  ghost predicate Contributes(picks: Picks, dirs: seq<Str>, d: Str) {
    d in dirs && d in picks && picks[d].Some?
  }

  ghost predicate ScannedScopes(before: map<Str, Str>, after: map<Str, Str>, picks: Picks, dirs: seq<Str>) {
    forall d :: if Contributes(picks, dirs, d) then d in after && after[d] == picks[d].value
                else (d in after <==> d in before) && (d in before ==> after[d] == before[d])
  }

  ghost predicate ScannedIds(before: set<Str>, after: set<Str>, picks: Picks, dirs: seq<Str>) {
    forall x :: x in after <==> x in before || exists d :: Contributes(picks, dirs, d) && Stem(picks[d].value) == x
  }

  ghost predicate ScannedLists(before: map<Str, set<Str>>, after: map<Str, set<Str>>, picks: Picks, dirs: seq<Str>) {
    && after.Keys == before.Keys
    && forall i, d :: i in before ==> (d in after[i] <==> d in before[i] || (Contributes(picks, dirs, d) && ParentDir(d) == i))
  }

  ghost predicate Scanned(ix: Index, ix': Index, picks: Picks, dirs: seq<Str>) {
    && ScannedScopes(ix.scopes, ix'.scopes, picks, dirs)
    && ScannedIds(ix.announced, ix'.announced, picks, dirs)
    && ScannedLists(ix.installs, ix'.installs, picks, dirs)
  }

  lemma ContributesLast(picks: Picks, dirs: seq<Str>, d: Str)
    requires dirs != []
    ensures var before, last := dirs[..|dirs| - 1], dirs[|dirs| - 1];
            Contributes(picks, dirs, d) <==> Contributes(picks, before, d) || (d == last && d in picks && picks[d].Some?)
  {
    assert dirs == dirs[..|dirs| - 1] + [dirs[|dirs| - 1]];
  }

  lemma ScopesStep(before: map<Str, Str>, mid: map<Str, Str>, picks: Picks, dirs: seq<Str>)
    requires dirs != [] && dirs[|dirs| - 1] in picks && ScannedScopes(before, mid, picks, dirs[..|dirs| - 1])
    ensures var last := dirs[|dirs| - 1];
            ScannedScopes(before, if picks[last].Some? then mid[last := picks[last].value] else mid, picks, dirs)
  {
    forall d: Str {
      ContributesLast(picks, dirs, d);
    }
  }

  lemma IdsStep(before: set<Str>, mid: set<Str>, picks: Picks, dirs: seq<Str>)
    requires dirs != [] && dirs[|dirs| - 1] in picks && ScannedIds(before, mid, picks, dirs[..|dirs| - 1])
    ensures var last := dirs[|dirs| - 1];
            ScannedIds(before, if picks[last].Some? then mid + {Stem(picks[last].value)} else mid, picks, dirs)
  {
    var init, last := dirs[..|dirs| - 1], dirs[|dirs| - 1];
    var after := if picks[last].Some? then mid + {Stem(picks[last].value)} else mid;
    forall x: Str
      ensures x in after <==> x in before || exists d :: Contributes(picks, dirs, d) && Stem(picks[d].value) == x
    {
      if d :| Contributes(picks, dirs, d) && Stem(picks[d].value) == x {
        ContributesLast(picks, dirs, d);
      }
      if d :| Contributes(picks, init, d) && Stem(picks[d].value) == x {
        ContributesLast(picks, dirs, d);
      }
      ContributesLast(picks, dirs, last);
    }
  }

  lemma ListsStep(before: map<Str, set<Str>>, mid: map<Str, set<Str>>, picks: Picks, dirs: seq<Str>)
    requires dirs != [] && dirs[|dirs| - 1] in picks && ScannedLists(before, mid, picks, dirs[..|dirs| - 1])
    ensures var last := dirs[|dirs| - 1];
            ScannedLists(before, if picks[last].Some? then Enlist(mid, last) else mid, picks, dirs)
  {
    forall d: Str {
      ContributesLast(picks, dirs, d);
    }
  }

  lemma TakeStep(ix: Index, mid: Index, picks: Picks, dirs: seq<Str>)
    requires dirs != [] && dirs[|dirs| - 1] in picks && Scanned(ix, mid, picks, dirs[..|dirs| - 1])
    ensures Scanned(ix, Take(mid, dirs[|dirs| - 1], picks[dirs[|dirs| - 1]]), picks, dirs)
  {
    ScopesStep(ix.scopes, mid.scopes, picks, dirs);
    IdsStep(ix.announced, mid.announced, picks, dirs);
    ListsStep(ix.installs, mid.installs, picks, dirs);
  }

  lemma NothingScanned(ix: Index, picks: Picks)
    ensures Scanned(ix, ix, picks, [])
  {
  }

  lemma {:induction false} ScanEffect(ix: Index, disk: Disk, picks: Picks, dirs: seq<Str>)
    requires forall d :: d in dirs ==> d in picks && picks[d] == Chosen(disk, d)
    ensures Scanned(ix, AddScopes(ix, disk, dirs), picks, dirs)
  {
    if dirs == [] {
      NothingScanned(ix, picks);
    } else {
      var before, last := dirs[..|dirs| - 1], dirs[|dirs| - 1];
      assert last in dirs && forall d :: d in before ==> d in dirs;
      ScanEffect(ix, disk, picks, before);
      TakeStep(ix, AddScopes(ix, disk, before), picks, dirs);
    }
  }

  /** `picks` says of every directory which scope it holds: the least configuration, unless that is still empty. */
  ghost predicate OnDisk(disk: Disk, picks: Picks, dirs: seq<Str>) {
    forall d :: d in dirs ==> d in picks && HoldsScope(disk, d, picks[d])
  }

  ghost predicate HoldsScope(disk: Disk, d: Str, pick: Option<Str>) {
    if pick.Some? then LeastConfig(disk, d, pick.value) && pick.value in disk.filled
    else forall path :: LeastConfig(disk, d, path) ==> path !in disk.filled
  }

  lemma HeldIsChosen(disk: Disk, d: Str, pick: Option<Str>)
    requires HoldsScope(disk, d, pick)
    ensures Chosen(disk, d) == pick
  {
    if pick.Some? {
      LeastConfigIsChosen(disk, d, pick.value);
    } else if NoConfig(disk, d) {
      NoConfigIsChosen(disk, d);
    } else {
      var path := LeastConfigExists(disk, d);
      LeastConfigIsChosen(disk, d, path);
    }
  }

  /** An installation directory that is configured, or appears, is listed afresh: every sub-directory that holds a scope
      is indexed, announced and listed, and nothing else changes. */
  lemma InstallPicksUp(ix: Index, disk: Disk, dir: Str, picks: Picks)
    requires OnDisk(disk, picks, SubdirsIn(disk, dir))
    ensures var start := ix.(installs := ix.installs[InstallKey(dir) := {}]);
            Scanned(start, Handle(ix, Install(disk, dir)), picks, SubdirsIn(disk, dir))
    ensures var start := ix.(installs := ix.installs[InstallKey(dir) := {}]);
            forall isFile :: dir in ix.installs && !(isFile && IsConfig(dir)) ==>
              Scanned(start, Handle(ix, Changed(disk, Added, isFile, dir)), picks, SubdirsIn(disk, dir))
  {
    var dirs := SubdirsIn(disk, dir);
    forall d | d in dirs
      ensures picks[d] == Chosen(disk, d)
    {
      HeldIsChosen(disk, d, picks[d]);
    }
    ScanEffect(ix.(installs := ix.installs[InstallKey(dir) := {}]), disk, picks, dirs);
  }

  /** The sub-directories of an installation directory, written with or without a slash at its end, belong to it. */
  lemma SubdirsBelong(disk: Disk, dir: Str, d: Str)
    requires Plain(InstallKey(dir)) && dir in disk.folders && d in SubdirsIn(disk, dir)
    requires forall name :: name in disk.folders[dir].subdirs ==> name != [] && SLASH !in name
    ensures ParentDir(d) == InstallKey(dir)
  {
    var names := disk.folders[dir].subdirs;
    var i :| 0 <= i < |names| && d == Join(dir, names[i]);
    assert names[i] in names;
    if dir == InstallKey(dir) {
      JoinParts(dir, names[i]);
    } else {
      JoinBelowSlash(dir, names[i]);
    }
  }

  lemma {:induction false} JoinBelowSlash(dir: Str, name: Str)
    requires |dir| > 1 && dir[|dir| - 1] == SLASH && dir[|dir| - 2] != SLASH && name != [] && SLASH !in name
    ensures ParentDir(Join(dir, name)) == dir[..|dir| - 1]
  {
    var p, k := Join(dir, name), |dir| + 1;
    assert p[k..] == name && p[..k] == dir + [SLASH];
    assert p[|p| - 1] == name[|name| - 1] && name[|name| - 1] in name;
    AfterLastIs(p, SLASH, k);
    var t := dir + [SLASH];
    assert t[..|t| - 1] == dir && Trim(t) == Trim(dir);
    var u := dir[..|dir| - 1];
    assert Trim(dir) == Trim(u) == u;
  }

  // ----- an installation directory goes

  ghost predicate DroppedScope(scopes: map<Str, Str>, dirs: seq<Str>, d: Str) {
    d in dirs && d in scopes
  }

  ghost predicate DroppedIds(scopes: map<Str, Str>, before: set<Str>, after: set<Str>, dirs: seq<Str>) {
    forall x :: x in after <==> x in before && !TakesId(scopes, dirs, x)
  }

  ghost predicate TakesId(scopes: map<Str, Str>, dirs: seq<Str>, x: Str) {
    exists d :: DroppedScope(scopes, dirs, d) && Stem(scopes[d]) == x
  }

  ghost predicate DroppedLists(scopes: map<Str, Str>, before: map<Str, set<Str>>, after: map<Str, set<Str>>, dirs: seq<Str>) {
    && after.Keys == before.Keys
    && forall i, d :: i in before ==>
         (d in after[i] <==> d in before[i] && !(DroppedScope(scopes, dirs, d) && ParentDir(d) == i))
  }

  ghost predicate DroppedAll(ix: Index, ix': Index, dirs: seq<Str>) {
    && ix'.scopes == ix.scopes - (set d | d in dirs)
    && DroppedIds(ix.scopes, ix.announced, ix'.announced, dirs)
    && DroppedLists(ix.scopes, ix.installs, ix'.installs, dirs)
  }

  lemma DroppedLast(scopes: map<Str, Str>, dirs: seq<Str>, d: Str)
    requires dirs != []
    ensures DroppedScope(scopes, dirs, d) <==>
            DroppedScope(scopes, dirs[..|dirs| - 1], d) || (d == dirs[|dirs| - 1] && d in scopes)
  {
    assert dirs == dirs[..|dirs| - 1] + [dirs[|dirs| - 1]];
  }

  lemma DropIdsStep(scopes: map<Str, Str>, before: set<Str>, mid: set<Str>, dirs: seq<Str>)
    requires dirs != [] && DroppedIds(scopes, before, mid, dirs[..|dirs| - 1])
    ensures var last := dirs[|dirs| - 1];
            DroppedIds(scopes, before, if last in scopes then mid - {Stem(scopes[last])} else mid, dirs)
  {
    forall x: Str {
      TakesIdLast(scopes, dirs, x);
    }
  }

  lemma TakesIdLast(scopes: map<Str, Str>, dirs: seq<Str>, x: Str)
    requires dirs != []
    ensures var init, last := dirs[..|dirs| - 1], dirs[|dirs| - 1];
            TakesId(scopes, dirs, x) <==> TakesId(scopes, init, x) || (last in scopes && Stem(scopes[last]) == x)
  {
    var init, last := dirs[..|dirs| - 1], dirs[|dirs| - 1];
    if d :| DroppedScope(scopes, dirs, d) && Stem(scopes[d]) == x {
      DroppedLast(scopes, dirs, d);
    }
    if d :| DroppedScope(scopes, init, d) && Stem(scopes[d]) == x {
      DroppedLast(scopes, dirs, d);
    }
    DroppedLast(scopes, dirs, last);
  }

  lemma DropListsStep(scopes: map<Str, Str>, before: map<Str, set<Str>>, mid: map<Str, set<Str>>, dirs: seq<Str>)
    requires dirs != [] && DroppedLists(scopes, before, mid, dirs[..|dirs| - 1])
    ensures var last := dirs[|dirs| - 1];
            DroppedLists(scopes, before, if last in scopes then Delist(mid, last) else mid, dirs)
  {
    forall d: Str {
      DroppedLast(scopes, dirs, d);
    }
  }

  lemma DropStep(ix: Index, mid: Index, dirs: seq<Str>)
    requires dirs != [] && DroppedAll(ix, mid, dirs[..|dirs| - 1])
    ensures DroppedAll(ix, DropScope(mid, dirs[|dirs| - 1]), dirs)
  {
    var before, last := dirs[..|dirs| - 1], dirs[|dirs| - 1];
    DropIdsStep(ix.scopes, ix.announced, mid.announced, dirs);
    DropListsStep(ix.scopes, ix.installs, mid.installs, dirs);
    assert (set d | d in dirs) == (set d | d in before) + {last};
    if last in before {
      RepeatedDrop(ix, mid, dirs);
    } else if last in ix.scopes {
      assert mid.scopes[last] == ix.scopes[last];
    }
  }

  /** A directory that occurs twice is dropped once. */
  lemma RepeatedDrop(ix: Index, mid: Index, dirs: seq<Str>)
    requires dirs != [] && dirs[|dirs| - 1] in dirs[..|dirs| - 1] && DroppedAll(ix, mid, dirs[..|dirs| - 1])
    ensures DroppedIds(ix.scopes, ix.announced, mid.announced, dirs) && DroppedLists(ix.scopes, ix.installs, mid.installs, dirs)
  {
    forall d: Str {
      DroppedLast(ix.scopes, dirs, d);
    }
    assert forall d :: DroppedScope(ix.scopes, dirs, d) <==> DroppedScope(ix.scopes, dirs[..|dirs| - 1], d);
  }

  lemma {:induction false} DropEffect(ix: Index, dirs: seq<Str>)
    ensures DroppedAll(ix, DropScopes(ix, dirs), dirs)
  {
    if dirs != [] {
      DropEffect(ix, dirs[..|dirs| - 1]);
      DropStep(ix, DropScopes(ix, dirs[..|dirs| - 1]), dirs);
    }
  }

  /** When an installation directory goes, exactly the scopes listed under it go: from the index, from the
      announcements and, as far as they were still indexed, from the listing. */
  lemma RemovalDrops(ix: Index, disk: Disk, isFile: bool, dir: Str)
    requires Rooted(ix) && dir in ix.installs && !(isFile && IsConfig(dir))
    ensures var ix', gone := Handle(ix, Changed(disk, Removed, isFile, dir)), ix.installs[dir];
            && ix'.scopes == ix.scopes - gone
            && (forall x :: x in ix'.announced <==> x in ix.announced && !exists d :: d in gone && d in ix.scopes && Stem(ix.scopes[d]) == x)
            && ix'.installs == ix.installs[dir := gone - ix.scopes.Keys]
  {
    var ix', gone := Handle(ix, Changed(disk, Removed, isFile, dir)), ix.installs[dir];
    var dirs := SortedKeys(gone);
    DropEffect(ix, dirs);
    assert (set d | d in dirs) == gone;
    forall x: Str
      ensures TakesId(ix.scopes, dirs, x) <==> exists d :: d in gone && d in ix.scopes && Stem(ix.scopes[d]) == x
    {
      if d :| d in gone && d in ix.scopes && Stem(ix.scopes[d]) == x {
        assert DroppedScope(ix.scopes, dirs, d);
      }
    }
    forall i | i in ix.installs
      ensures ix'.installs[i] == if i == dir then gone - ix.scopes.Keys else ix.installs[i]
    {
      forall d: Str
        ensures d in ix'.installs[i] <==> d in ix.installs[i] && !(i == dir && d in ix.scopes)
      {
        assert d in ix.installs[i] ==> ParentDir(d) == i;
        assert DroppedScope(ix.scopes, dirs, d) <==> d in gone && d in ix.scopes;
      }
    }
  }

  /** A scope that was picked up with its installation directory goes with it. */
  lemma PickedUpAndRemoved(ix: Index, disk: Disk, dir: Str, picks: Picks, later: Disk, isFile: bool, d: Str)
    requires Rooted(ix) && Plain(dir) && dir in disk.folders && !(isFile && IsConfig(dir))
    requires forall name :: name in disk.folders[dir].subdirs ==> name != [] && SLASH !in name
    requires OnDisk(disk, picks, SubdirsIn(disk, dir)) && Contributes(picks, SubdirsIn(disk, dir), d)
    ensures var there := Handle(ix, Install(disk, dir));
            var gone := Handle(there, Changed(later, Removed, isFile, dir));
            && PickedUp(there, d, picks[d].value)
            && d !in gone.scopes && Stem(picks[d].value) !in gone.announced && dir in gone.installs && d !in gone.installs[dir]
  {
    var there := Handle(ix, Install(disk, dir));
    InstallPicksUp(ix, disk, dir, picks);
    SubdirsBelong(disk, dir, d);
    HandleRooted(ix, Install(disk, dir));
    RemovalDrops(there, later, isFile, dir);
  }
}
