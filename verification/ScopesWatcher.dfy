/** The watcher's maps, updated in place as directories come and go. */
module ScopesWatcher {
  import opened Bytes
  import opened Results
  import opened ScopeFiles
  import opened WatchIndex

  lemma ConfigIds(disk: Disk, dir: Str, configs: map<Str, Str>)
    requires TabulatesFolder(configs, FilesIn(disk, dir))
    ensures configs.Keys == IdsIn(disk, dir)
  {
    var paths := FilesIn(disk, dir);
    forall id
      ensures id in configs <==> id in IdsIn(disk, dir)
    {
      assert At(configs, id) == InFolder(paths, id);
      var k := InFolderIsFirst(paths, id);
      assert k < |paths| ==> paths[k] in paths;
    }
  }

  lemma KeysAreDistinct(ks: set<Str>)
    ensures Distinct(SortedKeys(ks))
  {
    SortedKeysAscend(ks);
    forall i, j | 0 <= i < j < |SortedKeys(ks)|
      ensures SortedKeys(ks)[i] != SortedKeys(ks)[j]
    {
      StrTrichotomy(SortedKeys(ks)[i], SortedKeys(ks)[j]);
    }
  }

  lemma UnnamedAmong(ix: Index, keys: seq<Str>, ks: set<Str>)
    requires forall k :: k in keys <==> k in ks
    ensures AnyUnnamed(ix, ks) <==> exists j :: 0 <= j < |keys| && Unnamed(ix, keys[j])
  {
    if AnyUnnamed(ix, ks) {
      var d :| d in ks && Unnamed(ix, d);
      assert d in keys;
      var j :| 0 <= j < |keys| && keys[j] == d;
      assert Unnamed(ix, keys[j]);
    }
    if j :| 0 <= j < |keys| && Unnamed(ix, keys[j]) {
      assert keys[j] in keys;
    }
  }

  /** The first entry, in key order, of the directory's configurations. */
  method FirstConfig(disk: Disk, dir: Str) returns (config: Option<(Str, Str)>)
    ensures config.Some? ==> config.value.0 == Stem(config.value.1)
    ensures Chosen(disk, dir) == if config.Some? && config.value.1 in disk.filled then Some(config.value.1) else None
  {
    var configs := FindScopeDirConfigs(FilesIn(disk, dir));
    ConfigIds(disk, dir, configs);
    if configs == map[] {
      return None;
    }
    var keys := IterationOrder(configs.Keys);
    var id := keys[0];
    assert At(configs, id) == InFolder(FilesIn(disk, dir), id);
    ghost var k := InFolderIsFirst(FilesIn(disk, dir), id);
    config := Some((id, configs[id]));
  }

  class ScopesWatcher {
    var scopes: map<Str, Str>
    var installs: map<Str, set<Str>>
    var watched: set<Str>
    /** The ids for which the callback ran and that were not removed from the registry since. */
    var announced: set<Str>

    ghost function View(): Index
      reads this
    {
      Index(scopes, installs, announced)
    }

    constructor ()
      ensures View() == EMPTY && watched == {}
    {
      scopes, installs, watched, announced := map[], map[], {}, {};
    }

    method AddWatch(disk: Disk, path: Str) returns (r: Result<()>)
      modifies `watched
      ensures r == if path in old(watched) then Throws(Logic) else if path !in disk.folders then Throws(File) else Ok(())
      ensures watched == if r.Ok? then old(watched) + {path} else old(watched)
    {
      if path in watched {
        return Throws(Logic);
      }
      if path !in disk.folders {
        return Throws(File);
      }
      watched := watched + {path};
      r := Ok(());
    }

    /** The registry rejects the empty id. */
    method RemoveLocalScope(id: Str) returns (r: Result<()>)
      modifies `announced
      ensures announced == old(announced) - {id}
      ensures r == if id == [] then Throws(InvalidArgument) else Ok(())
    {
      announced := announced - {id};
      r := if id == [] then Throws(InvalidArgument) else Ok(());
    }

    method AddScopeDir(disk: Disk, dir: Str)
      modifies this
      ensures View() == AddScope(old(View()), disk, dir)
      ensures watched == old(watched) + if dir in disk.folders then {dir} else {}
    {
      if dir in disk.folders {
        var ignored := AddWatch(disk, dir);
      }
      var config := FirstConfig(disk, dir);
      if config.Some? {
        var (id, path) := config.value;
        if path !in disk.filled {
          return;
        }
        Associate(dir, id, path);
      }
    }

    /** Associates the directory with its install directory and its file, then executes the callback. */
    method Associate(dir: Str, id: Str, path: Str)
      requires id == Stem(path)
      modifies `installs, `scopes, `announced
      ensures View() == Announce(old(View()), dir, path).(installs := Enlist(old(installs), dir))
    {
      var parent := ParentDir(dir);
      if parent in installs {
        installs := installs[parent := installs[parent] + {dir}];
      }
      scopes := scopes[dir := path];
      announced := announced + {id};
    }

    method RemoveScopeDir(dir: Str) returns (r: Result<()>)
      modifies this
      ensures View() == DropScope(old(View()), dir)
      ensures r == if dir in old(scopes) && Stem(old(scopes)[dir]) == [] then Throws(InvalidArgument) else Ok(())
      ensures watched == if r.Ok? then old(watched) - {dir} else old(watched)
    {
      if dir in scopes {
        var parent := ParentDir(dir);
        if parent in installs {
          installs := installs[parent := installs[parent] - {dir}];
        }
        var path := scopes[dir];
        scopes := scopes - {dir};
        r := RemoveLocalScope(Stem(path));
        if r.Throws? {
          return;
        }
      }
      watched := watched - {dir};
      r := Ok(());
    }

    /** Stops at the first directory whose scope the registry refuses to remove. */
    method RemoveScopeDirs(dirs: seq<Str>) returns (r: Result<()>)
      requires Distinct(dirs)
      modifies this
      ensures View() == DropScopes(old(View()), Dropped(old(View()), dirs))
      ensures r == if exists j :: 0 <= j < |dirs| && Unnamed(old(View()), dirs[j]) then Throws(InvalidArgument) else Ok(())
      ensures r.Ok? ==> View() == DropScopes(old(View()), dirs)
    {
      ghost var start := View();
      for k := 0 to |dirs|
        invariant View() == DropScopes(start, dirs[..k])
        invariant forall j :: 0 <= j < k ==> !Unnamed(start, dirs[j])
      {
        assert dirs[..k + 1][..k] == dirs[..k];
        StillUnnamed(start, dirs, k);
        r := RemoveScopeDir(dirs[k]);
        if r.Throws? {
          DroppedUpTo(start, dirs, k);
          return;
        }
      }
      assert dirs[..|dirs|] == dirs;
      DroppedUpTo(start, dirs, |dirs|);
      r := Ok(());
    }

    method RemoveInstallDir(dir: Str) returns (r: Result<()>)
      modifies this
      ensures var dirs := if dir in old(installs) then old(installs)[dir] else {};
              && View() == DropScopes(old(View()), Dropped(old(View()), SortedKeys(dirs)))
              && r == if AnyUnnamed(old(View()), dirs) then Throws(InvalidArgument) else Ok(())
      ensures r.Ok? ==> View() == DropInstall(old(View()), dir)
    {
      ghost var start := View();
      var listed := if dir in installs then installs[dir] else {};
      var dirs := IterationOrder(listed);
      KeysAreDistinct(listed);
      r := RemoveScopeDirs(dirs);
      UnnamedAmong(start, dirs, listed);
      if r.Ok? {
        watched := watched - {dir};
      }
    }

    /** Throws, before looking for scopes, if the directory is watched already. */
    method AddInstallDir(disk: Disk, dir: Str) returns (r: Result<()>)
      modifies this
      ensures r.Ok? ==> View() == AddInstall(old(View()), disk, dir)
      ensures r.Throws? ==> View() == old(View()).(installs := old(installs)[InstallKey(dir) := {}])
      ensures r == if dir in old(watched) || (dir == ParentDir(dir) && dir in disk.folders) then Throws(Logic) else Ok(())
    {
      var ignored := AddWatch(disk, ParentDir(dir));
      installs := installs[InstallKey(dir) := {}];
      r := AddWatch(disk, dir);
      if r.Throws? {
        return if r.error == File then Ok(()) else r;
      }
      AddScopeDirs(disk, SubdirsIn(disk, dir));
    }

    method AddScopeDirs(disk: Disk, dirs: seq<Str>)
      modifies this
      ensures View() == AddScopes(old(View()), disk, dirs)
    {
      ghost var start := View();
      for k := 0 to |dirs|
        invariant View() == AddScopes(start, disk, dirs[..k])
      {
        assert dirs[..k + 1][..k] == dirs[..k];
        AddScopeDir(disk, dirs[k]);
      }
      assert dirs[..|dirs|] == dirs;
    }

    method ConfigEvent(disk: Disk, change: Change, path: Str) returns (r: Result<()>)
      modifies this
      ensures View() == ConfigChanged(old(View()), disk, change, path)
      ensures r == if change == Removed && Stem(path) == [] then Throws(InvalidArgument) else Ok(())
    {
      var parent, id := ParentPath(path), Stem(path);
      r := Ok(());
      if change == Added || change == Modified {
        var nonEmpty := true;
        if change == Added {
          nonEmpty := path in disk.filled;
        }
        if nonEmpty {
          scopes := scopes[parent := path];
          announced := announced + {id};
        }
      } else {
        scopes := scopes - {parent};
        r := RemoveLocalScope(id);
      }
    }

    /** An event that is handled without an exception has the effect that Handle() describes; Failure() says exactly
        which events end in an exception, and Aborted() what they leave behind. */
    method WatchEvent(disk: Disk, change: Change, isFile: bool, path: Str) returns (r: Result<()>)
      modifies this
      ensures var failure := Failure(old(View()), old(watched), disk, change, isFile, path);
              && r == (if failure.Some? then Throws(failure.value) else Ok(()))
              && View() == if failure.Some? then Aborted(old(View()), disk, change, isFile, path)
                           else Handle(old(View()), Changed(disk, change, isFile, path))
    {
      if isFile && IsConfig(path) {
        r := ConfigEvent(disk, change, path);
      } else if path in installs {
        r := Ok(());
        if change == Added {
          r := AddInstallDir(disk, path);
        } else if change == Removed {
          r := RemoveInstallDir(path);
        }
      } else {
        r := Ok(());
        if ParentDir(path) in installs {
          if change == Added {
            AddScopeDir(disk, path);
          } else if change == Removed {
            r := RemoveScopeDir(path);
          }
        }
      }
    }
  }
}
