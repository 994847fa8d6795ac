/** Which configuration file the registry uses for a scope id: Canonical, OEM, Click or command line. */
module ScopeRegistry {
  import opened Bytes
  import opened Results
  import opened ScopeFiles

  /** What parsing a configuration file yields. */
  datatype Parsed = Unreadable | Fixed | Overrideable

  type Parser = Str -> Parsed

  /** The files of every scope directory below an installation directory, in listing order. */
  type Listing = seq<seq<Str>>

  // ----- precedence in closed form

  ghost function Local(canonical: Listing, oem: Listing, parse: Parser, id: Str): Option<Str> {
    var c, o := Found(canonical, id), Found(oem, id);
    if c.Some? && parse(c.value) == Fixed then c
    else if o.Some? then o
    else if c.Some? && parse(c.value) == Overrideable then c
    else None
  }

  ghost function Click(canonical: Listing, oem: Listing, click: Listing, parse: Parser, id: Str): Option<Str> {
    if Local(canonical, oem, parse, id).Some? then None else Found(click, id)
  }

  /** The last argument with the given stem. */
  ghost function Argument(args: seq<Str>, id: Str): Option<Str> {
    if args == [] then None
    else if Stem(args[|args| - 1]) == id then Some(args[|args| - 1])
    else Argument(args[..|args| - 1], id)
  }

  // ----- precedence, said on the listings

  /** The listing's first file for the id. */
  ghost predicate Offered(l: Listing, id: Str, path: Str) {
    exists i: nat, k: nat :: OfferedAt(l, id, path, i, k)
  }

  ghost predicate OfferedAt(l: Listing, id: Str, path: Str, i: nat, k: nat) {
    IsFirst(l, id, i, k) && l[i][k] == path
  }

  ghost predicate Unoffered(l: Listing, id: Str) {
    AllSilent(l, id)
  }

  lemma FirstIsUnique(l: Listing, id: Str, i: nat, k: nat, i': nat, k': nat)
    requires IsFirst(l, id, i, k) && IsFirst(l, id, i', k')
    ensures i == i' && k == k'
  {
    assert i < i' ==> Silent(l[i], id);
    assert i' < i ==> Silent(l[i'], id);
  }

  lemma FoundIs(l: Listing, id: Str, path: Str)
    ensures Found(l, id) == Some(path) <==> Offered(l, id, path)
    ensures Found(l, id) == None <==> Unoffered(l, id)
  {
    var i, k := FoundIsFirst(l, id);
    if Found(l, id).Some? {
      assert Offers(l[i][k], id) && !Silent(l[i], id);
      assert OfferedAt(l, id, l[i][k], i, k);
      OfferedOnce(l, id, l[i][k], path);
    }
  }

  lemma OfferedOnce(l: Listing, id: Str, p: Str, q: Str)
    requires Offered(l, id, p)
    ensures Offered(l, id, q) <==> p == q
  {
    if Offered(l, id, q) {
      var i: nat, k: nat :| OfferedAt(l, id, p, i, k);
      var i': nat, k': nat :| OfferedAt(l, id, q, i', k');
      FirstIsUnique(l, id, i, k, i', k');
    }
  }

  /** A Canonical scope that may not be overridden is used whatever the OEM offers; otherwise the OEM's scope is used;
      a Canonical scope that may be overridden only where the OEM offers none; one that cannot be parsed never. */
  lemma LocalPrecedence(canonical: Listing, oem: Listing, parse: Parser, id: Str, path: Str)
    ensures Local(canonical, oem, parse, id) == Some(path) <==>
            || (Offered(canonical, id, path) && parse(path) == Fixed)
            || (Offered(oem, id, path) && forall c :: Offered(canonical, id, c) ==> parse(c) != Fixed)
            || (Offered(canonical, id, path) && parse(path) == Overrideable && Unoffered(oem, id))
  {
    FoundIs(canonical, id, path);
    FoundIs(oem, id, path);
    forall c: Str
      ensures Found(canonical, id) == Some(c) <==> Offered(canonical, id, c)
      ensures Found(oem, id) == Some(c) <==> Offered(oem, id, c)
    {
      FoundIs(canonical, id, c);
      FoundIs(oem, id, c);
    }
  }

  /** A Click scope is used only where neither Canonical nor OEM scopes have its id. */
  lemma ClickPrecedence(canonical: Listing, oem: Listing, click: Listing, parse: Parser, id: Str, path: Str)
    ensures Click(canonical, oem, click, parse, id) == Some(path) <==>
            && Offered(click, id, path) && Unoffered(oem, id)
            && forall c :: Offered(canonical, id, c) ==> parse(c) == Unreadable
  {
    FoundIs(click, id, path);
    FoundIs(oem, id, path);
    forall c: Str
      ensures Found(canonical, id) == Some(c) <==> Offered(canonical, id, c)
    {
      FoundIs(canonical, id, c);
    }
  }

  /** The scopes that the arguments name. */
  function Named(args: seq<Str>): seq<Str> {
    seq(|args|, i requires 0 <= i < |args| => Stem(args[i]))
  }

  ghost predicate LastAt(ids: seq<Str>, id: Str, i: int) {
    0 <= i < |ids| && ids[i] == id && forall j :: i < j < |ids| ==> ids[j] != id
  }

  /** The last argument that names the scope counts. */
  ghost predicate LastArgument(args: seq<Str>, id: Str, path: Str) {
    exists i :: LastAt(Named(args), id, i) && args[i] == path
  }

  lemma {:induction false} LastIndex(ids: seq<Str>, id: Str) returns (i: int)
    requires id in ids
    ensures LastAt(ids, id, i)
  {
    var n := |ids| - 1;
    if ids[n] == id {
      i := n;
    } else {
      assert ids == ids[..n] + [ids[n]];
      i := LastIndex(ids[..n], id);
      assert forall j :: 0 <= j < n ==> ids[j] == ids[..n][j];
    }
  }

  /** The last of the arguments, of which `ids` are the names, for the given name. */
  ghost function LastOf(args: seq<Str>, ids: seq<Str>, id: Str): Option<Str>
    requires |ids| == |args|
  {
    if args == [] then None
    else if ids[|ids| - 1] == id then Some(args[|args| - 1])
    else LastOf(args[..|args| - 1], ids[..|args| - 1], id)
  }

  lemma NamedInit(args: seq<Str>)
    requires args != []
    ensures Named(args[..|args| - 1]) == Named(args)[..|args| - 1]
  {
  }

  lemma {:induction false} ArgumentByName(args: seq<Str>, id: Str)
    ensures Argument(args, id) == LastOf(args, Named(args), id)
  {
    if args != [] {
      NamedInit(args);
      ArgumentByName(args[..|args| - 1], id);
    }
  }

  lemma {:induction false} LastOfAt(args: seq<Str>, ids: seq<Str>, id: Str, i: int)
    requires |ids| == |args| && LastAt(ids, id, i)
    ensures LastOf(args, ids, id) == Some(args[i])
  {
    var n := |args| - 1;
    if i < n {
      assert forall j :: 0 <= j < n ==> ids[..n][j] == ids[j];
      LastOfAt(args[..n], ids[..n], id, i);
    }
  }

  lemma {:induction false} LastOfNone(args: seq<Str>, ids: seq<Str>, id: Str)
    requires |ids| == |args| && id !in ids
    ensures LastOf(args, ids, id) == None
  {
    if args != [] {
      LastOfNone(args[..|args| - 1], ids[..|args| - 1], id);
    }
  }

  lemma LastOfIs(args: seq<Str>, ids: seq<Str>, id: Str, path: Str)
    requires |ids| == |args|
    ensures LastOf(args, ids, id) == Some(path) <==> exists i :: LastAt(ids, id, i) && args[i] == path
    ensures LastOf(args, ids, id) == None <==> id !in ids
  {
    if id in ids {
      var i := LastIndex(ids, id);
      LastOfAt(args, ids, id, i);
      assert forall j :: LastAt(ids, id, j) ==> j == i;
    } else {
      LastOfNone(args, ids, id);
    }
  }

  lemma ArgumentIs(args: seq<Str>, id: Str, path: Str)
    ensures Argument(args, id) == Some(path) <==> LastArgument(args, id, path)
    ensures Argument(args, id) == None <==> id !in Named(args)
  {
    ArgumentByName(args, id);
    LastOfIs(args, Named(args), id, path);
  }

  // ----- the code

  ghost predicate Sorted(fixed: map<Str, Str>, loose: map<Str, Str>, configs: map<Str, Str>, done: set<Str>, parse: Parser) {
    && fixed.Keys == (set id | id in configs && id in done && parse(configs[id]) == Fixed)
    && loose.Keys == (set id | id in configs && id in done && parse(configs[id]) == Overrideable)
    && (forall id :: id in fixed ==> fixed[id] == configs[id])
    && (forall id :: id in loose ==> loose[id] == configs[id])
  }

  /** Splits the parsable Canonical scopes by whether the OEM may override them. */
  method SortByOverride(configs: map<Str, Str>, parse: Parser) returns (fixed: map<Str, Str>, loose: map<Str, Str>)
    requires forall id :: id in configs ==> !EndsWith(configs[id], SETTINGS_INI)
    ensures Sorted(fixed, loose, configs, configs.Keys, parse)
  {
    fixed, loose := map[], map[];
    var todo := configs.Keys;
    while todo != {}
      invariant todo <= configs.Keys && Sorted(fixed, loose, configs, configs.Keys - todo, parse)
    {
      var id :| id in todo;
      todo := todo - {id};
      match parse(configs[id]) {
        case Overrideable => loose := loose[id := configs[id]];
        case Fixed => fixed := fixed[id := configs[id]];
        case Unreadable =>
      }
    }
  }

  /** Every OEM scope replaces an overrideable scope with its id, and none replaces a fixed one. */
  method Override(fixed: map<Str, Str>, loose: map<Str, Str>, oem: map<Str, Str>) returns (r: map<Str, Str>)
    ensures r == loose + (oem - fixed.Keys)
  {
    r := loose;
    var todo := oem.Keys;
    while todo != {}
      invariant todo <= oem.Keys && r.Keys == loose.Keys + (oem.Keys - todo - fixed.Keys)
      invariant forall id :: id in r ==> if id in oem && id !in todo && id !in fixed then r[id] == oem[id]
                                         else id in loose && r[id] == loose[id]
    {
      var id :| id in todo;
      todo := todo - {id};
      if id !in fixed {
        r := r[id := oem[id]];
      }
    }
  }

  ghost predicate TabulatesLocal(m: map<Str, Str>, canonical: Listing, oem: Listing, parse: Parser) {
    forall id :: At(m, id) == Local(canonical, oem, parse, id)
  }

  /** An OEM directory that is not configured has an empty listing. */
  method FindLocalScopes(canonical: Listing, oem: Listing, parse: Parser) returns (m: map<Str, Str>)
    ensures TabulatesLocal(m, canonical, oem, parse)
  {
    var configs := FindInstallDirConfigs(canonical);
    forall id | id in configs
      ensures !EndsWith(configs[id], SETTINGS_INI)
    {
      assert At(configs, id) == Found(canonical, id);
      var i, k := FoundIsFirst(canonical, id);
    }
    var fixed, loose := SortByOverride(configs, parse);
    var oemPaths := FindInstallDirConfigs(oem);
    loose := Override(fixed, loose, oemPaths);
    m := InsertAll(fixed, loose);
  }

  method FindClickScopes(local: map<Str, Str>, click: Listing) returns (m: map<Str, Str>)
    ensures forall id :: At(m, id) == if At(local, id).Some? then None else Found(click, id)
  {
    var paths := FindInstallDirConfigs(click);
    m := map[];
    var todo := paths.Keys;
    while todo != {}
      invariant todo <= paths.Keys && m.Keys == paths.Keys - todo - local.Keys
      invariant forall id :: id in m ==> m[id] == paths[id]
    {
      var id :| id in todo;
      todo := todo - {id};
      if id !in local {
        m := m[id := paths[id]];
      }
    }
  }

  method AddArguments(local: map<Str, Str>, args: seq<Str>) returns (m: map<Str, Str>)
    ensures forall id :: At(m, id) == if Argument(args, id).Some? then Argument(args, id) else At(local, id)
  {
    m := local;
    for i := 0 to |args|
      invariant forall id :: At(m, id) == if Argument(args[..i], id).Some? then Argument(args[..i], id) else At(local, id)
    {
      assert args[..i + 1][..i] == args[..i];
      m := m[Stem(args[i]) := args[i]];
    }
    assert args[..|args|] == args;
  }

  /** Entries for which no metadata can be created are skipped. */
  method Register(table: map<Str, Str>, scopes: map<Str, Str>, usable: (Str, Str) -> bool) returns (r: map<Str, Str>)
    ensures forall id :: At(r, id) == if Usable(At(scopes, id), usable, id).Some? then At(scopes, id) else At(table, id)
  {
    r := table;
    var todo := scopes.Keys;
    while todo != {}
      invariant todo <= scopes.Keys
      invariant forall id :: id in r <==> id in table || (id in scopes && id !in todo && usable(id, scopes[id]))
      invariant forall id :: id in r ==>
                  r[id] == if id in scopes && id !in todo && usable(id, scopes[id]) then scopes[id] else table[id]
    {
      var id :| id in todo;
      todo := todo - {id};
      if usable(id, scopes[id]) {
        r := r[id := scopes[id]];
      }
    }
  }

  /** The registry's table after start-up: Click entries are added last. */
  method Populate(canonical: Listing, oem: Listing, click: Listing, args: seq<Str>,
                  parse: Parser, usable: (Str, Str) -> bool) returns (table: map<Str, Str>)
    ensures forall id :: At(table, id) == Entry(canonical, oem, click, args, parse, usable, id)
  {
    var local := FindLocalScopes(canonical, oem, parse);
    var clicks := FindClickScopes(local, click);
    var all := AddArguments(local, args);
    table := Register(map[], all, usable);
    table := Register(table, clicks, usable);
  }

  ghost function Usable(r: Option<Str>, usable: (Str, Str) -> bool, id: Str): Option<Str> {
    if r.Some? && usable(id, r.value) then r else None
  }

  ghost function Entry(canonical: Listing, oem: Listing, click: Listing, args: seq<Str>,
                       parse: Parser, usable: (Str, Str) -> bool, id: Str): Option<Str>
  {
    var c := Usable(Click(canonical, oem, click, parse, id), usable, id);
    if c.Some? then c
    else if Argument(args, id).Some? then Usable(Argument(args, id), usable, id)
    else Usable(Local(canonical, oem, parse, id), usable, id)
  }

  /** Usage promises that scopes named on the command line override those found in configuration files. That
      holds exactly for the ids that are not taken by a usable Click scope. */
  lemma CommandLineWinsIff(canonical: Listing, oem: Listing, click: Listing, args: seq<Str>,
                           parse: Parser, usable: (Str, Str) -> bool, id: Str)
    requires Argument(args, id).Some? && usable(id, Argument(args, id).value)
    ensures var c := Found(click, id);
            Entry(canonical, oem, click, args, parse, usable, id) == Argument(args, id) <==>
            Local(canonical, oem, parse, id).Some? || c.None? || !usable(id, c.value) || c == Argument(args, id)
  {
  }

  /** A scope given on the command line loses to a Click scope that happens to have its id. */
  lemma ClickBeatsCommandLine(dir: Str, home: Str, id: Str, parse: Parser)
    requires Plain(dir) && Plain(home) && dir != home && SLASH !in id
    requires !EndsWith(Join(dir, id + INI), SETTINGS_INI) && !EndsWith(Join(home, id + INI), SETTINGS_INI)
    ensures var clickPath, argument := Join(dir, id + INI), Join(home, id + INI);
            && Entry([], [], [[clickPath]], [argument], parse, (i, p) => true, id) == Some(clickPath)
            && Argument([argument], id) == Some(argument) && argument != clickPath
  {
    ConfigParts(dir, id);
    ConfigParts(home, id);
  }

  ghost predicate ClickUsed(canonical: Listing, oem: Listing, click: Listing, parse: Parser, usable: (Str, Str) -> bool,
                            id: Str, path: Str)
  {
    Click(canonical, oem, click, parse, id) == Some(path) && usable(id, path)
  }

  /** The registry's table, entry by entry: a usable Click scope, else the last argument that names the scope, else the
      local scope; a scope for which no metadata can be created is left out. */
  lemma EntryPrecedence(canonical: Listing, oem: Listing, click: Listing, args: seq<Str>,
                        parse: Parser, usable: (Str, Str) -> bool, id: Str, path: Str)
    ensures Entry(canonical, oem, click, args, parse, usable, id) == Some(path) <==>
            || ClickUsed(canonical, oem, click, parse, usable, id, path)
            || (&& usable(id, path) && (forall p :: !ClickUsed(canonical, oem, click, parse, usable, id, p))
                && (LastArgument(args, id, path) || (id !in Named(args) && Local(canonical, oem, parse, id) == Some(path))))
  {
    ArgumentIs(args, id, path);
    var c := Click(canonical, oem, click, parse, id);
    assert c.Some? ==> (ClickUsed(canonical, oem, click, parse, usable, id, c.value) <==> usable(id, c.value));
    var e := Entry(canonical, oem, click, args, parse, usable, id);
    assert e == Preferred(c, Argument(args, id), Local(canonical, oem, parse, id), usable, id);
  }

  ghost function Preferred(c: Option<Str>, a: Option<Str>, l: Option<Str>, usable: (Str, Str) -> bool, id: Str): Option<Str> {
    if Usable(c, usable, id).Some? then Usable(c, usable, id)
    else if a.Some? then Usable(a, usable, id)
    else Usable(l, usable, id)
  }
}
