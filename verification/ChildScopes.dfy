/** The repository of child scopes: an aggregator's children with their enabled states, kept in a file and cached. */
module ChildScopes {
  import opened Bytes
  import opened Results
  import opened Variants
  import opened JsonNodes

  datatype Child = Child(id: Str, metadata: VariantMap, enabled: bool, keywords: set<Str>)

  type States = map<Str, bool>

  /** The parser of JSON text, which is foreign code; no tree stands for an exception. */
  type Parser = Str -> Option<Node>

  const ID: Str := "id"
  const ENABLED: Str := "enabled"

  // ----- text

  const OPEN: Str := "{"
  const ID_KEY: Str := "\"id\":\""
  const QUOTE: Str := "\""
  const COMMA: Str := ","
  const ENABLED_KEY: Str := "\"enabled\":"
  const CLOSE: Str := "}"

  function BoolText(b: bool): Str {
    if b then "true" else "false"
  }

  function Entry(c: Child): Str {
    OPEN + ID_KEY + c.id + QUOTE + COMMA + ENABLED_KEY + BoolText(c.enabled) + CLOSE
  }

  function Entries(l: seq<Child>): Str {
    if l == [] then []
    else if |l| == 1 then Entry(l[0])
    else Entries(l[..|l| - 1]) + COMMA + Entry(l[|l| - 1])
  }

  function ListText(l: seq<Child>): Str {
    "[" + Entries(l) + "]"
  }

  lemma NextEntry(l: seq<Child>, i: nat)
    requires i < |l|
    ensures "[" + Entries(l[..i + 1]) == (if i == 0 then "[" else "[" + Entries(l[..i]) + COMMA) + Entry(l[i])
    ensures |Entries(l[..i + 1])| > 0
  {
    var m := l[..i + 1];
    assert m[..i] == l[..i] && m[i] == l[i];
    EntriesLast(m);
    Prefixed("[", if i == 0 then [] else Entries(l[..i]), COMMA, Entry(l[i]));
  }

  lemma Prefixed(a: Str, b: Str, c: Str, d: Str)
    ensures a + (b + c + d) == a + b + c + d && a + ([] + d) == a + d
  {
  }

  method ListToJson(l: seq<Child>) returns (out: Str)
    ensures out == ListText(l)
  {
    out := "[";
    for i := 0 to |l|
      invariant out == "[" + Entries(l[..i]) && (|out| == 1 <==> i == 0)
    {
      NextEntry(l, i);
      out := AppendEntry(out, l[i]);
    }
    assert l[..|l|] == l;
    out := out + "]";
  }

  lemma Regroup(a: Str, b: Str, c: Str, d: Str, e: Str, f: Str, g: Str, h: Str, i: Str)
    ensures a + b + c + d + e + f + g + h + i == a + (b + c + d + e + f + g + h + i)
  {
  }

  /** Only the opening bracket has been written before the first entry. */
  method AppendEntry(text: Str, c: Child) returns (out: Str)
    ensures out == (if |text| == 1 then text else text + COMMA) + Entry(c)
  {
    out := if |text| == 1 then text else text + COMMA;
    Regroup(out, OPEN, ID_KEY, c.id, QUOTE, COMMA, ENABLED_KEY, BoolText(c.enabled), CLOSE);
    out := out + OPEN;
    out := out + ID_KEY + c.id + QUOTE;
    out := out + COMMA;
    out := out + ENABLED_KEY + BoolText(c.enabled);
    out := out + CLOSE;
  }

  /** The tree that the text of a list stands for. */
  function ListNode(l: seq<Child>): Node {
    JArray(seq(|l|, i requires 0 <= i < |l| => ChildNode(l[i])))
  }

  function ChildNode(c: Child): Node {
    JObject([(ID, JString(c.id)), (ENABLED, JBool(c.enabled))])
  }

  /** Characters that JSON strings hold as they are, by section 7 of RFC 8259. */
  predicate NeedsNoEscape(c: Byte) {
    0x20 <= c as int < 0x80 && c != '"' && c != '\\'
  }

  ghost predicate PlainIds(l: seq<Child>) {
    forall i, k :: 0 <= i < |l| && 0 <= k < |l[i].id| ==> NeedsNoEscape(l[i].id[k])
  }

  /** What this model relies on about the parser. */
  ghost predicate ParsesLists(parse: Parser) {
    forall l :: PlainIds(l) ==> parse(ListText(l)) == Some(ListNode(l))
  }

  // ----- the text is JSON

  /** Trees without numbers whose strings need no escapes. */
  predicate Simple(n: Node)
    decreases n
  {
    match n
    case JString(s) => forall c :: c in s ==> NeedsNoEscape(c)
    case JArray(es) => forall i :: 0 <= i < |es| ==> Simple(es[i])
    case JObject(ms) => forall i :: 0 <= i < |ms| ==> (forall c :: c in ms[i].0 ==> NeedsNoEscape(c)) && Simple(ms[i].1)
    case JNull => true
    case JBool(_) => true
    case _ => false
  }

  /** The compact JSON text of such a tree, by sections 3 to 7 of RFC 8259. */
  function Write(n: Node): Str
    requires Simple(n)
    decreases n, 1, 0
  {
    match n
    case JNull => "null"
    case JBool(b) => if b then "true" else "false"
    case JString(s) => "\"" + s + "\""
    case JArray(es) => "[" + WriteElements(n, |es|) + "]"
    case JObject(ms) => "{" + WriteMembers(n, |ms|) + "}"
  }

  function WriteElements(n: Node, i: nat): Str
    requires n.JArray? && Simple(n) && i <= |n.elements|
    decreases n, 0, i
  {
    if i == 0 then []
    else if i == 1 then Write(n.elements[0])
    else WriteElements(n, i - 1) + "," + Write(n.elements[i - 1])
  }

  function WriteMembers(n: Node, i: nat): Str
    requires n.JObject? && Simple(n) && i <= |n.members|
    decreases n, 0, i
  {
    if i == 0 then []
    else (if i == 1 then [] else WriteMembers(n, i - 1) + ",") + "\"" + n.members[i - 1].0 + "\":" + Write(n.members[i - 1].1)
  }

  lemma ChildIsSimple(c: Child)
    requires forall k :: 0 <= k < |c.id| ==> NeedsNoEscape(c.id[k])
    ensures Simple(ChildNode(c))
  {
    assert forall x :: x in ID ==> NeedsNoEscape(x);
    assert forall x :: x in ENABLED ==> NeedsNoEscape(x);
  }

  lemma KeysAreQuoted()
    ensures ID_KEY == "\"" + ID + "\":" + "\"" && ENABLED_KEY == "\"" + ENABLED + "\":"
    ensures OPEN == "{" && CLOSE == "}" && COMMA == "," && QUOTE == "\""
  {
  }

  /** The pieces of an entry, in the two ways of bracketing them. */
  lemma Bracketed(open: Str, quote: Str, id: Str, colon: Str, value: Str, comma: Str, enabled: Str, state: Str, close: Str)
    ensures open + (quote + id + colon + quote) + value + quote + comma + (quote + enabled + colon) + state + close ==
            open + (((([] + quote + id + colon + (quote + value + quote)) + comma) + quote + enabled + colon) + state) + close
  {
  }

  lemma MembersOf(n: Node, id: Str, value: Str, enabled: Str, state: bool)
    requires n == JObject([(id, JString(value)), (enabled, JBool(state))]) && Simple(n)
    ensures Write(n) == "{" + (((([] + "\"" + id + "\":" + ("\"" + value + "\"")) + ",") + "\"" + enabled + "\":") + BoolWord(state)) + "}"
  {
    assert WriteMembers(n, 0) == [];
    assert n.members[0].1 == JString(value) && n.members[1].1 == JBool(state) && |n.members| == 2;
    assert n.members[0].0 == id && n.members[1].0 == enabled;
    assert Write(n.members[0].1) == "\"" + value + "\"";
    var one := WriteMembers(n, 1);
    assert one == [] + "\"" + n.members[0].0 + "\":" + Write(n.members[0].1);
    assert one == [] + "\"" + id + "\":" + ("\"" + value + "\"");
    assert Write(n.members[1].1) == BoolWord(state);
    assert WriteMembers(n, 2) == (one + ",") + "\"" + enabled + "\":" + BoolWord(state);
  }

  function BoolWord(b: bool): Str {
    if b then "true" else "false"
  }

  lemma EntryIsJson(c: Child)
    requires forall k :: 0 <= k < |c.id| ==> NeedsNoEscape(c.id[k])
    ensures Simple(ChildNode(c)) && Entry(c) == Write(ChildNode(c))
  {
    ChildIsSimple(c);
    MembersOf(ChildNode(c), ID, c.id, ENABLED, c.enabled);
    KeysAreQuoted();
    Bracketed("{", "\"", ID, "\":", c.id, ",", ENABLED, BoolWord(c.enabled), "}");
    assert BoolText(c.enabled) == BoolWord(c.enabled);
  }

  lemma {:induction false} EntriesAreJson(l: seq<Child>, i: nat)
    requires PlainIds(l) && i <= |l| && Simple(ListNode(l))
    ensures Entries(l[..i]) == WriteElements(ListNode(l), i)
  {
    if i > 0 {
      assert l[..i][..i - 1] == l[..i - 1] && l[..i][i - 1] == l[i - 1];
      EntryIsJson(l[i - 1]);
      EntriesAreJson(l, i - 1);
    }
  }

  /** What is written is the JSON text of the list. */
  lemma ListTextIsJson(l: seq<Child>)
    requires PlainIds(l)
    ensures Simple(ListNode(l)) && ListText(l) == Write(ListNode(l))
  {
    forall i | 0 <= i < |l|
      ensures Simple(ListNode(l).elements[i])
    {
      EntryIsJson(l[i]);
    }
    assert l[..|l|] == l;
    EntriesAreJson(l, |l|);
  }

  // ----- the text determines the list

  lemma CancelSuffix(a: Str, b: Str, s: Str)
    requires a + s == b + s
    ensures a == b
  {
    assert |a + s| == |b + s|;
    assert (a + s)[..|a|] == a && (b + s)[..|b|] == b;
  }

  /** The last `c` separates what comes before it from what comes after. */
  lemma SplitAtLast(p: Str, q: Str, x: Str, y: Str, c: Byte)
    requires p != [] && q != [] && p[|p| - 1] == c && q[|q| - 1] == c && c !in x && c !in y && p + x == q + y
    ensures p == q && x == y
  {
    var s := p + x;
    assert s == q + y && s[|p| - 1] == c && s[|q| - 1] == c;
    assert forall i :: |p| <= i < |s| ==> s[i] == x[i - |p|];
    assert forall i :: |q| <= i < |s| ==> s[i] == y[i - |q|];
    assert s[..|p|] == p && s[..|q|] == q && s[|p|..] == x && s[|q|..] == y;
  }

  const HEAD: Str := OPEN + ID_KEY

  function Tail(enabled: bool): Str {
    QUOTE + COMMA + ENABLED_KEY + BoolText(enabled) + CLOSE
  }

  lemma EntryParts(a: Str, c: Child)
    ensures a + Entry(c) == a + HEAD + c.id + Tail(c.enabled)
  {
    assert Entry(c) == HEAD + c.id + Tail(c.enabled);
  }

  /** The third character from the end is that of "true" or of "false". */
  lemma StateFromTail(x: Str, y: Str, b: bool, b': bool)
    requires x + Tail(b) == y + Tail(b')
    ensures b == b' && x == y
  {
    var s := x + Tail(b);
    assert s == y + Tail(b');
    var n := |s|;
    assert s[n - 3] == (if b then 'u' else 's') by {
      assert Tail(b)[|Tail(b)| - 3] == (if b then 'u' else 's');
    }
    assert s[n - 3] == (if b' then 'u' else 's') by {
      assert Tail(b')[|Tail(b')| - 3] == (if b' then 'u' else 's');
    }
    CancelSuffix(x, y, Tail(b));
  }

  lemma LastEntry(a: Str, b: Str, c: Child, d: Child)
    requires a + Entry(c) == b + Entry(d) && '"' !in c.id && '"' !in d.id
    ensures a == b && c.id == d.id && c.enabled == d.enabled
  {
    EntryParts(a, c);
    EntryParts(b, d);
    StateFromTail(a + HEAD + c.id, b + HEAD + d.id, c.enabled, d.enabled);
    SplitAtLast(a + HEAD, b + HEAD, c.id, d.id, '"');
    CancelSuffix(a, b, HEAD);
  }

  /** What precedes the last entry. */
  function Lead(l: seq<Child>): Str
    requires l != []
  {
    if |l| == 1 then [] else Entries(l[..|l| - 1]) + COMMA
  }

  lemma EntriesLast(l: seq<Child>)
    requires l != []
    ensures Entries(l) == Lead(l) + Entry(l[|l| - 1]) && Entries(l) != []
  {
    var last := Entry(l[|l| - 1]);
    assert |last| > 0;
    NonEmptyEnd(Lead(l), last);
  }

  lemma NonEmptyEnd(a: Str, b: Str)
    requires |b| > 0
    ensures a + b != [] && (a == [] ==> a + b == b)
  {
    assert |a + b| == |a| + |b|;
  }

  lemma SameLead(l: seq<Child>, m: seq<Child>)
    requires l != [] && m != [] && Lead(l) == Lead(m)
    ensures |l| == 1 <==> |m| == 1
    ensures |l| > 1 ==> Entries(l[..|l| - 1]) == Entries(m[..|m| - 1])
  {
    if |l| > 1 && |m| > 1 {
      CancelSuffix(Entries(l[..|l| - 1]), Entries(m[..|m| - 1]), COMMA);
    }
  }

  ghost predicate SameChildren(l: seq<Child>, m: seq<Child>) {
    |l| == |m| && forall i :: 0 <= i < |l| ==> l[i].id == m[i].id && l[i].enabled == m[i].enabled
  }

  lemma SameUpToLast(l: seq<Child>, m: seq<Child>)
    requires l != [] && m != [] && SameChildren(l[..|l| - 1], m[..|m| - 1])
    requires var c, d := l[|l| - 1], m[|m| - 1]; c.id == d.id && c.enabled == d.enabled
    ensures SameChildren(l, m)
  {
    assert forall i :: 0 <= i < |l| - 1 ==> l[i] == l[..|l| - 1][i] && m[i] == m[..|m| - 1][i];
  }

  lemma {:induction false} EntriesDetermineChildren(l: seq<Child>, m: seq<Child>)
    requires PlainIds(l) && PlainIds(m) && Entries(l) == Entries(m)
    ensures SameChildren(l, m)
    decreases |l|
  {
    if l != [] {
      EntriesLast(l);
    }
    if m != [] {
      EntriesLast(m);
    }
    if l != [] && m != [] {
      LastEntry(Lead(l), Lead(m), l[|l| - 1], m[|m| - 1]);
      SameLead(l, m);
      if |l| > 1 {
        EntriesDetermineChildren(l[..|l| - 1], m[..|m| - 1]);
      }
      SameUpToLast(l, m);
    }
  }

  /** Lists of plain ids with the same text stand for the same tree, so that a parser can do what ParsesLists() asks. */
  lemma TextDeterminesTree(l: seq<Child>, m: seq<Child>)
    requires PlainIds(l) && PlainIds(m) && ListText(l) == ListText(m)
    ensures ListNode(l) == ListNode(m)
  {
    var a, b := Entries(l), Entries(m);
    assert ("[" + a + "]")[1..|a| + 1] == a && ("[" + b + "]")[1..|b| + 1] == b;
    assert |"[" + a + "]"| == |a| + 2 && |"[" + b + "]"| == |b| + 2;
    EntriesDetermineChildren(l, m);
  }

  ghost function IdealParse(text: Str): Option<Node> {
    if exists l :: PlainIds(l) && ListText(l) == text then
      var l :| PlainIds(l) && ListText(l) == text;
      Some(ListNode(l))
    else None
  }

  lemma SuchAParserExists()
    ensures ParsesLists(IdealParse)
  {
    forall l | PlainIds(l)
      ensures IdealParse(ListText(l)) == Some(ListNode(l))
    {
      forall m | PlainIds(m) && ListText(m) == ListText(l)
        ensures ListNode(m) == ListNode(l)
      {
        TextDeterminesTree(m, l);
      }
    }
  }

  // ----- states

  function Member(ms: seq<(Str, Node)>, name: Str): Option<Node> {
    if ms == [] then None else if ms[0].0 == name then Some(ms[0].1) else Member(ms[1..], name)
  }

  /** Asking a node that is not an object for a member throws; incomplete or mistyped children are skipped. */
  function ReadChild(n: Node): Result<Option<(Str, bool)>> {
    if !n.JObject? then Throws(Logic)
    else
      var id, enabled := Member(n.members, ID), Member(n.members, ENABLED);
      if id.Some? && id.value.JString? && enabled.Some? && enabled.value.JBool? then Ok(Some((id.value.s, enabled.value.b)))
      else Ok(None)
  }

  function AddChild(m: States, c: Option<(Str, bool)>): States {
    if c.Some? && c.value.0 !in m then m[c.value.0 := c.value.1] else m
  }

  function ReadStates(ns: seq<Node>): Result<States> {
    if ns == [] then Ok(map[])
    else
      var m :- ReadStates(ns[..|ns| - 1]);
      var c :- ReadChild(ns[|ns| - 1]);
      Ok(AddChild(m, c))
  }

  /** What a file with this text says; text that is not a JSON array says nothing. */
  function Contents(parse: Parser, text: Str): Result<States> {
    match parse(text)
    case Some(JArray(ns)) => ReadStates(ns)
    case _ => Ok(map[])
  }

  lemma {:induction false} FailurePersists(ns: seq<Node>, i: nat)
    requires i <= |ns| && ReadStates(ns[..i]).Throws?
    ensures ReadStates(ns) == ReadStates(ns[..i])
  {
    if i < |ns| {
      assert ns[..|ns| - 1][..i] == ns[..i];
      FailurePersists(ns[..|ns| - 1], i);
    } else {
      assert ns[..i] == ns;
    }
  }

  method JsonToList(parse: Parser, text: Str) returns (r: Result<States>)
    ensures r == Contents(parse, text)
  {
    var root := parse(text);
    if root.None? || !root.value.JArray? {
      return Ok(map[]);
    }
    var ns := root.value.elements;
    var m: States := map[];
    for i := 0 to |ns|
      invariant ReadStates(ns[..i]) == Ok(m)
    {
      assert ns[..i + 1][..i] == ns[..i] && ns[..i + 1][i] == ns[i];
      var c := ReadChild(ns[i]);
      if c.Throws? {
        FailurePersists(ns, i + 1);
        return Throws(c.error);
      }
      m := AddChild(m, c.value);
    }
    assert ns[..|ns|] == ns;
    r := Ok(m);
  }

  /** The object's member of that name. */
  ghost predicate HasMember(ms: seq<(Str, Node)>, name: Str, v: Node) {
    exists k :: 0 <= k < |ms| && ms[k] == (name, v) && forall j :: 0 <= j < k ==> ms[j].0 != name
  }

  lemma {:induction false} MemberIs(ms: seq<(Str, Node)>, name: Str, v: Node)
    ensures Member(ms, name) == Some(v) <==> HasMember(ms, name, v)
  {
    if ms != [] && ms[0].0 != name {
      MemberIs(ms[1..], name, v);
      assert forall k :: 0 < k < |ms| ==> ms[k] == ms[1..][k - 1];
      if HasMember(ms, name, v) {
        var k :| 0 <= k < |ms| && ms[k] == (name, v) && forall j :: 0 <= j < k ==> ms[j].0 != name;
        assert ms[1..][k - 1] == (name, v);
      }
      if HasMember(ms[1..], name, v) {
        var k :| 0 <= k < |ms[1..]| && ms[1..][k] == (name, v) && forall j :: 0 <= j < k ==> ms[1..][j].0 != name;
        assert ms[k + 1] == (name, v);
      }
    }
  }

  /** A complete and well-typed child. */
  ghost predicate IsChild(n: Node, id: Str, enabled: bool) {
    n.JObject? && HasMember(n.members, "id", JString(id)) && HasMember(n.members, "enabled", JBool(enabled))
  }

  lemma ChildMeans(n: Node, id: Str, enabled: bool)
    requires n.JObject?
    ensures ReadChild(n).Ok? && (ReadChild(n).value == Some((id, enabled)) <==> IsChild(n, id, enabled))
  {
    MemberIs(n.members, ID, JString(id));
    MemberIs(n.members, ENABLED, JBool(enabled));
  }

  /** The first complete child with the id has this state. */
  ghost predicate FirstChild(ns: seq<Node>, id: Str, enabled: bool) {
    exists i :: FirstChildAt(ns, id, enabled, i)
  }

  ghost predicate FirstChildAt(ns: seq<Node>, id: Str, enabled: bool, i: int) {
    0 <= i < |ns| && IsChild(ns[i], id, enabled) && forall j, b :: 0 <= j < i ==> !IsChild(ns[j], id, b)
  }

  ghost predicate NoChild(ns: seq<Node>, id: Str) {
    forall j, b :: 0 <= j < |ns| ==> !IsChild(ns[j], id, b)
  }

  lemma FirstChildLast(ns: seq<Node>, id: Str, enabled: bool)
    requires ns != []
    ensures var before, last := ns[..|ns| - 1], ns[|ns| - 1];
            FirstChild(ns, id, enabled) <==> FirstChild(before, id, enabled) || (NoChild(before, id) && IsChild(last, id, enabled))
  {
    var before, last := ns[..|ns| - 1], ns[|ns| - 1];
    assert forall j :: 0 <= j < |before| ==> before[j] == ns[j];
    if i :| FirstChildAt(ns, id, enabled, i) {
      assert i < |before| ==> FirstChildAt(before, id, enabled, i);
    }
    if i :| FirstChildAt(before, id, enabled, i) {
      assert FirstChildAt(ns, id, enabled, i);
    }
    if NoChild(before, id) && IsChild(last, id, enabled) {
      assert FirstChildAt(ns, id, enabled, |before|);
    }
  }

  ghost predicate AllObjects(ns: seq<Node>) {
    forall i :: 0 <= i < |ns| ==> ns[i].JObject?
  }

  ghost predicate StatesOf(m: States, ns: seq<Node>, id: Str) {
    && (forall b :: StateAt(m, id) == Some(b) <==> FirstChild(ns, id, b))
    && (id !in m <==> NoChild(ns, id))
  }

  lemma StatesStep(m: States, ns: seq<Node>, id: Str)
    requires ns != [] && ns[|ns| - 1].JObject? && StatesOf(m, ns[..|ns| - 1], id)
    ensures StatesOf(AddChild(m, ReadChild(ns[|ns| - 1]).value), ns, id)
  {
    var before, last := ns[..|ns| - 1], ns[|ns| - 1];
    FirstChildLast(ns, id, true);
    FirstChildLast(ns, id, false);
    ChildMeans(last, id, true);
    ChildMeans(last, id, false);
    assert forall j :: 0 <= j < |before| ==> before[j] == ns[j];
    assert NoChild(ns, id) <==> NoChild(before, id) && forall b :: !IsChild(last, id, b);
  }

  /** What any array of nodes says: it is refused exactly if some element is no object; otherwise every id has the
      state of the first complete and well-typed child with that id. */
  lemma {:induction false} StatesMean(ns: seq<Node>)
    ensures ReadStates(ns).Ok? <==> AllObjects(ns)
    ensures ReadStates(ns).Throws? ==> ReadStates(ns).error == Logic
    ensures ReadStates(ns).Ok? ==> forall id :: StatesOf(ReadStates(ns).value, ns, id)
  {
    if ns != [] {
      var before, last := ns[..|ns| - 1], ns[|ns| - 1];
      StatesMean(before);
      assert AllObjects(ns) <==> AllObjects(before) && last.JObject? by {
        assert forall j :: 0 <= j < |before| ==> before[j] == ns[j];
      }
      if AllObjects(ns) {
        forall id: Str
          ensures StatesOf(ReadStates(ns).value, ns, id)
        {
          StatesStep(ReadStates(before).value, ns, id);
        }
      }
    }
  }

  /** The state of the first child with the given id. */
  function FirstState(l: seq<Child>, id: Str): Option<bool> {
    if l == [] then None else if l[0].id == id then Some(l[0].enabled) else FirstState(l[1..], id)
  }

  function StateAt(m: States, id: Str): Option<bool> {
    if id in m then Some(m[id]) else None
  }

  lemma {:induction false} FirstStateSplit(a: seq<Child>, b: seq<Child>, id: Str)
    ensures FirstState(a + b, id) == if FirstState(a, id).Some? then FirstState(a, id) else FirstState(b, id)
  {
    if a == [] {
      assert a + b == b;
    } else {
      assert (a + b)[1..] == a[1..] + b;
      FirstStateSplit(a[1..], b, id);
    }
  }

  lemma ChildIsRead(c: Child)
    ensures ReadChild(ChildNode(c)) == Ok(Some((c.id, c.enabled)))
  {
    var ms := [(ID, JString(c.id)), (ENABLED, JBool(c.enabled))];
    assert |ID| == 2 && |ENABLED| == 7;
    assert Member(ms, ID) == Some(JString(c.id));
    assert ms[1..] == [(ENABLED, JBool(c.enabled))];
    assert Member(ms[1..], ENABLED) == Some(JBool(c.enabled));
  }

  /** Reading a list back gives every id the state of its first appearance. */
  lemma {:induction false} FirstAppearanceCounts(l: seq<Child>)
    ensures ReadStates(ListNode(l).elements).Ok?
    ensures forall id :: StateAt(ReadStates(ListNode(l).elements).value, id) == FirstState(l, id)
  {
    if l != [] {
      var n := |l| - 1;
      FirstAppearanceCounts(l[..n]);
      assert ListNode(l).elements[..n] == ListNode(l[..n]).elements;
      ChildIsRead(l[n]);
      assert l == l[..n] + [l[n]];
      forall id: Str {
        FirstStateSplit(l[..n], [l[n]], id);
      }
      assert forall id :: FirstState([l[n]], id) == if l[n].id == id then Some(l[n].enabled) else None;
    }
  }

  // ----- merging

  function Update(c: Child, m: States): Child {
    if c.id in m then c.(enabled := m[c.id]) else c
  }

  function Merge(l: seq<Child>, m: States): seq<Child> {
    seq(|l|, i requires 0 <= i < |l| => Update(l[i], m))
  }

  lemma MergeWithNothing(l: seq<Child>)
    ensures Merge(l, map[]) == l
  {
  }

  /** Children with one id that the repository does not know agree on their default. */
  ghost predicate Coherent(l: seq<Child>, m: States) {
    forall i, j :: 0 <= i < j < |l| && l[i].id == l[j].id && l[i].id !in m ==> l[i].enabled == l[j].enabled
  }

  lemma {:induction false} FirstIndex(l: seq<Child>, id: Str) returns (k: nat)
    ensures k <= |l| && (FirstState(l, id).None? <==> k == |l|)
    ensures forall i :: 0 <= i < k ==> l[i].id != id
    ensures k < |l| ==> l[k].id == id && FirstState(l, id) == Some(l[k].enabled)
  {
    if l == [] || l[0].id == id {
      return 0;
    }
    k := FirstIndex(l[1..], id);
    assert forall i :: 1 <= i < |l| ==> l[i] == l[1..][i - 1];
    k := k + 1;
  }

  ghost predicate Records(m: States, l: seq<Child>) {
    forall id :: StateAt(m, id) == FirstState(l, id)
  }

  /** In a second merge every child takes the state that the first child with its id got in the first. */
  lemma SecondMerge(l: seq<Child>, m: States, m': States, i: nat) returns (k: nat)
    requires Records(m', Merge(l, m)) && i < |l|
    ensures k <= i && l[k].id == l[i].id && Merge(l, m')[i] == l[i].(enabled := Merge(l, m)[k].enabled)
    ensures forall h :: 0 <= h < k ==> l[h].id != l[i].id
  {
    var once, id := Merge(l, m), l[i].id;
    k := FirstIndex(once, id);
    assert once[i].id == id && StateAt(m', id) == FirstState(once, id);
    assert forall h :: 0 <= h < |l| ==> once[h].id == l[h].id;
  }

  /** Merging the same defaults with the list they were merged into changes nothing exactly if duplicates
      that were new to the repository agreed. */
  lemma MergeIsStableIff(l: seq<Child>, m: States, m': States)
    requires Records(m', Merge(l, m))
    ensures Merge(l, m') == Merge(l, m) <==> Coherent(l, m)
  {
    if Coherent(l, m) {
      forall i | 0 <= i < |l|
        ensures Merge(l, m')[i] == Merge(l, m)[i]
      {
        var k := SecondMerge(l, m, m', i);
      }
    } else {
      var i, j :| 0 <= i < j < |l| && l[i].id == l[j].id && l[i].id !in m && l[i].enabled != l[j].enabled;
      var k := SecondMerge(l, m, m', i);
      var k' := SecondMerge(l, m, m', j);
      assert k == k';
      assert Merge(l, m)[i] == l[i] && Merge(l, m)[j] == l[j];
    }
  }

  /** Afterwards it always is. */
  lemma MergeIsStableOnceRecorded(l: seq<Child>, m: States, m': States, m'': States)
    requires Records(m', Merge(l, m)) && Records(m'', Merge(l, m'))
    ensures Merge(l, m'') == Merge(l, m')
  {
    forall i, j | 0 <= i < j < |l| && l[i].id == l[j].id
      ensures l[i].id in m'
    {
      var k := FirstIndex(Merge(l, m), l[i].id);
      assert Merge(l, m)[i].id == l[i].id && StateAt(m', l[i].id).Some?;
    }
    assert Coherent(l, m');
    MergeIsStableIff(l, m', m'');
  }

  // ----- the repository

  /** `canRead` and `canWrite` say whether the file can be opened at the time of the call. */
  class Repository {
    const parse: Parser
    var file: Option<Str>
    var cache: States
    var haveLatestCache: bool

    /** With no other writer, a cache that is marked as the latest is what the file says. */
    ghost predicate Valid()
      reads this
    {
      haveLatestCache ==> file.Some? && Contents(parse, file.value) == Ok(cache)
    }

    /** The states that a call starts from. */
    ghost function Known(canRead: bool): Result<States>
      reads this
    {
      if file.Some? && (canRead || haveLatestCache) then Contents(parse, file.value) else Ok(map[])
    }

    constructor (parse: Parser, file: Option<Str>)
      ensures Valid() && this.parse == parse && this.file == file
    {
      this.parse, this.file, this.cache, this.haveLatestCache := parse, file, map[], false;
    }

    method ReadRepo(canRead: bool) returns (r: Result<States>)
      requires Valid()
      modifies `cache, `haveLatestCache
      ensures Valid() && r == old(Known(canRead))
    {
      if haveLatestCache {
        return Ok(cache);
      }
      if file.None? || !canRead {
        return Ok(map[]);
      }
      r := JsonToList(parse, file.value);
      if r.Throws? {
        return;
      }
      cache := r.value;
      haveLatestCache := true;
    }

    method WriteRepo(l: seq<Child>, canWrite: bool) returns (ok: bool)
      requires Valid()
      modifies `file, `haveLatestCache
      ensures Valid() && ok == canWrite
      ensures file == if canWrite then Some(ListText(l)) else old(file)
    {
      if !canWrite {
        return false;
      }
      var text := ListToJson(l);
      file := Some(text);
      haveLatestCache := false;
      ok := true;
    }

    method GetChildScopes(defaults: seq<Child>, canRead: bool, canWrite: bool) returns (r: Result<seq<Child>>)
      requires Valid()
      modifies this
      ensures Valid()
      ensures old(Known(canRead)).Throws? ==> r == Throws(old(Known(canRead)).error) && file == old(file)
      ensures old(Known(canRead)).Ok? ==> r == Ok(Merge(defaults, old(Known(canRead)).value))
      ensures r.Ok? ==> file == if canWrite then Some(ListText(r.value)) else old(file)
      ensures old(file).None? || (!canRead && !old(haveLatestCache)) ==> r == Ok(defaults)
      ensures old(file).Some? && (parse(old(file).value).None? || !parse(old(file).value).value.JArray?) ==> r == Ok(defaults)
    {
      MergeWithNothing(defaults);
      var known := ReadRepo(canRead);
      if known.Throws? {
        return Throws(known.error);
      }
      var states, l := known.value, [];
      for i := 0 to |defaults|
        invariant l == Merge(defaults[..i], states)
      {
        assert defaults[..i + 1] == defaults[..i] + [defaults[i]];
        if defaults[i].id in states {
          l := l + [defaults[i].(enabled := states[defaults[i].id])];
        } else {
          l := l + [defaults[i]];
        }
      }
      assert defaults[..|defaults|] == defaults;
      var written := WriteRepo(l, canWrite);
      r := Ok(l);
    }

    method SetChildScopes(l: seq<Child>, canWrite: bool) returns (ok: bool)
      requires Valid()
      modifies `file, `haveLatestCache
      ensures Valid() && ok == canWrite
      ensures file == if canWrite then Some(ListText(l)) else old(file)
    {
      ok := WriteRepo(l, canWrite);
    }
  }

  /** What is written is read back: every id has the state of its first appearance. */
  lemma WrittenStatesAreRead(parse: Parser, l: seq<Child>)
    requires ParsesLists(parse) && PlainIds(l)
    ensures Contents(parse, ListText(l)).Ok? && Records(Contents(parse, ListText(l)).value, l)
  {
    FirstAppearanceCounts(l);
  }

  /** Asking again with the same defaults, when every write succeeds: the second answer repeats the first exactly if
      duplicates that were new to the repository agreed, in particular if ids are distinct; the third answer always
      repeats the second. `m` is what the repository knew before the first call. */
  lemma AskingAgain(parse: Parser, defaults: seq<Child>, m: States)
    requires ParsesLists(parse) && PlainIds(defaults)
    ensures var first := Merge(defaults, m);
            var known2 := Contents(parse, ListText(first));
            && known2.Ok?
            && (Merge(defaults, known2.value) == first <==> Coherent(defaults, m))
            && var second := Merge(defaults, known2.value);
               var known3 := Contents(parse, ListText(second));
               known3.Ok? && Merge(defaults, known3.value) == second
  {
    var first := Merge(defaults, m);
    assert PlainIds(first);
    WrittenStatesAreRead(parse, first);
    var m2 := Contents(parse, ListText(first)).value;
    MergeIsStableIff(defaults, m, m2);
    assert PlainIds(Merge(defaults, m2));
    WrittenStatesAreRead(parse, Merge(defaults, m2));
    MergeIsStableOnceRecorded(defaults, m, m2, Contents(parse, ListText(Merge(defaults, m2))).value);
  }

  /** Three calls with the same defaults on one repository whose file can be read and written. */
  method AskThreeTimes(repo: Repository, defaults: seq<Child>) returns (r1: seq<Child>, r2: seq<Child>, r3: seq<Child>)
    requires repo.Valid() && ParsesLists(repo.parse) && PlainIds(defaults) && repo.Known(true).Ok?
    modifies repo
    ensures repo.Valid()
    ensures var m := old(repo.Known(true).value);
            r1 == Merge(defaults, m) && (r2 == r1 <==> Coherent(defaults, m)) && r3 == r2
  {
    ghost var m := repo.Known(true).value;
    AskingAgain(repo.parse, defaults, m);
    var a1 := repo.GetChildScopes(defaults, true, true);
    var a2 := repo.GetChildScopes(defaults, true, true);
    var a3 := repo.GetChildScopes(defaults, true, true);
    r1, r2, r3 := a1.value, a2.value, a3.value;
  }

  /** Two new duplicates that disagree: the second answer enables both. */
  lemma DisagreeingDuplicates()
    ensures var a, b := Child("a", map[], true, {}), Child("a", map[], false, {});
            && Merge([a, b], map[]) == [a, b]
            && forall m: States :: Records(m, [a, b]) ==> Merge([a, b], m) == [a, a]
  {
    var a, b := Child("a", map[], true, {}), Child("a", map[], false, {});
    forall m: States | Records(m, [a, b])
      ensures Merge([a, b], m) == [a, a]
    {
      assert FirstState([a, b], "a") == Some(true) && StateAt(m, "a") == Some(true);
    }
  }
}
