/**
 Tab completion of dotted parameter paths: the pruned tree walk `get_sub_keys`, and the lookup
 `walk_dotted_path` that resolves what it offers.
 */
module Completion {
  import opened Text

  /** A shared pointer to a table may be null; an array of tables is neither offered nor entered. */
  datatype Entry =
    | Scalar(value: string)
    | ScalarArray(values: seq<string>)
    | SubTable(sub: Table)
    | NullTable
    | TableArray(tables: seq<Table>)

  datatype Member = Member(key: string, entry: Entry)

  /** `std::map` members in iteration order. */
  datatype Table = Table(members: seq<Member>)

  datatype Node = Node(path: string, entry: Entry)

  function FullPath(prefix: string, key: string): (path: string)
    ensures prefix <= path
  {
    if prefix == "" then key else prefix + "." + key
  }

  /** Every entry below `ms`, parents before children. */
  function Preorder(ms: seq<Member>, prefix: string): seq<Node>
    decreases ms
  {
    if ms == [] then
      []
    else
      var path := FullPath(prefix, ms[0].key);
      [Node(path, ms[0].entry)] + Below(ms[0].entry, path) + Preorder(ms[1..], prefix)
  }

  function Below(e: Entry, path: string): seq<Node>
    decreases e
  {
    if e.SubTable? then Preorder(e.sub.members, path) else []
  }

  /** How an entry is offered: a value to be set, or a table to be entered. */
  function Offer(n: Node): seq<string> {
    if n.entry.Scalar? || n.entry.ScalarArray? then [n.path + "="]
    else if n.entry.SubTable? || n.entry.NullTable? then [n.path + "."]
    else []
  }

  /** Enumerate, then filter. */
  function Naive(nodes: seq<Node>, filter: string): seq<string> {
    if nodes == [] then []
    else (if filter <= nodes[0].path then Offer(nodes[0]) else []) + Naive(nodes[1..], filter)
  }

  lemma {:induction false} NaiveConcat(a: seq<Node>, b: seq<Node>, filter: string)
    ensures Naive(a + b, filter) == Naive(a, filter) + Naive(b, filter)
    decreases |a|
  {
    if a == [] {
      assert a + b == b;
    } else {
      NaiveConcat(a[1..], b, filter);
      assert (a + b)[1..] == a[1..] + b;
      hide Offer;
      Assoc(if filter <= a[0].path then Offer(a[0]) else [], Naive(a[1..], filter), Naive(b, filter));
    }
  }

  ghost predicate AllExtend(nodes: seq<Node>, prefix: string) {
    forall i :: 0 <= i < |nodes| ==> prefix <= nodes[i].path
  }

  /** Every path below a prefix starts with it. */
  lemma {:induction false} PathsExtend(ms: seq<Member>, prefix: string)
    ensures AllExtend(Preorder(ms, prefix), prefix)
    decreases ms
  {
    if ms != [] {
      var e, path := ms[0].entry, FullPath(prefix, ms[0].key);
      if e.SubTable? {
        PathsExtend(e.sub.members, path);
      }
      PathsExtend(ms[1..], prefix);
      assert AllExtend(Below(e, path), path);
      assert forall i :: 0 <= i < |Below(e, path)| ==> prefix <= path <= Below(e, path)[i].path;
    }
  }

  predicate Unrelated(path: string, filter: string) {
    !(filter <= path) && !(path <= filter)
  }

  /** Two starts of the same text are starts of one another. */
  lemma StartsCompare(a: string, b: string, text: string)
    requires a <= text && b <= text
    ensures a <= b || b <= a
  {
    assert |a| <= |b| ==> a == text[..|a|] == b[..|a|];
    assert |b| <= |a| ==> b == text[..|b|] == a[..|b|];
  }

  /** Pruning is sound: below a path that neither starts with the filter nor is a start of it, nothing matches. */
  lemma {:induction false} NothingBelow(nodes: seq<Node>, path: string, filter: string)
    requires Unrelated(path, filter) && AllExtend(nodes, path)
    ensures Naive(nodes, filter) == []
  {
    if nodes != [] {
      NothingBelow(nodes[1..], path, filter);
      assert path <= nodes[0].path;
      if filter <= nodes[0].path {
        StartsCompare(path, filter, nodes[0].path);
      }
    }
  }

  lemma NaiveStep(ms: seq<Member>, prefix: string, filter: string)
    requires ms != []
    ensures Naive(Preorder(ms, prefix), filter) ==
            Answer(ms[0].entry, FullPath(prefix, ms[0].key), filter) + Naive(Preorder(ms[1..], prefix), filter)
  {
    var path := FullPath(prefix, ms[0].key);
    var n, below, rest := Node(path, ms[0].entry), Below(ms[0].entry, path), Preorder(ms[1..], prefix);
    NaiveConcat([n] + below, rest, filter);
    NaiveConcat([n], below, filter);
    assert [n][1..] == [];
    assert Naive([n], filter) == (if filter <= path then Offer(n) else []);
  }

  lemma UnrelatedSubtree(e: Entry, path: string, filter: string)
    requires Unrelated(path, filter)
    ensures Naive(Below(e, path), filter) == []
  {
    if e.SubTable? {
      PathsExtend(e.sub.members, path);
    }
    NothingBelow(Below(e, path), path, filter);
  }

  /** What one member adds to the answer. */
  function Answer(e: Entry, path: string, filter: string): seq<string> {
    (if filter <= path then Offer(Node(path, e)) else []) + Naive(Below(e, path), filter)
  }

  lemma AnswerOf(e: Entry, path: string, filter: string)
    ensures Unrelated(path, filter) ==> Answer(e, path, filter) == []
    ensures e.SubTable? && filter <= path ==>
              Answer(e, path, filter) == [path + "."] + Naive(Preorder(e.sub.members, path), filter)
    ensures e.SubTable? && !(filter <= path) ==> Answer(e, path, filter) == Naive(Preorder(e.sub.members, path), filter)
    ensures !e.SubTable? ==> Answer(e, path, filter) == if filter <= path then Offer(Node(path, e)) else []
  {
    if Unrelated(path, filter) {
      UnrelatedSubtree(e, path, filter);
    }
  }

  /** The loop body of `get_sub_keys`. */
  method VisitMember(m: Member, prefix: string, filter: string, matches: seq<string>) returns (matches': seq<string>)
    ensures matches' == matches + Answer(m.entry, FullPath(prefix, m.key), filter)
    decreases m
  {
    matches' := matches;
    var fullPath := FullPath(prefix, m.key);
    AnswerOf(m.entry, fullPath, filter);
    hide Answer, Preorder, Naive;
    var forward := filter <= fullPath;
    var backward := fullPath <= filter;
    if !forward && !backward {
      return;
    }
    if forward {
      if m.entry.Scalar? || m.entry.ScalarArray? {
        matches' := matches' + [fullPath + "="];
      } else if m.entry.SubTable? || m.entry.NullTable? {
        matches' := matches' + [fullPath + "."];
      }
    }
    if m.entry.SubTable? {
      matches' := GetSubKeys(m.entry.sub, fullPath, filter, matches');
    }
  }

  /** The pruned walk appends exactly the enumerated and filtered answer, in order, for every tree and filter. */
  method GetSubKeys(table: Table, prefix: string, filter: string, matches: seq<string>) returns (matches': seq<string>)
    ensures matches' == matches + Naive(Preorder(table.members, prefix), filter)
    decreases table
  {
    matches' := matches;
    var ms := table.members;
    assert ms[0..] == ms;
    NaiveEnd(prefix, filter);
    hide Preorder, Naive;
    for i := 0 to |ms|
      invariant matches' + Naive(Preorder(ms[i..], prefix), filter) == matches + Naive(Preorder(ms, prefix), filter)
    {
      NaiveStep(ms[i..], prefix, filter);
      assert ms[i..][1..] == ms[i + 1..];
      hide Answer;
      var answer := Answer(ms[i].entry, FullPath(prefix, ms[i].key), filter);
      Assoc(matches', answer, Naive(Preorder(ms[i + 1..], prefix), filter));
      matches' := VisitMember(ms[i], prefix, filter, matches');
    }
    assert ms[|ms|..] == [];
  }

  lemma NaiveEnd(prefix: string, filter: string)
    ensures Naive(Preorder([], prefix), filter) == []
  {
  }

  // Resolving an offer.

  /** What a table of the Lua files looks like: distinct keys, none empty, none with a dot. */
  ghost predicate Good(ms: seq<Member>)
    decreases ms
  {
    && (forall i :: 0 <= i < |ms| ==> ms[i].key != "" && '.' !in ms[i].key)
    && (forall i, j :: 0 <= i < j < |ms| ==> ms[i].key != ms[j].key)
    && (forall i :: 0 <= i < |ms| && ms[i].entry.SubTable? ==> Good(ms[i].entry.sub.members))
  }

  /** `members.find(key)`. */
  function Find(ms: seq<Member>, key: string): (r: Option<Entry>)
    ensures r.None? ==> forall i :: 0 <= i < |ms| ==> ms[i].key != key
  {
    if ms == [] then None else if ms[0].key == key then Some(ms[0].entry) else Find(ms[1..], key)
  }

  /** The cursor `cur` of the lookup: the members of a table, or null. */
  function Enter(e: Entry): Option<seq<Member>> {
    if e.SubTable? then Some(e.sub.members) else None
  }

  function Walk(cur: Option<seq<Member>>, segs: seq<string>, last: Option<Entry>): Option<Entry>
    decreases |segs|
  {
    if segs == [] then
      last
    else if cur.None? then
      None
    else
      match Find(cur.value, segs[0])
      case None => None
      case Some(e) => Walk(Enter(e), segs[1..], Some(e))
  }

  /** The fields `std::getline` yields: a trailing separator ends the last one and starts none. */
  function Fields(s: string): seq<string>
    decreases |s|
  {
    if s == "" then []
    else
      var i := IndexOf(s, '.');
      [s[..i]] + (if i < |s| then Fields(s[i + 1..]) else [])
  }

  lemma FieldsUnfold(s: string)
    ensures Fields("") == []
    ensures var i := IndexOf(s, '.');
            s != "" ==> Fields(s) == [s[..i]] + (if i < |s| then Fields(s[i + 1..]) else [])
  {
  }

  /** One turn of the `getline` loop. */
  lemma FieldsAt(s: string, pos: nat)
    requires pos < |s|
    ensures var end := IndexFrom(s, '.', pos);
            Fields(s[pos..]) == [s[pos..end]] + (if end + 1 < |s| then Fields(s[end + 1..]) else [])
  {
    hide Fields, IndexFrom, IndexOf;
    var end := IndexFrom(s, '.', pos);
    IndexOfSuffix(s, '.', pos);
    FieldsUnfold(s[pos..]);
    assert s[pos..][..end - pos] == s[pos..end];
    if end < |s| {
      assert s[pos..][end - pos + 1..] == s[end + 1..];
      assert end + 1 == |s| ==> s[end + 1..] == "";
    }
  }

  lemma WalkStep(cur: Option<seq<Member>>, seg: string, rest: seq<string>, last: Option<Entry>)
    ensures Walk(cur, [seg] + rest, last) ==
            if cur.None? || Find(cur.value, seg).None? then None
            else Walk(Enter(Find(cur.value, seg).value), rest, Find(cur.value, seg))
  {
    assert ([seg] + rest)[1..] == rest;
  }

  method WalkDottedPath(root: Table, path: string) returns (r: Option<Entry>)
    ensures r == Resolve(root, path)
  {
    var cur := Some(root.members);
    var last: Option<Entry> := None;
    var pos := 0;
    hide Fields, Walk, Find, IndexFrom;
    ghost var goal, rest := Walk(cur, Fields(path), None), Fields(path);
    assert path[0..] == path;
    FieldsUnfold("");
    while pos < |path|
      invariant rest == if pos < |path| then Fields(path[pos..]) else []
      invariant goal == Walk(cur, rest, last)
      decreases |path| - pos
    {
      FieldsAt(path, pos);
      var seg, next := GetLine(path, '.', pos);
      rest := if next < |path| then Fields(path[next..]) else [];
      WalkStep(cur, seg, rest, last);
      if cur == None {
        return None;
      }
      var found := Find(cur.value, seg);
      if found == None {
        return None;
      }
      last, cur, pos := found, Enter(found.value), next;
    }
    WalkNowhere(cur, last);
    return last;
  }

  lemma WalkNowhere(cur: Option<seq<Member>>, last: Option<Entry>)
    ensures Walk(cur, [], last) == last
  {
  }

  /** The key sequences of the entries of `Preorder`, in the same order. */
  function Addresses(ms: seq<Member>, at: seq<string>): seq<seq<string>>
    decreases ms
  {
    if ms == [] then
      []
    else
      var a := at + [ms[0].key];
      [a] + AddressesBelow(ms[0].entry, a) + Addresses(ms[1..], at)
  }

  function AddressesBelow(e: Entry, at: seq<string>): seq<seq<string>>
    decreases e
  {
    if e.SubTable? then Addresses(e.sub.members, at) else []
  }

  ghost predicate CleanSegs(segs: seq<string>) {
    |segs| >= 1 && forall i :: 0 <= i < |segs| ==> segs[i] != "" && '.' !in segs[i]
  }

  /** The path text of an address. */
  function PathOf(at: seq<string>): string {
    if at == [] then "" else Join(at, '.')
  }

  lemma PathOfMore(at: seq<string>, key: string)
    requires (at == [] || CleanSegs(at)) && key != ""
    ensures PathOf(at + [key]) == FullPath(PathOf(at), key)
  {
    if at == [] {
      assert at + [key] == [key];
    } else {
      JoinConcat(at, [key], '.');
      assert Join(at, '.') != "" by {
        assert at[0] <= Join(at, '.');
      }
    }
  }

  /** Looking up an address below `ms`. */
  function Lookup(ms: seq<Member>, segs: seq<string>): Option<Entry> {
    Walk(Some(ms), segs, None)
  }

  /** The `i`-th entry has the `i`-th address: its path spells it, and looking it up finds that very entry. */
  ghost predicate Matched(n: Node, a: seq<string>, at: seq<string>, ms: seq<Member>) {
    at <= a && |at| < |a| && CleanSegs(a) && n.path == PathOf(a) && Lookup(ms, a[|at|..]) == Some(n.entry)
  }

  ghost predicate AllMatched(nodes: seq<Node>, addrs: seq<seq<string>>, at: seq<string>, ms: seq<Member>) {
    |nodes| == |addrs| && forall i :: 0 <= i < |nodes| ==> Matched(nodes[i], addrs[i], at, ms)
  }

  lemma GoodRest(ms: seq<Member>)
    requires Good(ms) && ms != []
    ensures Good(ms[1..]) && ms[0].key != "" && '.' !in ms[0].key
    ensures ms[0].entry.SubTable? ==> Good(ms[0].entry.sub.members)
    ensures Find(ms[1..], ms[0].key) == None
  {
    FindNone(ms[1..], ms[0].key);
  }

  lemma FindNone(ms: seq<Member>, key: string)
    requires forall i :: 0 <= i < |ms| ==> ms[i].key != key
    ensures Find(ms, key) == None
  {
  }

  /** A match among the later members is a match among all: keys are distinct. */
  lemma MatchedLater(n: Node, a: seq<string>, at: seq<string>, ms: seq<Member>)
    requires ms != [] && Find(ms[1..], ms[0].key) == None && Matched(n, a, at, ms[1..])
    ensures Matched(n, a, at, ms)
  {
    var segs := a[|at|..];
    assert segs == [segs[0]] + segs[1..];
    WalkStep(Some(ms), segs[0], segs[1..], None);
    WalkStep(Some(ms[1..]), segs[0], segs[1..], None);
  }

  lemma MatchedBelow(n: Node, a: seq<string>, at: seq<string>, ms: seq<Member>)
    requires ms != [] && ms[0].entry.SubTable? && Matched(n, a, at + [ms[0].key], ms[0].entry.sub.members)
    ensures Matched(n, a, at, ms)
  {
    var segs := a[|at|..];
    var down := a[|at| + 1..];
    assert segs == [ms[0].key] + down;
    WalkStep(Some(ms), ms[0].key, down, None);
    assert down == [down[0]] + down[1..];
    WalkStep(Some(ms[0].entry.sub.members), down[0], down[1..], Some(ms[0].entry));
    WalkStep(Some(ms[0].entry.sub.members), down[0], down[1..], None);
  }

  lemma MatchedFirst(at: seq<string>, ms: seq<Member>)
    requires ms != [] && (at == [] || CleanSegs(at)) && ms[0].key != "" && '.' !in ms[0].key
    ensures Matched(Node(FullPath(PathOf(at), ms[0].key), ms[0].entry), at + [ms[0].key], at, ms)
  {
    var a := at + [ms[0].key];
    PathOfMore(at, ms[0].key);
    assert a[|at|..] == [ms[0].key] + [];
    WalkStep(Some(ms), ms[0].key, [], None);
  }

  lemma Combine(first: Node, a: seq<string>, below: seq<Node>, addrsBelow: seq<seq<string>>, rest: seq<Node>,
                addrsRest: seq<seq<string>>, at: seq<string>, ms: seq<Member>)
    requires ms != [] && Find(ms[1..], ms[0].key) == None && Matched(first, a, at, ms)
    requires ms[0].entry.SubTable? ==> AllMatched(below, addrsBelow, at + [ms[0].key], ms[0].entry.sub.members)
    requires !ms[0].entry.SubTable? ==> below == [] && addrsBelow == []
    requires AllMatched(rest, addrsRest, at, ms[1..])
    ensures AllMatched([first] + below + rest, [a] + addrsBelow + addrsRest, at, ms)
  {
    hide Matched, Find;
    forall i | 0 <= i < |below|
      ensures Matched(below[i], addrsBelow[i], at, ms)
    {
      MatchedBelow(below[i], addrsBelow[i], at, ms);
    }
    forall i | 0 <= i < |rest|
      ensures Matched(rest[i], addrsRest[i], at, ms)
    {
      MatchedLater(rest[i], addrsRest[i], at, ms);
    }
  }

  lemma {:induction false} EveryNodeMatched(ms: seq<Member>, at: seq<string>)
    requires Good(ms) && (at == [] || CleanSegs(at))
    ensures AllMatched(Preorder(ms, PathOf(at)), Addresses(ms, at), at, ms)
    decreases ms
  {
    if ms != [] {
      var e, a := ms[0].entry, at + [ms[0].key];
      var path := FullPath(PathOf(at), ms[0].key);
      GoodRest(ms);
      PathOfMore(at, ms[0].key);
      MatchedFirst(at, ms);
      var below, addrsBelow := Below(e, path), AddressesBelow(e, a);
      if e.SubTable? {
        EveryNodeMatched(e.sub.members, a);
      }
      EveryNodeMatched(ms[1..], at);
      Combine(Node(path, e), a, below, addrsBelow, Preorder(ms[1..], PathOf(at)), Addresses(ms[1..], at), at, ms);
    }
  }

  // Offers are distinct.

  ghost predicate Distinct<T>(xs: seq<T>) {
    forall i, j :: 0 <= i < j < |xs| ==> xs[i] != xs[j]
  }

  /** Addresses below `at` extend it by at least one key of `ms`. */
  ghost predicate Extends(addrs: seq<seq<string>>, at: seq<string>, ms: seq<Member>) {
    forall i :: 0 <= i < |addrs| ==>
                  at <= addrs[i] && |at| < |addrs[i]| && exists k :: 0 <= k < |ms| && ms[k].key == addrs[i][|at|]
  }

  lemma {:induction false} AddressesExtend(ms: seq<Member>, at: seq<string>)
    ensures Extends(Addresses(ms, at), at, ms)
    decreases ms
  {
    if ms != [] {
      var e, a := ms[0].entry, at + [ms[0].key];
      if e.SubTable? {
        AddressesExtend(e.sub.members, a);
      }
      AddressesExtend(ms[1..], at);
      var below, rest := AddressesBelow(e, a), Addresses(ms[1..], at);
      hide Addresses, AddressesBelow;
      forall i | 0 <= i < |below|
        ensures at <= below[i] && |at| < |below[i]| && below[i][|at|] == ms[0].key
      {
        assert a <= below[i] && a[|at|] == ms[0].key;
      }
      forall i | 0 <= i < |rest|
        ensures exists k :: 0 <= k < |ms| && ms[k].key == rest[i][|at|]
      {
        var k :| 0 <= k < |ms[1..]| && ms[1..][k].key == rest[i][|at|];
        assert ms[k + 1].key == rest[i][|at|];
      }
    }
  }

  lemma DistinctParts<T>(first: T, below: seq<T>, rest: seq<T>)
    requires Distinct(below) && Distinct(rest)
    requires forall i :: 0 <= i < |below| ==> below[i] != first
    requires forall i :: 0 <= i < |rest| ==> rest[i] != first
    requires forall i, j :: 0 <= i < |below| && 0 <= j < |rest| ==> below[i] != rest[j]
    ensures Distinct([first] + below + rest)
  {
  }

  lemma {:induction false} AddressesDistinct(ms: seq<Member>, at: seq<string>)
    requires Good(ms)
    ensures Distinct(Addresses(ms, at))
    decreases ms
  {
    if ms != [] {
      var e, a := ms[0].entry, at + [ms[0].key];
      GoodRest(ms);
      if e.SubTable? {
        AddressesDistinct(e.sub.members, a);
        AddressesExtend(e.sub.members, a);
      }
      AddressesDistinct(ms[1..], at);
      AddressesExtend(ms[1..], at);
      var below, rest := AddressesBelow(e, a), Addresses(ms[1..], at);
      assert Addresses(ms, at) == [a] + below + rest;
      assert e.SubTable? ==> Extends(below, a, e.sub.members);
      assert forall k :: 0 <= k < |ms[1..]| ==> ms[1..][k].key != ms[0].key by {
        assert forall k :: 0 <= k < |ms[1..]| ==> ms[1..][k] == ms[k + 1];
      }
      hide Addresses, AddressesBelow, Good, Distinct;
      forall i | 0 <= i < |rest|
        ensures rest[i][|at|] != ms[0].key
      {
        var k :| 0 <= k < |ms[1..]| && ms[1..][k].key == rest[i][|at|];
      }
      forall i | 0 <= i < |below|
        ensures |below[i]| > |a| && below[i][|at|] == ms[0].key
      {
        assert a <= below[i] && a[|at|] == ms[0].key;
      }
      DistinctParts(a, below, rest);
    }
  }

  lemma FieldsOfJoin(segs: seq<string>)
    requires CleanSegs(segs)
    ensures Fields(Join(segs, '.')) == segs
    decreases |segs|
  {
    var s := Join(segs, '.');
    FieldsUnfold(s);
    if |segs| == 1 {
      IndexAbsent(segs[0], '.');
      assert s[..|s|] == segs[0];
    } else {
      var rest := Join(segs[1..], '.');
      IndexBehind(segs[0], '.', rest);
      assert s == segs[0] + ['.'] + rest;
      assert s[..|segs[0]|] == segs[0] && s[|segs[0]| + 1..] == rest;
      FieldsOfJoin(segs[1..]);
      assert segs == [segs[0]] + segs[1..];
    }
  }

  ghost predicate DistinctPaths(nodes: seq<Node>) {
    forall i, j :: 0 <= i < j < |nodes| ==> nodes[i].path != nodes[j].path
  }

  /** What `walk_dotted_path` finds. */
  function Resolve(root: Table, path: string): Option<Entry> {
    Walk(Some(root.members), Fields(path), None)
  }

  /** Every entry of a good tree resolves from its own path, and paths are distinct. */
  lemma NodesResolve(root: Table)
    requires Good(root.members)
    ensures var nodes := Preorder(root.members, "");
            DistinctPaths(nodes) &&
            forall i :: 0 <= i < |nodes| ==> Resolve(root, nodes[i].path) == Some(nodes[i].entry)
  {
    var ms := root.members;
    var nodes, addrs := Preorder(ms, ""), Addresses(ms, []);
    EveryNodeMatched(ms, []);
    AddressesDistinct(ms, []);
    hide Preorder, Addresses, Good, Walk, Fields;
    forall i | 0 <= i < |nodes|
      ensures Fields(nodes[i].path) == addrs[i] && Resolve(root, nodes[i].path) == Some(nodes[i].entry)
    {
      assert Matched(nodes[i], addrs[i], [], ms);
      FieldsOfJoin(addrs[i]);
      assert addrs[i][0..] == addrs[i];
    }
  }

  /** Members are enumerated in the order of the table... */
  lemma {:induction false} PreorderConcat(a: seq<Member>, b: seq<Member>, prefix: string)
    ensures Preorder(a + b, prefix) == Preorder(a, prefix) + Preorder(b, prefix)
    decreases |a|
  {
    if a == [] {
      assert a + b == b;
    } else {
      var path := FullPath(prefix, a[0].key);
      TailConcat(a, b);
      PreorderConcat(a[1..], b, prefix);
      var first := [Node(path, a[0].entry)] + Below(a[0].entry, path);
      assert Preorder(a, prefix) == first + Preorder(a[1..], prefix);
      assert Preorder(a + b, prefix) == first + Preorder((a + b)[1..], prefix);
      hide Preorder, Below;
      Assoc(first, Preorder(a[1..], prefix), Preorder(b, prefix));
    }
  }

  /** ...and each of them before what is below it. */
  lemma MemberFirst(m: Member, prefix: string)
    ensures var nodes := Preorder([m], prefix);
            nodes != [] && nodes[0] == Node(FullPath(prefix, m.key), m.entry) &&
            nodes[1..] == if m.entry.SubTable? then Preorder(m.entry.sub.members, FullPath(prefix, m.key)) else []
  {
    assert [m][1..] == [] && Preorder([], prefix) == [];
  }

  lemma ListedBelow(ms: seq<Member>, prefix: string, n: Node)
    requires ms != []
    requires n == Node(FullPath(prefix, ms[0].key), ms[0].entry) ||
             n in Below(ms[0].entry, FullPath(prefix, ms[0].key)) || n in Preorder(ms[1..], prefix)
    ensures n in Preorder(ms, prefix)
  {
  }

  /** The converse: whatever looking up a list of keys finds is listed under the path that spells it. */
  lemma {:induction false} EveryEntryListed(ms: seq<Member>, at: seq<string>, segs: seq<string>)
    requires (at == [] || CleanSegs(at)) && CleanSegs(segs) && Lookup(ms, segs).Some?
    ensures Node(PathOf(at + segs), Lookup(ms, segs).value) in Preorder(ms, PathOf(at))
    decreases ms
  {
    var e := Lookup(ms, segs).value;
    var key, down := segs[0], segs[1..];
    assert segs == [key] + down;
    WalkStep(Some(ms), key, down, None);
    assert ms != [];
    if ms[0].key == key {
      var path := FullPath(PathOf(at), key);
      PathOfMore(at, key);
      assert at + [key] + down == at + segs;
      if down == [] {
        WalkNowhere(Enter(ms[0].entry), Some(ms[0].entry));
        assert at + segs == at + [key];
      } else {
        WalkStep(Enter(ms[0].entry), down[0], down[1..], Some(ms[0].entry));
        assert down == [down[0]] + down[1..];
        assert ms[0].entry.SubTable?;
        var sub := ms[0].entry.sub.members;
        WalkStep(Some(sub), down[0], down[1..], None);
        EveryEntryListed(sub, at + [key], down);
      }
      ListedBelow(ms, PathOf(at), Node(PathOf(at + segs), e));
    } else {
      WalkStep(Some(ms[1..]), key, down, None);
      EveryEntryListed(ms[1..], at, segs);
      ListedBelow(ms, PathOf(at), Node(PathOf(at + segs), e));
    }
  }

  /** A path without empty fields finds an entry exactly when that entry is enumerated under it. */
  lemma FoundIsListed(root: Table, segs: seq<string>, e: Entry)
    requires Good(root.members) && CleanSegs(segs)
    ensures Resolve(root, Join(segs, '.')) == Some(e) <==> Node(Join(segs, '.'), e) in Preorder(root.members, "")
  {
    FieldsOfJoin(segs);
    assert [] + segs == segs && PathOf(segs) == Join(segs, '.');
    if Resolve(root, Join(segs, '.')) == Some(e) {
      EveryEntryListed(root.members, [], segs);
    }
    var nodes := Preorder(root.members, "");
    NodesResolve(root);
    hide Preorder, Resolve, Good;
    if Node(Join(segs, '.'), e) in nodes {
      var i :| 0 <= i < |nodes| && nodes[i] == Node(Join(segs, '.'), e);
    }
  }

  /** An offered string is the path of an entry and one more character, which tells how to go on. */
  ghost predicate OfferedFor(s: string, n: Node, filter: string) {
    filter <= n.path &&
    ((s == n.path + "=" && (n.entry.Scalar? || n.entry.ScalarArray?)) ||
     (s == n.path + "." && (n.entry.SubTable? || n.entry.NullTable?)))
  }

  lemma {:induction false} NaiveOffers(nodes: seq<Node>, filter: string, k: nat) returns (i: nat)
    requires k < |Naive(nodes, filter)|
    ensures i < |nodes| && OfferedFor(Naive(nodes, filter)[k], nodes[i], filter)
  {
    var first := if filter <= nodes[0].path then Offer(nodes[0]) else [];
    if k < |first| {
      i := 0;
    } else {
      i := NaiveOffers(nodes[1..], filter, k - |first|);
      i := i + 1;
    }
  }

  /** Nothing that matches is missing. */
  lemma {:induction false} NaiveComplete(nodes: seq<Node>, filter: string, i: nat, s: string)
    requires i < |nodes| && OfferedFor(s, nodes[i], filter)
    ensures s in Naive(nodes, filter)
  {
    if i > 0 {
      NaiveComplete(nodes[1..], filter, i - 1, s);
    }
  }

  lemma {:induction false} NaiveDistinct(nodes: seq<Node>, filter: string)
    requires DistinctPaths(nodes)
    ensures Distinct(Naive(nodes, filter))
  {
    if nodes != [] {
      var rest := Naive(nodes[1..], filter);
      NaiveDistinct(nodes[1..], filter);
      forall k | 0 <= k < |rest| && filter <= nodes[0].path && |Offer(nodes[0])| == 1
        ensures rest[k] != Offer(nodes[0])[0]
      {
        var i := NaiveOffers(nodes[1..], filter, k);
        var s := rest[k];
        assert nodes[1..][i] == nodes[i + 1];
        assert s[..|s| - 1] == nodes[i + 1].path;
        assert Offer(nodes[0])[0][..|Offer(nodes[0])[0]| - 1] == nodes[0].path;
      }
    }
  }

  /** The offer is for the `i`-th entry of the table, and looking up its path finds that very entry. */
  ghost predicate Resolves(root: Table, filter: string, s: string, i: nat) {
    var nodes := Preorder(root.members, "");
    i < |nodes| && OfferedFor(s, nodes[i], filter) && Resolve(root, nodes[i].path) == Some(nodes[i].entry)
  }

  ghost predicate ResolvesToSource(root: Table, filter: string, s: string) {
    exists i: nat :: Resolves(root, filter, s, i)
  }

  /** With non-empty keys that hold no dot, what `get_sub_keys` offers is offered once, starts with the filter, and
      resolves to the very entry it came from: `=` for scalars and scalar arrays, `.` for tables. No two entries share
      a path, so there is only one such entry. */
  lemma OffersResolve(root: Table, filter: string)
    requires Good(root.members)
    ensures var offers := Naive(Preorder(root.members, ""), filter);
            Distinct(offers) && DistinctPaths(Preorder(root.members, "")) &&
            forall k :: 0 <= k < |offers| ==> ResolvesToSource(root, filter, offers[k])
  {
    hide Preorder, Naive, Resolve, Good, DistinctPaths, Distinct;
    var nodes := Preorder(root.members, "");
    var offers := Naive(nodes, filter);
    NodesResolve(root);
    NaiveDistinct(nodes, filter);
    forall k | 0 <= k < |offers|
      ensures ResolvesToSource(root, filter, offers[k])
    {
      var i := NaiveOffers(nodes, filter, k);
      assert Resolves(root, filter, offers[k], i);
    }
  }
}
