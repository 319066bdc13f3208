/**
 On-change fan-out of a gNMI Set. Coverage is decided on printed paths; on paths that the string
 form can carry the test is shown to be exactly "is an element prefix of".
 */
module SubHub {
  import opened Text
  import opened GnmiPath

  type KeyOrder = map<string, string> -> seq<string>

  /** Protobuf enumerates every key map completely, and the same map always in the same order. */
  ghost predicate Complete(enumerate: KeyOrder) {
    forall m :: Enumerates(enumerate(m), m)
  }

  /** Some order of a finite key set. */
  ghost function AnyOrder(keys: set<string>): (order: seq<string>)
    ensures forall k :: k in order <==> k in keys
    ensures forall i, j :: 0 <= i < j < |order| ==> order[i] != order[j]
  {
    if keys == {} then [] else
      var k :| k in keys;
      [k] + AnyOrder(keys - {k})
  }

  /** The assumption on protobuf can be met. */
  lemma SomeOrderIsComplete()
    ensures exists enumerate: KeyOrder :: Complete(enumerate)
  {
    var enumerate: KeyOrder := (m: map<string, string>) => AnyOrder(m.Keys);
    assert Complete(enumerate);
  }

  lemma OrdersByComplete(p: Path, enumerate: KeyOrder)
    requires Complete(enumerate)
    ensures Orders(OrdersBy(p, enumerate), p)
  {
  }

  /** `path_to_string`. */
  ghost function Show(p: Path, enumerate: KeyOrder): string
    requires Complete(enumerate)
  {
    OrdersByComplete(p, enumerate);
    Print(p, OrdersBy(p, enumerate))
  }

  ghost function ShowAll(ps: seq<Path>, enumerate: KeyOrder): (r: seq<string>)
    requires Complete(enumerate)
    ensures |r| == |ps|
    ensures forall i :: 0 <= i < |ps| ==> r[i] == Show(ps[i], enumerate)
  {
    seq(|ps|, i requires 0 <= i < |ps| => Show(ps[i], enumerate))
  }

  /** The test for one subscription: `u.rfind(sp + "/", 0) == 0` asks for a prefix. */
  predicate StringCovers(sp: string, u: string) {
    sp == "/" || u == sp || sp + "/" <= u
  }

  predicate AnyCovers(paths: seq<string>, u: string) {
    paths == [] || exists i :: 0 <= i < |paths| && StringCovers(paths[i], u)
  }

  lemma {:induction false} BodyConcat(s: Path, q: Path, os: seq<seq<string>>, oq: seq<seq<string>>)
    requires Orders(os, s) && Orders(oq, q)
    ensures Orders(os + oq, s + q) && Body(s + q, os + oq) == Body(s, os) + Body(q, oq)
    decreases |s|
  {
    if s == [] {
      assert s + q == q && os + oq == oq;
    } else {
      BodyConcat(s[1..], q, os[1..], oq);
      TailConcat(s, q);
      TailConcat(os, oq);
      hide PrintElem;
      Assoc("/" + PrintElem(s[0], os[0]), Body(s[1..], os[1..]), Body(q, oq));
    }
  }

  lemma PrefixIsCovered(s: Path, p: Path, enumerate: KeyOrder)
    requires Complete(enumerate) && s <= p
    ensures StringCovers(Show(s, enumerate), Show(p, enumerate))
  {
    OrdersByComplete(s, enumerate);
    OrdersByComplete(p, enumerate);
    if s != [] && s != p {
      var q := p[|s|..];
      OrdersByComplete(q, enumerate);
      var os, oq := OrdersBy(s, enumerate), OrdersBy(q, enumerate);
      assert p == s + q && OrdersBy(p, enumerate) == os + oq;
      BodyExtends(s, q, os, oq);
    }
  }

  lemma BodyExtends(s: Path, q: Path, os: seq<seq<string>>, oq: seq<seq<string>>)
    requires Orders(os, s) && Orders(oq, q) && q != []
    ensures Orders(os + oq, s + q) && Body(s, os) + "/" <= Body(s + q, os + oq)
  {
    BodyConcat(s, q, os, oq);
    BodyUnfold(q, oq);
    hide Body, PrintElem, Orders;
    Assoc("/", PrintElem(q[0], oq[0]), Body(q[1..], oq[1..]));
    StartsWith(Body(s, os), "/", PrintElem(q[0], oq[0]) + Body(q[1..], oq[1..]));
  }

  lemma StartsWith(a: string, b: string, c: string)
    ensures a + b <= a + (b + c)
  {
    Assoc(a, b, c);
  }

  /** The printed elements of a path. */
  ghost function Segments(p: Path, orders: seq<seq<string>>): (r: seq<string>)
    requires Orders(orders, p)
    ensures |r| == |p|
  {
    seq(|p|, i requires 0 <= i < |p| => PrintElem(p[i], orders[i]))
  }

  lemma BodyUnfold(p: Path, orders: seq<seq<string>>)
    requires Orders(orders, p) && p != []
    ensures Orders(orders[1..], p[1..])
    ensures Body(p, orders) == "/" + PrintElem(p[0], orders[0]) + Body(p[1..], orders[1..])
  {
    hide PrintElem, Enumerates;
  }

  lemma SegmentsUnfold(p: Path, orders: seq<seq<string>>)
    requires Orders(orders, p) && p != [] && Orders(orders[1..], p[1..])
    ensures Segments(p, orders) == [PrintElem(p[0], orders[0])] + Segments(p[1..], orders[1..])
  {
    hide PrintElem, Enumerates;
  }

  lemma SplitStart(s: string)
    ensures Split("/" + s, '/') == [""] + Split(s, '/')
  {
    SplitFirst("", '/', s);
    assert "" + ['/'] + s == "/" + s;
  }

  /** A clean path can be cut at its separators. */
  lemma {:induction false} SegmentsOfBody(p: Path, orders: seq<seq<string>>)
    requires Orders(orders, p) && Clean(p)
    ensures Split(Body(p, orders), '/') == [""] + Segments(p, orders)
    decreases |p|
  {
    if p == [] {
      assert Segments(p, orders) == [];
    } else {
      BodyUnfold(p, orders);
      SegmentsUnfold(p, orders);
      ElemRoundTrip(p[0], orders[0]);
      SegmentsOfBody(p[1..], orders[1..]);
      hide Body, PrintElem, Split, Segments, Orders, Clean;
      var seg, rest := PrintElem(p[0], orders[0]), Body(p[1..], orders[1..]);
      Assoc("/", seg, rest);
      SplitStart(seg + rest);
      SplitBehind(seg, rest, Segments(p[1..], orders[1..]));
    }
  }

  lemma SplitBehind(seg: string, rest: string, tail: seq<string>)
    requires '/' !in seg && Split(rest, '/') == [""] + tail
    ensures Split(seg + rest, '/') == [seg] + tail
  {
    var i := IndexOf(rest, '/');
    assert Split(rest, '/')[0] == rest[..i];
    if i == |rest| {
      assert rest == "" && tail == [];
      assert seg + rest == seg;
      SplitFirst(seg, '/', "");
    } else {
      assert rest == ['/'] + rest[1..];
      assert Split(rest, '/')[1..] == Split(rest[1..], '/') == tail;
      assert seg + rest == seg + ['/'] + rest[1..];
      SplitFirst(seg, '/', rest[1..]);
    }
  }

  /** Equal printed elements are equal elements. */
  lemma SegmentsTell(s: Path, p: Path, os: seq<seq<string>>, op: seq<seq<string>>)
    requires Orders(os, s) && Orders(op, p) && Clean(s) && Clean(p) && Segments(s, os) <= Segments(p, op)
    ensures s <= p
  {
    assert |s| <= |p|;
    forall i | 0 <= i < |s|
      ensures s[i] == p[i]
    {
      assert Segments(s, os)[i] == Segments(p, op)[i];
      ElemRoundTrip(s[i], os[i]);
      ElemRoundTrip(p[i], op[i]);
    }
  }

  /** A separator ends the last field. */
  lemma SplitFieldsGrow(x: string, y: string)
    ensures Split(x + (['/'] + y), '/') == Split(x, '/') + Split(y, '/')
  {
    var fs := Split(x, '/');
    var last := fs[|fs| - 1];
    SplitAppend(x, ['/'] + y, '/');
    LastFieldClean(x);
    Assoc(last, ['/'], y);
    SplitFirst(last, '/', y);
    Last(fs);
    Assoc(fs[..|fs| - 1], [last], Split(y, '/'));
    hide Split;
  }

  lemma {:induction false} LastFieldClean(x: string)
    ensures '/' !in Split(x, '/')[|Split(x, '/')| - 1]
    decreases |x|
  {
    var i := IndexOf(x, '/');
    if i < |x| {
      LastFieldClean(x[i + 1..]);
    }
  }

  lemma CoveredSharesFields(sp: string, u: string)
    requires u == sp || sp + "/" <= u
    ensures Split(sp, '/') <= Split(u, '/')
  {
    if u != sp {
      var y := u[|sp| + 1..];
      assert u == sp + (['/'] + y);
      hide Split;
      SplitFieldsGrow(sp, y);
    }
  }

  lemma SharedFieldsCover(sp: string, u: string)
    requires Split(sp, '/') <= Split(u, '/')
    ensures u == sp || sp + "/" <= u
  {
    hide Split, Join;
    JoinOfSplit(sp, '/');
    JoinOfSplit(u, '/');
    var more := Split(u, '/')[|Split(sp, '/')|..];
    assert Split(u, '/') == Split(sp, '/') + more;
    if more != [] {
      JoinConcat(Split(sp, '/'), more, '/');
      assert u == sp + ['/'] + Join(more, '/');
    } else {
      assert Split(sp, '/') + more == Split(sp, '/');
    }
  }

  /** The string test on any two texts: the fields between the separators of the one are the first fields of the
      other. */
  lemma StringTestIsFields(sp: string, u: string)
    ensures StringCovers(sp, u) <==> sp == "/" || Split(sp, '/') <= Split(u, '/')
  {
    hide Split;
    if u == sp || sp + "/" <= u {
      CoveredSharesFields(sp, u);
    }
    if Split(sp, '/') <= Split(u, '/') {
      SharedFieldsCover(sp, u);
    }
  }

  lemma SegmentsCovered(s: Path, p: Path, os: seq<seq<string>>, op: seq<seq<string>>)
    requires Orders(os, s) && Orders(op, p) && Clean(s) && Clean(p) && s != [] && Body(s, os) != "/"
    requires StringCovers(Body(s, os), Print(p, op))
    ensures Segments(s, os) <= Segments(p, op)
  {
    BodyUnfold(s, os);
    assert p != [];
    SegmentsOfBody(s, os);
    SegmentsOfBody(p, op);
    StringTestIsFields(Body(s, os), Body(p, op));
    hide Body, PrintElem, Segments, Orders, Clean, Split;
    FieldsCompare(Segments(s, os), Segments(p, op));
  }

  lemma FieldsCompare(fs: seq<string>, gs: seq<string>)
    requires [""] + fs <= [""] + gs
    ensures fs <= gs
  {
    assert forall i :: 0 <= i < |fs| ==> fs[i] == ([""] + fs)[i + 1] && gs[i] == ([""] + gs)[i + 1];
  }

  lemma CoveredIsPrefix(s: Path, p: Path, enumerate: KeyOrder)
    requires Complete(enumerate) && Clean(s) && Clean(p) && !OneBlank(s)
    requires StringCovers(Show(s, enumerate), Show(p, enumerate))
    ensures s <= p
  {
    OrdersByComplete(s, enumerate);
    OrdersByComplete(p, enumerate);
    if s != [] {
      var os, op := OrdersBy(s, enumerate), OrdersBy(p, enumerate);
      RootOnlyForBlank(s, os);
      hide Orders, Clean, Complete;
      SegmentsCovered(s, p, os, op);
      SegmentsTell(s, p, os, op);
    }
  }

  /** A path of a single element that prints as nothing: it looks like the root. */
  predicate OneBlank(p: Path) {
    |p| == 1 && Blank(p[0])
  }

  lemma RootOnlyForBlank(s: Path, os: seq<seq<string>>)
    requires Orders(os, s) && Clean(s) && s != [] && !OneBlank(s)
    ensures Body(s, os) != "/"
  {
    ElemRoundTrip(s[0], os[0]);
    if |s| > 1 {
      assert Body(s[1..], os[1..])[0] == '/';
    }
  }

  /** The string test is exactly the structural one: subscription `s` covers a change at `p` when the elements of
      `s`, names and keys, are a prefix of those of `p`; or else when `s` is the one path that is taken for the
      root without being it. */
  lemma StringTestIsPrefix(s: Path, p: Path, enumerate: KeyOrder)
    requires Complete(enumerate) && Clean(s) && Clean(p)
    ensures StringCovers(Show(s, enumerate), Show(p, enumerate)) <==> s <= p || OneBlank(s)
  {
    if s <= p {
      PrefixIsCovered(s, p, enumerate);
    } else if OneBlank(s) {
      OrdersByComplete(s, enumerate);
      ElemRoundTrip(s[0], OrdersBy(s, enumerate)[0]);
      assert Body(s[1..], OrdersBy(s, enumerate)[1..]) == "";
    } else if StringCovers(Show(s, enumerate), Show(p, enumerate)) {
      CoveredIsPrefix(s, p, enumerate);
    }
  }

  /** Beyond clean paths the fields are not the elements: a separator inside a name reads as a path step. */
  lemma UncleanSubscriptionOvermatches(enumerate: KeyOrder)
    requires Complete(enumerate)
    ensures var s, p := [Elem("a/b", map[])], [Elem("a", map[]), Elem("b", map[])];
            !(s <= p) && StringCovers(Show(s, enumerate), Show(p, enumerate))
  {
    var e, a, b := Elem("a/b", map[]), Elem("a", map[]), Elem("b", map[]);
    OrdersByComplete([e], enumerate);
    OrdersByComplete([a, b], enumerate);
    assert enumerate(map[]) == [] by {
      EnumeratesNothing(enumerate(map[]), map[]);
    }
    var none: seq<seq<string>> := [];
    var one: seq<seq<string>> := [[]];
    var two: seq<seq<string>> := [[], []];
    assert OrdersBy([e], enumerate) == one && OrdersBy([a, b], enumerate) == two;
    assert one[1..] == none && two[1..] == one && [e][1..] == [] && [a, b][1..] == [b] && [b][1..] == [];
    assert PrintElem(e, []) == "a/b" && PrintElem(a, []) == "a" && PrintElem(b, []) == "b";
    assert Body([], none) == "";
    assert Body([e], one) == "/" + "a/b" + "";
    assert Body([b], one) == "/" + "b" + "";
    assert Body([a, b], two) == "/" + "a" + ("/" + "b" + "");
    hide Body;
    assert "/" + "a/b" + "" == "/" + "a" + ("/" + "b" + "");
    assert [e][0] != [a, b][0];
  }

  /** A gNMI TypedValue is carried, never inspected. */
  datatype Update = Update(path: Path, val: string)

  datatype SetRequest = SetRequest(updated: seq<Update>, replaced: seq<Update>, deleted: seq<Path>)

  datatype Notification = Notification(timestamp: int, updates: seq<Update>, deletes: seq<Path>)

  datatype Sub = Sub(owner: int, grpc: int, streamId: int, paths: seq<string>)

  datatype Push = Push(grpc: int, streamId: int, update: Notification)

  ghost function CoveredUpdates(us: seq<Update>, paths: seq<string>, enumerate: KeyOrder): seq<Update>
    requires Complete(enumerate)
  {
    if us == [] then [] else
      var u := us[|us| - 1];
      CoveredUpdates(us[..|us| - 1], paths, enumerate) + (if AnyCovers(paths, Show(u.path, enumerate)) then [u] else [])
  }

  ghost function CoveredPaths(ps: seq<Path>, paths: seq<string>, enumerate: KeyOrder): seq<Path>
    requires Complete(enumerate)
  {
    if ps == [] then [] else
      var p := ps[|ps| - 1];
      CoveredPaths(ps[..|ps| - 1], paths, enumerate) + (if AnyCovers(paths, Show(p, enumerate)) then [p] else [])
  }

  ghost function NotificationFor(req: SetRequest, paths: seq<string>, ts: int, enumerate: KeyOrder): Notification
    requires Complete(enumerate)
  {
    Notification(ts,
                 CoveredUpdates(req.updated, paths, enumerate) + CoveredUpdates(req.replaced, paths, enumerate),
                 CoveredPaths(req.deleted, paths, enumerate))
  }

  predicate Empty(n: Notification) {
    n.updates == [] && n.deletes == []
  }

  ghost function Pushes(subs: seq<Sub>, req: SetRequest, ts: int, enumerate: KeyOrder): seq<Push>
    requires Complete(enumerate)
  {
    if subs == [] then [] else
      var s := subs[|subs| - 1];
      var n := NotificationFor(req, s.paths, ts, enumerate);
      Pushes(subs[..|subs| - 1], req, ts, enumerate) + (if Empty(n) then [] else [Push(s.grpc, s.streamId, n)])
  }

  /** The subscriptions an owner leaves behind. */
  function Others(subs: seq<Sub>, owner: int): (r: seq<Sub>)
    ensures forall s :: s in r <==> s in subs && s.owner != owner
  {
    if subs == [] then [] else
      Others(subs[..|subs| - 1], owner) + (if subs[|subs| - 1].owner == owner then [] else [subs[|subs| - 1]])
  }

  class SubHub {
    const enumerate: KeyOrder
    var subs: seq<Sub>

    constructor (enumerate: KeyOrder)
      ensures subs == [] && this.enumerate == enumerate
    {
      this.enumerate := enumerate;
      subs := [];
    }

    method Add(owner: int, grpc: int, streamId: int, paths: seq<string>)
      modifies this
      ensures subs == old(subs) + [Sub(owner, grpc, streamId, paths)]
    {
      subs := subs + [Sub(owner, grpc, streamId, paths)];
    }

    /** `erase(remove_if(...))`: the others keep their order. */
    method Remove(owner: int)
      modifies this
      ensures subs == Others(old(subs), owner)
    {
      var kept: seq<Sub> := [];
      for i := 0 to |subs|
        invariant kept == Others(subs[..i], owner)
      {
        assert subs[..i + 1][..i] == subs[..i];
        if subs[i].owner != owner {
          kept := kept + [subs[i]];
        }
      }
      assert subs[..|subs|] == subs;
      subs := kept;
    }

    method Matches(paths: seq<string>, p: Path) returns (covered: bool)
      requires Complete(enumerate)
      ensures covered <==> AnyCovers(paths, Show(p, enumerate))
    {
      if paths == [] {
        return true;
      }
      OrdersByComplete(p, enumerate);
      var u := PathToString(p, enumerate);
      for i := 0 to |paths|
        invariant forall j :: 0 <= j < i ==> !StringCovers(paths[j], u)
      {
        if paths[i] == "/" || u == paths[i] {
          return true;
        }
        if paths[i] + "/" <= u {
          return true;
        }
      }
      return false;
    }

    method AddCovered(us: seq<Update>, paths: seq<string>, before: seq<Update>) returns (updates: seq<Update>)
      requires Complete(enumerate)
      ensures updates == before + CoveredUpdates(us, paths, enumerate)
    {
      updates := before;
      for i := 0 to |us|
        invariant updates == before + CoveredUpdates(us[..i], paths, enumerate)
      {
        assert us[..i + 1][..i] == us[..i];
        var covered := Matches(paths, us[i].path);
        if covered {
          updates := updates + [us[i]];
        }
      }
      assert us[..|us|] == us;
    }

    method AddDeleted(ps: seq<Path>, paths: seq<string>) returns (deletes: seq<Path>)
      requires Complete(enumerate)
      ensures deletes == CoveredPaths(ps, paths, enumerate)
    {
      deletes := [];
      for i := 0 to |ps|
        invariant deletes == CoveredPaths(ps[..i], paths, enumerate)
      {
        assert ps[..i + 1][..i] == ps[..i];
        var covered := Matches(paths, ps[i]);
        if covered {
          deletes := deletes + [ps[i]];
        }
      }
      assert ps[..|ps|] == ps;
    }

    method Publish(req: SetRequest, ts: int) returns (pushes: seq<Push>)
      requires Complete(enumerate)
      ensures pushes == Pushes(subs, req, ts, enumerate)
    {
      pushes := [];
      for i := 0 to |subs|
        invariant pushes == Pushes(subs[..i], req, ts, enumerate)
      {
        var s := subs[i];
        assert subs[..i + 1][..i] == subs[..i];
        var updates := AddCovered(req.updated, s.paths, []);
        assert updates == CoveredUpdates(req.updated, s.paths, enumerate);
        updates := AddCovered(req.replaced, s.paths, updates);
        var deletes := AddDeleted(req.deleted, s.paths);
        assert Notification(ts, updates, deletes) == NotificationFor(req, s.paths, ts, enumerate);
        var any := updates != [] || deletes != [];
        if any {
          pushes := pushes + [Push(s.grpc, s.streamId, Notification(ts, updates, deletes))];
        }
      }
      assert subs[..|subs|] == subs;
    }
  }

  /** A change at `p` concerns a subscription list: it is under one of its paths, or the list is empty, or
      a path is taken for the root. */
  ghost predicate Concerns(ss: seq<Path>, p: Path) {
    ss == [] || exists i :: 0 <= i < |ss| && (ss[i] <= p || OneBlank(ss[i]))
  }

  ghost function ConcernedUpdates(us: seq<Update>, ss: seq<Path>): seq<Update> {
    if us == [] then [] else
      ConcernedUpdates(us[..|us| - 1], ss) + (if Concerns(ss, us[|us| - 1].path) then [us[|us| - 1]] else [])
  }

  ghost function ConcernedPaths(ps: seq<Path>, ss: seq<Path>): seq<Path> {
    if ps == [] then [] else
      ConcernedPaths(ps[..|ps| - 1], ss) + (if Concerns(ss, ps[|ps| - 1]) then [ps[|ps| - 1]] else [])
  }

  lemma ConcernsIsCovers(ss: seq<Path>, p: Path, enumerate: KeyOrder)
    requires Complete(enumerate) && Clean(p) && forall i :: 0 <= i < |ss| ==> Clean(ss[i])
    ensures AnyCovers(ShowAll(ss, enumerate), Show(p, enumerate)) <==> Concerns(ss, p)
  {
    var paths := ShowAll(ss, enumerate);
    forall i | 0 <= i < |ss|
      ensures StringCovers(paths[i], Show(p, enumerate)) <==> ss[i] <= p || OneBlank(ss[i])
    {
      StringTestIsPrefix(ss[i], p, enumerate);
    }
    hide StringCovers, Show, Clean;
  }

  lemma {:induction false} UpdatesExact(us: seq<Update>, ss: seq<Path>, enumerate: KeyOrder)
    requires Complete(enumerate) && forall i :: 0 <= i < |ss| ==> Clean(ss[i])
    requires forall i :: 0 <= i < |us| ==> Clean(us[i].path)
    ensures CoveredUpdates(us, ShowAll(ss, enumerate), enumerate) == ConcernedUpdates(us, ss)
  {
    hide Clean, ShowAll, Show, AnyCovers, Concerns, Complete;
    if us != [] {
      ConcernsIsCovers(ss, us[|us| - 1].path, enumerate);
      UpdatesExact(us[..|us| - 1], ss, enumerate);
    }
  }

  lemma {:induction false} DeletesExact(ps: seq<Path>, ss: seq<Path>, enumerate: KeyOrder)
    requires Complete(enumerate) && forall i :: 0 <= i < |ss| ==> Clean(ss[i])
    requires forall i :: 0 <= i < |ps| ==> Clean(ps[i])
    ensures CoveredPaths(ps, ShowAll(ss, enumerate), enumerate) == ConcernedPaths(ps, ss)
  {
    hide Clean, ShowAll, Show, AnyCovers, Concerns, Complete;
    if ps != [] {
      ConcernsIsCovers(ss, ps[|ps| - 1], enumerate);
      DeletesExact(ps[..|ps| - 1], ss, enumerate);
    }
  }

  /** What a subscriber of `ss` is sent: the concerned updates, then replaces, then deletes, each in request
      order and nothing else. */
  lemma PublishIsStructural(req: SetRequest, ss: seq<Path>, ts: int, enumerate: KeyOrder)
    requires Complete(enumerate) && forall i :: 0 <= i < |ss| ==> Clean(ss[i])
    requires forall i :: 0 <= i < |req.updated| ==> Clean(req.updated[i].path)
    requires forall i :: 0 <= i < |req.replaced| ==> Clean(req.replaced[i].path)
    requires forall i :: 0 <= i < |req.deleted| ==> Clean(req.deleted[i])
    ensures NotificationFor(req, ShowAll(ss, enumerate), ts, enumerate) ==
            Notification(ts, ConcernedUpdates(req.updated, ss) + ConcernedUpdates(req.replaced, ss),
                         ConcernedPaths(req.deleted, ss))
  {
    UpdatesExact(req.updated, ss, enumerate);
    UpdatesExact(req.replaced, ss, enumerate);
    DeletesExact(req.deleted, ss, enumerate);
  }

  // Who is sent something.

  /** Some path of the request is covered by the subscription. */
  ghost predicate Touches(req: SetRequest, paths: seq<string>, enumerate: KeyOrder)
    requires Complete(enumerate)
  {
    || (exists i :: 0 <= i < |req.updated| && AnyCovers(paths, Show(req.updated[i].path, enumerate)))
    || (exists i :: 0 <= i < |req.replaced| && AnyCovers(paths, Show(req.replaced[i].path, enumerate)))
    || (exists i :: 0 <= i < |req.deleted| && AnyCovers(paths, Show(req.deleted[i], enumerate)))
  }

  lemma {:induction false} NoUpdateCovered(us: seq<Update>, paths: seq<string>, enumerate: KeyOrder)
    requires Complete(enumerate)
    ensures CoveredUpdates(us, paths, enumerate) == [] <==>
            forall i :: 0 <= i < |us| ==> !AnyCovers(paths, Show(us[i].path, enumerate))
  {
    hide AnyCovers, Show, Complete;
    if us != [] {
      var init := us[..|us| - 1];
      NoUpdateCovered(init, paths, enumerate);
      assert forall i :: 0 <= i < |init| ==> init[i] == us[i];
    }
  }

  lemma {:induction false} NoPathCovered(ps: seq<Path>, paths: seq<string>, enumerate: KeyOrder)
    requires Complete(enumerate)
    ensures CoveredPaths(ps, paths, enumerate) == [] <==>
            forall i :: 0 <= i < |ps| ==> !AnyCovers(paths, Show(ps[i], enumerate))
  {
    hide AnyCovers, Show, Complete;
    if ps != [] {
      var init := ps[..|ps| - 1];
      NoPathCovered(init, paths, enumerate);
      assert forall i :: 0 <= i < |init| ==> init[i] == ps[i];
    }
  }

  lemma EmptyIsUntouched(req: SetRequest, paths: seq<string>, ts: int, enumerate: KeyOrder)
    requires Complete(enumerate)
    ensures Empty(NotificationFor(req, paths, ts, enumerate)) <==> !Touches(req, paths, enumerate)
  {
    NoUpdateCovered(req.updated, paths, enumerate);
    NoUpdateCovered(req.replaced, paths, enumerate);
    NoPathCovered(req.deleted, paths, enumerate);
    hide AnyCovers, Show, Complete, CoveredUpdates, CoveredPaths;
    var us, rs := CoveredUpdates(req.updated, paths, enumerate), CoveredUpdates(req.replaced, paths, enumerate);
    assert us + rs == [] <==> us == [] && rs == [];
  }

  ghost predicate Ascending(idx: seq<nat>) {
    forall j, k :: 0 <= j < k < |idx| ==> idx[j] < idx[k]
  }

  /** Exactly the touched subscribers are sent something, each once, on its own stream, in the order of subscription:
      the `k`-th push is for the `idx[k]`-th subscriber. */
  lemma {:induction false} PushesReachTheTouched(subs: seq<Sub>, req: SetRequest, ts: int, enumerate: KeyOrder)
    returns (idx: seq<nat>)
    requires Complete(enumerate)
    ensures var pushes := Pushes(subs, req, ts, enumerate);
            |idx| == |pushes| && Ascending(idx) &&
            forall k :: 0 <= k < |idx| ==>
                          idx[k] < |subs| && pushes[k] == Push(subs[idx[k]].grpc, subs[idx[k]].streamId,
                                                               NotificationFor(req, subs[idx[k]].paths, ts, enumerate))
    ensures forall i: nat :: i < |subs| ==> (i in idx <==> Touches(req, subs[i].paths, enumerate))
  {
    hide Touches, NotificationFor, Complete, Empty;
    if subs == [] {
      idx := [];
    } else {
      var init, n := subs[..|subs| - 1], |subs| - 1;
      idx := PushesReachTheTouched(init, req, ts, enumerate);
      assert forall i :: 0 <= i < n ==> init[i] == subs[i];
      EmptyIsUntouched(req, subs[n].paths, ts, enumerate);
      assert n !in idx;
      if Touches(req, subs[n].paths, enumerate) {
        var before := idx;
        idx := idx + [n];
        assert forall i: nat :: i in idx <==> i in before || i == n;
      }
    }
  }

  /** Some path of the request concerns the subscription. */
  ghost predicate ConcernsAny(req: SetRequest, ss: seq<Path>) {
    || (exists i :: 0 <= i < |req.updated| && Concerns(ss, req.updated[i].path))
    || (exists i :: 0 <= i < |req.replaced| && Concerns(ss, req.replaced[i].path))
    || (exists i :: 0 <= i < |req.deleted| && Concerns(ss, req.deleted[i]))
  }

  ghost predicate CleanRequest(req: SetRequest) {
    && (forall i :: 0 <= i < |req.updated| ==> Clean(req.updated[i].path))
    && (forall i :: 0 <= i < |req.replaced| ==> Clean(req.replaced[i].path))
    && (forall i :: 0 <= i < |req.deleted| ==> Clean(req.deleted[i]))
  }

  lemma TouchesIsConcerns(req: SetRequest, ss: seq<Path>, enumerate: KeyOrder)
    requires Complete(enumerate) && CleanRequest(req) && forall i :: 0 <= i < |ss| ==> Clean(ss[i])
    ensures Touches(req, ShowAll(ss, enumerate), enumerate) <==> ConcernsAny(req, ss)
  {
    hide AnyCovers, Show, Concerns, Complete, Clean;
    var paths := ShowAll(ss, enumerate);
    forall i | 0 <= i < |req.updated|
      ensures AnyCovers(paths, Show(req.updated[i].path, enumerate)) <==> Concerns(ss, req.updated[i].path)
    {
      ConcernsIsCovers(ss, req.updated[i].path, enumerate);
    }
    forall i | 0 <= i < |req.replaced|
      ensures AnyCovers(paths, Show(req.replaced[i].path, enumerate)) <==> Concerns(ss, req.replaced[i].path)
    {
      ConcernsIsCovers(ss, req.replaced[i].path, enumerate);
    }
    forall i | 0 <= i < |req.deleted|
      ensures AnyCovers(paths, Show(req.deleted[i], enumerate)) <==> Concerns(ss, req.deleted[i])
    {
      ConcernsIsCovers(ss, req.deleted[i], enumerate);
    }
  }

  /** The `i`-th subscriber asked for the paths `sss[i]`. */
  ghost predicate Asked(subs: seq<Sub>, sss: seq<seq<Path>>, enumerate: KeyOrder)
    requires Complete(enumerate)
  {
    |sss| == |subs| &&
    forall i :: 0 <= i < |subs| ==>
                  subs[i].paths == ShowAll(sss[i], enumerate) && forall j :: 0 <= j < |sss[i]| ==> Clean(sss[i][j])
  }

  /** A Set reaches, for paths without reserved characters, exactly the subscribers that it concerns, once each and in
      order, with exactly the concerned updates, replaces and deletes. */
  lemma PublishReachesTheConcerned(subs: seq<Sub>, sss: seq<seq<Path>>, req: SetRequest, ts: int, enumerate: KeyOrder)
    returns (idx: seq<nat>)
    requires Complete(enumerate) && CleanRequest(req) && Asked(subs, sss, enumerate)
    ensures var pushes := Pushes(subs, req, ts, enumerate);
            |idx| == |pushes| && Ascending(idx) &&
            forall k :: 0 <= k < |idx| ==>
                          idx[k] < |subs| &&
                          var ss := sss[idx[k]];
                          pushes[k] == Push(subs[idx[k]].grpc, subs[idx[k]].streamId,
                                            Notification(ts, ConcernedUpdates(req.updated, ss) +
                                                             ConcernedUpdates(req.replaced, ss),
                                                         ConcernedPaths(req.deleted, ss)))
    ensures forall i: nat :: i < |subs| ==> (i in idx <==> ConcernsAny(req, sss[i]))
  {
    idx := PushesReachTheTouched(subs, req, ts, enumerate);
    hide Touches, NotificationFor, Complete, ConcernsAny, ConcernedUpdates, ConcernedPaths, Pushes;
    forall i: nat | i < |subs|
      ensures Touches(req, subs[i].paths, enumerate) <==> ConcernsAny(req, sss[i])
    {
      TouchesIsConcerns(req, sss[i], enumerate);
    }
    forall k | 0 <= k < |idx|
      ensures var ss := sss[idx[k]];
              NotificationFor(req, subs[idx[k]].paths, ts, enumerate) ==
              Notification(ts, ConcernedUpdates(req.updated, ss) + ConcernedUpdates(req.replaced, ss),
                           ConcernedPaths(req.deleted, ss))
    {
      PublishIsStructural(req, sss[idx[k]], ts, enumerate);
    }
  }

  /** What is left when an owner goes keeps its order: piece by piece, it is what is left of the pieces. */
  lemma {:induction false} OthersConcat(a: seq<Sub>, b: seq<Sub>, owner: int)
    ensures Others(a + b, owner) == Others(a, owner) + Others(b, owner)
    ensures forall s: Sub :: Others([s], owner) == if s.owner == owner then [] else [s]
  {
    forall s: Sub
      ensures Others([s], owner) == if s.owner == owner then [] else [s]
    {
      assert [s][..0] == [] && Others([], owner) == [];
    }
    if b == [] {
      assert a + b == a;
    } else {
      var init, last := b[..|b| - 1], b[|b| - 1];
      OthersConcat(a, init, owner);
      assert (a + b)[..|a + b| - 1] == a + init;
      Assoc(Others(a, owner), Others(init, owner), if last.owner == owner then [] else [last]);
    }
  }
}
