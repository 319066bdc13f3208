/**
 The string form of gNMI paths: `parse_yang_path` and `path_to_string`. Protobuf does not fix
 the order in which a map is enumerated, so printing is given the key order of every element.
 */
module GnmiPath {
  import opened Text

  datatype Elem = Elem(name: string, keys: map<string, string>)

  type Path = seq<Elem>

  /** `[k=v][k=v]...` from the front of `rest`; anything else ends the scan, a pair without `=` is passed over. */
  function Predicates(rest: string, acc: map<string, string>): map<string, string>
    decreases |rest|
  {
    if rest == "" || rest[0] != '[' then
      acc
    else
      var end := IndexOf(rest, ']');
      if end == |rest| then
        acc
      else
        Predicates(rest[end + 1..], WithPair(acc, rest[1..end]))
  }

  function WithPair(acc: map<string, string>, kv: string): map<string, string> {
    var eq := IndexOf(kv, '=');
    if eq == |kv| then acc else acc[kv[..eq] := kv[eq + 1..]]
  }

  function ParseElem(segment: string): Elem {
    var bracket := IndexOf(segment, '[');
    Elem(segment[..bracket], Predicates(segment[bracket..], map[]))
  }

  /** The elements of the non-empty segments of `s`. */
  function Elems(s: string): Path
    decreases |s|
  {
    if s == "" then
      []
    else
      var i := IndexOf(s, '/');
      var rest := if i < |s| then s[i + 1..] else "";
      (if i == 0 then [] else [ParseElem(s[..i])]) + Elems(rest)
  }

  function Parse(s: string): Path {
    if s != "" && s[0] == '/' then Elems(s[1..]) else Elems(s)
  }

  function Pair(k: string, v: string): string {
    "[" + k + "=" + v + "]"
  }

  ghost predicate Enumerates(order: seq<string>, keys: map<string, string>) {
    && (forall k :: k in order <==> k in keys)
    && (forall i, j :: 0 <= i < j < |order| ==> order[i] != order[j])
  }

  function PrintKeys(keys: map<string, string>, order: seq<string>): string
    requires forall k :: k in order ==> k in keys
  {
    if order == [] then "" else Pair(order[0], keys[order[0]]) + PrintKeys(keys, order[1..])
  }

  function PrintElem(e: Elem, order: seq<string>): string
    requires forall k :: k in order ==> k in e.keys
  {
    e.name + PrintKeys(e.keys, order)
  }

  /** A key order for every element. */
  ghost predicate Orders(orders: seq<seq<string>>, p: Path) {
    |orders| == |p| && forall i :: 0 <= i < |p| ==> Enumerates(orders[i], p[i].keys)
  }

  ghost function Body(p: Path, orders: seq<seq<string>>): string
    requires Orders(orders, p)
  {
    if p == [] then "" else "/" + PrintElem(p[0], orders[0]) + Body(p[1..], orders[1..])
  }

  ghost function Print(p: Path, orders: seq<seq<string>>): string
    requires Orders(orders, p)
  {
    if p == [] then "/" else Body(p, orders)
  }

  /** The characters the unescaped string form can carry. */
  ghost predicate CleanKeys(keys: map<string, string>) {
    forall k :: k in keys ==> '=' !in k && ']' !in k && '/' !in k && ']' !in keys[k] && '/' !in keys[k]
  }

  ghost predicate CleanElem(e: Elem) {
    '/' !in e.name && '[' !in e.name && CleanKeys(e.keys)
  }

  ghost predicate Clean(p: Path) {
    forall i :: 0 <= i < |p| ==> CleanElem(p[i])
  }

  /** An element that prints as nothing. */
  predicate Blank(e: Elem) {
    e.name == "" && e.keys == map[]
  }

  predicate NoBlank(p: Path) {
    forall i :: 0 <= i < |p| ==> !Blank(p[i])
  }

  lemma PairScan(k: string, v: string, rest: string, acc: map<string, string>)
    requires '=' !in k && ']' !in k && ']' !in v
    ensures Predicates(Pair(k, v) + rest, acc) == Predicates(rest, acc[k := v])
  {
    var kv := k + "=" + v;
    var s := Pair(k, v) + rest;
    var x := "[" + kv;
    assert ']' !in x;
    IndexBehind(x, ']', rest);
    assert s == x + [']'] + rest;
    assert s[1..|x|] == kv && s[|x| + 1..] == rest;
    IndexBehind(k, '=', v);
    assert kv == k + ['='] + v;
    assert kv[..|k|] == k && kv[|k| + 1..] == v;
  }

  /** The pairs of `order`, written over `acc` one by one. */
  function Fill(keys: map<string, string>, order: seq<string>, acc: map<string, string>): (m: map<string, string>)
    requires forall k :: k in order ==> k in keys
    ensures forall k :: k in m <==> k in acc || k in order
    ensures forall k :: k in m ==> m[k] == if k in order then keys[k] else acc[k]
  {
    if order == [] then acc else Fill(keys, order[1..], acc[order[0] := keys[order[0]]])
  }

  lemma {:induction false} KeysScan(keys: map<string, string>, order: seq<string>, acc: map<string, string>)
    requires CleanKeys(keys) && forall k :: k in order ==> k in keys
    ensures Predicates(PrintKeys(keys, order), acc) == Fill(keys, order, acc)
    decreases |order|
  {
    if order != [] {
      var k := order[0];
      PairScan(k, keys[k], PrintKeys(keys, order[1..]), acc);
      KeysScan(keys, order[1..], acc[k := keys[k]]);
    }
  }

  lemma {:induction false} PrintKeysClean(keys: map<string, string>, order: seq<string>)
    requires CleanKeys(keys) && forall k :: k in order ==> k in keys
    ensures '/' !in PrintKeys(keys, order)
    ensures PrintKeys(keys, order) != "" ==> PrintKeys(keys, order)[0] == '['
    ensures PrintKeys(keys, order) == "" <==> order == []
  {
    if order != [] {
      PrintKeysClean(keys, order[1..]);
      assert '/' !in Pair(order[0], keys[order[0]]);
    }
  }

  lemma PredicatesStart(name: string, ks: string)
    requires '[' !in name && (ks == "" || ks[0] == '[')
    ensures ParseElem(name + ks) == Elem(name, Predicates(ks, map[]))
  {
    hide Predicates, IndexOf;
    var s := name + ks;
    if ks == "" {
      assert s == name;
      IndexAbsent(name, '[');
    } else {
      assert s == name + ['['] + ks[1..];
      IndexBehind(name, '[', ks[1..]);
    }
    assert s[..|name|] == name && s[|name|..] == ks;
  }

  lemma EnumeratesNothing(order: seq<string>, keys: map<string, string>)
    requires Enumerates(order, keys)
    ensures order == [] <==> keys == map[]
  {
    if order != [] {
      assert order[0] in keys;
    } else {
      assert forall k :: k in keys ==> k in order;
    }
  }

  /** One element survives the string form, whatever order its keys are printed in. */
  lemma ElemRoundTrip(e: Elem, order: seq<string>)
    requires CleanElem(e) && Enumerates(order, e.keys)
    ensures ParseElem(PrintElem(e, order)) == e
    ensures '/' !in PrintElem(e, order)
    ensures PrintElem(e, order) == "" <==> Blank(e)
  {
    PrintKeysClean(e.keys, order);
    KeysScan(e.keys, order, map[]);
    EnumeratesNothing(order, e.keys);
    assert Fill(e.keys, order, map[]) == e.keys;
    hide Fill, Predicates, PrintKeys, CleanKeys, Enumerates, ParseElem;
    PredicatesStart(e.name, PrintKeys(e.keys, order));
  }

  lemma ElemsUnfold(s: string)
    ensures var i := IndexOf(s, '/');
            Elems(s) == (if i == 0 then [] else [ParseElem(s[..i])]) + Elems(if i < |s| then s[i + 1..] else "")
    ensures Elems("") == []
  {
  }

  lemma ElemsFirst(seg: string, rest: string)
    requires '/' !in seg
    ensures Elems(seg + "/" + rest) == (if seg == "" then [] else [ParseElem(seg)]) + Elems(rest)
    ensures Elems(seg) == if seg == "" then [] else [ParseElem(seg)]
  {
    hide Elems, ParseElem, IndexOf;
    var s := seg + "/" + rest;
    ElemsUnfold(s);
    ElemsUnfold(seg);
    IndexBehind(seg, '/', rest);
    IndexAbsent(seg, '/');
    assert s == seg + ['/'] + rest;
    assert s[..|seg|] == seg && s[|seg| + 1..] == rest;
    assert seg[..|seg|] == seg;
  }

  /** Parsing distributes over a separator. */
  lemma {:induction false} ElemsConcat(x: string, y: string)
    ensures Elems(x + "/" + y) == Elems(x) + Elems(y)
    decreases |x|
  {
    hide Elems, ParseElem, IndexOf;
    var i := IndexOf(x, '/');
    if i == |x| {
      ElemsFirst(x, y);
    } else {
      var seg, rest := x[..i], x[i + 1..];
      assert x == seg + "/" + rest;
      assert x + "/" + y == seg + "/" + (rest + "/" + y);
      ElemsFirst(seg, rest);
      ElemsFirst(seg, rest + "/" + y);
      ElemsConcat(rest, y);
    }
  }

  /** The leading separator is optional: empty segments are dropped anyway. */
  lemma ParseIsElems(s: string)
    ensures Parse(s) == Elems(s)
  {
    if s != "" && s[0] == '/' {
      assert s == "" + "/" + s[1..];
      ElemsFirst("", s[1..]);
    }
  }

  function Visible(p: Path): (q: Path)
    ensures |q| <= |p|
    ensures |q| == |p| <==> NoBlank(p)
  {
    if p == [] then []
    else
      var q := Visible(p[1..]);
      assert NoBlank(p) <==> !Blank(p[0]) && NoBlank(p[1..]);
      if Blank(p[0]) then q else [p[0]] + q
  }

  lemma {:induction false} NoBlankVisible(p: Path)
    requires NoBlank(p)
    ensures Visible(p) == p
  {
    if p != [] {
      NoBlankVisible(p[1..]);
    }
  }

  lemma ElemsBehind(seg: string, rest: string)
    requires '/' !in seg && (rest == "" || rest[0] == '/')
    ensures Elems("/" + seg + rest) == (if seg == "" then [] else [ParseElem(seg)]) + Elems(rest)
  {
    hide Elems, ParseElem, IndexOf;
    Assoc("/", seg, rest);
    ElemsUnfold("");
    ElemsFirst("", seg + rest);
    assert "" + "/" + (seg + rest) == "/" + (seg + rest);
    if rest == "" {
      assert seg + rest == seg;
      ElemsFirst(seg, "");
    } else {
      ElemsSplit(seg, rest);
    }
  }

  lemma ElemsSplit(seg: string, rest: string)
    requires '/' !in seg && rest != "" && rest[0] == '/'
    ensures Elems(seg + rest) == (if seg == "" then [] else [ParseElem(seg)]) + Elems(rest)
  {
    hide Elems, ParseElem, IndexOf;
    var tail := rest[1..];
    assert rest == "/" + tail == "" + "/" + tail;
    assert seg + rest == seg + "/" + tail;
    ElemsFirst(seg, tail);
    ElemsFirst("", tail);
  }

  lemma {:induction false} BodyRoundTrip(p: Path, orders: seq<seq<string>>)
    requires Orders(orders, p) && Clean(p)
    ensures Elems(Body(p, orders)) == Visible(p)
    decreases |p|
  {
    if p != [] {
      var seg, rest := PrintElem(p[0], orders[0]), Body(p[1..], orders[1..]);
      ElemRoundTrip(p[0], orders[0]);
      BodyRoundTrip(p[1..], orders[1..]);
      assert rest == "" || rest[0] == '/';
      assert Body(p, orders) == "/" + seg + rest;
      hide Elems, ParseElem, PrintElem, Body;
      ElemsBehind(seg, rest);
    }
  }

  lemma CleanRoundTrip(p: Path, orders: seq<seq<string>>)
    requires Orders(orders, p) && Clean(p)
    ensures Parse(Print(p, orders)) == p <==> NoBlank(p)
  {
    ParseIsElems(Print(p, orders));
    if p == [] {
      assert Elems("/") == Elems("" + "/" + "");
      ElemsFirst("", "");
    } else {
      BodyRoundTrip(p, orders);
      if NoBlank(p) {
        NoBlankVisible(p);
      }
    }
  }

  lemma PlainElem(name: string)
    requires '[' !in name
    ensures ParseElem(name) == Elem(name, map[])
  {
    IndexAbsent(name, '[');
  }

  /** The condition is not vacuous: a separator inside a name does change the path. */
  lemma SeparatorInNameIsLost()
    ensures var p := [Elem("a/b", map[])];
            NoBlank(p) && Orders([[]], p) && Parse(Print(p, [[]])) == [Elem("a", map[]), Elem("b", map[])]
  {
    var p := [Elem("a/b", map[])];
    assert Body(p[1..], [[]][1..]) == "" && PrintElem(p[0], []) == "a/b" + "";
    assert Print(p, [[]]) == "/" + "a/b" + "";
    assert Print(p, [[]]) == "/" + "a" + "/b" && "/b" == "/" + "b" + "";
    assert Elems("") == [];
    hide Elems, ParseElem, Print;
    ParseIsElems("/" + "a" + "/b");
    ElemsBehind("a", "/b");
    ElemsBehind("b", "");
    PlainElem("a");
    PlainElem("b");
  }

  lemma {:induction false} PredicatesClean(rest: string, acc: map<string, string>)
    requires '/' !in rest && CleanKeys(acc)
    ensures CleanKeys(Predicates(rest, acc))
    decreases |rest|
  {
    if rest != "" && rest[0] == '[' && IndexOf(rest, ']') < |rest| {
      var end := IndexOf(rest, ']');
      var kv := rest[1..end];
      assert ']' !in kv && '/' !in kv && '/' !in rest[end + 1..];
      PredicatesClean(rest[end + 1..], WithPair(acc, kv));
    }
  }

  lemma ParseElemClean(seg: string)
    requires '/' !in seg
    ensures CleanElem(ParseElem(seg))
  {
    var bracket := IndexOf(seg, '[');
    PredicatesClean(seg[bracket..], map[]);
  }

  lemma {:induction false} ElemsClean(s: string)
    ensures Clean(Elems(s))
    decreases |s|
  {
    hide Elems, ParseElem, IndexOf, CleanElem;
    var i := IndexOf(s, '/');
    ElemsUnfold(s);
    ParseElemClean(s[..i]);
    if s != "" {
      ElemsClean(if i < |s| then s[i + 1..] else "");
    }
  }

  /** A path that survives its string form. */
  ghost predicate Printable(p: Path) {
    Clean(p) && NoBlank(p)
  }

  /** Printing and parsing give a path back, whatever order its keys are printed in, exactly when it holds none of
      the characters that the string form reserves and no element that prints as nothing. */
  lemma RoundTrip(p: Path, orders: seq<seq<string>>)
    requires Orders(orders, p)
    ensures Parse(Print(p, orders)) == p <==> Printable(p)
  {
    if Clean(p) {
      CleanRoundTrip(p, orders);
    } else {
      ParseIsElems(Print(p, orders));
      ElemsClean(Print(p, orders));
    }
  }

  /** Whether a scan for predicates finds none: none of the closed brackets at the front holds `=`. */
  predicate NoPair(rest: string)
    decreases |rest|
  {
    rest == "" || rest[0] != '[' ||
    var end := IndexOf(rest, ']');
    end == |rest| || ('=' !in rest[1..end] && NoPair(rest[end + 1..]))
  }

  /** A segment that is there and says nothing. */
  predicate BlankSegment(segment: string) {
    segment != "" && segment[0] == '[' && NoPair(segment)
  }

  lemma {:induction false} PredicatesFound(rest: string, acc: map<string, string>)
    ensures acc.Keys <= Predicates(rest, acc).Keys
    ensures Predicates(rest, map[]) == map[] <==> NoPair(rest)
    decreases |rest|
  {
    if rest != "" && rest[0] == '[' && IndexOf(rest, ']') < |rest| {
      var end := IndexOf(rest, ']');
      var kv, next := rest[1..end], rest[end + 1..];
      PredicatesFound(next, WithPair(acc, kv));
      PredicatesFound(next, WithPair(map[], kv));
      assert IndexOf(kv, '=') == |kv| <==> '=' !in kv;
      assert '=' in kv ==> kv[..IndexOf(kv, '=')] in WithPair(map[], kv).Keys;
    }
  }

  lemma BlankElement(segment: string)
    requires segment != ""
    ensures Blank(ParseElem(segment)) <==> BlankSegment(segment)
  {
    var bracket := IndexOf(segment, '[');
    PredicatesFound(segment[bracket..], map[]);
    if bracket == 0 {
      assert segment[0..] == segment;
    }
  }

  ghost predicate NoBlankField(fields: seq<string>) {
    forall i :: 0 <= i < |fields| ==> !BlankSegment(fields[i])
  }

  lemma BlankOne(segment: string)
    ensures NoBlank(if segment == "" then [] else [ParseElem(segment)]) <==> NoBlankField([segment])
  {
    var p := if segment == "" then [] else [ParseElem(segment)];
    assert NoBlankField([segment]) <==> !BlankSegment([segment][0]);
    if segment != "" {
      BlankElement(segment);
      assert NoBlank(p) <==> !Blank(p[0]);
    }
  }

  /** The segments of a string tell whether its path has a blank element. */
  lemma {:induction false} BlankElements(s: string)
    ensures NoBlank(Elems(s)) <==> NoBlankField(Split(s, '/'))
    decreases |s|
  {
    var i := IndexOf(s, '/');
    SplitUnfold(s, '/');
    ElemsUnfold(s);
    ElemsUnfold("");
    BlankOne(s[..i]);
    var first := if s[..i] == "" then [] else [ParseElem(s[..i])];
    hide Elems, Split, ParseElem, BlankSegment, IndexOf;
    if i < |s| {
      BlankElements(s[i + 1..]);
      NoBlankConcat(first, Elems(s[i + 1..]));
      NoBlankFieldConcat([s[..i]], Split(s[i + 1..], '/'));
    } else {
      assert first + [] == first && [s[..i]] + [] == [s[..i]];
    }
  }

  lemma NoBlankConcat(p: Path, q: Path)
    ensures NoBlank(p + q) <==> NoBlank(p) && NoBlank(q)
  {
    assert forall i :: 0 <= i < |p| ==> p[i] == (p + q)[i];
    assert forall i :: 0 <= i < |q| ==> q[i] == (p + q)[|p| + i];
  }

  lemma NoBlankFieldConcat(a: seq<string>, b: seq<string>)
    ensures NoBlankField(a + b) <==> NoBlankField(a) && NoBlankField(b)
  {
    assert forall i :: 0 <= i < |a| ==> a[i] == (a + b)[i];
    assert forall i :: 0 <= i < |b| ==> b[i] == (a + b)[|a| + i];
  }

  /** Parsing only ever makes clean paths, so parse, print, parse is parse, exactly when no segment of the string is
      blank: starts with a bracket, and holds no `=` in the closed brackets at its front. */
  lemma ParsePrintParse(s: string, orders: seq<seq<string>>)
    requires Orders(orders, Parse(s))
    ensures Clean(Parse(s))
    ensures Parse(Print(Parse(s), orders)) == Parse(s) <==> NoBlankField(Split(s, '/'))
  {
    ParseIsElems(s);
    ElemsClean(s);
    BlankElements(s);
    CleanRoundTrip(Parse(s), orders);
  }

  /** A string outside the condition: a lone bracket parses to a blank element, which prints as the root. */
  lemma LoneBracketIsLost()
    ensures Parse("[") == [Elem("", map[])] && !NoBlank(Parse("["))
    ensures Parse(Print(Parse("["), [[]])) == []
  {
    var e := Elem("", map[]);
    assert ParseElem("[") == e by {
      assert "["[..0] == "" && "["[0..] == "[";
    }
    ElemsFirst("[", "");
    ParseIsElems("[");
    assert Elems("") == [];
    var none: Path := [];
    assert [e][1..] == none && Body(none, [[]][1..]) == "" && PrintElem(e, []) == "";
    assert Print([e], [[]]) == "/" == "" + "/" + "";
    ElemsFirst("", "");
    ParseIsElems("/");
  }

  /** One step of the scan, at a moving position. */
  lemma PredicatesAt(rest: string, pos: nat, acc: map<string, string>)
    requires pos <= |rest|
    ensures var end := IndexFrom(rest, ']', pos);
            if pos < |rest| && rest[pos] == '[' && end < |rest| then
              end > pos &&
              Predicates(rest[pos..], acc) == Predicates(rest[end + 1..], WithPair(acc, rest[pos + 1..end]))
            else
              Predicates(rest[pos..], acc) == acc
  {
    var end := IndexFrom(rest, ']', pos);
    IndexOfSuffix(rest, ']', pos);
    if pos < |rest| && rest[pos] == '[' && end < |rest| {
      assert rest[pos..][1..end - pos] == rest[pos + 1..end];
      assert rest[pos..][end - pos + 1..] == rest[end + 1..];
    }
  }

  /** Takes one `[...]` off the front, if it is closed. */
  method TakePredicate(rest: string, pos: nat, keys: map<string, string>)
    returns (closed: bool, next: nat, keys': map<string, string>)
    requires pos < |rest| && rest[pos] == '['
    ensures closed ==> pos < next <= |rest| && Predicates(rest[next..], keys') == Predicates(rest[pos..], keys)
    ensures !closed ==> Predicates(rest[pos..], keys) == keys
  {
    hide Predicates, IndexFrom, IndexOf;
    PredicatesAt(rest, pos, keys);
    closed, next, keys' := true, pos, keys;
    var endB := IndexFrom(rest, ']', pos);
    if endB == |rest| {
      return false, pos, keys;
    }
    var kv := rest[pos + 1..endB];
    var eq := IndexOf(kv, '=');
    if eq != |kv| {
      keys' := keys[kv[..eq] := kv[eq + 1..]];
    }
    next := endB + 1;
  }

  method ParseSegment(segment: string) returns (elem: Elem)
    ensures elem == ParseElem(segment)
  {
    var bracket := IndexOf(segment, '[');
    if bracket == |segment| {
      PlainElem(segment);
      return Elem(segment, map[]);
    }
    var rest := segment[bracket..];
    assert ParseElem(segment) == Elem(segment[..bracket], Predicates(rest, map[]));
    hide Predicates, IndexFrom, IndexOf, ParseElem;
    var keys: map<string, string> := map[];
    var pos := 0;
    assert rest[0..] == rest;
    while pos < |rest| && rest[pos] == '['
      invariant pos <= |rest|
      invariant Predicates(rest[pos..], keys) == Predicates(rest, map[])
      decreases |rest| - pos
    {
      var closed, next, keys' := TakePredicate(rest, pos, keys);
      if !closed {
        return Elem(segment[..bracket], keys);
      }
      pos, keys := next, keys';
    }
    PredicatesAt(rest, pos, keys);
    elem := Elem(segment[..bracket], keys);
  }

  /** The elements that `getline` has still to yield. */
  function Remaining(s: string, pos: nat): Path {
    if pos < |s| then Elems(s[pos..]) else []
  }

  /** One turn of the `getline` loop: the segment at `pos`, and what starts at `next`. */
  lemma ElemsAt(s: string, pos: nat, segment: string, next: nat)
    requires pos < |s| && next == IndexFrom(s, '/', pos) + 1 && segment == s[pos..next - 1]
    ensures pos < next <= |s| + 1
    ensures Remaining(s, pos) == (if segment == "" then [] else [ParseElem(segment)]) + Remaining(s, next)
  {
    hide Elems, ParseElem, IndexOf, IndexFrom;
    IndexOfSuffix(s, '/', pos);
    ElemsUnfold(s[pos..]);
    ElemsUnfold("");
    assert s[pos..][..next - 1 - pos] == segment;
    if next <= |s| {
      assert s[pos..][next - pos..] == s[next..];
      assert next == |s| ==> s[next..] == "";
    }
  }

  lemma ParseStripped(s: string)
    ensures Parse(s) == Remaining(if s != "" && s[0] == '/' then s[1..] else s, 0)
  {
    var t := if s != "" && s[0] == '/' then s[1..] else s;
    assert t[0..] == t && Elems("") == [];
  }

  /** The loop of `parse_yang_path`. */
  method ParseYangPath(pathStr: string) returns (path: Path)
    ensures path == Parse(pathStr)
  {
    hide Parse, Remaining, ParseElem, IndexFrom;
    ParseStripped(pathStr);
    var s := if pathStr != "" && pathStr[0] == '/' then pathStr[1..] else pathStr;
    var pos := 0;
    path := [];
    while pos < |s|
      invariant Parse(pathStr) == path + Remaining(s, pos)
      decreases |s| - pos
    {
      var segment, next := GetLine(s, '/', pos);
      ElemsAt(s, pos, segment, next);
      if segment != "" {
        var elem := ParseSegment(segment);
        Assoc(path, [elem], Remaining(s, next));
        path := path + [elem];
      }
      pos := next;
    }
    NothingRemains(s, pos);
  }

  lemma NothingRemains(s: string, pos: nat)
    requires pos >= |s|
    ensures Remaining(s, pos) == []
  {
  }

  /** The inner printing loop: one element's keys. */
  method AppendKeys(out: string, keys: map<string, string>, order: seq<string>) returns (out': string)
    requires forall k :: k in order ==> k in keys
    ensures out' == out + PrintKeys(keys, order)
  {
    out' := out;
    for j := 0 to |order|
      invariant out' + PrintKeys(keys, order[j..]) == out + PrintKeys(keys, order)
    {
      var k := order[j];
      ghost var rest := PrintKeys(keys, order[j + 1..]);
      assert order[j..][1..] == order[j + 1..];
      hide PrintKeys;
      Assoc(out', Pair(k, keys[k]), rest);
      PairAppends(out', k, keys[k]);
      out' := out' + "[";
      out' := out' + k;
      out' := out' + "=";
      out' := out' + keys[k];
      out' := out' + "]";
    }
  }

  lemma PairAppends(out: string, k: string, v: string)
    ensures out + "[" + k + "=" + v + "]" == out + Pair(k, v)
  {
  }

  /** The printing loop; `enumerate` stands for protobuf's iteration over a key map. */
  method PathToString(p: Path, enumerate: map<string, string> -> seq<string>) returns (out: string)
    requires Orders(OrdersBy(p, enumerate), p)
    ensures out == Print(p, OrdersBy(p, enumerate))
  {
    out := "";
    ghost var orders := OrdersBy(p, enumerate);
    for i := 0 to |p|
      invariant out + Body(p[i..], orders[i..]) == Body(p, orders)
      invariant i > 0 ==> out != ""
    {
      ghost var elem, rest := PrintElem(p[i], orders[i]), Body(p[i + 1..], orders[i + 1..]);
      assert p[i..][1..] == p[i + 1..] && orders[i..][1..] == orders[i + 1..];
      assert Body(p[i..], orders[i..]) == "/" + elem + rest;
      hide Body;
      Assoc(out, "/" + elem, rest);
      Assoc(out, "/", elem);
      Assoc(out + "/", p[i].name, PrintKeys(p[i].keys, orders[i]));
      out := out + "/";
      out := out + p[i].name;
      out := AppendKeys(out, p[i].keys, enumerate(p[i].keys));
    }
    if out == "" {
      out := "/";
    }
  }

  function OrdersBy(p: Path, enumerate: map<string, string> -> seq<string>): (orders: seq<seq<string>>)
    ensures |orders| == |p|
    ensures forall i :: 0 <= i < |p| ==> orders[i] == enumerate(p[i].keys)
  {
    seq(|p|, i requires 0 <= i < |p| => enumerate(p[i].keys))
  }
}
