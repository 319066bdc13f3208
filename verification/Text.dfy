/** Searching and cutting sequences, as `std::string::find`, `substr` and `std::getline` do. */
module Text {

  datatype Option<+T> = None | Some(value: T) {
    function GetOr(default: T): T {
      match this
      case Some(v) => v
      case None => default
    }
  }

  /** A non-empty set has a member, and a value of a map has a key. */
  lemma Member<T>(s: set<T>) returns (x: T)
    requires s != {}
    ensures x in s
  {
    x :| x in s;
  }

  lemma KeyOf<K, V>(m: map<K, V>, v: V) returns (k: K)
    requires v in m.Values
    ensures k in m && m[k] == v
  {
    k :| k in m && m[k] == v;
  }

  lemma ValuesAdd<K, V>(m: map<K, V>, k: K, v: V)
    requires k !in m
    ensures m[k := v].Values == m.Values + {v}
  {
    var m' := m[k := v];
    assert m'[k] == v;
    forall w | w in m.Values
      ensures w in m'.Values
    {
      var l := KeyOf(m, w);
      assert m'[l] == w;
    }
  }

  ghost predicate Injective<K, V>(m: map<K, V>) {
    forall k, l :: k in m && l in m && k != l ==> m[k] != m[l]
  }

  lemma InjectiveAdd<K, V>(m: map<K, V>, k: K, v: V)
    requires Injective(m) && k !in m && v !in m.Values
    ensures Injective(m[k := v])
  {
    forall l | l in m
      ensures m[l] != v
    {
      assert m[l] in m.Values;
    }
  }

  lemma InjectiveRemove<K, V>(m: map<K, V>, k: K)
    requires Injective(m) && k in m
    ensures Injective(m - {k}) && (m - {k}).Values == m.Values - {m[k]}
  {
    var m' := m - {k};
    forall w | w in m.Values - {m[k]}
      ensures w in m'.Values
    {
      var l := KeyOf(m, w);
      assert m'[l] == w;
    }
  }

  lemma {:induction false} InjectiveSize<K, V>(m: map<K, V>)
    requires Injective(m)
    ensures |m.Values| == |m|
    decreases |m|
  {
    if m.Keys == {} {
      assert m.Values == {};
    } else {
      var c := Member(m.Keys);
      InjectiveRemove(m, c);
      InjectiveSize(m - {c});
      assert m[c] in m.Values;
      assert m.Keys == (m - {c}).Keys + {c};
    }
  }

  lemma Assoc<T>(a: seq<T>, b: seq<T>, c: seq<T>)
    ensures (a + b) + c == a + (b + c)
  {
  }

  lemma Last<T>(s: seq<T>)
    requires s != []
    ensures s == s[..|s| - 1] + [s[|s| - 1]]
  {
  }

  lemma Init<T>(s: seq<T>, x: T)
    ensures (s + [x])[..|s + [x]| - 1] == s
  {
  }

  lemma TailConcat<T>(s: seq<T>, t: seq<T>)
    requires s != []
    ensures (s + t)[0] == s[0] && (s + t)[1..] == s[1..] + t
  {
  }

  lemma RemoveUnion<K, V>(m: map<K, V>, a: set<K>, b: set<K>)
    ensures m - (a + b) == m - a - b
  {
  }

  lemma MergeAssoc<K, V>(m: map<K, V>, a: map<K, V>, b: map<K, V>)
    ensures m + (a + b) == m + a + b
  {
  }

  lemma PutAndRemove<K, V>(m: map<K, V>, k: K, v: V)
    requires k !in m
    ensures m[k := v] - {k} == m
  {
  }

  /** `s.substr(at, n)`, which clips at the end. */
  function Substr<T>(s: seq<T>, at: nat, n: nat): seq<T>
    requires at <= |s|
  {
    if at + n <= |s| then s[at..at + n] else s[at..]
  }

  /** `s.find(c, from)`, with `|s|` standing for `npos`. */
  function IndexFrom<T(==)>(s: seq<T>, c: T, from: nat): (i: nat)
    requires from <= |s|
    ensures from <= i <= |s|
    ensures forall k :: from <= k < i ==> s[k] != c
    ensures i < |s| ==> s[i] == c
    decreases |s| - from
  {
    if from == |s| || s[from] == c then from else IndexFrom(s, c, from + 1)
  }

  /** `std::getline`: the field at `pos`, and where the next one starts. */
  method GetLine<T(==)>(s: seq<T>, c: T, pos: nat) returns (field: seq<T>, next: nat)
    requires pos < |s|
    ensures next == IndexFrom(s, c, pos) + 1 && field == s[pos..next - 1]
  {
    var end := pos;
    while end < |s| && s[end] != c
      invariant pos <= end <= |s| && IndexFrom(s, c, end) == IndexFrom(s, c, pos)
    {
      end := end + 1;
    }
    field, next := s[pos..end], end + 1;
  }

  function IndexOf<T(==)>(s: seq<T>, c: T): (i: nat)
    ensures i <= |s|
    ensures forall k :: 0 <= k < i ==> s[k] != c
    ensures i < |s| ==> s[i] == c
  {
    IndexFrom(s, c, 0)
  }

  /** The first occurrence of `c` in `x + [c] + y`, when `x` holds none, is right behind `x`. */
  lemma IndexBehind<T>(x: seq<T>, c: T, y: seq<T>)
    requires c !in x
    ensures IndexOf(x + [c] + y, c) == |x|
  {
    var s := x + [c] + y;
    assert s[|x|] == c;
    assert forall k :: 0 <= k < |x| ==> s[k] == x[k];
  }

  lemma IndexAbsent<T>(x: seq<T>, c: T)
    requires c !in x
    ensures IndexOf(x, c) == |x|
  {
  }

  /** Searching a suffix is searching the whole from there. */
  lemma IndexOfSuffix<T>(s: seq<T>, c: T, from: nat)
    requires from <= |s|
    ensures IndexFrom(s, c, from) == from + IndexOf(s[from..], c)
  {
    assert forall k :: from <= k < |s| ==> s[k] == s[from..][k - from];
  }

  /** The fields between occurrences of `c`; one more field than there are separators. */
  function Split<T(==)>(s: seq<T>, c: T): (fields: seq<seq<T>>)
    ensures |fields| >= 1
    decreases |s|
  {
    var i := IndexOf(s, c);
    if i == |s| then [s] else [s[..i]] + Split(s[i + 1..], c)
  }

  function Join<T>(fields: seq<seq<T>>, c: T): seq<T>
    requires |fields| >= 1
  {
    if |fields| == 1 then fields[0] else fields[0] + [c] + Join(fields[1..], c)
  }

  /** Cutting a joined list at the separator gives the list back, when no field holds the separator. */
  lemma {:induction false} SplitOfJoin<T>(fields: seq<seq<T>>, c: T)
    requires |fields| >= 1
    requires forall i :: 0 <= i < |fields| ==> c !in fields[i]
    ensures Split(Join(fields, c), c) == fields
  {
    if |fields| == 1 {
      IndexAbsent(fields[0], c);
    } else {
      var rest := Join(fields[1..], c);
      IndexBehind(fields[0], c, rest);
      var s := fields[0] + [c] + rest;
      assert s[|fields[0]| + 1..] == rest && s[..|fields[0]|] == fields[0];
      SplitOfJoin(fields[1..], c);
    }
  }

  lemma JoinCons<T>(field: seq<T>, rest: seq<seq<T>>, c: T)
    requires |rest| >= 1
    ensures Join([field] + rest, c) == field + [c] + Join(rest, c)
  {
    assert ([field] + rest)[1..] == rest;
  }

  lemma JoinOne<T>(field: seq<T>, c: T)
    ensures Join([field], c) == field
  {
  }

  lemma SplitUnfold<T>(s: seq<T>, c: T)
    ensures var i := IndexOf(s, c);
            Split(s, c) == [s[..i]] + (if i < |s| then Split(s[i + 1..], c) else [])
  {
    assert s[..|s|] == s;
  }

  lemma CutAt<T>(s: seq<T>, c: T, i: nat)
    requires i < |s| && s[i] == c
    ensures s == s[..i] + [c] + s[i + 1..]
  {
  }

  lemma {:induction false} JoinOfSplit<T>(s: seq<T>, c: T)
    ensures Join(Split(s, c), c) == s
    decreases |s|
  {
    hide Split, Join, IndexOf;
    SplitUnfold(s, c);
    var i := IndexOf(s, c);
    if i < |s| {
      var rest := s[i + 1..];
      JoinOfSplit(rest, c);
      JoinCons(s[..i], Split(rest, c), c);
      CutAt(s, c, i);
    } else {
      JoinOne(s[..i], c);
      assert [s[..i]] + [] == [s[..i]] && s[..i] == s;
    }
  }

  lemma {:induction false} JoinConcat<T>(a: seq<seq<T>>, b: seq<seq<T>>, c: T)
    requires |a| >= 1 && |b| >= 1
    ensures Join(a + b, c) == Join(a, c) + [c] + Join(b, c)
    decreases |a|
  {
    TailConcat(a, b);
    if |a| == 1 {
      assert (a + b)[1..] == b;
    } else {
      JoinConcat(a[1..], b, c);
      var rest := Join(a[1..], c);
      Assoc(a[0] + [c], rest, [c]);
      Assoc(a[0] + [c], rest + [c], Join(b, c));
    }
  }

  lemma SplitFirst<T>(x: seq<T>, c: T, y: seq<T>)
    requires c !in x
    ensures Split(x + [c] + y, c) == [x] + Split(y, c)
    ensures Split(x, c) == [x]
  {
    IndexAbsent(x, c);
    IndexBehind(x, c, y);
    var s := x + [c] + y;
    assert s[..|x|] == x && s[|x| + 1..] == y;
  }

  /** Text that arrives behind `a` only continues the last field of `a`. */
  lemma {:induction false} SplitAppend<T>(a: seq<T>, b: seq<T>, c: T)
    ensures var fs := Split(a, c);
            Split(a + b, c) == fs[..|fs| - 1] + Split(fs[|fs| - 1] + b, c)
    decreases |a|
  {
    var i := IndexOf(a, c);
    var fs := Split(a, c);
    if i < |a| {
      var x, a' := a[..i], a[i + 1..];
      assert a == x + [c] + a';
      assert a + b == x + [c] + (a' + b);
      SplitFirst(x, c, a');
      SplitFirst(x, c, a' + b);
      SplitAppend(a', b, c);
      hide Split, IndexOf;
      var gs := Split(a', c);
      assert fs[..|fs| - 1] == [x] + gs[..|gs| - 1];
      Assoc([x], gs[..|gs| - 1], Split(gs[|gs| - 1] + b, c));
    }
  }
}
