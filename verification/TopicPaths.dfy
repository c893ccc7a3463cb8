/** Topics, filters and what matches what: the flat rules that the topic tries
    must agree with (topics/mem/node.go, topics/types/types.go; section 4.7 of
    MQTT 5.0). */
module TopicPaths {
  import opened Wrappers

  type Level = string
  type Path = seq<Level>

  /** The multi-level and the single-level wildcard. */
  const MWC: Level := "#"
  const SWC: Level := "+"

  // ------------------------------------------------------------------
  // Strings and levels

  /** strings.Split(s, "/"). */
  function Split(s: string): (p: Path)
    ensures |p| > 0
  {
    if s == "" then [""]
    else
      var p := Split(s[1..]);
      if s[0] == '/' then [""] + p else [[s[0]] + p[0]] + p[1..]
  }

  function Join(p: Path): string
    requires |p| > 0
  {
    if |p| == 1 then p[0] else p[0] + "/" + Join(p[1..])
  }

  lemma {:induction false} JoinSplit(s: string)
    ensures Join(Split(s)) == s
  {
    if s != "" {
      JoinSplit(s[1..]);
      var p := Split(s[1..]);
      if s[0] == '/' {
        assert Split(s)[1..] == p;
        assert Join(Split(s)) == "" + "/" + Join(p);
      } else {
        assert Split(s)[1..] == p[1..];
      }
      assert s == [s[0]] + s[1..];
    }
  }

  /** A list of levels as they stand between slashes. */
  predicate Slashless(p: Path) {
    forall i :: 0 <= i < |p| ==> '/' !in p[i]
  }

  /** Every slash ends a level. */
  lemma {:induction false} SplitSlashless(s: string)
    ensures Slashless(Split(s))
  {
    if s != "" {
      SplitSlashless(s[1..]);
    }
  }

  /** Splitting at the slashes finds the levels that were joined, ... */
  lemma {:induction false} SplitJoin(p: Path)
    requires |p| > 0 && Slashless(p)
    ensures Split(Join(p)) == p
    decreases |p|, |p[0]|
  {
    var s := Join(p);
    if p[0] == "" {
      if |p| == 1 {
        assert p == [""];
      } else {
        SplitJoin(p[1..]);
        assert s[1..] == Join(p[1..]);
        assert p == [""] + p[1..];
      }
    } else {
      var q := [p[0][1..]] + p[1..];
      assert q[1..] == p[1..] && p[0] == [p[0][0]] + p[0][1..];
      SplitJoin(q);
      assert s == [p[0][0]] + Join(q);
      assert s[1..] == Join(q) && s[0] == p[0][0] && s[0] != '/';
      assert p == [[s[0]] + q[0]] + q[1..];
    }
  }

  /** ... so the levels of a string are the one way to write it as levels. */
  lemma SplitUnique(s: string, p: Path)
    requires |p| > 0
    ensures p == Split(s) <==> Join(p) == s && Slashless(p)
  {
    if p == Split(s) {
      JoinSplit(s);
      SplitSlashless(s);
    }
    if Join(p) == s && Slashless(p) {
      SplitJoin(p);
    }
  }

  /** A filter string and its levels are interchangeable as keys. */
  lemma SplitInjective(s: string, t: string)
    requires Split(s) == Split(t)
    ensures s == t
  {
    JoinSplit(s);
    JoinSplit(t);
  }

  // ------------------------------------------------------------------
  // The place of a node in a trie

  /** The way to a node, from the node up to the root. */
  datatype Key = Root | Down(up: Key, level: Level)

  function Levels(k: Key): Path {
    match k
    case Root => []
    case Down(u, l) => Levels(u) + [l]
  }

  /** Going down from `k` along `f`. */
  function Extend(k: Key, f: Path): Key
    decreases |f|
  {
    if f == [] then k else Extend(Down(k, f[0]), f[1..])
  }

  function KeyOf(p: Path): Key { Extend(Root, p) }

  lemma {:induction false} ExtendLevels(k: Key, f: Path)
    ensures Levels(Extend(k, f)) == Levels(k) + f
    decreases |f|
  {
    if f != [] {
      ExtendLevels(Down(k, f[0]), f[1..]);
      assert Levels(k) + [f[0]] + f[1..] == Levels(k) + f;
    }
  }

  lemma {:induction false} ExtendStep(k: Key, f: Path, l: Level)
    ensures Extend(k, f + [l]) == Down(Extend(k, f), l)
    decreases |f|
  {
    if f == [] {
      assert f + [l] == [l] && [l][1..] == [];
    } else {
      assert (f + [l])[1..] == f[1..] + [l];
      ExtendStep(Down(k, f[0]), f[1..], l);
    }
  }

  lemma KeyOfPrefix(p: Path, i: nat)
    requires i < |p|
    ensures KeyOf(p[..i + 1]) == Down(KeyOf(p[..i]), p[i])
  {
    assert p[..i + 1] == p[..i] + [p[i]];
    ExtendStep(Root, p[..i], p[i]);
  }

  lemma KeyOfWhole(p: Path)
    ensures KeyOf(p[..|p|]) == KeyOf(p)
  {
    assert p[..|p|] == p;
  }

  /** Keys and level lists are two notations for the same thing. */
  lemma {:induction false} KeyOfLevels(k: Key)
    ensures KeyOf(Levels(k)) == k
  {
    if k.Down? {
      KeyOfLevels(k.up);
      ExtendStep(Root, Levels(k.up), k.level);
    }
  }

  lemma LevelsOfKey(p: Path)
    ensures Levels(KeyOf(p)) == p
  {
    ExtendLevels(Root, p);
  }

  /** The key under which a trie files a filter or topic. */
  function FileKey(s: string): Key { KeyOf(Split(s)) }

  lemma FileKeyInjective(s: string, t: string)
    requires FileKey(s) == FileKey(t)
    ensures s == t
  {
    LevelsOfKey(Split(s));
    LevelsOfKey(Split(t));
    SplitInjective(s, t);
  }

  // ------------------------------------------------------------------
  // Matching a published topic against a filter

  predicate IsSystem(l: Level) { |l| > 0 && l[0] == '$' }

  /** The level-wise relation: `+` stands for one level, a last `#` for the level
      above it and for any remainder whose next level is not empty. */
  predicate Matches(f: Path, t: Path) {
    if f == [] then t == []
    else if f == [MWC] && (t == [] || t[0] != "") then true
    else t != [] && (f[0] == t[0] || f[0] == SWC) && Matches(f[1..], t[1..])
  }

  /** ... except that a first level starting with `$` is matched only literally. */
  predicate Delivers(f: Path, t: Path) {
    if t != [] && IsSystem(t[0]) then f != [] && f[0] == t[0] && Matches(f[1..], t[1..]) else Matches(f, t)
  }

  predicate WildcardFree(t: Path) { MWC !in t && SWC !in t }

  // ------------------------------------------------------------------
  // The search of a trie, on the set of keys that have a node

  /** The nodes the recursive search visits below `p`, in order. */
  function Visits(keys: set<Key>, p: Key, t: Path): seq<Key>
    decreases |t|
  {
    if t == [] then [p] + (if Down(p, MWC) in keys then [Down(p, MWC)] else [])
    else VisitsNear(keys, p, t) + (if Down(p, SWC) in keys then Visits(keys, Down(p, SWC), t[1..]) else [])
  }

  /** ... by way of `#` and of the level itself. */
  function VisitsNear(keys: set<Key>, p: Key, t: Path): seq<Key>
    requires t != []
    decreases |t|, 0
  {
    (if Down(p, MWC) in keys && t[0] != "" then [Down(p, MWC)] else []) +
    (if Down(p, t[0]) in keys then Visits(keys, Down(p, t[0]), t[1..]) else [])
  }

  function VisitsTop(keys: set<Key>, t: Path): seq<Key>
    requires |t| > 0
  {
    if !IsSystem(t[0]) then Visits(keys, Root, t)
    else if Down(Root, t[0]) in keys then Visits(keys, Down(Root, t[0]), t[1..])
    else []
  }

  /** With a node, its parent is in the set. */
  ghost predicate UpClosed(keys: set<Key>) {
    forall k: Key {:trigger k.up} :: k in keys && k.Down? ==> k.up in keys
  }

  lemma {:induction false} UpIn(keys: set<Key>, p: Key, f: Path)
    requires UpClosed(keys) && Extend(p, f) in keys
    ensures p in keys
    decreases |f|
  {
    if f != [] {
      UpIn(keys, Down(p, f[0]), f[1..]);
    }
  }

  /** `q` extends `p` by a filter that matches `t`. */
  ghost predicate Below(p: Key, q: Key, t: Path) {
    exists f :: Extend(p, f) == q && Matches(f, t)
  }

  lemma BelowEnd(p: Key, q: Key)
    ensures Below(p, q, []) <==> q == p || q == Down(p, MWC)
  {
    assert Extend(p, []) == p;
    assert [MWC][1..] == [] && Extend(p, [MWC]) == Down(p, MWC);
    assert Matches([MWC], []);
    if f :| Extend(p, f) == q && Matches(f, []) {
      assert f == [] || f == [MWC];
    }
  }

  /** The three ways down that the search tries. */
  lemma BelowStep(p: Key, q: Key, t: Path)
    requires t != []
    ensures Below(p, q, t) <==>
      || (q == Down(p, MWC) && t[0] != "")
      || Below(Down(p, t[0]), q, t[1..])
      || Below(Down(p, SWC), q, t[1..])
  {
    assert [MWC][1..] == [] && Extend(p, [MWC]) == Down(p, MWC);
    if f :| Extend(p, f) == q && Matches(f, t) {
      assert Extend(Down(p, f[0]), f[1..]) == q;
    }
    forall l, g | (l == t[0] || l == SWC) && Extend(Down(p, l), g) == q && Matches(g, t[1..])
      ensures Below(p, q, t)
    {
      var f := [l] + g;
      assert f[1..] == g;
      assert Extend(p, f) == q && Matches(f, t);
    }
  }

  /** A node is visited if and only if its path matches. */
  lemma {:induction false} VisitsMatching(keys: set<Key>, p: Key, t: Path, q: Key)
    requires UpClosed(keys) && p in keys
    ensures q in Visits(keys, p, t) <==> q in keys && Below(p, q, t)
    decreases |t|, 0
  {
    if t == [] {
      BelowEnd(p, q);
    } else {
      BelowStep(p, q, t);
      VisitsBranch(keys, Down(p, t[0]), t[1..], q);
      VisitsBranch(keys, Down(p, SWC), t[1..], q);
    }
  }

  lemma {:induction false} VisitsBranch(keys: set<Key>, c: Key, t: Path, q: Key)
    requires UpClosed(keys)
    ensures c in keys && q in Visits(keys, c, t) <==> q in keys && Below(c, q, t)
    decreases |t|, 1
  {
    if c in keys {
      VisitsMatching(keys, c, t, q);
    } else if q in keys && Below(c, q, t) {
      var f :| Extend(c, f) == q && Matches(f, t);
      UpIn(keys, c, f);
    }
  }

  /** `q` is at or below the child `l` of `p`. */
  ghost predicate Under(p: Key, l: Level, q: Key) {
    |Levels(q)| > |Levels(p)| && Levels(q)[|Levels(p)|] == l
  }

  lemma VisitsUnder(keys: set<Key>, p: Key, l: Level, t: Path)
    requires UpClosed(keys) && Down(p, l) in keys
    ensures forall q :: q in Visits(keys, Down(p, l), t) ==> Under(p, l, q)
  {
    forall q | q in Visits(keys, Down(p, l), t) ensures Under(p, l, q) {
      VisitsMatching(keys, Down(p, l), t, q);
      var f :| Extend(Down(p, l), f) == q && Matches(f, t);
      ExtendLevels(Down(p, l), f);
    }
  }

  /** Nothing is visited twice when the topic has no wildcards. */
  lemma {:induction false} VisitsOnce(keys: set<Key>, p: Key, t: Path)
    requires UpClosed(keys) && p in keys && WildcardFree(t)
    ensures NoDup(Visits(keys, p, t))
    decreases |t|
  {
    if t != [] {
      var m, lit, plus := Down(p, MWC), Down(p, t[0]), Down(p, SWC);
      var a := if m in keys && t[0] != "" then [m] else [];
      var b := if lit in keys then Visits(keys, lit, t[1..]) else [];
      var c := if plus in keys then Visits(keys, plus, t[1..]) else [];
      if lit in keys { VisitsOnce(keys, lit, t[1..]); VisitsUnder(keys, p, t[0], t[1..]); }
      if plus in keys { VisitsOnce(keys, plus, t[1..]); VisitsUnder(keys, p, SWC, t[1..]); }
      assert forall x :: x in a ==> Under(p, MWC, x);
      NoDupConcat(a, b);
      NoDupConcat(a + b, c);
    }
  }

  /** The order in which the search tries the ways down from a node. */
  function WayRank(l: Level): nat { if l == MWC then 0 else if l == SWC then 2 else 1 }

  /** Of two filters that match one topic, the search comes to `f` first. */
  predicate Before(f: Path, g: Path) {
    if f == [] then g != []
    else g != [] && (WayRank(f[0]) < WayRank(g[0]) || (f[0] == g[0] && Before(f[1..], g[1..])))
  }

  lemma {:induction false} BeforeOneWay(f: Path, g: Path)
    ensures !(Before(f, g) && Before(g, f))
  {
    if f != [] && g != [] && f[0] == g[0] {
      BeforeOneWay(f[1..], g[1..]);
    }
  }

  /** The way from `p` to `q`. */
  function Way(p: Key, q: Key): Path {
    if |Levels(p)| <= |Levels(q)| then Levels(q)[|Levels(p)|..] else []
  }

  lemma WayDown(p: Key, l: Level, q: Key)
    requires Under(p, l, q)
    ensures Way(p, q) == [l] + Way(Down(p, l), q)
  {
  }

  lemma BeforeCons(l: Level, f: Path, m: Level, g: Path)
    requires WayRank(l) < WayRank(m) || (l == m && Before(f, g))
    ensures Before([l] + f, [m] + g)
  {
    assert ([l] + f)[1..] == f && ([m] + g)[1..] == g;
  }

  /** The visits by way of `#`, of the level itself and of `+`. */
  function VisitsHash(keys: set<Key>, p: Key, t: Path): seq<Key>
    requires t != []
  {
    if Down(p, MWC) in keys && t[0] != "" then [Down(p, MWC)] else []
  }

  function VisitsChild(keys: set<Key>, p: Key, l: Level, t: Path): seq<Key>
    requires t != []
  {
    if Down(p, l) in keys then Visits(keys, Down(p, l), t[1..]) else []
  }

  lemma VisitsParts(keys: set<Key>, p: Key, t: Path)
    requires UpClosed(keys) && t != []
    ensures Visits(keys, p, t) == VisitsHash(keys, p, t) + VisitsChild(keys, p, t[0], t) + VisitsChild(keys, p, SWC, t)
    ensures forall q :: q in VisitsHash(keys, p, t) ==> Under(p, MWC, q)
    ensures forall q :: q in VisitsChild(keys, p, t[0], t) ==> Under(p, t[0], q)
    ensures forall q :: q in VisitsChild(keys, p, SWC, t) ==> Under(p, SWC, q)
  {
    if Down(p, t[0]) in keys {
      VisitsUnder(keys, p, t[0], t[1..]);
    }
    if Down(p, SWC) in keys {
      VisitsUnder(keys, p, SWC, t[1..]);
    }
  }

  /** Different ways down are taken in their order. */
  lemma WaysOrdered(p: Key, l: Level, q: Key, m: Level, r: Key)
    requires Under(p, l, q) && Under(p, m, r)
    requires WayRank(l) < WayRank(m) || (l == m && Before(Way(Down(p, l), q), Way(Down(p, l), r)))
    ensures Before(Way(p, q), Way(p, r))
  {
    WayDown(p, l, q);
    WayDown(p, m, r);
    BeforeCons(l, Way(Down(p, l), q), m, Way(Down(p, m), r));
  }

  lemma {:induction false} VisitsOrdered(keys: set<Key>, p: Key, t: Path, i: nat, j: nat)
    requires UpClosed(keys) && p in keys && WildcardFree(t) && i < j < |Visits(keys, p, t)|
    ensures Before(Way(p, Visits(keys, p, t)[i]), Way(p, Visits(keys, p, t)[j]))
    decreases |t|
  {
    var v := Visits(keys, p, t);
    if t == [] {
      assert v[0] == p && v[1] == Down(p, MWC);
    } else {
      VisitsParts(keys, p, t);
      var a, b, c := VisitsHash(keys, p, t), VisitsChild(keys, p, t[0], t), VisitsChild(keys, p, SWC, t);
      var na, nb := |a|, |a| + |b|;
      var l := if i < na then MWC else if i < nb then t[0] else SWC;
      var m := if j < nb then t[0] else SWC;
      assert v[i] == if i < na then a[i] else if i < nb then b[i - na] else c[i - nb];
      assert v[j] == if j < nb then b[j - na] else c[j - nb];
      if l == m {
        VisitsOrdered(keys, Down(p, l), t[1..], if i < nb then i - na else i - nb, if i < nb then j - na else j - nb);
      }
      WaysOrdered(p, l, v[i], m, v[j]);
    }
  }

  lemma BelowRoot(p: Key, q: Key, t: Path)
    ensures Below(Root, q, t) <==> Matches(Levels(q), t)
    ensures p.Down? && p.up == Root ==>
      (Below(p, q, t) <==> Levels(q) != [] && Levels(q)[0] == p.level && Matches(Levels(q)[1..], t))
  {
    KeyOfLevels(q);
    forall f | Extend(Root, f) == q ensures f == Levels(q) {
      LevelsOfKey(f);
    }
    if p.Down? && p.up == Root {
      forall f | Extend(p, f) == q ensures [p.level] + f == Levels(q) && f == Levels(q)[1..] {
        ExtendLevels(p, f);
      }
      if Levels(q) != [] && Levels(q)[0] == p.level {
        assert Extend(Root, Levels(q)) == Extend(p, Levels(q)[1..]);
      }
    }
  }

  /** The search from the root visits each matching node once and no other. */
  lemma SearchExact(keys: set<Key>, t: Path, q: Key)
    requires UpClosed(keys) && Root in keys && |t| > 0
    ensures q in VisitsTop(keys, t) <==> q in keys && Delivers(Levels(q), t)
    ensures WildcardFree(t) ==> NoDup(VisitsTop(keys, t))
  {
    if !IsSystem(t[0]) {
      VisitsMatching(keys, Root, t, q);
      BelowRoot(Root, q, t);
      if WildcardFree(t) { VisitsOnce(keys, Root, t); }
    } else {
      var c := Down(Root, t[0]);
      VisitsBranch(keys, c, t[1..], q);
      BelowRoot(c, q, t[1..]);
      if c in keys && WildcardFree(t) { VisitsOnce(keys, c, t[1..]); }
    }
  }

  /** ... and comes to them in the order of their filters. */
  lemma SearchOrdered(keys: set<Key>, t: Path, i: nat, j: nat)
    requires UpClosed(keys) && Root in keys && |t| > 0 && WildcardFree(t) && i < j < |VisitsTop(keys, t)|
    ensures var v := VisitsTop(keys, t); Before(Levels(v[i]), Levels(v[j]))
  {
    var v := VisitsTop(keys, t);
    if !IsSystem(t[0]) {
      VisitsOrdered(keys, Root, t, i, j);
      assert Way(Root, v[i]) == Levels(v[i]) && Way(Root, v[j]) == Levels(v[j]);
    } else {
      var c := Down(Root, t[0]);
      VisitsOrdered(keys, c, t[1..], i, j);
      VisitsUnder(keys, Root, t[0], t[1..]);
      WayDown(Root, t[0], v[i]);
      WayDown(Root, t[0], v[j]);
      assert Way(Root, v[i]) == Levels(v[i]) && Way(Root, v[j]) == Levels(v[j]);
    }
  }

  /** That order, on all five filters that a topic of one level can have. */
  lemma SearchOrder()
    ensures var hash, a, plus := Down(Root, MWC), Down(Root, "a"), Down(Root, SWC);
      VisitsTop({Root, hash, a, Down(a, MWC), plus, Down(plus, MWC)}, ["a"])
      == [hash, a, Down(a, MWC), plus, Down(plus, MWC)]
  {
    var hash, a, plus := Down(Root, MWC), Down(Root, "a"), Down(Root, SWC);
    var keys := {Root, hash, a, Down(a, MWC), plus, Down(plus, MWC)};
    assert ["a"][1..] == [] && "a"[0] != '$';
    assert Visits(keys, a, []) == [a, Down(a, MWC)];
    assert Visits(keys, plus, []) == [plus, Down(plus, MWC)];
    assert VisitsNear(keys, Root, ["a"]) == [hash, a, Down(a, MWC)];
  }

  // ------------------------------------------------------------------
  // Matching a filter against the retained topics

  /** The relation of the retained search: here `#` stands for any remainder.  On
      topics without wildcards this is the rule of section 4.7.1 of MQTT 5.0. */
  predicate RetainMatches(f: Path, t: Path) {
    if f == [] then t == [] || t[0] == MWC
    else if f[0] == MWC then true
    else t != [] && (f[0] == SWC || f[0] == t[0]) && RetainMatches(f[1..], t[1..])
  }

  /** ... except that a filter starting with `#` finds neither `$` topics nor
      topics whose first level is empty. */
  predicate Retrieves(f: Path, t: Path) {
    if f != [] && f[0] == MWC then t != [] && t[0] != "" && !IsSystem(t[0]) else RetainMatches(f, t)
  }

  /** `#` only as the last level. */
  predicate WellFormed(f: Path) {
    |f| > 0 && forall i :: 0 <= i < |f| - 1 ==> f[i] != MWC
  }

  /** `#` stands at a level where the topic has the empty level. */
  predicate HashOnEmpty(f: Path, t: Path) {
    f != [] && f[|f| - 1] == MWC && |t| >= |f| && t[|f| - 1] == ""
  }

  lemma {:induction false} LevelsAgree(f: Path, t: Path)
    requires forall i :: 0 <= i < |f| - 1 ==> f[i] != MWC
    requires WildcardFree(t)
    ensures Matches(f, t) <==> RetainMatches(f, t) && !HashOnEmpty(f, t)
  {
    if f != [] && f[0] != MWC && t != [] {
      LevelsAgree(f[1..], t[1..]);
      if |f| > 1 {
        assert f[1..][|f[1..]| - 1] == f[|f| - 1];
        if |t| >= |f| {
          assert t[1..][|f[1..]| - 1] == t[|f| - 1];
        }
      }
    }
  }

  // ------------------------------------------------------------------
  // The relations, level by level

  /** The first `n` levels of filter and topic agree. */
  predicate Fits(f: Path, t: Path, n: nat)
    requires n <= |f| && n <= |t|
  {
    forall i :: 0 <= i < n ==> f[i] == SWC || f[i] == t[i]
  }

  /** All levels agree one by one, or the filter ends with `#` and those above it do. */
  predicate FitsOrHash(f: Path, t: Path) {
    || (|f| == |t| && Fits(f, t, |f|))
    || (|f| > 0 && f[|f| - 1] == MWC && |t| >= |f| - 1 && Fits(f, t, |f| - 1))
  }

  lemma FitsTail(f: Path, t: Path, n: nat)
    requires 0 < n <= |f| && n <= |t|
    ensures Fits(f, t, n) <==> (f[0] == SWC || f[0] == t[0]) && Fits(f[1..], t[1..], n - 1)
  {
    if Fits(f[1..], t[1..], n - 1) && (f[0] == SWC || f[0] == t[0]) {
      forall i | 0 <= i < n ensures f[i] == SWC || f[i] == t[i] {
        if i > 0 {
          assert f[1..][i - 1] == f[i] && t[1..][i - 1] == t[i];
        }
      }
    }
  }

  lemma {:induction false} RetainMatchesMeans(f: Path, t: Path)
    requires (forall i :: 0 <= i < |f| - 1 ==> f[i] != MWC) && WildcardFree(t)
    ensures RetainMatches(f, t) <==> FitsOrHash(f, t)
  {
    if f != [] && f[0] != MWC && t != [] {
      RetainMatchesMeans(f[1..], t[1..]);
      if |f| > 1 {
        assert f[1..][|f[1..]| - 1] == f[|f| - 1];
      }
      if |f| == |t| {
        FitsTail(f, t, |f|);
      }
      if |f| > 1 && |t| >= |f| - 1 {
        FitsTail(f, t, |f| - 1);
      }
    }
  }

  /** Which filters deliver a topic: level by level, with `#` for any remainder whose next
      level is not empty, and `$` only literally. */
  lemma DeliversMeans(f: Path, t: Path)
    requires WellFormed(f) && WildcardFree(t) && |t| > 0
    ensures Delivers(f, t) <==>
      FitsOrHash(f, t) && !HashOnEmpty(f, t) && (IsSystem(t[0]) ==> f[0] == t[0])
  {
    LevelsAgree(f, t);
    RetainMatchesMeans(f, t);
  }

  /** Which topics a filter retrieves. */
  lemma RetrievesMeans(f: Path, t: Path)
    requires WellFormed(f) && WildcardFree(t) && |t| > 0
    ensures Retrieves(f, t) <==> FitsOrHash(f, t) && (f[0] == MWC ==> t[0] != "" && !IsSystem(t[0]))
  {
    RetainMatchesMeans(f, t);
  }

  /** The two searches agree exactly outside two cases a subscriber can tell from
      filter and topic: `#` at an empty level below the first, and a first-level
      `+` against a `$` topic.  In both the retained search finds the topic and
      the subscription search does not. */
  lemma SearchesAgree(f: Path, t: Path)
    requires WellFormed(f) && WildcardFree(t) && |t| > 0
    ensures Delivers(f, t) <==>
      Retrieves(f, t) && !(|f| > 1 && HashOnEmpty(f, t)) && !(f[0] == SWC && IsSystem(t[0]))
  {
    LevelsAgree(f, t);
    LevelsAgree(f[1..], t[1..]);
    if |f| > 1 {
      assert f[1..][|f[1..]| - 1] == f[|f| - 1];
      if |t| >= |f| {
        assert t[1..][|f[1..]| - 1] == t[|f| - 1];
      }
    }
  }

  /** The filters `#` and `/#` of the shutdown together retrieve every topic
      outside `$`, each topic by exactly one of them. */
  lemma ShutdownFilters(t: Path)
    requires |t| > 0
    ensures !IsSystem(t[0]) <==> Retrieves([MWC], t) || Retrieves(["", MWC], t)
    ensures !(Retrieves([MWC], t) && Retrieves(["", MWC], t))
  {
    var f: Path := ["", MWC];
    assert f[1..] == [MWC];
    assert RetainMatches(f[1..], t[1..]);
  }
}
