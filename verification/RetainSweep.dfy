/** What a search for retained messages finds and clears, on the flat map of
    retained messages: the recursive searches of topics/mem/node.go examine a set
    of nodes, return the valid messages there and drop the expired ones. */
module RetainSweep {
  import opened Wrappers
  import opened TopicPaths
  import opened TrieNodes
  import opened Collect

  type Kept = map<Key, Message>

  /** Examining the nodes `done` clears the expired messages there. */
  ghost function Swept(kept: Kept, done: set<Key>, now: nat): Kept {
    map q | q in kept && !(q in done && Expired(kept[q], now)) :: kept[q]
  }

  /** The keys in `done` whose message has expired. */
  ghost function Stale(kept: Kept, done: set<Key>, now: nat): set<Key> {
    set q | q in done && q in kept && Expired(kept[q], now)
  }

  /** Examining the nodes `done` yields the messages `found`, one from each of the
      keys `ks`: every valid message there, each once. */
  ghost predicate Finds(kept: Kept, done: set<Key>, now: nat, ks: seq<Key>, found: seq<Message>) {
    && |found| == |ks| && NoDup(ks)
    && (forall q :: q in ks <==> q in done && q in kept && !Expired(kept[q], now))
    && (forall i :: 0 <= i < |ks| ==> ks[i] in kept && found[i] == kept[ks[i]])
  }

  lemma SweptTwice(kept: Kept, a: set<Key>, b: set<Key>, now: nat)
    ensures Swept(Swept(kept, a, now), b, now) == Swept(kept, a + b, now)
  {
  }

  lemma FindsConcat(kept: Kept, a: set<Key>, b: set<Key>, now: nat,
                    ks: seq<Key>, found: seq<Message>, ks': seq<Key>, found': seq<Message>)
    requires a !! b
    requires Finds(kept, a, now, ks, found) && Finds(Swept(kept, a, now), b, now, ks', found')
    ensures Finds(kept, a + b, now, ks + ks', found + found')
  {
    NoDupConcat(ks, ks');
    var all, messages := ks + ks', found + found';
    forall q ensures q in all <==> q in a + b && q in kept && !Expired(kept[q], now) {
      assert q in all <==> q in ks || q in ks';
    }
    forall i | 0 <= i < |all| ensures all[i] in kept && messages[i] == kept[all[i]] {
      if i >= |ks| {
        assert all[i] == ks'[i - |ks|];
      }
    }
  }

  /** A search that examines `done` turns `before` into `after` and finds `found`. */
  ghost predicate Sweeps(before: Kept, after: Kept, done: set<Key>, now: nat, ks: seq<Key>, found: seq<Message>) {
    after == Swept(before, done, now) && Finds(before, done, now, ks, found)
  }

  lemma SweepsConcat(x: Kept, y: Kept, z: Kept, a: set<Key>, b: set<Key>, now: nat,
                     ks: seq<Key>, found: seq<Message>, ks': seq<Key>, found': seq<Message>)
    requires a !! b && Sweeps(x, y, a, now, ks, found) && Sweeps(y, z, b, now, ks', found')
    ensures Sweeps(x, z, a + b, now, ks + ks', found + found')
  {
    SweptTwice(x, a, b, now);
    FindsConcat(x, a, b, now, ks, found, ks', found');
  }

  lemma FindsNothing(kept: Kept, now: nat)
    ensures Sweeps(kept, kept, {}, now, [], [])
  {
  }

  /** Examining one node. */
  lemma SweepAt(kept: Kept, k: Key, now: nat)
    ensures k !in kept ==> Sweeps(kept, kept, {k}, now, [], [])
    ensures k in kept && !Expired(kept[k], now) ==> Sweeps(kept, kept, {k}, now, [k], [kept[k]])
    ensures k in kept && Expired(kept[k], now) ==>
      Sweeps(kept, kept - {k}, {k}, now, [], [])
  {
  }

  /** Moving one element from the levels still to visit to those visited. */
  lemma MoveLevel(all: set<Level>, todo: set<Level>, seen: set<Level>, l: Level)
    requires todo <= all && seen == all - todo && l in todo
    ensures todo - {l} <= all && seen + {l} == all - (todo - {l}) && l !in seen
  {
  }

  // ------------------------------------------------------------------
  // Subtrees

  /** The node `k` and what lies beyond its children `ls`. */
  ghost function BeyondSome(keys: set<Key>, k: Key, ls: set<Level>): set<Key> {
    set q | q in keys && (q == k || exists l :: l in ls && OnWay(Down(k, l), q))
  }

  lemma BeyondNone(keys: set<Key>, k: Key)
    requires k in keys
    ensures BeyondSome(keys, k, {}) == {k}
  {
  }

  lemma {:induction false} WaysDiffer(k: Key, l: Level, m: Level, q: Key)
    requires OnWay(Down(k, l), q) && OnWay(Down(k, m), q)
    ensures l == m
    decreases q
  {
    if q != Down(k, l) && q != Down(k, m) {
      WaysDiffer(k, l, m, q.up);
    } else if q != Down(k, l) {
      OnWaySize(Down(k, l), q.up);
    } else if q != Down(k, m) {
      OnWaySize(Down(k, m), q.up);
    }
  }

  lemma BeyondSomeStep(keys: set<Key>, k: Key, ls: set<Level>, l: Level)
    requires l !in ls
    ensures BeyondSome(keys, k, ls + {l}) == BeyondSome(keys, k, ls) + Beyond(keys, Down(k, l))
    ensures BeyondSome(keys, k, ls) !! Beyond(keys, Down(k, l))
  {
    forall q | q in BeyondSome(keys, k, ls) ensures q !in Beyond(keys, Down(k, l)) {
      if OnWay(Down(k, l), q) {
        OnWayShort(k, l, q);
        var m :| m in ls && OnWay(Down(k, m), q);
        WaysDiffer(k, l, m, q);
      }
    }
  }

  /** What lies beyond the children `ls` of `k`. */
  ghost function BeyondChildren(keys: set<Key>, k: Key, ls: set<Level>): set<Key> {
    set q | q in keys && exists l :: l in ls && OnWay(Down(k, l), q)
  }

  lemma BeyondChildrenStep(keys: set<Key>, k: Key, ls: set<Level>, l: Level)
    requires l !in ls
    ensures BeyondChildren(keys, k, {}) == {}
    ensures BeyondChildren(keys, k, ls + {l}) == BeyondChildren(keys, k, ls) + Beyond(keys, Down(k, l))
    ensures BeyondChildren(keys, k, ls) !! Beyond(keys, Down(k, l))
  {
    forall q | q in BeyondChildren(keys, k, ls) ensures q !in Beyond(keys, Down(k, l)) {
      if OnWay(Down(k, l), q) {
        var m :| m in ls && OnWay(Down(k, m), q);
        WaysDiffer(k, l, m, q);
      }
    }
  }

  lemma BeyondApart(keys: set<Key>, k: Key, l: Level)
    ensures {k} !! Beyond(keys, Down(k, l))
  {
    if k in Beyond(keys, Down(k, l)) {
      OnWayShort(k, l, k);
    }
  }

  lemma {:induction false} FirstStep(keys: set<Key>, k: Key, q: Key) returns (l: Level)
    requires UpClosed(keys) && q in keys && OnWay(k, q) && q != k
    ensures Down(k, l) in keys && OnWay(Down(k, l), q)
    decreases q
  {
    if q.up == k {
      l := q.level;
    } else {
      l := FirstStep(keys, k, q.up);
    }
  }

  lemma BeyondAll(keys: set<Key>, k: Key, ls: set<Level>)
    requires UpClosed(keys) && k in keys && forall l :: l in ls <==> Down(k, l) in keys
    ensures BeyondSome(keys, k, ls) == Beyond(keys, k)
  {
    forall q | q in BeyondSome(keys, k, ls) ensures OnWay(k, q) {
      if q != k {
        var l :| l in ls && OnWay(Down(k, l), q);
        OnWayShort(k, l, q);
      }
    }
    forall q | q in Beyond(keys, k) ensures q in BeyondSome(keys, k, ls) {
      if q != k {
        var l := FirstStep(keys, k, q);
      }
    }
  }

  // ------------------------------------------------------------------
  // The nodes a filter leads to

  ghost function RetainSet(keys: set<Key>, k: Key, f: Path): set<Key>
    decreases |f|
  {
    if f == [] then {k} + (if Down(k, MWC) in keys then Beyond(keys, Down(k, MWC)) else {})
    else if f[0] == MWC then Beyond(keys, k)
    else if f[0] == SWC then
      set q | q in keys && exists l :: Down(k, l) in keys && q in RetainSet(keys, Down(k, l), f[1..])
    else if Down(k, f[0]) in keys then RetainSet(keys, Down(k, f[0]), f[1..])
    else {}
  }

  lemma {:induction false} OnWayExtend(k: Key, q: Key) returns (g: Path)
    requires OnWay(k, q)
    ensures Extend(k, g) == q
    decreases q
  {
    if k == q {
      g := [];
    } else {
      g := OnWayExtend(k, q.up);
      ExtendStep(k, g, q.level);
      g := g + [q.level];
    }
  }

  lemma {:induction false} ExtendOnWay(k: Key, g: Path)
    ensures OnWay(k, Extend(k, g))
    decreases |g|
  {
    if g != [] {
      ExtendOnWay(Down(k, g[0]), g[1..]);
      OnWayShort(k, g[0], Extend(k, g));
    }
  }

  lemma RetainSetEnd(keys: set<Key>, k: Key)
    ensures RetainSet(keys, k, []) == if Down(k, MWC) in keys then {k} + Beyond(keys, Down(k, MWC)) else {k}
    ensures {k} !! Beyond(keys, Down(k, MWC))
  {
    BeyondApart(keys, k, MWC);
  }

  /** `q` extends `k` by a topic that the filter `f` retrieves. */
  ghost predicate RetainBelow(k: Key, q: Key, f: Path) {
    exists g :: Extend(k, g) == q && RetainMatches(f, g)
  }

  lemma RetainBelowEnd(k: Key, q: Key)
    ensures RetainBelow(k, q, []) <==> q == k || OnWay(Down(k, MWC), q)
  {
    assert Extend(k, []) == k;
    if OnWay(Down(k, MWC), q) {
      var g := OnWayExtend(Down(k, MWC), q);
      assert ([MWC] + g)[1..] == g;
      assert Extend(k, [MWC] + g) == q && RetainMatches([], [MWC] + g);
    }
    if g :| Extend(k, g) == q && RetainMatches([], g) {
      if g != [] {
        ExtendOnWay(Down(k, MWC), g[1..]);
      }
    }
  }

  lemma RetainBelowHash(k: Key, q: Key, f: Path)
    requires f != [] && f[0] == MWC
    ensures RetainBelow(k, q, f) <==> OnWay(k, q)
  {
    if OnWay(k, q) {
      var g := OnWayExtend(k, q);
      assert RetainMatches(f, g);
    }
    if g :| Extend(k, g) == q && RetainMatches(f, g) {
      ExtendOnWay(k, g);
    }
  }

  lemma RetainBelowStep(k: Key, q: Key, f: Path)
    requires f != [] && f[0] != MWC
    ensures RetainBelow(k, q, f) <==> exists l :: (f[0] == SWC || l == f[0]) && RetainBelow(Down(k, l), q, f[1..])
  {
    if g :| Extend(k, g) == q && RetainMatches(f, g) {
      assert Extend(Down(k, g[0]), g[1..]) == q && RetainMatches(f[1..], g[1..]);
      assert RetainBelow(Down(k, g[0]), q, f[1..]);
    }
    forall l, h | (f[0] == SWC || l == f[0]) && Extend(Down(k, l), h) == q && RetainMatches(f[1..], h)
      ensures RetainBelow(k, q, f)
    {
      var g := [l] + h;
      assert g[1..] == h;
      assert Extend(k, g) == q && RetainMatches(f, g);
    }
  }

  /** The recursive search examines exactly the nodes the filter retrieves. */
  lemma {:induction false} RetainSetMeans(keys: set<Key>, k: Key, f: Path, q: Key)
    requires UpClosed(keys) && k in keys
    ensures q in RetainSet(keys, k, f) <==> q in keys && RetainBelow(k, q, f)
    decreases |f|
  {
    if f == [] {
      RetainBelowEnd(k, q);
      if q in keys && OnWay(Down(k, MWC), q) {
        OnWayIn(keys, Down(k, MWC), q);
      }
    } else if f[0] == MWC {
      RetainBelowHash(k, q, f);
    } else {
      RetainBelowStep(k, q, f);
      forall l ensures Down(k, l) in keys && q in RetainSet(keys, Down(k, l), f[1..])
                       <==> q in keys && RetainBelow(Down(k, l), q, f[1..])
      {
        if Down(k, l) in keys {
          RetainSetMeans(keys, Down(k, l), f[1..], q);
        } else if q in keys && RetainBelow(Down(k, l), q, f[1..]) {
          var g :| Extend(Down(k, l), g) == q && RetainMatches(f[1..], g);
          UpIn(keys, Down(k, l), g);
        }
      }
    }
  }

  /** The nodes examined below different children are different. */
  lemma RetainSetUnder(keys: set<Key>, k: Key, l: Level, f: Path, q: Key)
    requires UpClosed(keys) && Down(k, l) in keys && q in RetainSet(keys, Down(k, l), f)
    ensures q in keys && OnWay(Down(k, l), q)
  {
    RetainSetMeans(keys, Down(k, l), f, q);
    var g :| Extend(Down(k, l), g) == q && RetainMatches(f, g);
    ExtendOnWay(Down(k, l), g);
  }

  /** The nodes examined below the children `ls`. */
  ghost function RetainSome(keys: set<Key>, k: Key, ls: set<Level>, f: Path): set<Key> {
    set q | q in keys && exists l :: l in ls && Down(k, l) in keys && q in RetainSet(keys, Down(k, l), f)
  }

  lemma RetainSomeStep(keys: set<Key>, k: Key, ls: set<Level>, l: Level, f: Path)
    requires UpClosed(keys) && Down(k, l) in keys && l !in ls
    ensures RetainSome(keys, k, ls + {l}, f) == RetainSome(keys, k, ls, f) + RetainSet(keys, Down(k, l), f)
    ensures RetainSome(keys, k, ls, f) !! RetainSet(keys, Down(k, l), f)
  {
    forall q | q in RetainSet(keys, Down(k, l), f) ensures q in keys && q !in RetainSome(keys, k, ls, f) {
      RetainSetUnder(keys, k, l, f, q);
      if q in RetainSome(keys, k, ls, f) {
        var m :| m in ls && Down(k, m) in keys && q in RetainSet(keys, Down(k, m), f);
        RetainSetUnder(keys, k, m, f, q);
        WaysDiffer(k, l, m, q);
      }
    }
  }

  lemma RetainSomeNone(keys: set<Key>, k: Key, f: Path)
    ensures RetainSome(keys, k, {}, f) == {}
  {
  }

  lemma RetainSomeAll(keys: set<Key>, k: Key, ls: set<Level>, f: Path)
    requires f != [] && f[0] == SWC && forall l :: l in ls <==> Down(k, l) in keys
    ensures RetainSome(keys, k, ls, f[1..]) == RetainSet(keys, k, f)
  {
  }

  /** The nodes the search for filter `f` examines from the root. */
  ghost function RetainTop(keys: set<Key>, f: Path): set<Key>
    requires |f| > 0
  {
    if f[0] == MWC then set q | q in keys && exists l :: l != "" && !IsSystem(l) && OnWay(Down(Root, l), q)
    else RetainSet(keys, Root, f)
  }

  lemma {:induction false} OnWayLevels(k: Key, q: Key)
    requires OnWay(k, q)
    ensures Levels(k) <= Levels(q)
    decreases q
  {
    if k != q {
      OnWayLevels(k, q.up);
    }
  }

  /** ... are those whose topic the filter retrieves. */
  lemma RetainTopMeans(keys: set<Key>, f: Path, q: Key)
    requires UpClosed(keys) && Root in keys && |f| > 0
    ensures q in RetainTop(keys, f) <==> q in keys && Retrieves(f, Levels(q))
  {
    KeyOfLevels(q);
    if f[0] == MWC {
      forall l | OnWay(Down(Root, l), q) ensures Levels(q) != [] && Levels(q)[0] == l {
        OnWayLevels(Down(Root, l), q);
      }
      if Levels(q) != [] {
        ExtendOnWay(Down(Root, Levels(q)[0]), Levels(q)[1..]);
      }
    } else {
      RetainSetMeans(keys, Root, f, q);
      forall g | Extend(Root, g) == q ensures g == Levels(q) {
        LevelsOfKey(g);
      }
    }
  }

  /** The children of the root that a filter starting with `#` descends to. */
  predicate HashEnters(l: Level) { l != "" && !IsSystem(l) }

  lemma RetainTopHash(keys: set<Key>, f: Path, ls: set<Level>)
    requires UpClosed(keys) && |f| > 0 && f[0] == MWC
    requires forall l :: l in ls <==> Down(Root, l) in keys && HashEnters(l)
    ensures BeyondChildren(keys, Root, ls) == RetainTop(keys, f)
  {
    forall q, l | q in keys && OnWay(Down(Root, l), q) ensures Down(Root, l) in keys {
      OnWayIn(keys, Down(Root, l), q);
    }
  }

  /** Entering a `$` topic through its own node is the same as starting at the root. */
  lemma RetainTopSystem(keys: set<Key>, f: Path)
    requires |f| > 0 && IsSystem(f[0]) && Down(Root, f[0]) in keys
    ensures RetainTop(keys, f) == RetainSet(keys, Down(Root, f[0]), f[1..])
  {
  }

  /** Which nodes a search leaves behind dead: besides those that were dead before,
      exactly those that held nothing but a message it found expired. */
  lemma DeadExactly(im: Image, im': Image, subs: Flat, kept: Kept, done: set<Key>, now: nat)
    requires Contents(im, subs, kept) && Contents(im', subs, Swept(kept, done, now)) && SameTree(im, im')
    ensures Dead(im') == Dead(im) + set q | q in Stale(kept, done, now) && q != Root
                                         && im[q].subs == map[] && im[q].children == map[]
  {
  }
}
