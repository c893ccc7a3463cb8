/** What a search hands to the publisher: the entries that the collectors of
    topics/mem/node.go and topics/memlockfree/node.go build for one subscriber
    from the nodes the search visits. */
module Collect {
  import opened Wrappers
  import opened TopicPaths

  /** The address by which a trie knows a subscriber. */
  type Hash = nat

  datatype RetainHandling = SendAlways | SendIfNew | SendNever

  datatype Ops = Ops(qos: nat, noLocal: bool, handling: RetainHandling)

  /** A subscription: its identifier (0 for none), the granted QoS, its options. */
  datatype Params = Params(id: nat, granted: nat, ops: Ops)

  datatype Entry = Entry(qos: nat, ops: Ops, ids: seq<nat>)

  /** The flat view of all subscriptions. */
  type Flat = map<(Key, Hash), Params>

  function Acquire(p: Params): Entry {
    Entry(p.granted, p.ops, if p.id > 0 then [p.id] else [])
  }

  /** A further matching subscription joins an entry. */
  function Merge(e: Entry, p: Params): Entry {
    e.(ids := if p.id > 0 then e.ids + [p.id] else e.ids, qos := if e.qos < p.granted then p.granted else e.qos)
  }

  /** One subscription met by the search; `self` is whether its subscriber is the
      publisher.  With `overlap` a subscriber gets one merged entry. */
  function Take(overlap: bool, acc: seq<Entry>, p: Params, self: bool): seq<Entry> {
    if overlap && acc != [] then [Merge(acc[0], p)] + acc[1..]
    else if p.ops.noLocal && self then acc
    else acc + [Acquire(p)]
  }

  /** What the node at `k` does to the entries of subscriber `h`. */
  function TakeAt(overlap: bool, acc: seq<Entry>, subs: Flat, k: Key, h: Hash, publisher: Hash): seq<Entry> {
    if (k, h) in subs then Take(overlap, acc, subs[(k, h)], h == publisher) else acc
  }

  /** What the nodes `visits`, in order, do to them. */
  function CollectFrom(overlap: bool, acc: seq<Entry>, subs: Flat, visits: seq<Key>, h: Hash, publisher: Hash)
    : seq<Entry>
  {
    if visits == [] then acc
    else
      var n := |visits| - 1;
      TakeAt(overlap, CollectFrom(overlap, acc, subs, visits[..n], h, publisher), subs, visits[n], h, publisher)
  }

  /** The entries of subscriber `h` after the nodes `visits`. */
  function Collected(overlap: bool, subs: Flat, visits: seq<Key>, h: Hash, publisher: Hash): seq<Entry> {
    CollectFrom(overlap, [], subs, visits, h, publisher)
  }

  lemma {:induction false} CollectConcat(overlap: bool, acc: seq<Entry>, subs: Flat, a: seq<Key>, b: seq<Key>,
                                         h: Hash, publisher: Hash)
    ensures CollectFrom(overlap, acc, subs, a + b, h, publisher)
         == CollectFrom(overlap, CollectFrom(overlap, acc, subs, a, h, publisher), subs, b, h, publisher)
    decreases |b|
  {
    if b == [] {
      assert a + b == a;
    } else {
      var n := |b| - 1;
      assert (a + b)[..|a + b| - 1] == a + b[..n];
      CollectConcat(overlap, acc, subs, a, b[..n], h, publisher);
    }
  }

  // ------------------------------------------------------------------
  // The result map of a search

  /** `publishes`: the entries collected so far, by subscriber. */
  type Entries = map<Hash, seq<Entry>>

  function Of(m: Entries, h: Hash): seq<Entry> { if h in m then m[h] else [] }

  /** The map has an entry for everybody it mentions. */
  ghost predicate NoEmpty(m: Entries) {
    forall h :: h in m ==> m[h] != []
  }

  /** A search that visits `visits` turns `before` into `after`. */
  ghost predicate Advanced(overlap: bool, before: Entries, after: Entries, subs: Flat, visits: seq<Key>,
                           publisher: Hash)
  {
    && NoEmpty(after)
    && Follows(overlap, before, after, subs, visits, publisher)
  }

  ghost predicate Follows(overlap: bool, before: Entries, after: Entries, subs: Flat, visits: seq<Key>,
                          publisher: Hash)
  {
    forall h {:trigger Of(after, h)} :: Of(after, h) == CollectFrom(overlap, Of(before, h), subs, visits, h, publisher)
  }

  lemma AdvancedNone(overlap: bool, m: Entries, subs: Flat, publisher: Hash)
    requires NoEmpty(m)
    ensures Advanced(overlap, m, m, subs, [], publisher)
  {
  }

  lemma AdvancedConcat(overlap: bool, x: Entries, y: Entries, z: Entries, subs: Flat, a: seq<Key>, b: seq<Key>,
                       publisher: Hash)
    requires Advanced(overlap, x, y, subs, a, publisher) && Advanced(overlap, y, z, subs, b, publisher)
    ensures Advanced(overlap, x, z, subs, a + b, publisher)
  {
    forall h ensures Of(z, h) == CollectFrom(overlap, Of(x, h), subs, a + b, h, publisher) {
      CollectConcat(overlap, Of(x, h), subs, a, b, h, publisher);
      assert Of(y, h) == CollectFrom(overlap, Of(x, h), subs, a, h, publisher);
    }
  }

  lemma AdvancedOne(overlap: bool, x: Entries, y: Entries, subs: Flat, k: Key, publisher: Hash)
    requires NoEmpty(y)
    requires forall h :: Of(y, h) == TakeAt(overlap, Of(x, h), subs, k, h, publisher)
    ensures Advanced(overlap, x, y, subs, [k], publisher)
  {
    forall h ensures Of(y, h) == CollectFrom(overlap, Of(x, h), subs, [k], h, publisher) {
      assert [k][..0] == [];
      assert CollectFrom(overlap, Of(x, h), subs, [k][..0], h, publisher) == Of(x, h);
    }
  }

  /** overlappingSubscribers and nonOverlappingSubscribers: the subscribers of one
      node, in whatever order the map yields them. */
  method NodeSubscribers(overlap: bool, held: map<Hash, Params>, publisher: Hash, p: Entries) returns (out: Entries)
    requires NoEmpty(p)
    ensures NoEmpty(out)
    ensures forall h :: Of(out, h) == if h in held then Take(overlap, Of(p, h), held[h], h == publisher) else Of(p, h)
  {
    out := p;
    var todo := held.Keys;
    while todo != {}
      invariant todo <= held.Keys && NoEmpty(out)
      invariant forall h ::
        Of(out, h) == if h in held && h !in todo then Take(overlap, Of(p, h), held[h], h == publisher) else Of(p, h)
      decreases todo
    {
      var h :| h in todo;
      var sub := held[h];
      assert Of(out, h) == Of(p, h);
      if overlap && h in out {
        var s := out[h];
        out := out[h := [Merge(s[0], sub)] + s[1..]];
      } else if !sub.ops.noLocal || h != publisher {
        out := out[h := Of(out, h) + [Acquire(sub)]];
      }
      todo := todo - {h};
    }
  }

  // ------------------------------------------------------------------
  // What is collected

  /** The visited filters under which `h` is subscribed. */
  ghost function Hits(subs: Flat, visits: seq<Key>, h: Hash): set<Key> {
    set p | p in visits && (p, h) in subs
  }

  /** ... and not kept from hearing itself. */
  ghost function Heard(subs: Flat, visits: seq<Key>, h: Hash, publisher: Hash): set<Key> {
    set p | p in visits && (p, h) in subs && !(subs[(p, h)].ops.noLocal && h == publisher)
  }

  lemma HeardStep(subs: Flat, visits: seq<Key>, h: Hash, publisher: Hash)
    requires |visits| > 0 && NoDup(visits)
    ensures var n := |visits| - 1;
      var last := visits[n];
      && NoDup(visits[..n]) && last !in Heard(subs, visits[..n], h, publisher)
      && Heard(subs, visits, h, publisher) == Heard(subs, visits[..n], h, publisher)
           + (if (last, h) in subs && !(subs[(last, h)].ops.noLocal && h == publisher) then {last} else {})
  {
    var n := |visits| - 1;
    assert visits == visits[..n] + [visits[n]];
  }

  /** Without overlap merging: one entry per subscription heard, no other, none twice.
      `ps` tells for each entry which filter it comes from. */
  lemma {:induction false} OneEntryEach(subs: Flat, visits: seq<Key>, h: Hash, publisher: Hash) returns (ps: seq<Key>)
    requires NoDup(visits)
    ensures NoDup(ps) && forall p :: p in ps <==> p in Heard(subs, visits, h, publisher)
    ensures |Collected(false, subs, visits, h, publisher)| == |ps|
    ensures forall i :: 0 <= i < |ps| ==>
      (ps[i], h) in subs && Collected(false, subs, visits, h, publisher)[i] == Acquire(subs[(ps[i], h)])
    decreases |visits|
  {
    if visits == [] {
      ps := [];
    } else {
      var n := |visits| - 1;
      var last := visits[n];
      HeardStep(subs, visits, h, publisher);
      ps := OneEntryEach(subs, visits[..n], h, publisher);
      if (last, h) in subs && !(subs[(last, h)].ops.noLocal && h == publisher) {
        NoDupConcat(ps, [last]);
        ps := ps + [last];
      }
    }
  }

  /** The filters of `h` among `hits` that carry subscription identifier `v`. */
  ghost function WithId(subs: Flat, hits: set<Key>, h: Hash, v: nat): set<Key> {
    set p | p in hits && (p, h) in subs && subs[(p, h)].id == v
  }

  /** `e` merges exactly the subscriptions of `h` under `hits`: the highest QoS
      granted, and each non-zero subscription identifier as often as it occurs. */
  ghost predicate Merges(subs: Flat, hits: set<Key>, h: Hash, e: Entry) {
    && (forall p :: p in hits && (p, h) in subs ==> subs[(p, h)].granted <= e.qos)
    && (exists p :: p in hits && (p, h) in subs && subs[(p, h)].granted == e.qos)
    && 0 !in e.ids
    && (forall v: nat :: v > 0 ==> multiset(e.ids)[v] == |WithId(subs, hits, h, v)|)
  }

  lemma MergesOne(subs: Flat, p: Key, h: Hash)
    requires (p, h) in subs
    ensures Merges(subs, {p}, h, Acquire(subs[(p, h)]))
  {
    forall v: nat | v > 0
      ensures multiset(Acquire(subs[(p, h)]).ids)[v] == |WithId(subs, {p}, h, v)|
    {
      assert WithId(subs, {p}, h, v) == if subs[(p, h)].id == v then {p} else {};
    }
  }

  lemma MergesMoreIds(subs: Flat, hits: set<Key>, p: Key, h: Hash, e: Entry, v: nat)
    requires (p, h) in subs && p !in hits && v > 0 && multiset(e.ids)[v] == |WithId(subs, hits, h, v)|
    ensures multiset(Merge(e, subs[(p, h)]).ids)[v] == |WithId(subs, hits + {p}, h, v)|
  {
    assert WithId(subs, hits + {p}, h, v)
        == WithId(subs, hits, h, v) + (if subs[(p, h)].id == v then {p} else {});
  }

  lemma MergesMore(subs: Flat, hits: set<Key>, p: Key, h: Hash, e: Entry)
    requires (p, h) in subs && p !in hits && Merges(subs, hits, h, e)
    ensures Merges(subs, hits + {p}, h, Merge(e, subs[(p, h)]))
  {
    var m := Merge(e, subs[(p, h)]);
    forall v: nat | v > 0 ensures multiset(m.ids)[v] == |WithId(subs, hits + {p}, h, v)| {
      MergesMoreIds(subs, hits, p, h, e, v);
    }
    assert exists q :: q in hits + {p} && (q, h) in subs && subs[(q, h)].granted == m.qos by {
      var q :| q in hits && (q, h) in subs && subs[(q, h)].granted == e.qos;
      if m.qos == e.qos {
        assert q in hits + {p};
      } else {
        assert p in hits + {p};
      }
    }
  }

  /** `h` is subscribed at visit `i` and, if it is the publisher, may hear itself there. */
  predicate HeardAt(subs: Flat, visits: seq<Key>, i: nat, h: Hash, publisher: Hash) {
    i < |visits| && (visits[i], h) in subs && !(subs[(visits[i], h)].ops.noLocal && h == publisher)
  }

  /** `h` is subscribed at visit `i`, at or after one that is heard. */
  ghost predicate JoinsAt(subs: Flat, visits: seq<Key>, i: nat, h: Hash, publisher: Hash) {
    && i < |visits| && (visits[i], h) in subs
    && exists j: nat :: j <= i && HeardAt(subs, visits, j, h, publisher)
  }

  /** The visited filters of `h` from the first one heard on. */
  ghost function Joined(subs: Flat, visits: seq<Key>, h: Hash, publisher: Hash): set<Key> {
    set i: nat | i < |visits| && JoinsAt(subs, visits, i, h, publisher) :: visits[i]
  }

  lemma JoinsFront(subs: Flat, visits: seq<Key>, i: nat, h: Hash, publisher: Hash)
    requires i < |visits| - 1
    ensures JoinsAt(subs, visits[..|visits| - 1], i, h, publisher) <==> JoinsAt(subs, visits, i, h, publisher)
  {
    var front := visits[..|visits| - 1];
    assert forall j: nat :: j <= i ==>
      (HeardAt(subs, front, j, h, publisher) <==> HeardAt(subs, visits, j, h, publisher));
  }

  lemma JoinsLast(subs: Flat, visits: seq<Key>, h: Hash, publisher: Hash)
    requires |visits| > 0
    ensures var n := |visits| - 1;
      JoinsAt(subs, visits, n, h, publisher) <==>
        (visits[n], h) in subs
        && (Joined(subs, visits[..n], h, publisher) != {} || HeardAt(subs, visits, n, h, publisher))
  {
    var n := |visits| - 1;
    var front := visits[..n];
    var was := Joined(subs, front, h, publisher);
    if j: nat :| j < n && HeardAt(subs, visits, j, h, publisher) {
      assert HeardAt(subs, front, j, h, publisher) && JoinsAt(subs, front, j, h, publisher);
      assert front[j] in was;
    }
    if was != {} {
      var i: nat :| i < n && JoinsAt(subs, front, i, h, publisher);
      var j: nat :| j <= i && HeardAt(subs, front, j, h, publisher);
      assert HeardAt(subs, visits, j, h, publisher);
    }
  }

  lemma JoinedStep(subs: Flat, visits: seq<Key>, h: Hash, publisher: Hash)
    requires |visits| > 0 && NoDup(visits)
    ensures var n := |visits| - 1;
      var was := Joined(subs, visits[..n], h, publisher);
      && visits[n] !in was
      && Joined(subs, visits, h, publisher)
         == was + (if JoinsAt(subs, visits, n, h, publisher) then {visits[n]} else {})
  {
    var n := |visits| - 1;
    forall i: nat | i < n
      ensures JoinsAt(subs, visits[..n], i, h, publisher) <==> JoinsAt(subs, visits, i, h, publisher)
      ensures visits[..n][i] == visits[i]
    {
      JoinsFront(subs, visits, i, h, publisher);
    }
  }

  /** The entries of `h` merge its subscriptions under `hits`, if any. */
  ghost predicate OneMerged(subs: Flat, hits: set<Key>, h: Hash, c: seq<Entry>) {
    (hits == {} <==> c == []) && (hits != {} ==> |c| == 1 && Merges(subs, hits, h, c[0]))
  }

  lemma TakeMerges(subs: Flat, hits: set<Key>, p: Key, h: Hash, self: bool, c: seq<Entry>)
    requires (p, h) in subs && p !in hits && OneMerged(subs, hits, h, c)
    requires hits != {} || !(subs[(p, h)].ops.noLocal && self)
    ensures OneMerged(subs, hits + {p}, h, Take(true, c, subs[(p, h)], self))
  {
    if hits == {} {
      MergesOne(subs, p, h);
      assert hits + {p} == {p};
    } else {
      MergesMore(subs, hits, p, h, c[0]);
    }
  }

  /** With overlap merging, for any order of the visits: a subscriber gets one entry
      if any of its visited filters is heard, and none otherwise.  The entry merges
      its filters from the first one heard on. */
  lemma {:induction false} OverlapExact(subs: Flat, visits: seq<Key>, h: Hash, publisher: Hash)
    requires NoDup(visits)
    ensures OneMerged(subs, Joined(subs, visits, h, publisher), h, Collected(true, subs, visits, h, publisher))
    decreases |visits|
  {
    if visits != [] {
      var n := |visits| - 1;
      var front, last := visits[..n], visits[n];
      JoinedStep(subs, visits, h, publisher);
      JoinsLast(subs, visits, h, publisher);
      OverlapExact(subs, front, h, publisher);
      var acc, joined := Collected(true, subs, front, h, publisher), Joined(subs, front, h, publisher);
      assert Collected(true, subs, visits, h, publisher) == TakeAt(true, acc, subs, last, h, publisher);
      if JoinsAt(subs, visits, n, h, publisher) {
        assert Joined(subs, visits, h, publisher) == joined + {last};
        TakeMerges(subs, joined, last, h, h == publisher, acc);
      } else {
        assert Joined(subs, visits, h, publisher) == joined;
      }
    }
  }

  /** So for a subscriber other than the publisher (or one whose filters all let it
      hear itself) the order does not matter: the entry merges all its filters. */
  lemma OverlapMerges(subs: Flat, visits: seq<Key>, h: Hash, publisher: Hash)
    requires NoDup(visits)
    requires h == publisher ==> forall p :: p in visits && (p, h) in subs ==> !subs[(p, h)].ops.noLocal
    ensures OneMerged(subs, Hits(subs, visits, h), h, Collected(true, subs, visits, h, publisher))
  {
    OverlapExact(subs, visits, h, publisher);
    var hits, joined := Hits(subs, visits, h), Joined(subs, visits, h, publisher);
    forall p | p in hits ensures p in joined {
      var i :| 0 <= i < |visits| && visits[i] == p;
      assert HeardAt(subs, visits, i, h, publisher) && JoinsAt(subs, visits, i, h, publisher);
    }
    assert hits == joined;
  }

  /** The first visit at which `h` is heard. */
  predicate FirstHeard(subs: Flat, visits: seq<Key>, i: nat, h: Hash, publisher: Hash) {
    HeardAt(subs, visits, i, h, publisher) && forall j: nat :: j < i ==> !HeardAt(subs, visits, j, h, publisher)
  }

  /** A merged entry has the options of the first filter that is heard. */
  lemma {:induction false} MergedOptions(subs: Flat, visits: seq<Key>, i: nat, h: Hash, publisher: Hash)
    requires NoDup(visits) && FirstHeard(subs, visits, i, h, publisher)
    ensures var c := Collected(true, subs, visits, h, publisher);
      |c| == 1 && c[0].ops == subs[(visits[i], h)].ops
    decreases |visits|
  {
    var n := |visits| - 1;
    var front := visits[..n];
    assert forall j: nat :: j < n ==>
      (HeardAt(subs, front, j, h, publisher) <==> HeardAt(subs, visits, j, h, publisher));
    if i < n {
      MergedOptions(subs, front, i, h, publisher);
    } else {
      OverlapExact(subs, front, h, publisher);
      assert Joined(subs, front, h, publisher) == {};
    }
  }

  /** The first visited filter under which `h` is subscribed. */
  predicate FirstHit(subs: Flat, visits: seq<Key>, i: nat, h: Hash) {
    i < |visits| && (visits[i], h) in subs && forall j :: 0 <= j < i ==> (visits[j], h) !in subs
  }

  lemma {:induction false} FirstHitUpTo(subs: Flat, visits: seq<Key>, i: nat, h: Hash) returns (f: nat)
    requires i < |visits| && (visits[i], h) in subs
    ensures f <= i && FirstHit(subs, visits, f, h)
  {
    if j: nat :| j < i && (visits[j], h) in subs {
      f := FirstHitUpTo(subs, visits, j, h);
    } else {
      f := i;
    }
  }

  /** All filters of a subscriber join its entry if and only if the first one the
      search comes to is heard. */
  lemma JoinedExactly(subs: Flat, visits: seq<Key>, h: Hash, publisher: Hash)
    requires NoDup(visits)
    ensures Joined(subs, visits, h, publisher) == Hits(subs, visits, h) <==>
      forall i: nat :: FirstHit(subs, visits, i, h) ==> HeardAt(subs, visits, i, h, publisher)
  {
    var hits, joined := Hits(subs, visits, h), Joined(subs, visits, h, publisher);
    if forall i: nat :: FirstHit(subs, visits, i, h) ==> HeardAt(subs, visits, i, h, publisher) {
      forall p | p in hits ensures p in joined {
        var i: nat :| i < |visits| && visits[i] == p;
        var f := FirstHitUpTo(subs, visits, i, h);
        assert HeardAt(subs, visits, f, h, publisher) && JoinsAt(subs, visits, i, h, publisher);
      }
      assert hits == joined;
    }
    if joined == hits {
      forall i: nat | FirstHit(subs, visits, i, h) ensures HeardAt(subs, visits, i, h, publisher) {
        assert visits[i] in hits;
        var k: nat :| k < |visits| && JoinsAt(subs, visits, k, h, publisher) && visits[k] == visits[i];
        assert k == i;
        var j: nat :| j <= i && HeardAt(subs, visits, j, h, publisher);
        assert j == i;
      }
    }
  }

  /** The subscription with its No-Local option set or cleared. */
  function NoLocal(p: Params, on: bool): Params { p.(ops := p.ops.(noLocal := on)) }

  /** For the publisher itself the order does matter.  Subscribed to `a` and to `+`, one
      of them No-Local, it gets from a publish to `a` an entry for both if `+` is the
      No-Local one and for `+` alone if `a` is: the search comes to `a` first. */
  lemma PublisherOrderMatters(p: Params, q: Params, h: Hash)
    ensures var a, b := KeyOf(["a"]), KeyOf(["+"]);
      var visits := VisitsTop({Root, a, b}, ["a"]);
      && a != b && UpClosed({Root, a, b}) && visits == [a, b]
      && Collected(true, map[(a, h) := NoLocal(p, false), (b, h) := NoLocal(q, true)], visits, h, h)
         == [Merge(Acquire(NoLocal(p, false)), q)]
      && Collected(true, map[(a, h) := NoLocal(p, true), (b, h) := NoLocal(q, false)], visits, h, h)
         == [Acquire(NoLocal(q, false))]
  {
    var a, b := KeyOf(["a"]), KeyOf(["+"]);
    TwoVisits(a, b);
    CollectTwo(map[(a, h) := NoLocal(p, false), (b, h) := NoLocal(q, true)], a, b, h);
    CollectTwo(map[(a, h) := NoLocal(p, true), (b, h) := NoLocal(q, false)], a, b, h);
  }

  lemma TwoVisits(a: Key, b: Key)
    requires a == KeyOf(["a"]) && b == KeyOf(["+"])
    ensures a == Down(Root, "a") && b == Down(Root, SWC) && a != b
    ensures UpClosed({Root, a, b}) && VisitsTop({Root, a, b}, ["a"]) == [a, b]
  {
    assert ["a"][1..] == [] && ["+"][1..] == [];
    assert Extend(Root, ["a"]) == Extend(Down(Root, "a"), []);
    assert Extend(Root, ["+"]) == Extend(Down(Root, "+"), []);
    assert "a"[0] != "+"[0] && "a"[0] != "#"[0] && "+"[0] != "#"[0];
    var keys := {Root, a, b};
    assert Down(Root, MWC) !in keys && Down(a, MWC) !in keys && Down(b, MWC) !in keys;
    assert Visits(keys, a, []) == [a] && Visits(keys, b, []) == [b];
    assert VisitsNear(keys, Root, ["a"]) == [a];
  }

  lemma CollectTwo(subs: Flat, a: Key, b: Key, h: Hash)
    ensures Collected(true, subs, [a, b], h, h) == TakeAt(true, TakeAt(true, [], subs, a, h, h), subs, b, h, h)
  {
    assert [a, b][..1] == [a] && [a][..0] == [];
    assert CollectFrom(true, [], subs, [a], h, h) == TakeAt(true, [], subs, a, h, h);
  }
}
