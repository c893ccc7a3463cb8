/** A subscriber and the copy it keeps of its entries in the trie
    (subscriber/subscriber.go). */
module Subscriber {
  import opened Wrappers
  import opened TopicPaths
  import opened Collect
  import opened TrieNodes
  import opened MemTopics

  type Mirror = map<string, Params>

  /** `m` lists exactly the filters under which the trie holds subscriber `h`, with
      the same parameters. */
  ghost predicate Mirrors(m: Mirror, subs: Flat, h: Hash) {
    && (forall f :: f in m ==> (FileKey(f), h) in subs && subs[(FileKey(f), h)] == m[f])
    && (forall k :: (k, h) in subs ==> exists f :: f in m && FileKey(f) == k)
  }

  /** Only entries of `h` differ. */
  ghost predicate OthersKept(was: Flat, subs: Flat, h: Hash) {
    forall k, o :: o != h ==> ((k, o) in subs <==> (k, o) in was) && ((k, o) in was ==> subs[(k, o)] == was[(k, o)])
  }

  lemma MirrorAdd(m: Mirror, subs: Flat, h: Hash, f: string, p: Params)
    requires Mirrors(m, subs, h)
    ensures Mirrors(m[f := p], subs[(FileKey(f), h) := p], h)
    ensures OthersKept(subs, subs[(FileKey(f), h) := p], h)
  {
    var m', subs' := m[f := p], subs[(FileKey(f), h) := p];
    forall g | g in m' ensures (FileKey(g), h) in subs' && subs'[(FileKey(g), h)] == m'[g] {
      if g != f && FileKey(g) == FileKey(f) {
        FileKeyInjective(f, g);
      }
    }
    forall k | (k, h) in subs' ensures exists g :: g in m' && FileKey(g) == k {
      if k == FileKey(f) {
        assert f in m';
      } else {
        var g :| g in m && FileKey(g) == k;
        assert g in m';
      }
    }
  }

  lemma MirrorDrop(m: Mirror, subs: Flat, h: Hash, f: string)
    requires Mirrors(m, subs, h)
    ensures (FileKey(f), h) in subs <==> f in m
    ensures f !in m ==> m - {f} == m
    ensures Mirrors(m - {f}, subs - {(FileKey(f), h)}, h)
    ensures OthersKept(subs, subs - {(FileKey(f), h)}, h)
  {
    var m', subs' := m - {f}, subs - {(FileKey(f), h)};
    forall g | g in m && FileKey(g) == FileKey(f) ensures g == f {
      FileKeyInjective(f, g);
    }
    forall k | (k, h) in subs' ensures exists g :: g in m' && FileKey(g) == k {
      var g :| g in m && FileKey(g) == k;
      assert g in m';
    }
  }

  /** A change by one subscriber leaves every other subscriber's mirror true. */
  lemma MirrorOther(m: Mirror, was: Flat, subs: Flat, h: Hash, o: Hash)
    requires Mirrors(m, was, o) && OthersKept(was, subs, h) && o != h
    ensures Mirrors(m, subs, o)
  {
    forall k | (k, o) in subs ensures exists f :: f in m && FileKey(f) == k {
      assert (k, o) in was;
    }
  }

  /** Nothing of `h` is left. */
  ghost function Without(subs: Flat, h: Hash): Flat {
    map q | q in subs && q.1 != h :: subs[q]
  }

  lemma WithoutMeans(m: Mirror, was: Flat, subs: Flat, h: Hash)
    requires OthersKept(was, subs, h) && Mirrors(m, subs, h) && m == map[]
    ensures subs == Without(was, h)
  {
    var w := Without(was, h);
    forall k, o ensures (k, o) in subs <==> (k, o) in w {
      assert o == h ==> (k, h) !in subs;
    }
    forall q | q in subs ensures q in w && subs[q] == w[q] {
      assert q == (q.0, q.1);
    }
    forall q | q in w ensures q in subs {
      assert q == (q.0, q.1);
    }
  }

  class Subscriber {
    const topics: Provider
    /** The address of this object. */
    const hash: Hash
    var subscriptions: Mirror
    /** Whether `quit` is closed. */
    var quit: bool

    ghost predicate Valid()
      reads this, topics.trie, Nodes(topics.trie.im)
    {
      topics.trie.Valid() && Mirrors(subscriptions, topics.trie.subs, hash)
    }

    constructor (topics: Provider, hash: Hash)
      requires topics.trie.Valid() && forall k :: (k, hash) !in topics.trie.subs
      ensures this.topics == topics && this.hash == hash && subscriptions == map[] && !quit
      ensures Mirrors(subscriptions, topics.trie.subs, hash)
    {
      this.topics, this.hash, subscriptions, quit := topics, hash, map[], false;
    }

    method Subscribe(filter: string, params: Params, now: nat) returns (resp: SubscribeResp)
      requires Valid()
      modifies this`subscriptions, topics.trie, Nodes(topics.trie.im)
      ensures Valid() && fresh(Nodes(topics.trie.im) - old(Nodes(topics.trie.im)))
      ensures resp.err.Some? <==> params.ops.qos > 2
      ensures resp.err.None? ==> resp.params == params.(granted := params.ops.qos)
      ensures topics.trie.subs == if resp.err.Some? then old(topics.trie.subs)
                                  else old(topics.trie.subs)[(FileKey(filter), hash) := resp.params]
      ensures subscriptions == if resp.err.Some? then old(subscriptions) else old(subscriptions)[filter := resp.params]
    {
      ghost var was := topics.trie.subs;
      ghost var mine := subscriptions;
      resp := topics.Subscribe(filter, Some(hash), params, now);
      assert subscriptions == mine;
      if resp.err.Some? {
        return;
      }
      MirrorAdd(mine, was, hash, filter, resp.params);
      subscriptions := subscriptions[filter := resp.params];
    }

    method UnSubscribe(filter: string) returns (found: bool)
      requires Valid()
      modifies this`subscriptions, topics.trie, Nodes(topics.trie.im)
      ensures Valid() && Nodes(topics.trie.im) <= old(Nodes(topics.trie.im)) && quit == old(quit)
      ensures OthersKept(old(topics.trie.subs), topics.trie.subs, hash)
      ensures found <==> filter in old(subscriptions)
      ensures topics.trie.subs == old(topics.trie.subs) - {(FileKey(filter), hash)}
      ensures subscriptions == old(subscriptions) - {filter}
    {
      MirrorDrop(subscriptions, topics.trie.subs, hash, filter);
      found := topics.UnSubscribe(filter, Some(hash));
      if found {
        subscriptions := subscriptions - {filter};
      }
    }

    /** Offline(true): unsubscribes from everything, once. */
    method Shutdown()
      requires Valid()
      modifies this, topics.trie, Nodes(topics.trie.im)
      ensures Valid() && quit && Nodes(topics.trie.im) <= old(Nodes(topics.trie.im))
      ensures subscriptions == if old(quit) then old(subscriptions) else map[]
      ensures topics.trie.subs == if old(quit) then old(topics.trie.subs) else Without(old(topics.trie.subs), hash)
    {
      if quit {
        return;
      }
      quit := true;
      var todo := subscriptions.Keys;
      while todo != {}
        invariant Valid() && Nodes(topics.trie.im) <= old(Nodes(topics.trie.im)) && quit
        invariant OthersKept(old(topics.trie.subs), topics.trie.subs, hash)
        invariant subscriptions.Keys == todo
        decreases todo
      {
        var f :| f in todo;
        var _ := UnSubscribe(f);
        todo := todo - {f};
      }
      WithoutMeans(subscriptions, old(topics.trie.subs), topics.trie.subs, hash);
    }
  }

  lemma EntryHasFilter(subs: Flat, t: Path, h: Hash, publisher: Hash, es: seq<Entry>, ks: seq<Key>)
    requires EachFrom(subs, t, h, publisher, es, ks)
    ensures es != [] ==> Matching(subs, t, h) != {}
  {
    if es != [] {
      assert ks[0] in ks;
    }
  }

  /** After that no search returns the subscriber. */
  lemma GoneFromSearches(subs: Flat, t: Path, h: Hash, publisher: Hash, es: seq<Entry>)
    requires DeliversEach(Without(subs, h), t, h, publisher, es) || DeliversHeard(Without(subs, h), t, h, publisher, es)
    ensures es == []
  {
    assert Matching(Without(subs, h), t, h) == {};
    if DeliversEach(Without(subs, h), t, h, publisher, es) {
      var ks :| EachFrom(Without(subs, h), t, h, publisher, es, ks);
      EntryHasFilter(Without(subs, h), t, h, publisher, es, ks);
    } else {
      assert FromFirstHeard(Without(subs, h), t, h, publisher) == {};
    }
  }

  // ------------------------------------------------------------------
  // Runs of any number of subscribers

  /** The copy of every subscriber, who has shut down, and what the trie holds. */
  datatype World = World(mirrors: map<Hash, Mirror>, gone: set<Hash>, subs: Flat)

  /** A request to the subscriber numbered `who`. */
  datatype Op =
    | Add(who: nat, filter: string, params: Params, now: nat)
    | Drop(who: nat, filter: string)
    | Leave(who: nat)

  function CopyOf(w: World, h: Hash): Mirror { if h in w.mirrors then w.mirrors[h] else map[] }

  ghost function Apply(w: World, h: Hash, op: Op): World {
    var m := CopyOf(w, h);
    match op
    case Add(_, f, p, _) =>
      var g := p.(granted := p.ops.qos);
      if p.ops.qos > 2 then w else w.(mirrors := w.mirrors[h := m[f := g]], subs := w.subs[(FileKey(f), h) := g])
    case Drop(_, f) => w.(mirrors := w.mirrors[h := m - {f}], subs := w.subs - {(FileKey(f), h)})
    case Leave(_) =>
      if h in w.gone then w else World(w.mirrors[h := map[]], w.gone + {h}, Without(w.subs, h))
  }

  predicate Addressed(ops: seq<Op>, n: nat) {
    forall i :: 0 <= i < |ops| ==> ops[i].who < n
  }

  ghost function Run(w: World, hs: seq<Hash>, ops: seq<Op>): World
    requires Addressed(ops, |hs|)
  {
    if ops == [] then w
    else Apply(Run(w, hs, ops[..|ops| - 1]), hs[ops[|ops| - 1].who], ops[|ops| - 1])
  }

  lemma RunStep(w: World, hs: seq<Hash>, ops: seq<Op>, k: nat)
    requires Addressed(ops, |hs|) && k < |ops|
    ensures Run(w, hs, ops[..k + 1]) == Apply(Run(w, hs, ops[..k]), hs[ops[k].who], ops[k])
  {
    assert ops[..k + 1][..k] == ops[..k];
  }

  /** Every copy is exactly what the trie holds of its subscriber. */
  ghost predicate AllMirror(w: World) {
    forall h {:trigger CopyOf(w, h)} :: Mirrors(CopyOf(w, h), w.subs, h)
  }

  lemma ApplyMirrors(w: World, h: Hash, op: Op, o: Hash)
    requires AllMirror(w)
    ensures Mirrors(CopyOf(Apply(w, h, op), o), Apply(w, h, op).subs, o)
  {
    var m := CopyOf(w, h);
    assert Mirrors(m, w.subs, h) && Mirrors(CopyOf(w, o), w.subs, o);
    match op {
      case Add(_, f, p, _) => MirrorAdd(m, w.subs, h, f, p.(granted := p.ops.qos));
      case Drop(_, f) => MirrorDrop(m, w.subs, h, f);
      case Leave(_) =>
    }
    if o != h {
      assert CopyOf(Apply(w, h, op), o) == CopyOf(w, o);
      MirrorOther(CopyOf(w, o), w.subs, Apply(w, h, op).subs, h, o);
    }
  }

  /** After any run every copy is exactly what the trie holds. */
  lemma {:induction false} RunMirrors(w: World, hs: seq<Hash>, ops: seq<Op>)
    requires AllMirror(w) && Addressed(ops, |hs|)
    ensures AllMirror(Run(w, hs, ops))
    decreases |ops|
  {
    if ops != [] {
      var front, last := ops[..|ops| - 1], ops[|ops| - 1];
      RunMirrors(w, hs, front);
      forall o ensures Mirrors(CopyOf(Run(w, hs, ops), o), Run(w, hs, ops).subs, o) {
        ApplyMirrors(Run(w, hs, front), hs[last.who], last, o);
      }
    }
  }

  // ------------------------------------------------------------------
  // ... and of the objects

  ghost function Objects(all: seq<Subscriber>): set<object> {
    set i | 0 <= i < |all| :: all[i]
  }

  function Hashes(all: seq<Subscriber>): (hs: seq<Hash>)
    ensures |hs| == |all| && forall i :: 0 <= i < |all| ==> hs[i] == all[i].hash
  {
    seq(|all|, i requires 0 <= i < |all| => all[i].hash)
  }

  /** Different subscribers of one provider. */
  ghost predicate Together(topics: Provider, all: seq<Subscriber>) {
    && (forall i :: 0 <= i < |all| ==> all[i].topics == topics)
    && (forall i, j :: 0 <= i < j < |all| ==> all[i].hash != all[j].hash)
  }

  /** The objects are in state `w`. */
  ghost predicate Shown(w: World, topics: Provider, all: seq<Subscriber>)
    reads Objects(all), topics.trie, Nodes(topics.trie.im)
  {
    && topics.trie.Valid() && topics.trie.subs == w.subs
    && (forall i :: 0 <= i < |all| ==>
          all[i].subscriptions == CopyOf(w, all[i].hash) && (all[i].quit <==> all[i].hash in w.gone))
  }

  lemma OthersStay(w: World, h: Hash, op: Op, o: Hash)
    requires o != h
    ensures CopyOf(Apply(w, h, op), o) == CopyOf(w, o) && (o in Apply(w, h, op).gone <==> o in w.gone)
  {
  }

  // Each request does to the objects what `Apply` says.

  method DoAdd(topics: Provider, all: seq<Subscriber>, who: nat, f: string, p: Params, now: nat, ghost w: World)
    requires Together(topics, all) && who < |all| && Shown(w, topics, all) && AllMirror(w)
    modifies Objects(all), topics.trie, Nodes(topics.trie.im)
    ensures Shown(Apply(w, all[who].hash, Add(who, f, p, now)), topics, all)
    ensures fresh(Nodes(topics.trie.im) - old(Nodes(topics.trie.im)))
  {
    var s := all[who];
    assert s in Objects(all);
    ghost var w' := Apply(w, s.hash, Add(who, f, p, now));
    assert Mirrors(CopyOf(w, s.hash), w.subs, s.hash);
    assert forall i :: 0 <= i < |all| && i != who ==> all[i] != s;
    var _ := s.Subscribe(f, p, now);
    forall i | 0 <= i < |all| && i != who
      ensures all[i].subscriptions == CopyOf(w', all[i].hash) && (all[i].quit <==> all[i].hash in w'.gone)
    {
      OthersStay(w, s.hash, Add(who, f, p, now), all[i].hash);
    }
  }

  method DoDrop(topics: Provider, all: seq<Subscriber>, who: nat, f: string, ghost w: World)
    requires Together(topics, all) && who < |all| && Shown(w, topics, all) && AllMirror(w)
    modifies Objects(all), topics.trie, Nodes(topics.trie.im)
    ensures Shown(Apply(w, all[who].hash, Drop(who, f)), topics, all)
    ensures fresh(Nodes(topics.trie.im) - old(Nodes(topics.trie.im)))
  {
    var s := all[who];
    assert s in Objects(all);
    ghost var w' := Apply(w, s.hash, Drop(who, f));
    assert Mirrors(CopyOf(w, s.hash), w.subs, s.hash);
    assert forall i :: 0 <= i < |all| && i != who ==> all[i] != s;
    var _ := s.UnSubscribe(f);
    forall i | 0 <= i < |all| && i != who
      ensures all[i].subscriptions == CopyOf(w', all[i].hash) && (all[i].quit <==> all[i].hash in w'.gone)
    {
      OthersStay(w, s.hash, Drop(who, f), all[i].hash);
    }
  }

  method DoLeave(topics: Provider, all: seq<Subscriber>, who: nat, ghost w: World)
    requires Together(topics, all) && who < |all| && Shown(w, topics, all) && AllMirror(w)
    modifies Objects(all), topics.trie, Nodes(topics.trie.im)
    ensures Shown(Apply(w, all[who].hash, Leave(who)), topics, all)
    ensures fresh(Nodes(topics.trie.im) - old(Nodes(topics.trie.im)))
  {
    var s := all[who];
    assert s in Objects(all);
    ghost var w' := Apply(w, s.hash, Leave(who));
    assert Mirrors(CopyOf(w, s.hash), w.subs, s.hash);
    assert forall i :: 0 <= i < |all| && i != who ==> all[i] != s;
    s.Shutdown();
    forall i | 0 <= i < |all| && i != who
      ensures all[i].subscriptions == CopyOf(w', all[i].hash) && (all[i].quit <==> all[i].hash in w'.gone)
    {
      OthersStay(w, s.hash, Leave(who), all[i].hash);
    }
  }

  method Do(topics: Provider, all: seq<Subscriber>, op: Op, ghost w: World)
    requires Together(topics, all) && op.who < |all| && Shown(w, topics, all) && AllMirror(w)
    modifies Objects(all), topics.trie, Nodes(topics.trie.im)
    ensures Shown(Apply(w, all[op.who].hash, op), topics, all)
    ensures fresh(Nodes(topics.trie.im) - old(Nodes(topics.trie.im)))
  {
    match op
    case Add(who, f, p, now) => DoAdd(topics, all, who, f, p, now, w);
    case Drop(who, f) => DoDrop(topics, all, who, f, w);
    case Leave(who) => DoLeave(topics, all, who, w);
  }

  method DoNext(topics: Provider, all: seq<Subscriber>, ops: seq<Op>, k: nat, ghost w: World)
    requires Together(topics, all) && Addressed(ops, |all|) && k < |ops| && AllMirror(w)
    requires Shown(Run(w, Hashes(all), ops[..k]), topics, all)
    modifies Objects(all), topics.trie, Nodes(topics.trie.im)
    ensures Shown(Run(w, Hashes(all), ops[..k + 1]), topics, all)
    ensures fresh(Nodes(topics.trie.im) - old(Nodes(topics.trie.im)))
  {
    RunStep(w, Hashes(all), ops, k);
    RunMirrors(w, Hashes(all), ops[..k]);
    Do(topics, all, ops[k], Run(w, Hashes(all), ops[..k]));
  }

  /** Any run of requests to any number of subscribers of one provider: every
      subscriber's copy is exactly what the trie holds of it, and both are what the
      requests amount to. */
  method Perform(topics: Provider, all: seq<Subscriber>, ops: seq<Op>, ghost w: World)
    requires Together(topics, all) && Addressed(ops, |all|) && Shown(w, topics, all) && AllMirror(w)
    modifies Objects(all), topics.trie, Nodes(topics.trie.im)
    ensures Shown(Run(w, Hashes(all), ops), topics, all)
    ensures forall i :: 0 <= i < |all| ==> all[i].Valid()
  {
    ghost var hs, before := Hashes(all), Nodes(topics.trie.im);
    for k := 0 to |ops|
      invariant Shown(Run(w, hs, ops[..k]), topics, all) && fresh(Nodes(topics.trie.im) - before)
    {
      DoNext(topics, all, ops, k, w);
    }
    assert ops[..|ops|] == ops;
    RunMirrors(w, hs, ops);
    ShownIsValid(Run(w, hs, ops), topics, all);
  }

  lemma ShownIsValid(w: World, topics: Provider, all: seq<Subscriber>)
    requires Together(topics, all) && Shown(w, topics, all) && AllMirror(w)
    ensures forall i :: 0 <= i < |all| ==> all[i].Valid()
  {
    forall i | 0 <= i < |all| ensures all[i].Valid() {
      assert Mirrors(CopyOf(w, all[i].hash), w.subs, all[i].hash);
    }
  }
}
