/** The topics provider over the trie (topics/mem/topics.go), one request at a
    time, and what its searches mean in terms of the flat contents alone. */
module MemTopics {
  import opened Wrappers
  import opened TopicPaths
  import opened Collect
  import opened TrieNodes
  import opened RetainSweep
  import opened MemTrie

  // ------------------------------------------------------------------
  // Delivery, told on the flat subscriptions

  /** The filters under which `h` is subscribed that deliver topic `t`. */
  ghost function Matching(subs: Flat, t: Path, h: Hash): set<Key> {
    set q | q in subs && q.1 == h && Delivers(Levels(q.0), t) :: q.0
  }

  /** One entry for every matching filter, except No-Local filters of the publisher;
      `ks` are the filters the entries come from. */
  ghost predicate EachFrom(subs: Flat, t: Path, h: Hash, publisher: Hash, es: seq<Entry>, ks: seq<Key>) {
    && |ks| == |es| && NoDup(ks)
    && (forall k :: k in ks <==> k in Matching(subs, t, h) && !(subs[(k, h)].ops.noLocal && h == publisher))
    && forall i :: 0 <= i < |ks| ==> (ks[i], h) in subs && EntryOf(subs[(ks[i], h)], es[i])
  }

  /** The entry of one subscription: the QoS granted, its options, and its identifier if
      it has one. */
  predicate EntryOf(p: Params, e: Entry) {
    e.qos == p.granted && e.ops == p.ops && e.ids == (if p.id == 0 then [] else [p.id])
  }

  ghost predicate DeliversEach(subs: Flat, t: Path, h: Hash, publisher: Hash, es: seq<Entry>) {
    exists ks :: EachFrom(subs, t, h, publisher, es, ks)
  }

  /** One entry that merges all matching filters, if there is any. */
  ghost predicate DeliversMerged(subs: Flat, t: Path, h: Hash, es: seq<Entry>) {
    OneMerged(subs, Matching(subs, t, h), h, es)
  }

  /** The visits of a search meet exactly the matching subscriptions, each once. */
  lemma SearchMeets(root: Node, im: Image, subs: Flat, kept: Kept, t: Path, h: Hash)
    requires Shape(root, im) && Contents(im, subs, kept) && |t| > 0 && WildcardFree(t)
    ensures NoDup(VisitsTop(im.Keys, t)) && Hits(subs, VisitsTop(im.Keys, t), h) == Matching(subs, t, h)
  {
    ShapeClosed(root, im);
    SearchExact(im.Keys, t, Root);
    forall k ensures k in Hits(subs, VisitsTop(im.Keys, t), h) <==> k in Matching(subs, t, h) {
      SearchExact(im.Keys, t, k);
      if (k, h) in subs && Delivers(Levels(k), t) {
        assert (k, h).0 in Matching(subs, t, h);
      }
    }
  }

  lemma EachMeans(root: Node, im: Image, subs: Flat, kept: Kept, t: Path, h: Hash, publisher: Hash)
    requires Shape(root, im) && Contents(im, subs, kept) && |t| > 0 && WildcardFree(t)
    ensures DeliversEach(subs, t, h, publisher, Collected(false, subs, VisitsTop(im.Keys, t), h, publisher))
  {
    SearchMeets(root, im, subs, kept, t, h);
    var visits := VisitsTop(im.Keys, t);
    var ks := OneEntryEach(subs, visits, h, publisher);
    forall k ensures k in ks <==> k in Matching(subs, t, h) && !(subs[(k, h)].ops.noLocal && h == publisher) {
      assert k in Hits(subs, visits, h) <==> k in Matching(subs, t, h);
    }
    assert EachFrom(subs, t, h, publisher, Collected(false, subs, visits, h, publisher), ks);
  }

  /** `h` may hear itself through the filter at `k`, or is not the publisher. */
  predicate Hears(subs: Flat, k: Key, h: Hash, publisher: Hash) {
    (k, h) in subs && !(subs[(k, h)].ops.noLocal && h == publisher)
  }

  /** The matching filters of `h` from the first one it hears on, in the order of the search. */
  ghost function FromFirstHeard(subs: Flat, t: Path, h: Hash, publisher: Hash): set<Key> {
    set k | k in Matching(subs, t, h)
            && exists j :: j in Matching(subs, t, h) && Hears(subs, j, h, publisher)
                           && (j == k || Before(Levels(j), Levels(k)))
  }

  /** The filter at `k` is that first one. */
  ghost predicate IsFirstHeard(subs: Flat, t: Path, h: Hash, publisher: Hash, k: Key) {
    && k in Matching(subs, t, h) && Hears(subs, k, h, publisher)
    && forall j :: j in Matching(subs, t, h) && Hears(subs, j, h, publisher) ==> j == k || Before(Levels(k), Levels(j))
  }

  /** One entry that merges those, if there are any, with the options of the first. */
  ghost predicate DeliversHeard(subs: Flat, t: Path, h: Hash, publisher: Hash, es: seq<Entry>) {
    && OneMerged(subs, FromFirstHeard(subs, t, h, publisher), h, es)
    && (forall k :: IsFirstHeard(subs, t, h, publisher, k) ==> |es| == 1 && es[0].ops == subs[(k, h)].ops)
  }

  /** For anybody but a publisher with No-Local filters these are all of them. */
  lemma AllHeard(subs: Flat, t: Path, h: Hash, publisher: Hash)
    requires h == publisher ==> forall k :: k in Matching(subs, t, h) ==> !subs[(k, h)].ops.noLocal
    ensures FromFirstHeard(subs, t, h, publisher) == Matching(subs, t, h)
  {
    forall k | k in Matching(subs, t, h) ensures k in FromFirstHeard(subs, t, h, publisher) {
      assert Hears(subs, k, h, publisher);
    }
  }

  /** A visit of a search and the filter it comes to. */
  lemma MeetsAt(root: Node, im: Image, subs: Flat, kept: Kept, t: Path, h: Hash, k: Key) returns (i: nat)
    requires Shape(root, im) && Contents(im, subs, kept) && |t| > 0 && WildcardFree(t)
    requires k in Matching(subs, t, h)
    ensures var v := VisitsTop(im.Keys, t); i < |v| && v[i] == k && (k, h) in subs
  {
    SearchMeets(root, im, subs, kept, t, h);
    assert k in Hits(subs, VisitsTop(im.Keys, t), h);
    i :| 0 <= i < |VisitsTop(im.Keys, t)| && VisitsTop(im.Keys, t)[i] == k;
  }

  lemma InVisitOrder(root: Node, im: Image, t: Path, i: nat, j: nat)
    requires Shape(root, im) && |t| > 0 && WildcardFree(t)
    requires i < |VisitsTop(im.Keys, t)| && j < |VisitsTop(im.Keys, t)|
    ensures var v := VisitsTop(im.Keys, t); v[i] == v[j] || Before(Levels(v[i]), Levels(v[j])) <==> i <= j
  {
    ShapeClosed(root, im);
    var v := VisitsTop(im.Keys, t);
    SearchExact(im.Keys, t, Root);
    if i < j {
      SearchOrdered(im.Keys, t, i, j);
    } else if j < i {
      SearchOrdered(im.Keys, t, j, i);
      BeforeOneWay(Levels(v[i]), Levels(v[j]));
    }
  }

  /** The filters that join an entry, told without the trie. */
  lemma JoinedIsHeard(root: Node, im: Image, subs: Flat, kept: Kept, t: Path, h: Hash, publisher: Hash)
    requires Shape(root, im) && Contents(im, subs, kept) && |t| > 0 && WildcardFree(t)
    ensures Joined(subs, VisitsTop(im.Keys, t), h, publisher) == FromFirstHeard(subs, t, h, publisher)
  {
    var v := VisitsTop(im.Keys, t);
    SearchMeets(root, im, subs, kept, t, h);
    forall k | k in Joined(subs, v, h, publisher) ensures k in FromFirstHeard(subs, t, h, publisher) {
      var i: nat :| i < |v| && JoinsAt(subs, v, i, h, publisher) && v[i] == k;
      var j: nat :| j <= i && HeardAt(subs, v, j, h, publisher);
      InVisitOrder(root, im, t, j, i);
      assert k in Hits(subs, v, h) && v[j] in Hits(subs, v, h) && Hears(subs, v[j], h, publisher);
    }
    forall k | k in FromFirstHeard(subs, t, h, publisher) ensures k in Joined(subs, v, h, publisher) {
      var q :| q in Matching(subs, t, h) && Hears(subs, q, h, publisher) && (q == k || Before(Levels(q), Levels(k)));
      var i := MeetsAt(root, im, subs, kept, t, h, k);
      var j := MeetsAt(root, im, subs, kept, t, h, q);
      InVisitOrder(root, im, t, j, i);
      assert HeardAt(subs, v, j, h, publisher) && JoinsAt(subs, v, i, h, publisher);
    }
  }

  lemma MergedMeans(root: Node, im: Image, subs: Flat, kept: Kept, t: Path, h: Hash, publisher: Hash)
    requires Shape(root, im) && Contents(im, subs, kept) && |t| > 0 && WildcardFree(t)
    ensures DeliversHeard(subs, t, h, publisher, Collected(true, subs, VisitsTop(im.Keys, t), h, publisher))
  {
    SearchMeets(root, im, subs, kept, t, h);
    OverlapExact(subs, VisitsTop(im.Keys, t), h, publisher);
    JoinedIsHeard(root, im, subs, kept, t, h, publisher);
    var v := VisitsTop(im.Keys, t);
    forall k | IsFirstHeard(subs, t, h, publisher, k)
      ensures var es := Collected(true, subs, v, h, publisher); |es| == 1 && es[0].ops == subs[(k, h)].ops
    {
      var i := FirstHeardVisit(root, im, subs, kept, t, h, publisher, k);
      MergedOptions(subs, v, i, h, publisher);
    }
  }

  lemma FirstHeardVisit(root: Node, im: Image, subs: Flat, kept: Kept, t: Path, h: Hash, publisher: Hash, k: Key)
    returns (i: nat)
    requires Shape(root, im) && Contents(im, subs, kept) && |t| > 0 && WildcardFree(t)
    requires IsFirstHeard(subs, t, h, publisher, k)
    ensures var v := VisitsTop(im.Keys, t); i < |v| && v[i] == k && FirstHeard(subs, v, i, h, publisher)
  {
    var v := VisitsTop(im.Keys, t);
    i := MeetsAt(root, im, subs, kept, t, h, k);
    SearchMeets(root, im, subs, kept, t, h);
    forall j: nat | j < i ensures !HeardAt(subs, v, j, h, publisher) {
      if HeardAt(subs, v, j, h, publisher) {
        assert v[j] in Hits(subs, v, h) && Hears(subs, v[j], h, publisher);
        InVisitOrder(root, im, t, i, j);
      }
    }
  }

  // ------------------------------------------------------------------
  // Retained messages, told on the flat map

  /** The expired messages that filter `f` retrieves are gone. */
  ghost function Forget(kept: Kept, f: Path, now: nat): Kept {
    map k | k in kept && !(Retrieves(f, Levels(k)) && Expired(kept[k], now)) :: kept[k]
  }

  /** `found` are the valid messages that filter `f` retrieves, one for each of `ks`. */
  ghost predicate Yields(kept: Kept, f: Path, now: nat, ks: seq<Key>, found: seq<Message>) {
    && NoDup(ks) && |found| == |ks|
    && (forall k :: k in ks <==> k in kept && Retrieves(f, Levels(k)) && !Expired(kept[k], now))
    && forall i :: 0 <= i < |ks| ==> ks[i] in kept && found[i] == kept[ks[i]]
  }

  /** ... those outside `$`. */
  ghost predicate YieldsAll(kept: Kept, now: nat, ks: seq<Key>, found: seq<Message>) {
    && NoDup(ks) && |found| == |ks|
    && (forall k :: k in ks <==> k in kept && Levels(k) != [] && !IsSystem(Levels(k)[0]) && !Expired(kept[k], now))
    && forall i :: 0 <= i < |ks| ==> ks[i] in kept && found[i] == kept[ks[i]]
  }

  lemma ShutdownPaths()
    ensures Split("#") == [MWC] && Split("/#") == ["", MWC]
  {
    assert "#"[1..] == "" && "/#"[1..] == "#";
    assert Split("") == [""];
    assert [""][1..] == [];
    assert ['#'] + [""][0] == "#";
    assert Split("#") == ["#"];
  }

  /** The keys that filter `f` retrieves. */
  ghost function Targets(kept: Kept, f: Path): set<Key> {
    set k | k in kept && Retrieves(f, Levels(k))
  }

  lemma YieldsFinds(kept: Kept, f: Path, now: nat, ks: seq<Key>, found: seq<Message>)
    requires Yields(kept, f, now, ks, found)
    ensures Finds(kept, Targets(kept, f), now, ks, found) && Forget(kept, f, now) == Swept(kept, Targets(kept, f), now)
  {
  }

  lemma ShutdownTargets(kept: Kept, k: Key)
    requires k in kept
    ensures k in Targets(kept, [MWC]) || k in Targets(kept, ["", MWC])
            <==> Levels(k) != [] && !IsSystem(Levels(k)[0])
    ensures !(k in Targets(kept, [MWC]) && k in Targets(kept, ["", MWC]))
  {
    if Levels(k) != [] {
      ShutdownFilters(Levels(k));
    }
  }

  lemma ShutdownYields(kept: Kept, now: nat, ks: seq<Key>, found: seq<Message>, ks': seq<Key>, found': seq<Message>)
    requires Yields(kept, [MWC], now, ks, found)
    requires Yields(Forget(kept, [MWC], now), ["", MWC], now, ks', found')
    ensures YieldsAll(kept, now, ks + ks', found + found')
  {
    var a, rest := Targets(kept, [MWC]), Forget(kept, [MWC], now);
    var b := Targets(rest, ["", MWC]);
    YieldsFinds(kept, [MWC], now, ks, found);
    YieldsFinds(rest, ["", MWC], now, ks', found');
    forall k | k in kept
      ensures k in a || k in Targets(kept, ["", MWC]) <==> Levels(k) != [] && !IsSystem(Levels(k)[0])
      ensures !(k in a && k in Targets(kept, ["", MWC]))
    {
      ShutdownTargets(kept, k);
    }
    assert b == Targets(kept, ["", MWC]);
    FindsConcat(kept, a, b, now, ks, found, ks', found');
  }

  /** A message with an expiry time is found until then and not from then on; one without
      is always found. */
  lemma FoundUntilExpiry(kept: Kept, filter: string, topic: string, now: nat, ks: seq<Key>, found: seq<Message>)
    requires Yields(kept, Split(filter), now, ks, found)
    requires FileKey(topic) in kept && Retrieves(Split(filter), Split(topic))
    ensures FileKey(topic) in ks <==>
      kept[FileKey(topic)].expireAt.None? || now < kept[FileKey(topic)].expireAt.value
  {
    LevelsOfKey(Split(topic));
  }

  /** A message retained on `topic` and valid is what a search for `filter` finds, and
      once, exactly when a publish to `topic` reaches a subscription to `filter`,
      except where `#` stands at an empty level below the first and where `+` stands
      at a first level starting with `$`: there only the retained search may match. */
  lemma RetainedAgrees(kept: Kept, subs: Flat, filter: string, topic: string, h: Hash, now: nat,
                       ks: seq<Key>, found: seq<Message>)
    requires Yields(kept, Split(filter), now, ks, found)
    requires FileKey(topic) in kept && !Expired(kept[FileKey(topic)], now) && WildcardFree(Split(topic))
    requires (FileKey(filter), h) in subs && WellFormed(Split(filter))
    ensures var f, t := Split(filter), Split(topic);
      FileKey(filter) in Matching(subs, t, h) <==>
        FileKey(topic) in ks && !(|f| > 1 && HashOnEmpty(f, t)) && !(f[0] == SWC && IsSystem(t[0]))
  {
    var k := FileKey(filter);
    LevelsOfKey(Split(filter));
    LevelsOfKey(Split(topic));
    SearchesAgree(Split(filter), Split(topic));
    if Delivers(Levels(k), Split(topic)) {
      assert (k, h).0 in Matching(subs, Split(topic), h);
    }
  }

  lemma RetrievedExactly(im: Image, subs: Flat, kept: Kept, f: Path, now: nat)
    requires Contents(im, subs, kept) && UpClosed(im.Keys) && Root in im && |f| > 0
    ensures forall k :: k in kept ==> (k in RetainTop(im.Keys, f) <==> Retrieves(f, Levels(k)))
    ensures Swept(kept, RetainTop(im.Keys, f), now) == Forget(kept, f, now)
  {
    forall k | k in kept ensures k in RetainTop(im.Keys, f) <==> Retrieves(f, Levels(k)) {
      RetainTopMeans(im.Keys, f, k);
    }
  }

  /** The nodes a search for `f` leaves without any use: they held nothing but a
      message that the search found expired. */
  ghost function LeftBehind(im: Image, kept: Kept, f: Path, now: nat): set<Key>
    requires forall k :: k in kept ==> k in im
  {
    set k | k in Targets(kept, f) && Expired(kept[k], now) && k != Root
            && im[k].subs == map[] && im[k].children == map[]
  }

  lemma DeadAfterSearch(im: Image, im': Image, subs: Flat, kept: Kept, f: Path, now: nat)
    requires Contents(im, subs, kept) && Contents(im', subs, Forget(kept, f, now)) && SameTree(im, im')
    ensures Dead(im') == Dead(im) + LeftBehind(im, kept, f, now)
  {
    assert Forget(kept, f, now) == Swept(kept, Targets(kept, f), now);
    DeadExactly(im, im', subs, kept, Targets(kept, f), now);
  }

  lemma ReputSame(kept: Kept, k: Key, m: Message)
    ensures (kept - {k})[k := m] == kept[k := m]
  {
  }

  datatype SubscribeError = InvalidArgs | InvalidQoS

  datatype SubscribeResp = SubscribeResp(params: Params, retained: seq<Message>, err: Option<SubscribeError>)

  class Provider {
    const trie: Trie

    constructor (overlap: bool)
      ensures fresh(trie) && trie.Valid() && fresh(Nodes(trie.im)) && trie.overlap == overlap
      ensures trie.subs == map[] && trie.kept == map[] && Dead(trie.im) == {}
    {
      trie := new Trie(overlap);
    }

    /** publisher: whom a publish to `topic` goes to.  Topics of publishes contain no
        wildcards (topics/types/types.go:28). */
    method Publish(topic: string, publisher: Hash) returns (out: Entries)
      requires trie.Valid() && WildcardFree(Split(topic))
      ensures !trie.overlap ==>
        forall h :: DeliversEach(trie.subs, Split(topic), h, publisher, Of(out, h))
      ensures trie.overlap ==>
        forall h :: DeliversHeard(trie.subs, Split(topic), h, publisher, Of(out, h))
      ensures trie.overlap ==>
        forall h :: h != publisher ==> DeliversMerged(trie.subs, Split(topic), h, Of(out, h))
    {
      out := trie.SubscriptionSearch(topic, publisher, map[]);
      ghost var t := Split(topic);
      forall h ensures Of(out, h) == Collected(trie.overlap, trie.subs, VisitsTop(trie.im.Keys, t), h, publisher) {
      }
      if !trie.overlap {
        forall h ensures DeliversEach(trie.subs, t, h, publisher, Of(out, h)) {
          EachMeans(trie.root, trie.im, trie.subs, trie.kept, t, h, publisher);
        }
      } else {
        forall h
          ensures DeliversHeard(trie.subs, t, h, publisher, Of(out, h))
          ensures h != publisher ==> DeliversMerged(trie.subs, t, h, Of(out, h))
        {
          MergedMeans(trie.root, trie.im, trie.subs, trie.kept, t, h, publisher);
          if h != publisher {
            AllHeard(trie.subs, t, h, publisher);
          }
        }
      }
    }

    /** Retained: the valid retained messages whose topic the filter retrieves, each
        once (`ks` are their keys); expired ones are forgotten. */
    method Retained(filter: string, now: nat) returns (found: seq<Message>, ghost ks: seq<Key>)
      requires trie.Valid()
      modifies trie, Nodes(trie.im)`subs, Nodes(trie.im)`retained
      ensures trie.Valid() && SameTree(old(trie.im), trie.im) && trie.subs == old(trie.subs)
      ensures Yields(old(trie.kept), Split(filter), now, ks, found)
      ensures trie.kept == Forget(old(trie.kept), Split(filter), now)
      ensures Dead(trie.im) == old(Dead(trie.im)) + LeftBehind(old(trie.im), old(trie.kept), Split(filter), now)
    {
      ghost var im := trie.im;
      ShapeClosed(trie.root, im);
      found, ks := trie.RetainSearch(filter, now);
      RetrievedExactly(im, old(trie.subs), old(trie.kept), Split(filter), now);
      DeadAfterSearch(im, trie.im, trie.subs, old(trie.kept), Split(filter), now);
    }

    /** retain: a message with an empty payload or QoS 0 first clears the topic; one
        with an empty payload is not stored. */
    method Retain(topic: string, m: Message, payloadEmpty: bool, qos0: bool)
      requires trie.Valid()
      modifies trie, Nodes(trie.im)
      ensures trie.Valid() && fresh(Nodes(trie.im) - old(Nodes(trie.im)))
      ensures trie.subs == old(trie.subs) && Dead(trie.im) <= old(Dead(trie.im))
      ensures trie.kept == if payloadEmpty then old(trie.kept) - {FileKey(topic)}
                           else old(trie.kept)[FileKey(topic) := m]
    {
      var insert := true;
      if payloadEmpty || qos0 {
        var _ := trie.RetainRemove(topic);
        if payloadEmpty {
          insert := false;
        }
      }
      if insert {
        ReputSame(old(trie.kept), FileKey(topic), m);
        trie.RetainInsert(topic, m);
      }
    }

    /** The two searches of Shutdown: every valid retained message outside `$`, once. */
    method ShutdownSearch(now: nat) returns (res: seq<Message>, ghost ks: seq<Key>)
      requires trie.Valid()
      modifies trie, Nodes(trie.im)`subs, Nodes(trie.im)`retained
      ensures trie.Valid() && YieldsAll(old(trie.kept), now, ks, res)
    {
      var first, second; ghost var ks1, ks2;
      first, ks1 := Retained("#", now);
      second, ks2 := Retained("/#", now);
      ShutdownPaths();
      ShutdownYields(old(trie.kept), now, ks1, first, ks2, second);
      res, ks := first + second, ks1 + ks2;
    }

    /** The request loop of subscriber(): grants the requested QoS, files the
        subscription and returns the retained messages its options ask for. */
    method Subscribe(filter: string, sub: Option<Hash>, params: Params, now: nat) returns (resp: SubscribeResp)
      requires trie.Valid()
      modifies trie, Nodes(trie.im)
      ensures trie.Valid() && fresh(Nodes(trie.im) - old(Nodes(trie.im)))
      ensures resp.err == (if sub.None? then Some(InvalidArgs)
                           else if params.ops.qos > 2 then Some(InvalidQoS) else None)
      ensures resp.err.Some? ==> trie.subs == old(trie.subs) && trie.kept == old(trie.kept)
      ensures resp.err.None? ==>
        && resp.params == params.(granted := params.ops.qos)
        && trie.subs == old(trie.subs)[(FileKey(filter), sub.value) := resp.params]
        && var wanted := params.ops.handling == SendAlways
                         || (params.ops.handling == SendIfNew && (FileKey(filter), sub.value) !in old(trie.subs));
        && trie.kept == (if wanted then Forget(old(trie.kept), Split(filter), now) else old(trie.kept))
        && (if wanted then exists ks :: Yields(old(trie.kept), Split(filter), now, ks, resp.retained)
            else resp.retained == [])
      ensures (forall k :: k in old(trie.kept) ==> !Expired(old(trie.kept)[k], now)) ==>
        Dead(trie.im) <= old(Dead(trie.im))
    {
      if sub.None? {
        return SubscribeResp(params, [], Some(InvalidArgs));
      }
      if params.ops.qos > 2 {
        return SubscribeResp(params, [], Some(InvalidQoS));
      }
      var granted := params.(granted := params.ops.qos);
      var existed := trie.SubscriptionInsert(filter, sub.value, granted);
      var found := [];
      if params.ops.handling == SendAlways || (params.ops.handling == SendIfNew && !existed) {
        ghost var ks;
        found, ks := Retained(filter, now);
      }
      resp := SubscribeResp(granted, found, None);
    }

    /** false stands for ErrNotFound. */
    method UnSubscribe(filter: string, sub: Option<Hash>) returns (found: bool)
      requires trie.Valid()
      modifies trie, Nodes(trie.im)
      ensures trie.Valid() && Nodes(trie.im) <= old(Nodes(trie.im)) && trie.kept == old(trie.kept)
      ensures sub.Some? ==> (found <==> (FileKey(filter), sub.value) in old(trie.subs))
      ensures sub.Some? ==> trie.subs == old(trie.subs) - {(FileKey(filter), sub.value)}
      ensures sub.None? ==> (found <==> FileKey(filter) in old(trie.im))
      ensures sub.None? ==> trie.subs == WithoutKey(old(trie.subs), FileKey(filter))
      ensures Dead(trie.im) <= old(Dead(trie.im))
    {
      found := trie.SubscriptionRemove(filter, sub);
    }
  }
}
