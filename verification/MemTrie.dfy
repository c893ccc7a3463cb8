/** The topic trie of topics/mem/node.go: nodes linked by child maps and parent
    pointers, updated in place. */
module MemTrie {
  import opened Wrappers
  import opened TopicPaths
  import opened Collect
  import opened TrieNodes
  import opened RetainSweep

  class Trie {
    const root: Node
    const overlap: bool
    /** Every node of the trie under its key, and the flat contents. */
    ghost var im: Image
    ghost var subs: Flat
    ghost var kept: map<Key, Message>

    ghost predicate Valid()
      reads this, Nodes(im)
    {
      Shape(root, im) && Contents(im, subs, kept) && Shows(im)
    }

    constructor (overlap: bool)
      ensures Valid() && subs == map[] && kept == map[] && Dead(im) == {}
      ensures fresh(Nodes(im)) && this.overlap == overlap
    {
      var r := new Node(null, Root);
      root, this.overlap := r, overlap;
      im, subs, kept := map[Root := Val(r, map[], map[], None)], map[], map[];
    }

    // ----------------------------------------------------------------
    // Linking and unlinking

    method Link(at: Node, level: Level, ghost k: Key) returns (n: Node)
      requires Shows(im) && k in im && at == im[k].node && Alone(im, k) && Down(k, level) !in im
      modifies this`im, at`children
      ensures Shows(im) && fresh(n) && n.key == Down(k, level) && n.parent == at
      ensures im == Linked(old(im), k, level, n) && Nodes(im) == old(Nodes(im)) + {n}
    {
      n := new Node(at, Down(k, level));
      ghost var was, c := im, Down(k, level);
      at.children := at.children[level := n];
      im := Linked(was, k, level, n);
      forall q | q in im
        ensures im[q].node.children == im[q].children && im[q].node.subs == im[q].subs
             && im[q].node.retained == im[q].retained
      {
        if q != c && q != k {
          assert q in was && im[q] == was[q] && was[q].node != at;
        }
      }
      LinkedNodes(was, k, level, n);
    }

    /** Links a new, empty node below `at`. */
    method AddChild(at: Node, level: Level, ghost k: Key) returns (n: Node)
      requires Valid() && k in im && at == im[k].node && level !in at.children
      modifies this`im, at`children
      ensures Valid() && fresh(n) && Down(k, level) in im && im[Down(k, level)].node == n
      ensures Nodes(im) == old(Nodes(im)) + {n}
      ensures Dead(im) <= old(Dead(im)) + {Down(k, level)} - {k}
    {
      ghost var was := im;
      ShapeAlone(root, was, k);
      assert Down(k, level) !in was;
      n := Link(at, level, k);
      LinkShape(root, was, k, level, n);
      LinkContents(was, k, level, n, subs, kept);
    }

    /** One level down, creating the child where it is missing. */
    method Descend(at: Node, levels: Path, i: nat) returns (n: Node)
      requires Valid() && i < |levels| && KeyOf(levels[..i]) in im && at == im[KeyOf(levels[..i])].node
      modifies this`im, at`children
      ensures Valid() && KeyOf(levels[..i + 1]) in im && n == im[KeyOf(levels[..i + 1])].node
      ensures n in Nodes(im) && Nodes(im) <= old(Nodes(im)) + {n} && (n in old(Nodes(im)) || fresh(n))
      ensures Dead(im) <= old(Dead(im)) + {KeyOf(levels[..i + 1])} - {KeyOf(levels[..i])}
    {
      KeyOfPrefix(levels, i);
      ghost var k := KeyOf(levels[..i]);
      if levels[i] !in at.children {
        n := AddChild(at, levels[i], k);
      } else {
        n := at.children[levels[i]];
        assert k !in Dead(im);
      }
    }

    /** The node for `levels`, created with its ancestors where missing. */
    method LeafInsertNode(levels: Path) returns (leaf: Node)
      requires Valid()
      modifies this`im, Nodes(im)`children
      ensures Valid() && KeyOf(levels) in im && leaf == im[KeyOf(levels)].node
      ensures fresh(Nodes(im) - old(Nodes(im)))
      ensures Dead(im) <= old(Dead(im)) + {KeyOf(levels)}
    {
      leaf := root;
      ghost var before := Nodes(im);
      for i := 0 to |levels|
        invariant Valid() && KeyOf(levels[..i]) in im && leaf == im[KeyOf(levels[..i])].node
        invariant fresh(Nodes(im) - before)
        invariant Dead(im) <= old(Dead(im)) + {KeyOf(levels[..i])}
      {
        leaf := Descend(leaf, levels, i);
      }
      KeyOfWhole(levels);
    }

    /** The node for `levels`, if there is one. */
    method LeafSearchNode(levels: Path) returns (leaf: Node?)
      requires Valid()
      ensures leaf == null <==> KeyOf(levels) !in im
      ensures leaf != null ==> leaf == im[KeyOf(levels)].node
    {
      var n := root;
      ghost var k := Root;
      for i := 0 to |levels|
        invariant k in im && n == im[k].node && k == KeyOf(levels[..i])
      {
        KeyOfPrefix(levels, i);
        if levels[i] !in n.children {
          MissingBelow(root, im, levels, i + 1);
          return null;
        }
        n := n.children[levels[i]];
        k := Down(k, levels[i]);
      }
      KeyOfWhole(levels);
      leaf := n;
    }

    method Unlink(parent: Node, level: Level, ghost k: Key)
      requires Shows(im) && k.Down? && k in im && k.up in im && parent == im[k.up].node && level == k.level
      requires Alone(im, k.up)
      modifies this`im, parent`children
      ensures Shows(im) && im == Unlinked(old(im), k) && Nodes(im) <= old(Nodes(im))
    {
      ghost var was := im;
      parent.children := parent.children - {level};
      im := Unlinked(was, k);
      forall q | q in im
        ensures im[q].node.children == im[q].children && im[q].node.subs == im[q].subs
             && im[q].node.retained == im[q].retained
      {
        if q != k.up {
          assert q in was && im[q] == was[q] && was[q].node != parent;
        }
      }
      NodesWithin(im, was);
    }

    /** Unlinks the empty node at `k` from its parent. */
    method DropChild(parent: Node, level: Level, ghost k: Key)
      requires Valid() && k.Down? && k in im && Empty(im[k])
      requires parent == im[k].node.parent && level == k.level
      modifies this`im, parent`children
      ensures Valid() && k.up in im && im[k.up].node == parent && Nodes(im) <= old(Nodes(im))
      ensures Dead(im) <= old(Dead(im)) - {k} + {k.up}
    {
      UnlinkLeaf(root, im, k, subs, kept);
      Unlink(parent, level, k);
    }

    /** One step of the walk: the node at `k` goes if it serves nothing any more. */
    method PruneAt(at: Node, level: Level, ghost k: Key) returns (parent: Node?)
      requires Valid() && k in im && im[k].node == at && (k.Down? ==> level == k.level)
      modifies this`im, Nodes(im)`children
      ensures Valid() && Nodes(im) <= old(Nodes(im))
      ensures parent == null <==> k == Root
      ensures k.Down? ==> k.up in im && im[k.up].node == parent
      ensures Dead(im) <= old(Dead(im)) - {k} + (if k.Down? then {k.up} else {})
    {
      parent := at.parent;
      if at.subs == map[] && at.children == map[] && at.retained == None {
        if parent != null {
          assert parent in Nodes(im);
          DropChild(parent, level, k);
        }
      } else {
        assert k !in Dead(im);
      }
    }

    /** The walk from a leaf up to the root that removes what serves nothing any more. */
    method Prune(leaf: Node, levels: Path)
      requires Valid() && KeyOf(levels) in im && leaf == im[KeyOf(levels)].node
      modifies this`im, Nodes(im)`children
      ensures Valid() && Nodes(im) <= old(Nodes(im))
      ensures Dead(im) <= old(Dead(im)) - {KeyOf(levels)}
    {
      var at: Node? := leaf;
      var level := |levels|;
      ghost var k, dead := KeyOf(levels), Dead(im) - {KeyOf(levels)};
      KeyOfWhole(levels);
      while at != null
        invariant Valid() && Nodes(im) <= old(Nodes(im))
        invariant at != null ==> 0 <= level <= |levels| && k == KeyOf(levels[..level]) && k in im && im[k].node == at
        invariant Dead(im) <= if at == null then dead else dead + {k}
        decreases if at == null then -1 else level
      {
        if level > 0 {
          KeyOfPrefix(levels, level - 1);
        }
        at := PruneAt(at, if level > 0 then levels[level - 1] else "", k);
        level := level - 1;
        k := if k.Down? then k.up else k;
      }
    }

    // ----------------------------------------------------------------
    // What one node holds

    method Rewrite(at: Node, newSubs: map<Hash, Params>, newRetained: Option<Message>, ghost k: Key)
      requires Shows(im) && k in im && at == im[k].node && Alone(im, k)
      modifies this`im, at`subs, at`retained
      ensures Shows(im) && im == Held(old(im), k, newSubs, newRetained) && Nodes(im) == old(Nodes(im))
    {
      ghost var was := im;
      at.subs := newSubs;
      at.retained := newRetained;
      im := Held(was, k, newSubs, newRetained);
      forall q | q in im
        ensures im[q].node.children == im[q].children && im[q].node.subs == im[q].subs
             && im[q].node.retained == im[q].retained
      {
        if q != k {
          assert im[q] == was[q] && was[q].node != at;
        }
      }
      HoldNodes(was, k, newSubs, newRetained);
    }

    /** Changes what one node holds. */
    method Hold(at: Node, newSubs: map<Hash, Params>, newRetained: Option<Message>, ghost k: Key,
                ghost flat: Flat, ghost messages: map<Key, Message>)
      requires Valid() && k in im && at == im[k].node
      requires Contents(Held(im, k, newSubs, newRetained), flat, messages)
      modifies this, at`subs, at`retained
      ensures Valid() && subs == flat && kept == messages
      ensures im == Held(old(im), k, newSubs, newRetained) && Nodes(im) == old(Nodes(im))
    {
      ShapeAlone(root, im, k);
      HoldShape(root, im, k, newSubs, newRetained);
      ghost var was := im;
      subs, kept := flat, messages;
      Rewrite(at, newSubs, newRetained, k);
      assert im == Held(was, k, newSubs, newRetained);
    }

    // ----------------------------------------------------------------
    // Subscriptions

    /** Adds a subscription or replaces its parameters; says whether it existed. */
    method SubscriptionInsert(filter: string, h: Hash, p: Params) returns (existed: bool)
      requires Valid()
      modifies this, Nodes(im)
      ensures Valid() && fresh(Nodes(im) - old(Nodes(im)))
      ensures existed <==> (FileKey(filter), h) in old(subs)
      ensures subs == old(subs)[(FileKey(filter), h) := p] && kept == old(kept)
      ensures Dead(im) <= old(Dead(im))
    {
      ghost var k := FileKey(filter);
      var leaf := LeafInsertNode(Split(filter));
      existed := h in leaf.subs;
      PutSub(im, k, h, p, subs, kept);
      Hold(leaf, leaf.subs[h := p], leaf.retained, k, subs[(k, h) := p], kept);
    }

    /** Removes one subscription, or with `sub == None` everybody's under the
        filter; false stands for ErrNotFound. */
    method SubscriptionRemove(filter: string, sub: Option<Hash>) returns (found: bool)
      requires Valid()
      modifies this, Nodes(im)
      ensures Valid() && Nodes(im) <= old(Nodes(im)) && kept == old(kept)
      ensures sub.Some? ==> (found <==> (FileKey(filter), sub.value) in old(subs))
      ensures sub.Some? ==> subs == old(subs) - {(FileKey(filter), sub.value)}
      ensures sub.None? ==> (found <==> FileKey(filter) in old(im))
      ensures sub.None? ==> subs == WithoutKey(old(subs), FileKey(filter))
      ensures Dead(im) <= old(Dead(im))
    {
      ghost var k := FileKey(filter);
      var leaf := LeafSearchNode(Split(filter));
      if leaf == null {
        NothingThere(im, k, if sub.Some? then sub.value else 0, subs, kept);
        return false;
      }
      found := true;
      if sub == None {
        DropSubs(im, k, subs, kept);
        Hold(leaf, map[], leaf.retained, k, WithoutKey(subs, k), kept);
      } else {
        found := sub.value in leaf.subs;
        DropSub(im, k, sub.value, subs, kept);
        Hold(leaf, leaf.subs - {sub.value}, leaf.retained, k, subs - {(k, sub.value)}, kept);
      }
      Prune(leaf, Split(filter));
    }

    // ----------------------------------------------------------------
    // Retained messages

    method RetainInsert(topic: string, m: Message)
      requires Valid()
      modifies this, Nodes(im)
      ensures Valid() && fresh(Nodes(im) - old(Nodes(im)))
      ensures kept == old(kept)[FileKey(topic) := m] && subs == old(subs)
      ensures Dead(im) <= old(Dead(im))
    {
      ghost var k := FileKey(topic);
      var leaf := LeafInsertNode(Split(topic));
      PutKept(im, k, m, subs, kept);
      Hold(leaf, leaf.subs, Some(m), k, subs, kept[k := m]);
    }

    method RetainRemove(topic: string) returns (found: bool)
      requires Valid()
      modifies this, Nodes(im)
      ensures Valid() && Nodes(im) <= old(Nodes(im))
      ensures found <==> FileKey(topic) in old(im)
      ensures kept == old(kept) - {FileKey(topic)} && subs == old(subs)
      ensures Dead(im) <= old(Dead(im))
    {
      ghost var k := FileKey(topic);
      var leaf := LeafSearchNode(Split(topic));
      if leaf == null {
        NothingThere(im, k, 0, subs, kept);
        return false;
      }
      found := true;
      DropKept(im, k, subs, kept);
      Hold(leaf, leaf.subs, None, k, subs, kept - {k});
      Prune(leaf, Split(topic));
    }

    // ----------------------------------------------------------------
    // Searching for subscribers

    /** getSubscribers of the node at `k`. */
    method GetSubscribers(at: Node, publisher: Hash, p: Entries, ghost k: Key) returns (out: Entries)
      requires Valid() && k in im && at == im[k].node && NoEmpty(p)
      ensures Advanced(overlap, p, out, subs, [k], publisher)
    {
      assert forall h :: h in at.subs <==> (k, h) in subs;
      out := NodeSubscribers(overlap, at.subs, publisher, p);
      assert forall h :: Of(out, h) == TakeAt(overlap, Of(p, h), subs, k, h, publisher);
      AdvancedOne(overlap, p, out, subs, k, publisher);
    }

    method SubscriptionRecurseSearch(at: Node, levels: Path, publisher: Hash, p: Entries, ghost k: Key)
      returns (out: Entries)
      requires Valid() && k in im && at == im[k].node && NoEmpty(p)
      ensures Advanced(overlap, p, out, subs, Visits(im.Keys, k, levels), publisher)
      decreases |levels|
    {
      ghost var keys := im.Keys;
      if |levels| == 0 {
        out := SearchHere(at, publisher, p, k);
      } else {
        out := SearchNear(at, levels, publisher, p, k);
        if SWC in at.children {
          ghost var e1 := out;
          out := SubscriptionRecurseSearch(at.children[SWC], levels[1..], publisher, out, Down(k, SWC));
          AdvancedConcat(overlap, p, e1, out, subs, VisitsNear(keys, k, levels),
                         Visits(keys, Down(k, SWC), levels[1..]), publisher);
        } else {
          assert Down(k, SWC) !in keys;
          assert VisitsNear(keys, k, levels) + [] == VisitsNear(keys, k, levels);
        }
      }
    }

    /** The end of the topic: the node and its `#` child. */
    method SearchHere(at: Node, publisher: Hash, p: Entries, ghost k: Key) returns (out: Entries)
      requires Valid() && k in im && at == im[k].node && NoEmpty(p)
      ensures Advanced(overlap, p, out, subs, Visits(im.Keys, k, []), publisher)
    {
      out := GetSubscribers(at, publisher, p, k);
      if MWC in at.children {
        ghost var e1 := out;
        out := GetSubscribers(at.children[MWC], publisher, out, Down(k, MWC));
        AdvancedConcat(overlap, p, e1, out, subs, [k], [Down(k, MWC)], publisher);
      } else {
        assert Down(k, MWC) !in im.Keys;
      }
    }

    /** The search by way of `#` and of the level itself. */
    method SearchNear(at: Node, levels: Path, publisher: Hash, p: Entries, ghost k: Key) returns (out: Entries)
      requires Valid() && k in im && at == im[k].node && |levels| > 0 && NoEmpty(p)
      ensures Advanced(overlap, p, out, subs, VisitsNear(im.Keys, k, levels), publisher)
      decreases |levels|, 0
    {
      ghost var keys := im.Keys;
      ghost var a, b: seq<Key> := [], [];
      out := p;
      AdvancedNone(overlap, p, subs, publisher);
      assert MWC !in at.children ==> Down(k, MWC) !in keys;
      if MWC in at.children && |levels[0]| != 0 {
        a := [Down(k, MWC)];
        out := GetSubscribers(at.children[MWC], publisher, out, Down(k, MWC));
      }
      ghost var e1 := out;
      AdvancedNone(overlap, e1, subs, publisher);
      assert levels[0] !in at.children ==> Down(k, levels[0]) !in keys;
      if levels[0] in at.children {
        b := Visits(keys, Down(k, levels[0]), levels[1..]);
        out := SubscriptionRecurseSearch(at.children[levels[0]], levels[1..], publisher, out, Down(k, levels[0]));
      }
      AdvancedConcat(overlap, p, e1, out, subs, a, b, publisher);
      assert VisitsNear(keys, k, levels) == a + b;
    }

    method SubscriptionSearch(topic: string, publisher: Hash, p: Entries) returns (out: Entries)
      requires Valid() && NoEmpty(p)
      ensures Advanced(overlap, p, out, subs, VisitsTop(im.Keys, Split(topic)), publisher)
    {
      var levels := Split(topic);
      var level := levels[0];
      if !IsSystem(level) {
        out := SubscriptionRecurseSearch(root, levels, publisher, p, Root);
      } else if level in root.children {
        out := SubscriptionRecurseSearch(root.children[level], levels[1..], publisher, p, Down(Root, level));
      } else {
        assert Down(Root, level) !in im;
        out := p;
        AdvancedNone(overlap, p, subs, publisher);
      }
    }

    // ----------------------------------------------------------------
    // Searching for retained messages

    method ClearRetained(at: Node, ghost k: Key)
      requires Valid() && k in im && at == im[k].node
      modifies this, at`subs, at`retained
      ensures Valid() && SameTree(old(im), im) && subs == old(subs) && kept == old(kept) - {k}
    {
      DropKept(im, k, subs, kept);
      HoldSame(im, k, None);
      Hold(at, at.subs, None, k, subs, kept - {k});
    }

    /** The message of one node, if it has a valid one; an expired one is dropped. */
    method GetRetained(at: Node, now: nat, ghost k: Key) returns (found: seq<Message>, ghost ks: seq<Key>)
      requires Valid() && k in im && at == im[k].node
      modifies this, at`subs, at`retained
      ensures Valid() && SameTree(old(im), im) && subs == old(subs)
      ensures Sweeps(old(kept), kept, {k}, now, ks, found)
    {
      found, ks := [], [];
      SweepAt(kept, k, now);
      assert at.retained == if k in kept then Some(kept[k]) else None;
      if at.retained.Some? {
        if !Expired(at.retained.value, now) {
          found, ks := [at.retained.value], [k];
        } else {
          ClearRetained(at, k);
        }
      }
    }

    /** All messages at and below a node. */
    method AllRetained(at: Node, now: nat, ghost k: Key) returns (found: seq<Message>, ghost ks: seq<Key>)
      requires Valid() && k in im && at == im[k].node
      modifies this, Nodes(im)`subs, Nodes(im)`retained
      ensures Valid() && SameTree(old(im), im) && subs == old(subs)
      ensures Sweeps(old(kept), kept, Beyond(old(im).Keys, k), now, ks, found)
      decreases Beyond(im.Keys, k), 1
    {
      found, ks := GetRetained(at, now, k);
      ghost var mid := im;
      BeyondNone(im.Keys, k);
      found, ks := AllRetainedBelow(at, now, found, k, ks, old(kept));
      SameTreeTrans(old(im), mid, im);
    }

    method AllRetainedBelow(at: Node, now: nat, acc: seq<Message>, ghost k: Key,
                            ghost ks0: seq<Key>, ghost kept0: Kept)
      returns (found: seq<Message>, ghost ks: seq<Key>)
      requires Valid() && k in im && at == im[k].node
      requires Sweeps(kept0, kept, BeyondSome(im.Keys, k, {}), now, ks0, acc)
      modifies this, Nodes(im)`subs, Nodes(im)`retained
      ensures Valid() && SameTree(old(im), im) && subs == old(subs)
      ensures Sweeps(kept0, kept, Beyond(old(im).Keys, k), now, ks, found)
      decreases Beyond(im.Keys, k), 0
    {
      ghost var keys := im.Keys;
      ghost var ls: set<Level> := {};
      found, ks := acc, ks0;
      var levels := at.children.Keys;
      ShapeClosed(root, im);
      assert BeyondSome(keys, k, levels) == Beyond(keys, k) by {
        BeyondAll(keys, k, levels);
      }
      var todo := levels;
      while todo != {}
        invariant Valid() && SameTree(old(im), im) && subs == old(subs)
        invariant todo <= levels && ls == levels - todo
        invariant Sweeps(kept0, kept, BeyondSome(keys, k, ls), now, ks, found)
        decreases todo
      {
        var l :| l in todo;
        ghost var mid := im;
        BeyondShrinks(keys, k, l);
        MoveLevel(levels, todo, ls, l);
        found, ks := AllRetainedChild(at, l, now, found, k, ls, ks, kept0);
        SameTreeTrans(old(im), mid, im);
        ls := ls + {l};
        todo := todo - {l};
      }
      assert ls == levels;
    }

    /** One turn of that loop: the messages at and below the child `l` are added. */
    method AllRetainedChild(at: Node, l: Level, now: nat, acc: seq<Message>, ghost k: Key, ghost ls: set<Level>,
                            ghost ks0: seq<Key>, ghost kept0: Kept)
      returns (found: seq<Message>, ghost ks: seq<Key>)
      requires Valid() && k in im && at == im[k].node && l in at.children && l !in ls
      requires Sweeps(kept0, kept, BeyondSome(im.Keys, k, ls), now, ks0, acc)
      modifies this, Nodes(im)`subs, Nodes(im)`retained
      ensures Valid() && SameTree(old(im), im) && subs == old(subs)
      ensures Sweeps(kept0, kept, BeyondSome(old(im).Keys, k, ls + {l}), now, ks, found)
      decreases Beyond(im.Keys, Down(k, l)), 2
    {
      ghost var keys, mid := im.Keys, kept;
      BeyondSomeStep(keys, k, ls, l);
      var more; ghost var ks';
      more, ks' := AllRetained(at.children[l], now, Down(k, l));
      SweepsConcat(kept0, mid, kept, BeyondSome(keys, k, ls), Beyond(keys, Down(k, l)), now, ks0, acc, ks', more);
      found, ks := acc + more, ks0 + ks';
    }

    method RetainRecurseSearch(at: Node, levels: Path, now: nat, ghost k: Key)
      returns (found: seq<Message>, ghost ks: seq<Key>)
      requires Valid() && k in im && at == im[k].node
      modifies this, Nodes(im)`subs, Nodes(im)`retained
      ensures Valid() && SameTree(old(im), im) && subs == old(subs)
      ensures Sweeps(old(kept), kept, RetainSet(old(im).Keys, k, levels), now, ks, found)
      decreases |levels|, 1
    {
      if |levels| == 0 {
        found, ks := RetainHere(at, now, k);
      } else if levels[0] == MWC {
        found, ks := AllRetained(at, now, k);
      } else if levels[0] == SWC {
        found, ks := RetainPlus(at, levels, now, k);
      } else if levels[0] in at.children {
        found, ks := RetainRecurseSearch(at.children[levels[0]], levels[1..], now, Down(k, levels[0]));
      } else {
        found, ks := [], [];
        assert Down(k, levels[0]) !in im;
        FindsNothing(kept, now);
      }
    }

    /** The end of the filter: the node's own message, and all below a child `#`. */
    method RetainHere(at: Node, now: nat, ghost k: Key) returns (found: seq<Message>, ghost ks: seq<Key>)
      requires Valid() && k in im && at == im[k].node
      modifies this, Nodes(im)`subs, Nodes(im)`retained
      ensures Valid() && SameTree(old(im), im) && subs == old(subs)
      ensures Sweeps(old(kept), kept, RetainSet(old(im).Keys, k, []), now, ks, found)
    {
      ghost var keys := im.Keys;
      RetainSetEnd(keys, k);
      assert MWC in at.children <==> Down(k, MWC) in keys;
      found, ks := GetRetained(at, now, k);
      if MWC in at.children {
        ghost var mid, im1 := kept, im;
        var more; ghost var ks';
        more, ks' := AllRetained(at.children[MWC], now, Down(k, MWC));
        SweepsConcat(old(kept), mid, kept, {k}, Beyond(keys, Down(k, MWC)), now, ks, found, ks', more);
        SameTreeTrans(old(im), im1, im);
        found, ks := found + more, ks + ks';
      }
    }

    /** `+`: the rest of the filter below every child. */
    method RetainPlus(at: Node, levels: Path, now: nat, ghost k: Key) returns (found: seq<Message>, ghost ks: seq<Key>)
      requires Valid() && k in im && at == im[k].node && |levels| > 0 && levels[0] == SWC
      modifies this, Nodes(im)`subs, Nodes(im)`retained
      ensures Valid() && SameTree(old(im), im) && subs == old(subs)
      ensures Sweeps(old(kept), kept, RetainSet(old(im).Keys, k, levels), now, ks, found)
      decreases |levels|, 0
    {
      ghost var keys, kept0 := im.Keys, kept;
      ghost var ls: set<Level> := {};
      found, ks := [], [];
      FindsNothing(kept, now);
      RetainSomeNone(keys, k, levels[1..]);
      var names := at.children.Keys;
      assert RetainSome(keys, k, names, levels[1..]) == RetainSet(keys, k, levels) by {
        RetainSomeAll(keys, k, names, levels);
      }
      var todo := names;
      while todo != {}
        invariant Valid() && SameTree(old(im), im) && subs == old(subs)
        invariant todo <= names && ls == names - todo
        invariant Sweeps(kept0, kept, RetainSome(keys, k, ls, levels[1..]), now, ks, found)
        decreases todo
      {
        var l :| l in todo;
        ghost var mid := im;
        MoveLevel(names, todo, ls, l);
        found, ks := RetainPlusChild(at, l, levels[1..], now, found, k, ls, ks, kept0);
        SameTreeTrans(old(im), mid, im);
        ls := ls + {l};
        todo := todo - {l};
      }
      assert ls == names;
    }

    method RetainPlusChild(at: Node, l: Level, rest: Path, now: nat, acc: seq<Message>, ghost k: Key,
                           ghost ls: set<Level>,
                           ghost ks0: seq<Key>, ghost kept0: Kept)
      returns (found: seq<Message>, ghost ks: seq<Key>)
      requires Valid() && k in im && at == im[k].node && l in at.children && l !in ls
      requires Sweeps(kept0, kept, RetainSome(im.Keys, k, ls, rest), now, ks0, acc)
      modifies this, Nodes(im)`subs, Nodes(im)`retained
      ensures Valid() && SameTree(old(im), im) && subs == old(subs)
      ensures Sweeps(kept0, kept, RetainSome(old(im).Keys, k, ls + {l}, rest), now, ks, found)
      decreases |rest|, 2
    {
      ghost var keys, mid := im.Keys, kept;
      ShapeClosed(root, im);
      RetainSomeStep(keys, k, ls, l, rest);
      var more; ghost var ks';
      more, ks' := RetainRecurseSearch(at.children[l], rest, now, Down(k, l));
      SweepsConcat(kept0, mid, kept, RetainSome(keys, k, ls, rest), RetainSet(keys, Down(k, l), rest), now,
                   ks0, acc, ks', more);
      found, ks := acc + more, ks0 + ks';
    }

    /** A filter starting with `#`: everything below the root's ordinary children. */
    method RetainHash(now: nat, ghost f: Path) returns (found: seq<Message>, ghost ks: seq<Key>)
      requires Valid() && |f| > 0 && f[0] == MWC
      modifies this, Nodes(im)`subs, Nodes(im)`retained
      ensures Valid() && SameTree(old(im), im) && subs == old(subs)
      ensures Sweeps(old(kept), kept, RetainTop(old(im).Keys, f), now, ks, found)
    {
      ghost var keys, kept0, was, held := im.Keys, kept, im, subs;
      ghost var ls: set<Level> := {};
      found, ks := [], [];
      FindsNothing(kept, now);
      var names := set l | l in root.children.Keys && HashEnters(l);
      assert BeyondChildren(keys, Root, {}) == {};
      ShapeClosed(root, im);
      assert BeyondChildren(keys, Root, names) == RetainTop(keys, f) by {
        RetainTopHash(keys, f, names);
      }
      var todo := names;
      while todo != {}
        invariant Valid() && SameTree(was, im) && subs == held
        invariant todo <= names && ls == names - todo
        invariant Sweeps(kept0, kept, BeyondChildren(keys, Root, ls), now, ks, found)
        decreases todo
      {
        var l :| l in todo;
        ghost var mid := im;
        MoveLevel(names, todo, ls, l);
        found, ks := RetainHashChild(l, now, found, ls, ks, kept0);
        SameTreeTrans(was, mid, im);
        ls := ls + {l};
        todo := todo - {l};
      }
      assert ls == names;
    }

    method RetainHashChild(l: Level, now: nat, acc: seq<Message>, ghost ls: set<Level>,
                           ghost ks0: seq<Key>, ghost kept0: Kept)
      returns (found: seq<Message>, ghost ks: seq<Key>)
      requires Valid() && l in root.children && l !in ls
      requires Sweeps(kept0, kept, BeyondChildren(im.Keys, Root, ls), now, ks0, acc)
      modifies this, Nodes(im)`subs, Nodes(im)`retained
      ensures Valid() && SameTree(old(im), im) && subs == old(subs)
      ensures Sweeps(kept0, kept, BeyondChildren(old(im).Keys, Root, ls + {l}), now, ks, found)
    {
      ghost var keys, mid := im.Keys, kept;
      BeyondChildrenStep(keys, Root, ls, l);
      var more; ghost var ks';
      more, ks' := AllRetained(root.children[l], now, Down(Root, l));
      SweepsConcat(kept0, mid, kept, BeyondChildren(keys, Root, ls), Beyond(keys, Down(Root, l)), now,
                   ks0, acc, ks', more);
      found, ks := acc + more, ks0 + ks';
    }

    /** The valid messages whose topic the filter retrieves; expired ones on the way
        are dropped, and their nodes left behind. */
    method RetainSearch(filter: string, now: nat) returns (found: seq<Message>, ghost ks: seq<Key>)
      requires Valid()
      modifies this, Nodes(im)`subs, Nodes(im)`retained
      ensures Valid() && SameTree(old(im), im) && subs == old(subs)
      ensures Sweeps(old(kept), kept, RetainTop(old(im).Keys, Split(filter)), now, ks, found)
    {
      var levels := Split(filter);
      if levels[0] == MWC {
        found, ks := RetainHash(now, levels);
      } else if IsSystem(levels[0]) && levels[0] in root.children {
        RetainTopSystem(im.Keys, levels);
        found, ks := RetainRecurseSearch(root.children[levels[0]], levels[1..], now, Down(Root, levels[0]));
      } else {
        found, ks := RetainRecurseSearch(root, levels, now, Root);
      }
    }
  }

  /** Without a node for a prefix there is none for the whole. */
  lemma {:induction false} MissingBelow(root: Node, im: Image, levels: Path, i: nat)
    requires Shape(root, im) && i <= |levels| && KeyOf(levels[..i]) !in im
    ensures KeyOf(levels) !in im
    decreases |levels| - i
  {
    if i < |levels| {
      KeyOfPrefix(levels, i);
      assert Down(KeyOf(levels[..i]), levels[i]) !in im;
      MissingBelow(root, im, levels, i + 1);
    } else {
      KeyOfWhole(levels);
    }
  }
}
