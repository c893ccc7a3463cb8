/** The trie of topics/memlockfree/node.go, driven by one goroutine and holding
    subscriptions only: each node counts its children and subscribers, and the
    cleanup after an unsubscribe relies on the counts and stops early. */
module LockFreeTrie {
  import opened Wrappers
  import opened TopicPaths
  import opened Collect
  import opened TrieNodes
  import MemTrie

  class Trie {
    const root: Node
    /** Every node of the trie under its key, and the flat contents. */
    ghost var im: Image
    ghost var subs: Flat

    /** The counters are the sizes of the maps they count. */
    ghost predicate Counted()
      reads this, Nodes(im)
    {
      forall k :: k in im ==>
        im[k].node.kidsCount == |im[k].children| && im[k].node.subsCount == |im[k].subs|
    }

    ghost predicate Sound()
      reads this, Nodes(im)
    {
      Shape(root, im) && Contents(im, subs, map[]) && Shows(im) && Counted()
    }

    ghost predicate Valid()
      reads this, Nodes(im)
    {
      Sound() && Dead(im) == {}
    }

    constructor ()
      ensures Valid() && subs == map[] && fresh(Nodes(im))
    {
      var r := new Node(null, Root);
      root := r;
      im, subs := map[Root := Val(r, map[], map[], None)], map[];
    }

    // ----------------------------------------------------------------
    // Linking and unlinking

    /** LoadOrStore of a new child. */
    method Link(at: Node, level: Level, ghost k: Key) returns (n: Node)
      requires Shows(im) && Counted() && k in im && at == im[k].node && Alone(im, k)
      requires Down(k, level) !in im && level !in im[k].children
      modifies this`im, at`children, at`kidsCount
      ensures Shows(im) && Counted() && fresh(n) && n.key == Down(k, level) && n.parent == at
      ensures im == Linked(old(im), k, level, n) && Nodes(im) == old(Nodes(im)) + {n}
    {
      at.kidsCount := at.kidsCount + 1;
      n := new Node(at, Down(k, level));
      ghost var was, c := im, Down(k, level);
      at.children := at.children[level := n];
      im := Linked(was, k, level, n);
      forall q | q in im
        ensures im[q].node.children == im[q].children && im[q].node.subs == im[q].subs
             && im[q].node.retained == im[q].retained
             && im[q].node.kidsCount == |im[q].children| && im[q].node.subsCount == |im[q].subs|
      {
        if q != c && q != k {
          assert q in was && im[q] == was[q] && was[q].node != at;
        } else if q == k {
          assert im[k].children == was[k].children[level := n];
        }
      }
      LinkedNodes(was, k, level, n);
    }

    method AddChild(at: Node, level: Level, ghost k: Key) returns (n: Node)
      requires Sound() && k in im && at == im[k].node && level !in at.children
      modifies this`im, at`children, at`kidsCount
      ensures Sound() && fresh(n) && Down(k, level) in im && im[Down(k, level)].node == n
      ensures Nodes(im) == old(Nodes(im)) + {n}
      ensures Dead(im) <= old(Dead(im)) + {Down(k, level)} - {k}
    {
      ghost var was := im;
      ShapeAlone(root, was, k);
      assert Down(k, level) !in was;
      n := Link(at, level, k);
      LinkShape(root, was, k, level, n);
      LinkContents(was, k, level, n, subs, map[]);
    }

    /** One level down, creating the child where it is missing. */
    method Descend(at: Node, levels: Path, i: nat) returns (n: Node)
      requires Sound() && i < |levels| && KeyOf(levels[..i]) in im && at == im[KeyOf(levels[..i])].node
      requires Dead(im) <= {KeyOf(levels[..i])}
      modifies this`im, at`children, at`kidsCount
      ensures Sound() && KeyOf(levels[..i + 1]) in im && n == im[KeyOf(levels[..i + 1])].node
      ensures n in Nodes(im) && Nodes(im) <= old(Nodes(im)) + {n} && (n in old(Nodes(im)) || fresh(n))
      ensures Dead(im) <= {KeyOf(levels[..i + 1])}
    {
      KeyOfPrefix(levels, i);
      ghost var k := KeyOf(levels[..i]);
      if levels[i] !in at.children {
        n := AddChild(at, levels[i], k);
      } else {
        n := at.children[levels[i]];
        assert k !in Dead(im);
      }
    }

    /** The node for `levels`, created with its ancestors where missing. */
    method LeafInsertNode(levels: Path) returns (leaf: Node)
      requires Valid()
      modifies this`im, Nodes(im)`children, Nodes(im)`kidsCount
      ensures Sound() && KeyOf(levels) in im && leaf == im[KeyOf(levels)].node
      ensures fresh(Nodes(im) - old(Nodes(im))) && Dead(im) <= {KeyOf(levels)}
    {
      leaf := root;
      ghost var before := Nodes(im);
      for i := 0 to |levels|
        invariant Sound() && KeyOf(levels[..i]) in im && leaf == im[KeyOf(levels[..i])].node
        invariant fresh(Nodes(im) - before)
        invariant Dead(im) <= {KeyOf(levels[..i])}
      {
        leaf := Descend(leaf, levels, i);
      }
      KeyOfWhole(levels);
    }

    /** The node for `levels`, if there is one. */
    method LeafSearchNode(levels: Path) returns (leaf: Node?)
      requires Sound()
      ensures leaf == null <==> KeyOf(levels) !in im
      ensures leaf != null ==> leaf == im[KeyOf(levels)].node
    {
      var n := root;
      ghost var k := Root;
      for i := 0 to |levels|
        invariant k in im && n == im[k].node && k == KeyOf(levels[..i])
      {
        KeyOfPrefix(levels, i);
        if levels[i] !in n.children {
          MemTrie.MissingBelow(root, im, levels, i + 1);
          return null;
        }
        n := n.children[levels[i]];
        k := Down(k, levels[i]);
      }
      KeyOfWhole(levels);
      leaf := n;
    }

    method Unlink(parent: Node, level: Level, ghost k: Key)
      requires Shows(im) && Counted() && k.Down? && k in im && k.up in im && parent == im[k.up].node
      requires level == k.level && level in im[k.up].children && Alone(im, k.up)
      modifies this`im, parent`children, parent`kidsCount
      ensures Shows(im) && Counted() && im == Unlinked(old(im), k) && Nodes(im) <= old(Nodes(im))
    {
      ghost var was := im;
      parent.children := parent.children - {level};
      parent.kidsCount := parent.kidsCount - 1;
      im := Unlinked(was, k);
      SizeWithout(was[k.up].children, level);
      forall q | q in im
        ensures im[q].node.children == im[q].children && im[q].node.subs == im[q].subs
             && im[q].node.retained == im[q].retained
             && im[q].node.kidsCount == |im[q].children| && im[q].node.subsCount == |im[q].subs|
      {
        if q != k.up {
          assert q in was && im[q] == was[q] && was[q].node != parent;
        }
      }
      NodesWithin(im, was);
    }

    method DropChild(parent: Node, level: Level, ghost k: Key)
      requires Sound() && k.Down? && k in im && Empty(im[k])
      requires parent == im[k].node.parent && level == k.level
      modifies this`im, parent`children, parent`kidsCount
      ensures Sound() && k.up in im && im[k.up].node == parent && Nodes(im) <= old(Nodes(im))
      ensures Dead(im) <= old(Dead(im)) - {k} + {k.up}
    {
      UnlinkLeaf(root, im, k, subs, map[]);
      Unlink(parent, level, k);
    }

    /** The cleanup has reached `at`, `level` levels down; at most that node is dead. */
    ghost predicate Reached(at: Node?, levels: Path, level: int)
      reads this
    {
      if at == null then Dead(im) == {} else
        && 0 <= level <= |levels|
        && KeyOf(levels[..level]) in im && im[KeyOf(levels[..level])].node == at
        && Dead(im) <= {KeyOf(levels[..level])}
    }

    /** One turn of the cleanup: by its counters the node serves nothing any more. */
    method CleanAt(at: Node, levels: Path, level: int) returns (parent: Node?)
      requires Sound() && Reached(at, levels, level) && at.subsCount == 0 && at.kidsCount == 0
      modifies this`im, Nodes(im)`children, Nodes(im)`kidsCount
      ensures Sound() && Nodes(im) <= old(Nodes(im)) && Reached(parent, levels, level - 1)
    {
      ghost var k := KeyOf(levels[..level]);
      if level > 0 {
        KeyOfPrefix(levels, level - 1);
      }
      assert Empty(im[k]);
      parent := at.parent;
      if parent != null {
        assert parent in Nodes(im);
        DropChild(parent, levels[level - 1], k);
      }
    }

    /** A node that its counters show in use is not dead. */
    lemma InUse(at: Node, levels: Path, level: int)
      requires Sound() && Reached(at, levels, level)
      requires at.subsCount != 0 || at.kidsCount != 0 || at.retained.Some?
      ensures Dead(im) == {}
    {
      assert KeyOf(levels[..level]) !in Dead(im);
    }

    /** nodesCleanup: stops at the first node that is still in use. */
    method NodesCleanup(leaf: Node, levels: Path)
      requires Sound() && KeyOf(levels) in im && leaf == im[KeyOf(levels)].node
      requires Dead(im) <= {KeyOf(levels)}
      modifies this`im, Nodes(im)`children, Nodes(im)`kidsCount
      ensures Valid() && Nodes(im) <= old(Nodes(im))
    {
      var at: Node? := leaf;
      var level := |levels|;
      ghost var before := Nodes(im);
      KeyOfWhole(levels);
      while at != null
        invariant Sound() && Nodes(im) <= before && Reached(at, levels, level)
        decreases if at == null then -1 else level
      {
        if at.subsCount == 0 && at.kidsCount == 0 && at.retained == None {
          at := CleanAt(at, levels, level);
          level := level - 1;
        } else {
          InUse(at, levels, level);
          break;
        }
      }
    }

    // ----------------------------------------------------------------
    // Subscriptions

    method Rewrite(at: Node, newSubs: map<Hash, Params>, newCount: int, ghost k: Key, ghost flat: Flat)
      requires Shows(im) && Counted() && k in im && at == im[k].node && Alone(im, k) && newCount == |newSubs|
      modifies this, at`subs, at`subsCount
      ensures Shows(im) && Counted() && im == Held(old(im), k, newSubs, old(im)[k].retained) && subs == flat
      ensures Nodes(im) == old(Nodes(im))
    {
      ghost var was := im;
      at.subs := newSubs;
      at.subsCount := newCount;
      im, subs := Held(was, k, newSubs, was[k].retained), flat;
      forall q | q in im
        ensures im[q].node.children == im[q].children && im[q].node.subs == im[q].subs
             && im[q].node.retained == im[q].retained
             && im[q].node.kidsCount == |im[q].children| && im[q].node.subsCount == |im[q].subs|
      {
        if q != k {
          assert im[q] == was[q] && was[q].node != at;
        }
      }
      HoldNodes(was, k, newSubs, was[k].retained);
    }

    /** Changes the subscribers of one node and their count. */
    method Hold(at: Node, newSubs: map<Hash, Params>, newCount: int, ghost k: Key, ghost flat: Flat)
      requires Sound() && k in im && at == im[k].node && newCount == |newSubs|
      requires Contents(Held(im, k, newSubs, im[k].retained), flat, map[])
      modifies this, at`subs, at`subsCount
      ensures Sound() && subs == flat && im == Held(old(im), k, newSubs, old(im)[k].retained)
      ensures Nodes(im) == old(Nodes(im))
    {
      ghost var next := Held(im, k, newSubs, im[k].retained);
      assert Alone(im, k) by {
        ShapeAlone(root, im, k);
      }
      assert Shape(root, next) by {
        HoldShape(root, im, k, newSubs, im[k].retained);
      }
      Rewrite(at, newSubs, newCount, k, flat);
      assert im == next;
    }

    /** Adds a subscription or replaces its parameters; says whether it existed. */
    method SubscriptionInsert(filter: string, h: Hash, p: Params) returns (existed: bool)
      requires Valid()
      modifies this, Nodes(im)
      ensures Valid() && fresh(Nodes(im) - old(Nodes(im)))
      ensures existed <==> (FileKey(filter), h) in old(subs)
      ensures subs == old(subs)[(FileKey(filter), h) := p]
    {
      ghost var k := FileKey(filter);
      var leaf := LeafInsertNode(Split(filter));
      existed := h in leaf.subs;
      PutSub(im, k, h, p, subs, map[]);
      Hold(leaf, leaf.subs[h := p], if existed then leaf.subsCount else leaf.subsCount + 1, k, subs[(k, h) := p]);
    }

    /** The subscribers of a node taken away one by one, and the count with them. */
    method DrainCount(held: map<Hash, Params>, count: int) returns (left: int)
      requires count == |held|
      ensures left == 0
    {
      left := count;
      var todo := held.Keys;
      while todo != {}
        invariant left == |todo|
        decreases todo
      {
        var h :| h in todo;
        left := left - 1;
        todo := todo - {h};
      }
    }

    method RemoveAll(leaf: Node, ghost k: Key)
      requires Valid() && k in im && leaf == im[k].node
      modifies this, leaf`subs, leaf`subsCount
      ensures Sound() && subs == WithoutKey(old(subs), k) && Dead(im) <= {k}
      ensures k in im && leaf == im[k].node && Nodes(im) == old(Nodes(im))
    {
      var left := DrainCount(leaf.subs, leaf.subsCount);
      DropSubs(im, k, subs, map[]);
      ghost var next := Held(im, k, map[], im[k].retained);
      assert Dead(next) <= {k} && k in next && next[k].node == leaf;
      Hold(leaf, map[], left, k, WithoutKey(subs, k));
      assert im == next;
    }

    method RemoveOne(leaf: Node, h: Hash, ghost k: Key) returns (found: bool)
      requires Valid() && k in im && leaf == im[k].node
      modifies this, leaf`subs, leaf`subsCount
      ensures Sound() && subs == old(subs) - {(k, h)} && Dead(im) <= {k}
      ensures k in im && leaf == im[k].node && Nodes(im) == old(Nodes(im))
      ensures found <==> (k, h) in old(subs)
    {
      found := h in leaf.subs;
      DropSub(im, k, h, subs, map[]);
      SizeWithout(leaf.subs, h);
      Hold(leaf, leaf.subs - {h}, if found then leaf.subsCount - 1 else leaf.subsCount, k, subs - {(k, h)});
    }

    /** Removes one subscription, or with `sub == None` everybody's under the
        filter; false stands for ErrNotFound. */
    method SubscriptionRemove(filter: string, sub: Option<Hash>) returns (found: bool)
      requires Valid()
      modifies this, Nodes(im)
      ensures Valid() && Nodes(im) <= old(Nodes(im))
      ensures sub.Some? ==> (found <==> (FileKey(filter), sub.value) in old(subs))
      ensures sub.Some? ==> subs == old(subs) - {(FileKey(filter), sub.value)}
      ensures sub.None? ==> (found <==> FileKey(filter) in old(im))
      ensures sub.None? ==> subs == WithoutKey(old(subs), FileKey(filter))
    {
      ghost var k := FileKey(filter);
      var leaf := LeafSearchNode(Split(filter));
      if leaf == null {
        NothingThere(im, k, if sub.Some? then sub.value else 0, subs, map[]);
        return false;
      }
      found := true;
      if sub == None {
        RemoveAll(leaf, k);
      } else {
        found := RemoveOne(leaf, sub.value, k);
      }
      NodesCleanup(leaf, Split(filter));
    }
  }

  lemma SizeWithout<K, V>(m: map<K, V>, k: K)
    ensures |m - {k}| == if k in m then |m| - 1 else |m|
  {
    assert (m - {k}).Keys == m.Keys - {k};
    if k !in m {
      assert m - {k} == m;
    }
  }

  /** Counter-based cleanup refines the full walk: with the same subscriptions, the
      trie kept by counters and the one pruned by the walk to the root have nodes
      for exactly the same paths. */
  lemma SameTreeAsMem(counted: Trie, walked: MemTrie.Trie, k: Key)
    requires counted.Valid() && walked.Valid() && Dead(walked.im) == {}
    requires walked.subs == counted.subs && walked.kept == map[]
    ensures k in counted.im <==> k in walked.im
  {
    CanonicalNodes(counted.root, counted.im, counted.subs, map[], k);
    CanonicalNodes(walked.root, walked.im, walked.subs, map[], k);
  }
}
