/** The nodes of the topic tries and what it means for a linked structure of them
    to be a trie with given contents. */
module TrieNodes {
  import opened Wrappers
  import opened TopicPaths
  import opened Collect

  /** A retained message; `expireAt` is when it stops being valid. */
  datatype Message = Message(body: nat, expireAt: Option<nat>)

  predicate Expired(m: Message, now: nat) { m.expireAt.Some? && m.expireAt.value <= now }

  /** A node.  Only memlockfree keeps the two counters. */
  class Node {
    var retained: Option<Message>
    var subs: map<Hash, Params>
    const parent: Node?
    var children: map<Level, Node>
    var kidsCount: int
    var subsCount: int
    /** The way here from the root. */
    ghost const key: Key

    constructor (parent: Node?, ghost key: Key)
      ensures this.parent == parent && this.key == key
      ensures subs == map[] && children == map[] && retained == None && kidsCount == subsCount == 0
    {
      this.parent, this.key := parent, key;
      subs, children, retained, kidsCount, subsCount := map[], map[], None, 0, 0;
    }
  }

  /** The mutable part of a node, as a value. */
  datatype Val = Val(node: Node, children: map<Level, Node>, subs: map<Hash, Params>, retained: Option<Message>)

  /** All nodes of a trie under their keys, as values. */
  type Image = map<Key, Val>

  ghost function Nodes(im: Image): set<Node> {
    set k | k in im :: im[k].node
  }

  /** The image shows what the nodes hold now. */
  ghost predicate Shows(im: Image)
    reads Nodes(im)
  {
    forall k :: k in im ==>
      im[k].node.children == im[k].children && im[k].node.subs == im[k].subs && im[k].node.retained == im[k].retained
  }

  /** The image of the nodes reachable from `root`: each under its own key, with
      children and parents inverse to each other. */
  ghost predicate Shape(root: Node, im: Image) {
    && Root in im && im[Root].node == root && root.parent == null
    && (forall k :: k in im ==> im[k].node.key == k)
    && (forall k, l :: k in im && l in im[k].children ==>
          Down(k, l) in im && im[k].children[l] == im[Down(k, l)].node)
    && (forall k {:trigger k.up} :: k in im && k.Down? ==>
          k.up in im && k.level in im[k.up].children && im[k].node.parent == im[k.up].node)
  }

  /** The nodes hold exactly the subscriptions `subs` and the messages `kept`. */
  ghost predicate Contents(im: Image, subs: Flat, kept: map<Key, Message>) {
    && (forall k, h :: (k, h) in subs ==> k in im && h in im[k].subs && subs[(k, h)] == im[k].subs[h])
    && (forall k, h :: k in im && h in im[k].subs ==> (k, h) in subs)
    && (forall k :: k in kept ==> k in im && im[k].retained == Some(kept[k]))
    && (forall k :: k in im && im[k].retained.Some? ==> k in kept)
  }

  /** The same nodes with the same children and subscribers. */
  ghost predicate SameTree(a: Image, b: Image) {
    && a.Keys == b.Keys && Nodes(a) == Nodes(b)
    && forall k :: k in a ==> a[k].node == b[k].node && a[k].children == b[k].children && a[k].subs == b[k].subs
  }

  lemma SameTreeTrans(a: Image, b: Image, c: Image)
    requires SameTree(a, b) && SameTree(b, c)
    ensures SameTree(a, c)
  {
  }

  /** No subscriber, no child, no retained message. */
  predicate Empty(v: Val) { v.subs == map[] && v.children == map[] && v.retained == None }

  /** Nodes that serve nothing any more. */
  ghost function Dead(im: Image): set<Key> {
    set k | k in im && k != Root && Empty(im[k])
  }

  // ------------------------------------------------------------------
  // Linking and unlinking a node

  /** A new, empty node `n` is linked below `k`. */
  ghost function Linked(im: Image, k: Key, l: Level, n: Node): Image
    requires k in im
  {
    im[k := im[k].(children := im[k].children[l := n])][Down(k, l) := Val(n, map[], map[], None)]
  }

  /** No other key leads to the node at `k`. */
  ghost predicate Alone(im: Image, k: Key)
    requires k in im
  {
    forall q :: q in im && q != k ==> im[q].node != im[k].node
  }

  lemma ShapeAlone(root: Node, im: Image, k: Key)
    requires Shape(root, im) && k in im
    ensures Alone(im, k)
  {
  }

  lemma LinkedNodes(im: Image, k: Key, l: Level, n: Node)
    requires k in im && Down(k, l) !in im
    ensures Nodes(Linked(im, k, l, n)) == Nodes(im) + {n}
  {
    var t := Linked(im, k, l, n);
    assert t[Down(k, l)].node == n;
    forall q | q in im ensures t[q].node == im[q].node && t[q].node in Nodes(t) && im[q].node in Nodes(im) {
    }
    forall x | x in Nodes(t) ensures x in Nodes(im) + {n} {
      var q :| q in t && t[q].node == x;
    }
  }

  lemma LinkShape(root: Node, im: Image, k: Key, l: Level, n: Node)
    requires Shape(root, im) && k in im && l !in im[k].children
    requires n.key == Down(k, l) && n.parent == im[k].node
    ensures Down(k, l) !in im && Shape(root, Linked(im, k, l, n))
  {
    var t := Linked(im, k, l, n);
    assert Down(k, l) !in im;
    forall q, m | q in t && m in t[q].children ensures Down(q, m) in t && t[q].children[m] == t[Down(q, m)].node {
      LinkChild(root, im, k, l, n, q, m);
    }
    forall q {:trigger q.up} | q in t && q.Down?
      ensures q.up in t && q.level in t[q.up].children && t[q].node.parent == t[q.up].node
    {
      LinkParent(root, im, k, l, n, q);
    }
  }

  lemma LinkChild(root: Node, im: Image, k: Key, l: Level, n: Node, q: Key, m: Level)
    requires Shape(root, im) && k in im && Down(k, l) !in im
    requires q in Linked(im, k, l, n) && m in Linked(im, k, l, n)[q].children
    ensures var t := Linked(im, k, l, n); Down(q, m) in t && t[q].children[m] == t[Down(q, m)].node
  {
    if Down(q, m) != Down(k, l) {
      assert q in im && m in im[q].children && Down(q, m) in im;
    }
  }

  lemma LinkParent(root: Node, im: Image, k: Key, l: Level, n: Node, q: Key)
    requires Shape(root, im) && k in im && Down(k, l) !in im && n.parent == im[k].node
    requires q in Linked(im, k, l, n) && q.Down?
    ensures var t := Linked(im, k, l, n);
      q.up in t && q.level in t[q.up].children && t[q].node.parent == t[q.up].node
  {
    if q != Down(k, l) {
      assert q in im && q.up in im && q.level in im[q.up].children;
    }
  }

  lemma LinkContents(im: Image, k: Key, l: Level, n: Node, subs: Flat, kept: map<Key, Message>)
    requires Contents(im, subs, kept) && k in im && Down(k, l) !in im
    ensures Contents(Linked(im, k, l, n), subs, kept)
    ensures Dead(Linked(im, k, l, n)) <= Dead(im) + {Down(k, l)} - {k}
  {
    assert l in Linked(im, k, l, n)[k].children;
  }

  /** The node at `c`, which has no children, is unlinked. */
  ghost function Unlinked(im: Image, c: Key): Image
    requires c.Down? && c.up in im
  {
    im[c.up := im[c.up].(children := im[c.up].children - {c.level})] - {c}
  }

  lemma UnlinkShape(root: Node, im: Image, c: Key)
    requires Shape(root, im) && c in im && c.Down? && im[c].children == map[]
    ensures Shape(root, Unlinked(im, c))
  {
    var t := Unlinked(im, c);
    forall q | q in t ensures t[q].node == im[q].node {
    }
    forall q, m | q in t && m in t[q].children ensures Down(q, m) in t && t[q].children[m] == t[Down(q, m)].node {
      UnlinkChild(root, im, c, q, m);
    }
    forall q {:trigger q.up} | q in t && q.Down?
      ensures q.up in t && q.level in t[q.up].children && t[q].node.parent == t[q.up].node
    {
      UnlinkParent(root, im, c, q);
    }
  }

  lemma UnlinkChild(root: Node, im: Image, c: Key, q: Key, m: Level)
    requires Shape(root, im) && c.Down? && c.up in im && q in Unlinked(im, c) && m in Unlinked(im, c)[q].children
    ensures var t := Unlinked(im, c); Down(q, m) in t && t[q].children[m] == t[Down(q, m)].node
  {
    assert m in im[q].children;
    assert q != c.up || m != c.level;
  }

  lemma UnlinkParent(root: Node, im: Image, c: Key, q: Key)
    requires Shape(root, im) && c in im && c.Down? && im[c].children == map[] && c.up in im
    requires q in Unlinked(im, c) && q.Down?
    ensures var t := Unlinked(im, c);
      q.up in t && q.level in t[q.up].children && t[q].node.parent == t[q.up].node
  {
    assert q.level in im[q.up].children;
    assert q.up != c;
    assert q.up != c.up || q.level != c.level;
  }

  lemma UnlinkContents(im: Image, c: Key, subs: Flat, kept: map<Key, Message>)
    requires Contents(im, subs, kept) && c in im && c.Down? && c.up in im && Empty(im[c])
    ensures Contents(Unlinked(im, c), subs, kept)
    ensures Dead(Unlinked(im, c)) <= Dead(im) - {c} + {c.up}
  {
  }

  /** Unlinking an empty node keeps a trie a trie with the same contents. */
  lemma UnlinkLeaf(root: Node, im: Image, c: Key, subs: Flat, kept: map<Key, Message>)
    requires Shape(root, im) && Contents(im, subs, kept) && c in im && c.Down? && Empty(im[c])
    ensures c.up in im && c.level in im[c.up].children && im[c].node.parent == im[c.up].node && Alone(im, c.up)
    ensures var t := Unlinked(im, c);
      && Shape(root, t) && Contents(t, subs, kept) && c.up in t && t[c.up].node == im[c.up].node
      && Dead(t) <= Dead(im) - {c} + {c.up}
  {
    assert im[c].node.parent == im[c.up].node;
    UnlinkShape(root, im, c);
    UnlinkContents(im, c, subs, kept);
  }

  // ------------------------------------------------------------------
  // Changing what a node holds

  ghost function Held(im: Image, k: Key, subs: map<Hash, Params>, retained: Option<Message>): Image
    requires k in im
  {
    im[k := im[k].(subs := subs, retained := retained)]
  }

  lemma HoldShape(root: Node, im: Image, k: Key, subs: map<Hash, Params>, retained: Option<Message>)
    requires Shape(root, im) && k in im
    ensures Shape(root, Held(im, k, subs, retained))
  {
  }

  lemma NodesWithin(a: Image, b: Image)
    requires forall k :: k in a ==> k in b && a[k].node == b[k].node
    ensures Nodes(a) <= Nodes(b)
  {
    forall n | n in Nodes(a) ensures n in Nodes(b) {
      var k :| k in a && a[k].node == n;
      assert b[k].node == n;
    }
  }

  lemma HoldNodes(im: Image, k: Key, subs: map<Hash, Params>, retained: Option<Message>)
    requires k in im
    ensures Nodes(Held(im, k, subs, retained)) == Nodes(im)
  {
    NodesWithin(im, Held(im, k, subs, retained));
    NodesWithin(Held(im, k, subs, retained), im);
  }

  lemma HoldSame(im: Image, k: Key, retained: Option<Message>)
    requires k in im
    ensures SameTree(im, Held(im, k, im[k].subs, retained))
  {
    HoldNodes(im, k, im[k].subs, retained);
  }

  lemma PutSub(im: Image, k: Key, h: Hash, p: Params, subs: Flat, kept: map<Key, Message>)
    requires Contents(im, subs, kept) && k in im
    ensures var t := Held(im, k, im[k].subs[h := p], im[k].retained);
      Contents(t, subs[(k, h) := p], kept) && Dead(t) <= Dead(im) - {k}
  {
    assert h in im[k].subs[h := p];
  }

  lemma DropSub(im: Image, k: Key, h: Hash, subs: Flat, kept: map<Key, Message>)
    requires Contents(im, subs, kept) && k in im
    ensures var t := Held(im, k, im[k].subs - {h}, im[k].retained);
      Contents(t, subs - {(k, h)}, kept) && Dead(t) <= Dead(im) + {k}
  {
  }

  /** The subscriptions of everybody under one key are gone. */
  ghost function WithoutKey(subs: Flat, k: Key): Flat {
    map q | q in subs && q.0 != k :: subs[q]
  }

  lemma DropSubs(im: Image, k: Key, subs: Flat, kept: map<Key, Message>)
    requires Contents(im, subs, kept) && k in im
    ensures var t := Held(im, k, map[], im[k].retained);
      Contents(t, WithoutKey(subs, k), kept) && Dead(t) <= Dead(im) + {k}
  {
  }

  /** Nothing is filed under a key without a node. */
  lemma NothingThere(im: Image, k: Key, h: Hash, subs: Flat, kept: map<Key, Message>)
    requires Contents(im, subs, kept) && k !in im
    ensures (k, h) !in subs && subs - {(k, h)} == subs && WithoutKey(subs, k) == subs && kept - {k} == kept
  {
  }

  lemma PutKept(im: Image, k: Key, m: Message, subs: Flat, kept: map<Key, Message>)
    requires Contents(im, subs, kept) && k in im
    ensures var t := Held(im, k, im[k].subs, Some(m));
      Contents(t, subs, kept[k := m]) && Dead(t) <= Dead(im) - {k}
  {
  }

  lemma DropKept(im: Image, k: Key, subs: Flat, kept: map<Key, Message>)
    requires Contents(im, subs, kept) && k in im
    ensures var t := Held(im, k, im[k].subs, None);
      Contents(t, subs, kept - {k}) && Dead(t) <= Dead(im) + {k}
  {
  }

  // ------------------------------------------------------------------
  // A trie without dead nodes is determined by its contents

  lemma ShapeClosed(root: Node, im: Image)
    requires Shape(root, im)
    ensures UpClosed(im.Keys) && Root in im.Keys
  {
  }

  /** `k` lies on the way to `q`. */
  predicate OnWay(k: Key, q: Key) {
    k == q || (q.Down? && OnWay(k, q.up))
  }

  lemma {:induction false} OnWayIn(keys: set<Key>, k: Key, q: Key)
    requires UpClosed(keys) && q in keys && OnWay(k, q)
    ensures k in keys
  {
    if k != q {
      OnWayIn(keys, k, q.up);
    }
  }

  lemma {:induction false} OnWayShort(k: Key, l: Level, q: Key)
    requires OnWay(Down(k, l), q)
    ensures OnWay(k, q) && k != q
    decreases q
  {
    if q != Down(k, l) {
      OnWayShort(k, l, q.up);
      OnWaySize(k, q.up);
    }
  }

  lemma {:induction false} OnWaySize(k: Key, q: Key)
    requires OnWay(k, q)
    ensures |Levels(k)| <= |Levels(q)|
  {
    if k != q {
      OnWaySize(k, q.up);
    }
  }

  /** Whether `k` leads to a subscription or a retained message. */
  ghost predicate Needed(subs: Flat, kept: map<Key, Message>, k: Key) {
    || (exists q, h :: (q, h) in subs && OnWay(k, q))
    || (exists q :: q in kept && OnWay(k, q))
  }

  /** ... it has exactly the nodes they call for. */
  lemma CanonicalNodes(root: Node, im: Image, subs: Flat, kept: map<Key, Message>, k: Key)
    requires Shape(root, im) && Contents(im, subs, kept) && Dead(im) == {}
    ensures k in im <==> k == Root || Needed(subs, kept, k)
  {
    ShapeClosed(root, im);
    if k in im && k != Root {
      LiveIsNeeded(root, im, subs, kept, k);
    }
    if q, h :| (q, h) in subs && OnWay(k, q) {
      OnWayIn(im.Keys, k, q);
    } else if q :| q in kept && OnWay(k, q) {
      OnWayIn(im.Keys, k, q);
    }
  }

  ghost function Beyond(keys: set<Key>, k: Key): set<Key> {
    set q | q in keys && OnWay(k, q)
  }

  lemma BeyondShrinks(keys: set<Key>, k: Key, l: Level)
    requires k in keys
    ensures Beyond(keys, Down(k, l)) < Beyond(keys, k)
  {
    forall q | q in Beyond(keys, Down(k, l)) ensures q in Beyond(keys, k) && q != k {
      OnWayShort(k, l, q);
    }
    assert k in Beyond(keys, k);
  }

  lemma {:induction false} LiveIsNeeded(root: Node, im: Image, subs: Flat, kept: map<Key, Message>, k: Key)
    requires Shape(root, im) && Contents(im, subs, kept) && Dead(im) == {}
    requires k in im && k != Root
    ensures Needed(subs, kept, k)
    decreases Beyond(im.Keys, k)
  {
    var n := im[k];
    assert !Empty(n) by {
      assert k !in Dead(im);
    }
    if n.subs != map[] {
      var h :| h in n.subs;
      assert (k, h) in subs;
    } else if n.retained.Some? {
      assert k in kept;
    } else {
      var l :| l in n.children;
      BeyondShrinks(im.Keys, k, l);
      LiveIsNeeded(root, im, subs, kept, Down(k, l));
      NeededAbove(subs, kept, k, l);
    }
  }

  lemma NeededAbove(subs: Flat, kept: map<Key, Message>, k: Key, l: Level)
    requires Needed(subs, kept, Down(k, l))
    ensures Needed(subs, kept, k)
  {
    if q, h :| (q, h) in subs && OnWay(Down(k, l), q) {
      OnWayShort(k, l, q);
    } else {
      var q :| q in kept && OnWay(Down(k, l), q);
      OnWayShort(k, l, q);
    }
  }
}
