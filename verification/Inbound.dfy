/** The receiving half of the connection: topic aliases, the receive quota and
    the QoS 2 exactly-once machine (onPublish, onAck and onReleaseIn of
    connection/connection.go). */
module Inbound {
  import opened Wrappers
  import opened FlowControl
  import opened AckTable

  datatype QoS = AtMostOnce | AtLeastOnce | ExactlyOnce

  /** The publication expiry property: absent, a number of seconds, or of another type. */
  datatype Lifetime = Unlimited | Seconds(n: nat) | NotANumber

  /** A PUBLISH.  `alias` is the Topic Alias property, `expireAt` when it expires,
      `body` everything the broker does not look into. */
  datatype Publish = Publish(id: Id, qos: QoS, topic: string, alias: Option<nat>, retain: bool, lifetime: Lifetime,
                             expireAt: Option<nat>, body: nat)

  datatype Reason = Success | NotAuthorized | PacketIDInUse | PacketIDNotFound

  datatype Response = NoResponse | Puback(id: Id, reason: Reason) | Pubrec(id: Id, reason: Reason)
                    | Pubcomp(id: Id, reason: Reason)

  /** Errors end the connection. */
  datatype Error = RetainNotSupported | InvalidTopicAlias | ProtocolError | ReceiveMaximumExceeded | PublishFailed
                 | BadProperty

  /** What does not change while a connection lives. */
  datatype Config = Config(version5: bool, retainAvailable: bool, maxAlias: nat)

  datatype Conn = Conn(rxQuota: nat, aliases: map<nat, string>, pubIn: map<Id, Publish>)

  /** A packet from the peer, with the time it arrives and the answers of the
      access-control list and of SignalPublish to it. */
  datatype Event = Incoming(pkt: Publish, now: nat, allowed: bool, delivered: bool) | Pubrel(id: Id)

  datatype Reply = Reply(conn: Conn, resp: Response, forwarded: Option<Publish>, err: Option<Error>)

  // ------------------------------------------------------------------
  // Topic aliases

  /** A publish after alias resolution: its topic, the alias it defines (0 for
      none), and whether the topic comes from the table and so was checked
      against the access-control list before. */
  datatype Resolved = Resolved(topic: string, defines: nat, known: bool)

  function Resolve(cfg: Config, aliases: map<nat, string>, pkt: Publish): (r: Option<Resolved>) {
    if !cfg.version5 || pkt.alias.None? then Some(Resolved(pkt.topic, 0, false))
    else
      var a := pkt.alias.value;
      if a == 0 || a > cfg.maxAlias then None
      else if pkt.topic != "" then Some(Resolved(pkt.topic, a, false))
      else if a in aliases then Some(Resolved(aliases[a], 0, true))
      else None
  }

  /** A publish that has a lifetime is stamped with the end of it. */
  function Stamp(cfg: Config, pkt: Publish, now: nat): Option<Publish> {
    if !cfg.version5 then Some(pkt)
    else
      match pkt.lifetime
      case Unlimited => Some(pkt)
      case Seconds(n) => Some(pkt.(expireAt := Some(now + n)))
      case NotANumber => None
  }

  // ------------------------------------------------------------------
  // The handler

  function Fail(c: Conn, e: Error): Reply { Reply(c, NoResponse, None, Some(e)) }

  function OnPublish(cfg: Config, c: Conn, incoming: Publish, now: nat, allowed: bool, delivered: bool): Reply {
    if cfg.version5 && !cfg.retainAvailable && incoming.retain then Fail(c, RetainNotSupported)
    else
      match (Resolve(cfg, c.aliases, incoming), Stamp(cfg, incoming, now))
      case (None, _) => Fail(c, InvalidTopicAlias)
      case (Some(_), None) => Fail(c, BadProperty)
      case (Some(r), Some(pkt)) =>
        var reason := if r.known || allowed then Success else NotAuthorized;
        var d := if reason == Success && r.defines > 0 then c.(aliases := c.aliases[r.defines := r.topic]) else c;
        Dispatch(d, pkt.(topic := r.topic), reason, delivered)
  }

  function Dispatch(c: Conn, pkt: Publish, reason: Reason, delivered: bool): Reply {
    if pkt.qos != AtMostOnce && pkt.id == 0 then Fail(c, ProtocolError)
    else if pkt.qos != AtMostOnce && reason == Success && c.rxQuota == 0 then Fail(c, ReceiveMaximumExceeded)
    else
      match pkt.qos
      case ExactlyOnce =>
        if reason != Success then Reply(c, Pubrec(pkt.id, reason), None, None)
        else
          var d := c.(rxQuota := c.rxQuota - 1);
          if pkt.id in c.pubIn then Reply(d, Pubrec(pkt.id, PacketIDInUse), None, None)
          else Reply(d.(pubIn := c.pubIn[pkt.id := pkt]), Pubrec(pkt.id, Success), None, None)
      case _ =>
        var resp := if pkt.qos == AtLeastOnce then Puback(pkt.id, reason) else NoResponse;
        if reason != Success then Reply(c, resp, None, None)
        else Reply(c, resp, Some(pkt), if delivered then None else Some(PublishFailed))
  }

  function OnPubrel(c: Conn, id: Id): Reply {
    if id in c.pubIn
    then Reply(c.(rxQuota := c.rxQuota + 1, pubIn := c.pubIn - {id}), Pubcomp(id, Success), Some(c.pubIn[id]), None)
    else Reply(c, Pubcomp(id, PacketIDNotFound), None, None)
  }

  function Handle(cfg: Config, c: Conn, e: Event): Reply {
    match e
    case Incoming(pkt, now, allowed, delivered) => OnPublish(cfg, c, pkt, now, allowed, delivered)
    case Pubrel(id) => OnPubrel(c, id)
  }

  // ------------------------------------------------------------------
  // Runs

  function Fresh(receiveMax: nat): Conn { Conn(receiveMax, map[], map[]) }

  /** A run: the packets `es`, the connection `cs[k]` before packet `k`, and the
      answer `rs[k]` to it. */
  ghost predicate IsRun(cfg: Config, receiveMax: nat, es: seq<Event>, cs: seq<Conn>, rs: seq<Reply>) {
    && |rs| == |es| && |cs| == |es| + 1 && cs[0] == Fresh(receiveMax)
    && forall k {:trigger rs[k]} :: 0 <= k < |es| ==> rs[k] == Handle(cfg, cs[k], es[k]) && cs[k + 1] == rs[k].conn
  }

  // ------------------------------------------------------------------
  // Exactly-once, told on the packets and the answers alone

  /** Packet `i` is a QoS 2 publish that was answered with a successful PUBREC. */
  predicate Accepts(e: Event, r: Reply) {
    && e.Incoming? && e.pkt.qos == ExactlyOnce && r.err == None && r.resp == Pubrec(e.pkt.id, Success)
  }

  /** A QoS 2 publish answered with Packet Identifier in use. */
  predicate Duplicate(r: Reply) {
    r.resp.Pubrec? && r.resp.reason == PacketIDInUse
  }

  /** Publish `i` was accepted and has not been released before packet `k`. */
  ghost predicate OpenAt(es: seq<Event>, rs: seq<Reply>, i: nat, k: nat)
    requires k <= |es| == |rs|
  {
    && i < k && Accepts(es[i], rs[i])
    && forall j :: i < j < k ==> es[j] != Pubrel(es[i].pkt.id)
  }

  /** Some accepted publish with this identifier is open. */
  ghost predicate SomeOpen(es: seq<Event>, rs: seq<Reply>, id: Id, k: nat)
    requires k <= |es| == |rs|
  {
    exists i: nat :: OpenAt(es, rs, i, k) && es[i].pkt.id == id
  }

  /** What a publish forwards: itself, with its topic resolved and its lifetime stamped. */
  function Message(cfg: Config, c: Conn, e: Event): Publish
    requires e.Incoming?
  {
    var r, p := Resolve(cfg, c.aliases, e.pkt), Stamp(cfg, e.pkt, e.now);
    if r.Some? && p.Some? then p.value.(topic := r.value.topic) else e.pkt
  }

  function Duplicates(rs: seq<Reply>, k: nat): nat
    requires k <= |rs|
  {
    if k == 0 then 0 else Duplicates(rs, k - 1) + if Duplicate(rs[k - 1]) then 1 else 0
  }

  /** What one packet does to the table of stored publishes and to the quota. */
  ghost predicate Effect(cfg: Config, was: Conn, e: Event, r: Reply, now: Conn) {
    && (Accepts(e, r) ==>
          && e.pkt.id !in was.pubIn
          && now.pubIn == was.pubIn[e.pkt.id := Message(cfg, was, e)] && now.rxQuota == was.rxQuota - 1)
    && (Duplicate(r) ==>
          && e.Incoming? && e.pkt.qos == ExactlyOnce && e.pkt.id in was.pubIn
          && now.pubIn == was.pubIn && now.rxQuota == was.rxQuota - 1)
    && (e.Incoming? && !Accepts(e, r) && !Duplicate(r) ==> now.pubIn == was.pubIn && now.rxQuota == was.rxQuota)
    && (e.Incoming? && e.pkt.qos == ExactlyOnce ==> r.forwarded == None)
    && (e.Pubrel? ==>
          && now.pubIn == was.pubIn - {e.id}
          && now.rxQuota == was.rxQuota + (if e.id in was.pubIn then 1 else 0)
          && r.forwarded == (if e.id in was.pubIn then Some(was.pubIn[e.id]) else None)
          && r.resp == Pubcomp(e.id, if e.id in was.pubIn then Success else PacketIDNotFound))
  }

  lemma HandleEffect(cfg: Config, was: Conn, e: Event)
    ensures Effect(cfg, was, e, Handle(cfg, was, e), Handle(cfg, was, e).conn)
  {
  }

  ghost predicate Effects(cfg: Config, es: seq<Event>, cs: seq<Conn>, rs: seq<Reply>) {
    && |rs| == |es| && |cs| == |es| + 1
    && forall k {:trigger rs[k]} :: 0 <= k < |es| ==> Effect(cfg, cs[k], es[k], rs[k], cs[k + 1])
  }

  lemma RunEffects(cfg: Config, receiveMax: nat, es: seq<Event>, cs: seq<Conn>, rs: seq<Reply>)
    requires IsRun(cfg, receiveMax, es, cs, rs)
    ensures Effects(cfg, es, cs, rs)
  {
    forall k | 0 <= k < |es| ensures Effect(cfg, cs[k], es[k], rs[k], cs[k + 1]) {
      HandleEffect(cfg, cs[k], es[k]);
    }
  }

  /** For every stored identifier, the packet that stored it. */
  ghost function Since(es: seq<Event>, rs: seq<Reply>, k: nat): map<Id, nat>
    requires k <= |es| == |rs|
  {
    if k == 0 then map[]
    else if es[k - 1].Pubrel? then Since(es, rs, k - 1) - {es[k - 1].id}
    else if Accepts(es[k - 1], rs[k - 1]) then Since(es, rs, k - 1)[es[k - 1].pkt.id := k - 1]
    else Since(es, rs, k - 1)
  }

  /** `m` names exactly the open publishes. */
  ghost predicate Opens(es: seq<Event>, rs: seq<Reply>, k: nat, m: map<Id, nat>)
    requires k <= |es| == |rs|
  {
    && (forall id :: id in m ==> OpenAt(es, rs, m[id], k) && es[m[id]].pkt.id == id)
    && (forall i: nat :: OpenAt(es, rs, i, k) ==> es[i].pkt.id in m && m[es[i].pkt.id] == i)
  }

  /** `pubIn` holds exactly their messages. */
  ghost predicate Stores(cfg: Config, es: seq<Event>, cs: seq<Conn>, k: nat, m: map<Id, nat>)
    requires k < |cs| == |es| + 1
  {
    m.Keys == cs[k].pubIn.Keys &&
    forall id :: id in m ==>
      m[id] < |es| && es[m[id]].Incoming? && cs[k].pubIn[id] == Message(cfg, cs[m[id]], es[m[id]])
  }

  lemma OpensStep(es: seq<Event>, rs: seq<Reply>, k: nat, m: map<Id, nat>)
    requires k < |es| == |rs| && Opens(es, rs, k, m)
    requires Accepts(es[k], rs[k]) ==> es[k].pkt.id !in m
    ensures Accepts(es[k], rs[k]) ==> Opens(es, rs, k + 1, m[es[k].pkt.id := k])
    ensures es[k].Pubrel? ==> Opens(es, rs, k + 1, m - {es[k].id})
    ensures !es[k].Pubrel? && !Accepts(es[k], rs[k]) ==> Opens(es, rs, k + 1, m)
  {
    assert forall i: nat :: i < k && Accepts(es[i], rs[i]) ==>
      (OpenAt(es, rs, i, k + 1) <==> OpenAt(es, rs, i, k) && es[k] != Pubrel(es[i].pkt.id));
  }

  lemma StoresStep(cfg: Config, es: seq<Event>, cs: seq<Conn>, rs: seq<Reply>, k: nat, m: map<Id, nat>)
    requires k < |es| == |rs| && |cs| == |es| + 1 && Stores(cfg, es, cs, k, m)
    requires Effect(cfg, cs[k], es[k], rs[k], cs[k + 1])
    ensures Accepts(es[k], rs[k]) ==> Stores(cfg, es, cs, k + 1, m[es[k].pkt.id := k])
    ensures es[k].Pubrel? ==> Stores(cfg, es, cs, k + 1, m - {es[k].id})
    ensures !es[k].Pubrel? && !Accepts(es[k], rs[k]) ==> Stores(cfg, es, cs, k + 1, m)
  {
  }

  lemma {:induction false} AlwaysTracks(cfg: Config, es: seq<Event>, cs: seq<Conn>, rs: seq<Reply>, k: nat)
    requires Effects(cfg, es, cs, rs) && cs[0].pubIn == map[] && k <= |es|
    ensures Opens(es, rs, k, Since(es, rs, k)) && Stores(cfg, es, cs, k, Since(es, rs, k))
  {
    if k > 0 {
      var j := k - 1;
      var m := Since(es, rs, j);
      AlwaysTracks(cfg, es, cs, rs, j);
      OpensStep(es, rs, j, m);
      StoresStep(cfg, es, cs, rs, j, m);
    }
  }

  lemma {:induction false} QuotaTracks(cfg: Config, es: seq<Event>, cs: seq<Conn>, rs: seq<Reply>, k: nat)
    requires Effects(cfg, es, cs, rs) && cs[0].pubIn == map[] && k <= |es|
    ensures cs[k].rxQuota + |cs[k].pubIn| + Duplicates(rs, k) == cs[0].rxQuota
  {
    if k > 0 {
      QuotaTracks(cfg, es, cs, rs, k - 1);
      var e, was, now := es[k - 1], cs[k - 1], cs[k];
      assert Effect(cfg, was, e, rs[k - 1], now);
      if e.Pubrel? {
        assert now.pubIn.Keys == was.pubIn.Keys - {e.id};
      }
    }
  }

  /** The receive quota over whole runs: what is free, what is stored and what
      duplicates have consumed add up to the configured Receive Maximum. */
  lemma QuotaConserved(cfg: Config, receiveMax: nat, es: seq<Event>, cs: seq<Conn>, rs: seq<Reply>, k: nat)
    requires IsRun(cfg, receiveMax, es, cs, rs) && k <= |es|
    ensures cs[k].rxQuota + |cs[k].pubIn| + Duplicates(rs, k) == receiveMax
  {
    RunEffects(cfg, receiveMax, es, cs, rs);
    QuotaTracks(cfg, es, cs, rs, k);
  }

  /** Exactly once: a PUBREL forwards a publish if and only if one with its
      identifier is open, and then it forwards that one. */
  lemma PubrelForwards(cfg: Config, receiveMax: nat, es: seq<Event>, cs: seq<Conn>, rs: seq<Reply>, k: nat)
    requires IsRun(cfg, receiveMax, es, cs, rs) && k < |es| && es[k].Pubrel?
    ensures rs[k].forwarded.Some? <==> SomeOpen(es, rs, es[k].id, k)
    ensures forall i: nat :: OpenAt(es, rs, i, k) && es[i].pkt.id == es[k].id ==>
              rs[k].forwarded == Some(Message(cfg, cs[i], es[i]))
    ensures rs[k].resp == Pubcomp(es[k].id, if SomeOpen(es, rs, es[k].id, k) then Success else PacketIDNotFound)
  {
    RunEffects(cfg, receiveMax, es, cs, rs);
    AlwaysTracks(cfg, es, cs, rs, k);
    var m := Since(es, rs, k);
    if es[k].id in m {
      assert OpenAt(es, rs, m[es[k].id], k);
    }
  }

  /** ... and a QoS 2 publish itself forwards nothing.  One that is not refused
      for another reason is a duplicate if and only if one with its identifier is
      open, and then leaves the stored publish alone. */
  lemma PublishStores(cfg: Config, receiveMax: nat, es: seq<Event>, cs: seq<Conn>, rs: seq<Reply>, k: nat)
    requires IsRun(cfg, receiveMax, es, cs, rs)
    requires k < |es| && es[k].Incoming? && es[k].pkt.qos == ExactlyOnce
    ensures rs[k].forwarded == None
    ensures Duplicate(rs[k]) || Accepts(es[k], rs[k]) ==> (Duplicate(rs[k]) <==> SomeOpen(es, rs, es[k].pkt.id, k))
    ensures Duplicate(rs[k]) ==> cs[k + 1].pubIn == cs[k].pubIn
  {
    RunEffects(cfg, receiveMax, es, cs, rs);
    AlwaysTracks(cfg, es, cs, rs, k);
    var m := Since(es, rs, k);
    assert Effect(cfg, cs[k], es[k], rs[k], cs[k + 1]);
    if es[k].pkt.id in m {
      assert OpenAt(es, rs, m[es[k].pkt.id], k);
    }
  }

  /** At most one accepted publish is open per identifier. */
  lemma OpenUnique(cfg: Config, receiveMax: nat, es: seq<Event>, cs: seq<Conn>, rs: seq<Reply>, i: nat, j: nat, k: nat)
    requires IsRun(cfg, receiveMax, es, cs, rs) && k <= |es|
    requires OpenAt(es, rs, i, k) && OpenAt(es, rs, j, k) && es[i].pkt.id == es[j].pkt.id
    ensures i == j
  {
    RunEffects(cfg, receiveMax, es, cs, rs);
    AlwaysTracks(cfg, es, cs, rs, k);
  }

  /** The PUBREL `j` is the first one for the identifier of the accepted publish `i`. */
  ghost predicate Releases(es: seq<Event>, rs: seq<Reply>, i: nat, j: nat)
    requires |es| == |rs|
  {
    j < |es| && OpenAt(es, rs, i, j) && es[j] == Pubrel(es[i].pkt.id)
  }

  lemma {:induction false} FirstPubrel(es: seq<Event>, rs: seq<Reply>, i: nat, k: nat) returns (j: nat)
    requires |es| == |rs| && i < k < |es| && Accepts(es[i], rs[i]) && es[k] == Pubrel(es[i].pkt.id)
    ensures j <= k && Releases(es, rs, i, j)
    decreases k
  {
    if l :| i < l < k && es[l] == Pubrel(es[i].pkt.id) {
      j := FirstPubrel(es, rs, i, l);
    } else {
      j := k;
    }
  }

  /** Exactly once.  Over every run, an accepted QoS 2 publish that is followed by a
      PUBREL for its identifier is released at exactly one position, where it is what
      is forwarded; different publishes are released at different positions; and
      whatever a PUBREL forwards is a publish it releases. */
  lemma ForwardedExactlyOnce(cfg: Config, receiveMax: nat, es: seq<Event>, cs: seq<Conn>, rs: seq<Reply>)
    requires IsRun(cfg, receiveMax, es, cs, rs)
    ensures forall i: nat, k: nat :: i < k < |es| && Accepts(es[i], rs[i]) && es[k] == Pubrel(es[i].pkt.id) ==>
      exists j: nat :: j <= k && Releases(es, rs, i, j)
    ensures forall i: nat, j: nat :: Releases(es, rs, i, j) ==>
      rs[j].forwarded == Some(Message(cfg, cs[i], es[i]))
    ensures forall i: nat, j: nat, l: nat :: Releases(es, rs, i, j) && Releases(es, rs, i, l) ==> j == l
    ensures forall i: nat, k: nat, j: nat :: Releases(es, rs, i, j) && Releases(es, rs, k, j) ==> i == k
    ensures forall j: nat :: j < |es| && es[j].Pubrel? && rs[j].forwarded.Some? ==>
      exists i: nat :: Releases(es, rs, i, j)
  {
    forall i: nat, k: nat | i < k < |es| && Accepts(es[i], rs[i]) && es[k] == Pubrel(es[i].pkt.id)
      ensures exists j: nat :: j <= k && Releases(es, rs, i, j)
    {
      var j := FirstPubrel(es, rs, i, k);
    }
    forall i: nat, j: nat | Releases(es, rs, i, j) ensures rs[j].forwarded == Some(Message(cfg, cs[i], es[i])) {
      PubrelForwards(cfg, receiveMax, es, cs, rs, j);
    }
    forall i: nat, k: nat, j: nat | Releases(es, rs, i, j) && Releases(es, rs, k, j) ensures i == k {
      OpenUnique(cfg, receiveMax, es, cs, rs, i, k, j);
    }
    forall j: nat | j < |es| && es[j].Pubrel? && rs[j].forwarded.Some? ensures exists i: nat :: Releases(es, rs, i, j) {
      PubrelForwards(cfg, receiveMax, es, cs, rs, j);
      var i: nat :| OpenAt(es, rs, i, j) && es[i].pkt.id == es[j].id;
      assert Releases(es, rs, i, j);
    }
  }
}
