/** What the broker makes of every PUBLISH it receives, told on the packets of the run
    and the answers of the access-control list alone (onPublish of
    connection/connection.go). */
module Answers {
  import opened Wrappers
  import opened FlowControl
  import opened Inbound

  // ------------------------------------------------------------------
  // Topic aliases over a run

  /** The publish carries a topic alias. */
  predicate Uses(cfg: Config, e: Event) {
    e.Incoming? && cfg.version5 && e.pkt.alias.Some?
  }

  predicate InRange(cfg: Config, a: nat) { 1 <= a <= cfg.maxAlias }

  /** The broker said in its CONNACK that it does not retain. */
  predicate RetainFault(cfg: Config, e: Event) {
    e.Incoming? && cfg.version5 && e.pkt.retain && !cfg.retainAvailable
  }

  predicate PropertyFault(cfg: Config, e: Event) {
    e.Incoming? && cfg.version5 && e.pkt.lifetime == NotANumber
  }

  /** The publish gives alias `a` its topic. */
  predicate Defines(cfg: Config, e: Event, a: nat) {
    && Uses(cfg, e) && e.pkt.alias == Some(a) && InRange(cfg, a) && e.pkt.topic != "" && e.allowed
    && !RetainFault(cfg, e) && !PropertyFault(cfg, e)
  }

  /** Packet `j` is the last one before `k` that gives `a` a topic. */
  ghost predicate LastDefines(cfg: Config, es: seq<Event>, a: nat, j: nat, k: nat) {
    j < k <= |es| && Defines(cfg, es[j], a) && forall i :: j < i < k ==> !Defines(cfg, es[i], a)
  }

  ghost predicate Defined(cfg: Config, es: seq<Event>, a: nat, k: nat) {
    exists j: nat :: LastDefines(cfg, es, a, j, k)
  }

  lemma AliasStep(cfg: Config, c: Conn, e: Event, a: nat)
    ensures var d := Handle(cfg, c, e).conn.aliases;
      if Defines(cfg, e, a) then a in d && d[a] == e.pkt.topic
      else (a in d <==> a in c.aliases) && (a in d ==> d[a] == c.aliases[a])
  {
  }

  lemma LastDefinesStep(cfg: Config, es: seq<Event>, a: nat, j: nat, k: nat)
    requires k < |es|
    ensures LastDefines(cfg, es, a, j, k + 1) <==>
      if Defines(cfg, es[k], a) then j == k else LastDefines(cfg, es, a, j, k)
  {
  }

  /** The table of aliases over every run: an alias stands for the topic that the last
      publish to define it gave it. */
  lemma {:induction false} AliasesTold(cfg: Config, receiveMax: nat, es: seq<Event>, cs: seq<Conn>, rs: seq<Reply>,
                                       k: nat, a: nat)
    requires IsRun(cfg, receiveMax, es, cs, rs) && k <= |es|
    ensures a in cs[k].aliases <==> Defined(cfg, es, a, k)
    ensures forall j: nat :: LastDefines(cfg, es, a, j, k) ==> a in cs[k].aliases && cs[k].aliases[a] == es[j].pkt.topic
  {
    if k > 0 {
      var n: nat := k - 1;
      var r := rs[n];
      AliasesTold(cfg, receiveMax, es, cs, rs, n, a);
      AliasStep(cfg, cs[n], es[n], a);
      forall j: nat ensures LastDefines(cfg, es, a, j, n + 1) <==>
        if Defines(cfg, es[n], a) then j == n else LastDefines(cfg, es, a, j, n)
      {
        LastDefinesStep(cfg, es, a, j, n);
      }
      if Defines(cfg, es[n], a) {
        assert LastDefines(cfg, es, a, n, n + 1);
      }
    }
  }

  // ------------------------------------------------------------------
  // What a packet is

  /** The alias is out of range, or stands alone and for nothing. */
  ghost predicate AliasFault(cfg: Config, es: seq<Event>, k: nat)
    requires k < |es|
  {
    Uses(cfg, es[k]) &&
    var a := es[k].pkt.alias.value;
    !InRange(cfg, a) || (es[k].pkt.topic == "" && !Defined(cfg, es, a, k))
  }

  /** Nothing is wrong with the packet as far as its properties go. */
  ghost predicate Wellformed(cfg: Config, es: seq<Event>, k: nat)
    requires k < |es|
  {
    es[k].Incoming? && !RetainFault(cfg, es[k]) && !AliasFault(cfg, es, k) && !PropertyFault(cfg, es[k])
  }

  /** The topic that publish `k` names, itself or through an alias. */
  ghost predicate Names(cfg: Config, es: seq<Event>, k: nat, topic: string)
    requires k < |es| && es[k].Incoming?
  {
    if Uses(cfg, es[k]) && es[k].pkt.topic == ""
    then exists j: nat :: LastDefines(cfg, es, es[k].pkt.alias.value, j, k) && es[j].pkt.topic == topic
    else topic == es[k].pkt.topic
  }

  /** The access-control list lets it pass, now or when its alias was defined. */
  predicate Authorised(cfg: Config, e: Event)
    requires e.Incoming?
  {
    e.allowed || (Uses(cfg, e) && e.pkt.topic == "")
  }

  /** When it expires: its lifetime after its arrival. */
  function ExpiresAt(cfg: Config, e: Event): Option<nat>
    requires e.Incoming?
  {
    if cfg.version5 && e.pkt.lifetime.Seconds? then Some(e.now + e.pkt.lifetime.n) else e.pkt.expireAt
  }

  /** A publish above QoS 0 needs an identifier. */
  predicate Identified(pkt: Publish) { pkt.qos != AtMostOnce ==> pkt.id != 0 }

  /** The broker takes the publish on. */
  ghost predicate Served(cfg: Config, es: seq<Event>, c: Conn, k: nat)
    requires k < |es|
  {
    && Wellformed(cfg, es, k) && Authorised(cfg, es[k]) && Identified(es[k].pkt)
    && (es[k].pkt.qos != AtMostOnce ==> c.rxQuota > 0)
  }

  // ------------------------------------------------------------------
  // What becomes of it

  lemma ResolveTold(cfg: Config, receiveMax: nat, es: seq<Event>, cs: seq<Conn>, rs: seq<Reply>, k: nat)
    requires IsRun(cfg, receiveMax, es, cs, rs) && k < |es| && es[k].Incoming?
    ensures var r := Resolve(cfg, cs[k].aliases, es[k].pkt);
      && (r.None? <==> AliasFault(cfg, es, k))
      && (r.Some? ==> Names(cfg, es, k, r.value.topic) && (r.value.known || es[k].allowed <==> Authorised(cfg, es[k])))
      && (r.Some? ==> forall t :: Names(cfg, es, k, t) ==> t == r.value.topic)
  {
    if Uses(cfg, es[k]) {
      AliasesTold(cfg, receiveMax, es, cs, rs, k, es[k].pkt.alias.value);
    }
  }

  lemma StampTold(cfg: Config, e: Event)
    requires e.Incoming?
    ensures var p := Stamp(cfg, e.pkt, e.now);
      && (p.None? <==> PropertyFault(cfg, e))
      && (p.Some? ==> p.value == e.pkt.(expireAt := ExpiresAt(cfg, e)))
  {
  }

  /** A message is the publish with the topic it names and the time it expires. */
  lemma MessageTold(cfg: Config, receiveMax: nat, es: seq<Event>, cs: seq<Conn>, rs: seq<Reply>, k: nat, topic: string)
    requires IsRun(cfg, receiveMax, es, cs, rs) && k < |es| && Wellformed(cfg, es, k) && Names(cfg, es, k, topic)
    ensures Message(cfg, cs[k], es[k]) == es[k].pkt.(topic := topic, expireAt := ExpiresAt(cfg, es[k]))
  {
    ResolveTold(cfg, receiveMax, es, cs, rs, k);
    StampTold(cfg, es[k]);
  }

  /** What a well-formed publish comes to, with its topic and its authorisation settled. */
  lemma Dispatched(cfg: Config, receiveMax: nat, es: seq<Event>, cs: seq<Conn>, rs: seq<Reply>, k: nat)
    returns (topic: string, d: Conn)
    requires IsRun(cfg, receiveMax, es, cs, rs) && k < |es| && Wellformed(cfg, es, k)
    ensures Names(cfg, es, k, topic) && d.rxQuota == cs[k].rxQuota && d.pubIn == cs[k].pubIn
    ensures rs[k] == Dispatch(d, es[k].pkt.(topic := topic, expireAt := ExpiresAt(cfg, es[k])),
                              if Authorised(cfg, es[k]) then Success else NotAuthorized, es[k].delivered)
  {
    ResolveTold(cfg, receiveMax, es, cs, rs, k);
    StampTold(cfg, es[k]);
    var e, c := es[k], cs[k];
    var r := Resolve(cfg, c.aliases, e.pkt).value;
    topic := r.topic;
    d := if (r.known || e.allowed) && r.defines > 0 then c.(aliases := c.aliases[r.defines := r.topic]) else c;
    assert rs[k] == Handle(cfg, c, e);
  }

  /** QoS 0 and QoS 1 over every run: a publish that is served is forwarded at its own
      position, with the topic it names and the time it expires, and nothing else about
      it changed; QoS 1 is acknowledged; and the error is that of SignalPublish. */
  lemma ServedIsForwarded(cfg: Config, receiveMax: nat, es: seq<Event>, cs: seq<Conn>, rs: seq<Reply>, k: nat,
                          topic: string)
    requires IsRun(cfg, receiveMax, es, cs, rs) && k < |es| && Served(cfg, es, cs[k], k)
    requires es[k].pkt.qos != ExactlyOnce && Names(cfg, es, k, topic)
    ensures rs[k].forwarded == Some(es[k].pkt.(topic := topic, expireAt := ExpiresAt(cfg, es[k])))
    ensures rs[k].resp == if es[k].pkt.qos == AtLeastOnce then Puback(es[k].pkt.id, Success) else NoResponse
    ensures rs[k].err == if es[k].delivered then None else Some(PublishFailed)
    ensures cs[k + 1].rxQuota == cs[k].rxQuota && cs[k + 1].pubIn == cs[k].pubIn
  {
    ResolveTold(cfg, receiveMax, es, cs, rs, k);
    var t, d := Dispatched(cfg, receiveMax, es, cs, rs, k);
  }

  /** QoS 2: a publish that is served is answered with success exactly when none with
      its identifier is open, and then is open; no other answer opens one. */
  lemma ServedIsStored(cfg: Config, receiveMax: nat, es: seq<Event>, cs: seq<Conn>, rs: seq<Reply>, k: nat)
    requires IsRun(cfg, receiveMax, es, cs, rs) && k < |es| && es[k].Incoming? && es[k].pkt.qos == ExactlyOnce
    ensures Served(cfg, es, cs[k], k) ==>
      rs[k].err == None && rs[k].forwarded == None
      && rs[k].resp == Pubrec(es[k].pkt.id, if SomeOpen(es, rs, es[k].pkt.id, k) then PacketIDInUse else Success)
    ensures Accepts(es[k], rs[k]) <==> Served(cfg, es, cs[k], k) && !SomeOpen(es, rs, es[k].pkt.id, k)
  {
    ErrorsTold(cfg, receiveMax, es, cs, rs, k);
    if Wellformed(cfg, es, k) {
      var t, d := Dispatched(cfg, receiveMax, es, cs, rs, k);
      StoredIsOpen(cfg, receiveMax, es, cs, rs, k, es[k].pkt.id);
    }
  }

  lemma StoredIsOpen(cfg: Config, receiveMax: nat, es: seq<Event>, cs: seq<Conn>, rs: seq<Reply>, k: nat, id: Id)
    requires IsRun(cfg, receiveMax, es, cs, rs) && k <= |es|
    ensures id in cs[k].pubIn <==> SomeOpen(es, rs, id, k)
  {
    RunEffects(cfg, receiveMax, es, cs, rs);
    AlwaysTracks(cfg, es, cs, rs, k);
    var m := Since(es, rs, k);
    if id in m {
      assert OpenAt(es, rs, m[id], k);
    }
  }

  /** A publish that the access-control list turns away is answered so, and forwards,
      stores and costs nothing. */
  lemma TurnedAway(cfg: Config, receiveMax: nat, es: seq<Event>, cs: seq<Conn>, rs: seq<Reply>, k: nat)
    requires IsRun(cfg, receiveMax, es, cs, rs) && k < |es| && Wellformed(cfg, es, k)
    requires Identified(es[k].pkt) && !Authorised(cfg, es[k])
    ensures rs[k].forwarded == None && rs[k].err == None
    ensures rs[k].resp == match es[k].pkt.qos
                          case AtMostOnce => NoResponse
                          case AtLeastOnce => Puback(es[k].pkt.id, NotAuthorized)
                          case ExactlyOnce => Pubrec(es[k].pkt.id, NotAuthorized)
    ensures cs[k + 1].rxQuota == cs[k].rxQuota && cs[k + 1].pubIn == cs[k].pubIn
  {
    var t, d := Dispatched(cfg, receiveMax, es, cs, rs, k);
  }

  /** Which publish ends the connection, and with which error. */
  lemma ErrorsTold(cfg: Config, receiveMax: nat, es: seq<Event>, cs: seq<Conn>, rs: seq<Reply>, k: nat)
    requires IsRun(cfg, receiveMax, es, cs, rs) && k < |es| && es[k].Incoming?
    ensures rs[k].err == Some(RetainNotSupported) <==> RetainFault(cfg, es[k])
    ensures rs[k].err == Some(InvalidTopicAlias) <==> !RetainFault(cfg, es[k]) && AliasFault(cfg, es, k)
    ensures rs[k].err == Some(BadProperty) <==>
      !RetainFault(cfg, es[k]) && !AliasFault(cfg, es, k) && PropertyFault(cfg, es[k])
    ensures rs[k].err == Some(ProtocolError) <==> Wellformed(cfg, es, k) && !Identified(es[k].pkt)
    ensures rs[k].err == Some(ReceiveMaximumExceeded) <==>
      && Wellformed(cfg, es, k) && Identified(es[k].pkt) && Authorised(cfg, es[k])
      && es[k].pkt.qos != AtMostOnce && cs[k].rxQuota == 0
    ensures rs[k].err.Some? && rs[k].err != Some(PublishFailed) ==> rs[k].forwarded == None && rs[k].resp == NoResponse
  {
    assert rs[k] == Handle(cfg, cs[k], es[k]);
    ResolveTold(cfg, receiveMax, es, cs, rs, k);
    StampTold(cfg, es[k]);
    if Wellformed(cfg, es, k) {
      var t, d := Dispatched(cfg, receiveMax, es, cs, rs, k);
    }
  }
}
