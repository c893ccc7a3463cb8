/** Outgoing topic aliases (setTopicAlias of connection/writer.go) against the
    receiving rule of onPublish (connection/connection.go), section 3.3.2.3.4 of
    MQTT 5.0. */
module TopicAlias {
  import opened Wrappers
  import Inbound

  /** The sender's table; `last` is topicAliasCurrMax. */
  datatype Table = Table(last: nat, of: map<string, nat>)

  /** What goes on the wire for a publish. */
  datatype Wire = Wire(topic: string, alias: Option<nat>)

  /** setTopicAlias.  `pick` is the random number below `max` that the source
      draws when the table is full. */
  function Assign(t: Table, max: nat, topic: string, pick: nat): (Table, Wire) {
    if max == 0 then (t, Wire(topic, None))
    else if topic in t.of then (t, Wire("", Some(t.of[topic])))
    else if t.last < max then (Table(t.last + 1, t.of[topic := t.last + 1]), Wire(topic, Some(t.last + 1)))
    else (t.(of := t.of[topic := pick]), Wire(topic, Some(pick)))
  }

  class Sender {
    const topicAliasMax: nat
    var topicAliasCurrMax: nat
    var topicAlias: map<string, nat>

    constructor (max: nat)
      ensures topicAliasMax == max && topicAliasCurrMax == 0 && topicAlias == map[]
    {
      topicAliasMax, topicAliasCurrMax, topicAlias := max, 0, map[];
    }

    method SetTopicAlias(topic: string, pick: nat) returns (w: Wire)
      modifies this
      ensures (Table(topicAliasCurrMax, topicAlias), w)
           == Assign(old(Table(topicAliasCurrMax, topicAlias)), topicAliasMax, topic, pick)
    {
      w := Wire(topic, None);
      if topicAliasMax > 0 {
        var known := topic in topicAlias;
        var alias := 0;
        if known {
          alias := topicAlias[topic];
        } else {
          if topicAliasCurrMax < topicAliasMax {
            topicAliasCurrMax := topicAliasCurrMax + 1;
            alias := topicAliasCurrMax;
          } else {
            alias := pick;
          }
          topicAlias := topicAlias[topic := alias];
        }
        w := Wire(if known then "" else topic, Some(alias));
      }
    }
  }

  /** The receiver: the topic it recovers, if any, and its table afterwards. */
  function Receive(aliases: map<nat, string>, max: nat, w: Wire): (Option<string>, map<nat, string>) {
    if w.alias.None? then (Some(w.topic), aliases)
    else
      var a := w.alias.value;
      if a == 0 || a > max then (None, aliases)
      else if w.topic != "" then (Some(w.topic), aliases[a := w.topic])
      else (if a in aliases then Some(aliases[a]) else None, aliases)
  }

  /** It is the broker's own packet handler: what that forwards for a QoS 0 publish, and
      what it leaves in its table. */
  lemma ReceiverIsBroker(c: Inbound.Conn, max: nat, w: Wire, body: nat, now: nat)
    ensures var pkt := Inbound.Publish(0, Inbound.AtMostOnce, w.topic, w.alias, false, Inbound.Unlimited, None, body);
      var r := Inbound.Handle(Inbound.Config(true, true, max), c, Inbound.Incoming(pkt, now, true, true));
      Receive(c.aliases, max, w)
      == (if r.forwarded.Some? then Some(r.forwarded.value.topic) else None, r.conn.aliases)
  {
  }

  /** Both ends of the connection. */
  datatype Link = Link(table: Table, aliases: map<nat, string>)

  /** One publish over the link, and the topic the receiver recovers. */
  function Exchange(l: Link, max: nat, topic: string, pick: nat): (Link, Option<string>) {
    var (t, w) := Assign(l.table, max, topic, pick);
    var (recovered, aliases) := Receive(l.aliases, max, w);
    (Link(t, aliases), recovered)
  }

  function After(max: nat, ts: seq<string>, picks: seq<nat>, k: nat): Link
    requires k <= |ts| == |picks|
  {
    if k == 0 then Link(Table(0, map[]), map[])
    else Exchange(After(max, ts, picks, k - 1), max, ts[k - 1], picks[k - 1]).0
  }

  /** What the receiver makes of the k-th publish. */
  function Recovered(max: nat, ts: seq<string>, picks: seq<nat>, k: nat): Option<string>
    requires k < |ts| == |picks|
  {
    Exchange(After(max, ts, picks, k), max, ts[k], picks[k]).1
  }

  /** The distinct topics of the first `k` publishes. */
  function Topics(ts: seq<string>, k: nat): set<string>
    requires k <= |ts|
  {
    if k == 0 then {} else Topics(ts, k - 1) + {ts[k - 1]}
  }

  predicate Nonempty(ts: seq<string>) {
    forall i :: 0 <= i < |ts| ==> ts[i] != ""
  }

  /** The tables agree: aliases are distinct numbers in 1..max, and the receiver
      knows them all. */
  ghost predicate InStep(l: Link, max: nat, topics: set<string>) {
    && l.table.of.Keys == topics
    && l.table.last == |topics| <= max
    && (forall t :: t in topics ==>
          && 1 <= l.table.of[t] <= l.table.last
          && l.table.of[t] in l.aliases && l.aliases[l.table.of[t]] == t)
  }

  lemma KnownTopic(l: Link, max: nat, topic: string, pick: nat, topics: set<string>)
    requires max > 0 && topic != "" && InStep(l, max, topics) && topic in topics
    ensures Exchange(l, max, topic, pick) == (l, Some(topic))
  {
  }

  lemma NewTopic(l: Link, max: nat, topic: string, pick: nat, topics: set<string>)
    requires max > 0 && topic != "" && InStep(l, max, topics) && topic !in topics && l.table.last < max
    ensures Exchange(l, max, topic, pick).1 == Some(topic)
    ensures InStep(Exchange(l, max, topic, pick).0, max, topics + {topic})
  {
  }

  /** A new topic on a full table, with the draw falling on zero, is rejected. */
  lemma FullTableFails(l: Link, max: nat, topic: string, topics: set<string>)
    requires max > 0 && InStep(l, max, topics) && topic !in topics && l.table.last == max
    ensures Exchange(l, max, topic, 0).1 == None
  {
  }

  lemma StepInStep(l: Link, max: nat, topic: string, pick: nat, topics: set<string>)
    requires max > 0 && topic != "" && InStep(l, max, topics) && |topics + {topic}| <= max
    ensures Exchange(l, max, topic, pick).1 == Some(topic)
    ensures InStep(Exchange(l, max, topic, pick).0, max, topics + {topic})
  {
    if topic in topics {
      assert topics + {topic} == topics;
      KnownTopic(l, max, topic, pick, topics);
    } else {
      NewTopic(l, max, topic, pick, topics);
    }
  }

  lemma {:induction false} TopicsGrow(ts: seq<string>, j: nat, k: nat)
    requires j <= k <= |ts|
    ensures |Topics(ts, j)| <= |Topics(ts, k)|
  {
    if j < k {
      TopicsGrow(ts, j, k - 1);
      var was, t := Topics(ts, k - 1), ts[k - 1];
      assert t in was ==> was + {t} == was;
    }
  }

  lemma {:induction false} FewTopics(max: nat, ts: seq<string>, picks: seq<nat>, k: nat)
    requires max > 0 && Nonempty(ts) && k <= |ts| == |picks| && |Topics(ts, k)| <= max
    ensures InStep(After(max, ts, picks, k), max, Topics(ts, k))
  {
    if k > 0 {
      var l, was := After(max, ts, picks, k - 1), Topics(ts, k - 1);
      TopicsGrow(ts, k - 1, k);
      assert InStep(l, max, was) by {
        FewTopics(max, ts, picks, k - 1);
      }
      assert InStep(Exchange(l, max, ts[k - 1], picks[k - 1]).0, max, was + {ts[k - 1]}) by {
        StepInStep(l, max, ts[k - 1], picks[k - 1], was);
      }
    }
  }

  /** Up to the Topic Alias Maximum, different topics have different aliases, all in range. */
  lemma AliasesInjective(max: nat, ts: seq<string>, picks: seq<nat>, k: nat, s: string, t: string)
    requires max > 0 && Nonempty(ts) && k <= |ts| == |picks| && |Topics(ts, k)| <= max
    requires s in Topics(ts, k) && t in Topics(ts, k)
    ensures var of := After(max, ts, picks, k).table.of;
      s in of && t in of && 1 <= of[s] <= max && (of[s] == of[t] ==> s == t)
  {
    FewTopics(max, ts, picks, k);
  }

  /** What goes on the wire for the k-th publish. */
  function WireAt(max: nat, ts: seq<string>, picks: seq<nat>, k: nat): Wire
    requires k < |ts| == |picks|
  {
    Assign(After(max, ts, picks, k).table, max, ts[k], picks[k]).1
  }

  lemma {:induction false} TableKnows(max: nat, ts: seq<string>, picks: seq<nat>, k: nat)
    requires max > 0 && k <= |ts| == |picks|
    ensures var t := After(max, ts, picks, k).table;
      && t.of.Keys == Topics(ts, k)
      && t.last == if |Topics(ts, k)| < max then |Topics(ts, k)| else max
  {
    if k > 0 {
      TableKnows(max, ts, picks, k - 1);
      var was, t := Topics(ts, k - 1), ts[k - 1];
      assert t in was ==> was + {t} == was;
    }
  }

  /** With aliases on, a topic goes in full the first time and never again, for later
      publishes to it carry its alias alone.  New topics are numbered from 1 while there
      is room, and then take the number drawn. */
  lemma SentInFullOnce(max: nat, ts: seq<string>, picks: seq<nat>, k: nat)
    requires max > 0 && k < |ts| == |picks|
    ensures var w, before := WireAt(max, ts, picks, k), Topics(ts, k);
      && w.alias.Some? && w.topic == (if ts[k] in before then "" else ts[k])
      && (ts[k] !in before ==> w.alias.value == if |before| < max then |before| + 1 else picks[k])
  {
    TableKnows(max, ts, picks, k);
  }

  lemma FewTopicsRecovered(max: nat, ts: seq<string>, picks: seq<nat>, k: nat)
    requires max > 0 && Nonempty(ts) && k < |ts| == |picks| && |Topics(ts, k + 1)| <= max
    ensures Recovered(max, ts, picks, k) == Some(ts[k])
  {
    TopicsGrow(ts, k, k + 1);
    FewTopics(max, ts, picks, k);
    StepInStep(After(max, ts, picks, k), max, ts[k], picks[k], Topics(ts, k));
  }

  ghost predicate Draws(picks: seq<nat>, max: nat, n: nat) {
    |picks| == n && forall i :: 0 <= i < n ==> picks[i] < max || max == 0
  }

  ghost predicate AllRecovered(max: nat, ts: seq<string>, picks: seq<nat>)
    requires |ts| == |picks|
  {
    forall i {:trigger Recovered(max, ts, picks, i)} :: 0 <= i < |ts| ==> Recovered(max, ts, picks, i) == Some(ts[i])
  }

  /** With every draw zero, a sequence that gets through used at most `max` topics. */
  lemma {:induction false} ThroughMeansFew(max: nat, ts: seq<string>, picks: seq<nat>, k: nat)
    requires max > 0 && Nonempty(ts) && k <= |ts| == |picks|
    requires forall i :: 0 <= i < |picks| ==> picks[i] == 0
    requires AllRecovered(max, ts, picks)
    ensures InStep(After(max, ts, picks, k), max, Topics(ts, k))
  {
    if k > 0 {
      ThroughMeansFew(max, ts, picks, k - 1);
      assert Recovered(max, ts, picks, k - 1) == Some(ts[k - 1]);
      ThroughStep(After(max, ts, picks, k - 1), max, ts[k - 1], Topics(ts, k - 1));
    }
  }

  lemma ThroughStep(l: Link, max: nat, topic: string, topics: set<string>)
    requires max > 0 && topic != "" && InStep(l, max, topics) && Exchange(l, max, topic, 0).1 == Some(topic)
    ensures InStep(Exchange(l, max, topic, 0).0, max, topics + {topic})
  {
    if topic in topics {
      assert topics + {topic} == topics;
    } else if l.table.last == max {
      FullTableFails(l, max, topic, topics);
    }
    StepInStep(l, max, topic, 0, topics);
  }

  /** The tables stay in step for every sequence of draws if and only if aliases
      are off or the distinct topics do not exceed the Topic Alias Maximum. */
  lemma AliasesInStepExactly(max: nat, ts: seq<string>)
    requires Nonempty(ts)
    ensures (forall picks :: Draws(picks, max, |ts|) ==> AllRecovered(max, ts, picks))
            <==> max == 0 || |Topics(ts, |ts|)| <= max
  {
    if max > 0 && |Topics(ts, |ts|)| <= max {
      forall picks, i: nat | Draws(picks, max, |ts|) && i < |ts|
        ensures Recovered(max, ts, picks, i) == Some(ts[i])
      {
        TopicsGrow(ts, i + 1, |ts|);
        FewTopicsRecovered(max, ts, picks, i);
      }
    } else if max > 0 {
      var zeros := seq(|ts|, _ => 0);
      assert Draws(zeros, max, |ts|);
      if AllRecovered(max, ts, zeros) {
        ThroughMeansFew(max, ts, zeros, |ts|);
      }
    }
  }
}
