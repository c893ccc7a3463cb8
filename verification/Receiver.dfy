/** The packet handlers of the receiving half as the source performs them, field
    by field; module Inbound says what they amount to. */
module Receiver {
  import opened Wrappers
  import opened FlowControl
  import opened AckTable
  import opened Inbound

  class Receiver {
    const cfg: Config
    var rxQuota: nat
    var topicAlias: map<nat, string>
    const pubIn: AckQueue<Publish>

    ghost function View(): Conn
      reads this, pubIn
    {
      Conn(rxQuota, topicAlias, pubIn.messages)
    }

    constructor (cfg: Config, receiveMax: nat)
      ensures this.cfg == cfg && fresh(pubIn) && View() == Fresh(receiveMax)
    {
      this.cfg := cfg;
      rxQuota, topicAlias := receiveMax, map[];
      pubIn := new AckQueue<Publish>();
    }

    /** `allowed` and `delivered` are the answers of the access-control list and of
        SignalPublish, if they are asked. */
    method OnPublish(incoming: Publish, now: nat, allowed: bool, delivered: bool)
      returns (resp: Response, forwarded: Option<Publish>, err: Option<Error>)
      modifies this, pubIn
      ensures Reply(View(), resp, forwarded, err)
           == Handle(cfg, old(View()), Incoming(incoming, now, allowed, delivered))
    {
      resp, forwarded, err := NoResponse, None, None;
      var pkt := incoming;
      var aclPerformed := false;
      var alias := 0;
      if cfg.version5 {
        if !cfg.retainAvailable && pkt.retain {
          return NoResponse, None, Some(RetainNotSupported);
        }
        if pkt.alias.Some? {
          alias := pkt.alias.value;
          if alias == 0 || alias > cfg.maxAlias {
            return NoResponse, None, Some(InvalidTopicAlias);
          }
          if pkt.topic == "" {
            if alias !in topicAlias {
              return NoResponse, None, Some(InvalidTopicAlias);
            }
            pkt := pkt.(topic := topicAlias[alias]);
            alias := 0;
            aclPerformed := true;
          }
        }
        match pkt.lifetime {
          case Unlimited =>
          case Seconds(n) => pkt := pkt.(expireAt := Some(now + n));
          case NotANumber => return NoResponse, None, Some(BadProperty);
        }
      }
      var reason := Success;
      if !aclPerformed && !allowed {
        reason := NotAuthorized;
      }
      if reason == Success && alias > 0 {
        topicAlias := topicAlias[alias := pkt.topic];
      }
      resp, forwarded, err := OnQoS(pkt, reason, delivered);
    }

    /** The switch on the QoS of a publish whose topic is known. */
    method OnQoS(pkt: Publish, decision: Reason, delivered: bool)
      returns (resp: Response, forwarded: Option<Publish>, err: Option<Error>)
      requires decision == Success || decision == NotAuthorized
      modifies this`rxQuota, pubIn
      ensures Reply(View(), resp, forwarded, err) == Dispatch(old(View()), pkt, decision, delivered)
    {
      resp, forwarded, err := NoResponse, None, None;
      var reason := decision;
      match pkt.qos
      case ExactlyOnce =>
        if pkt.id == 0 {
          return NoResponse, None, Some(ProtocolError);
        }
        if reason == Success {
          if rxQuota == 0 {
            return NoResponse, None, Some(ReceiveMaximumExceeded);
          }
          rxQuota := rxQuota - 1;
        }
        if reason == Success {
          var stored := pubIn.Store(pkt.id, pkt, false);
          if !stored {
            reason := PacketIDInUse;
          }
        }
        resp := Pubrec(pkt.id, reason);
      case _ =>
        if pkt.qos == AtLeastOnce {
          if pkt.id == 0 {
            return NoResponse, None, Some(ProtocolError);
          }
          if reason == Success && rxQuota == 0 {
            return NoResponse, None, Some(ReceiveMaximumExceeded);
          }
          resp := Puback(pkt.id, reason);
        }
        if reason == Success {
          forwarded := Some(pkt);
          if !delivered {
            err := Some(PublishFailed);
          }
        }
    }

    /** onAck for PUBREL, with the callback onReleaseIn. */
    method OnPubrel(id: Id) returns (resp: Response, forwarded: Option<Publish>)
      modifies this`rxQuota, pubIn
      ensures Reply(View(), resp, forwarded, None) == Handle(cfg, old(View()), Pubrel(id))
    {
      forwarded := pubIn.Load(id);
      if forwarded.Some? {
        pubIn.Delete(id);
        rxQuota := rxQuota + 1;
        resp := Pubcomp(id, Success);
      } else {
        resp := Pubcomp(id, PacketIDNotFound);
      }
    }
  }
}
