/** One node's gossip object over its peer set, in place. */
module GossipNodes {
  import opened Types
  import opened GossipNetwork

  const MESSAGE_ID_LEN: nat := 16

  /** A message handed to the transport for one peer. */
  datatype Packet = Packet(to: NodeId, kind: string, payload: bytes)

  /** The peer set and what has been sent; the connections below it are not part of this model. */
  class P2PNode {
    var peers: set<NodeId>
    var outbox: multiset<Packet>

    constructor (peers: set<NodeId>)
      ensures this.peers == peers && outbox == multiset{}
    {
      this.peers, outbox := peers, multiset{};
    }

    /** Nothing is sent to a node that is not a peer. */
    method SendMessage(peer: NodeId, kind: string, payload: bytes)
      modifies this`outbox
      ensures outbox == old(outbox) + if peer in peers then multiset{Packet(peer, kind, payload)} else multiset{}
    {
      if peer !in peers {
        return;
      }
      outbox := outbox + multiset{Packet(peer, kind, payload)};
    }

    ghost function Packets(to: set<NodeId>, kind: string, payload: bytes): set<Packet> {
      set p | p in to :: Packet(p, kind, payload)
    }

    /** Every peer but the excepted ones gets exactly one copy. */
    method BroadcastMessage(kind: string, payload: bytes, excepted: set<NodeId>)
      modifies this`outbox
      ensures outbox == old(outbox) + multiset(Packets(peers - excepted, kind, payload))
    {
      var todo := peers;
      assert Packets(peers - todo - excepted, kind, payload) == {};
      while todo != {}
        invariant todo <= peers
        invariant outbox == old(outbox) + multiset(Packets(peers - todo - excepted, kind, payload))
        decreases todo
      {
        var peer :| peer in todo;
        ghost var done := Packets(peers - todo - excepted, kind, payload);
        todo := todo - {peer};
        if peer in excepted {
          assert peers - todo - excepted == peers - (todo + {peer}) - excepted;
        } else {
          SendMessage(peer, kind, payload);
          assert Packets(peers - todo - excepted, kind, payload) == done + {Packet(peer, kind, payload)};
        }
      }
      assert peers - {} - excepted == peers - excepted;
    }
  }

  class Gossip {
    const p2p: P2PNode
    var seenMessages: map<Id, real>

    constructor (p2p: P2PNode)
      ensures this.p2p == p2p && seenMessages == map[]
    {
      this.p2p, seenMessages := p2p, map[];
    }

    /** `id` is the random message id drawn for this broadcast. */
    method Broadcast(kind: string, payload: bytes, id: Id, now: real)
      modifies this, p2p`outbox
      ensures if id in old(seenMessages)
              then seenMessages == old(seenMessages) && p2p.outbox == old(p2p.outbox)
              else && seenMessages == old(seenMessages)[id := now]
                   && p2p.outbox == old(p2p.outbox)
                                    + multiset(p2p.Packets(p2p.peers, "gossip:" + kind, id + payload))
    {
      if id !in seenMessages {
        seenMessages := seenMessages[id := now];
        p2p.BroadcastMessage("gossip:" + kind, id + payload, {});
        assert p2p.peers - {} == p2p.peers;
      }
    }

    /** The registered handler, which asks the application's with what follows the id, and only about ids it does not
        know; an exception there counts as False. */
    method HandleGossip(kind: string, handler: (NodeId, bytes) -> bool, peer: NodeId, payload: bytes, now: real)
      returns (accepted: bool)
      modifies this, p2p`outbox
      ensures var cut := if |payload| < 16 then |payload| else 16;
              var id, verdict := payload[..cut], handler(peer, payload[cut..]);
              && (seenMessages, accepted) == Receive(old(seenMessages), id, verdict, now)
              && (accepted <==> verdict && id !in old(seenMessages))
              && seenMessages == (if accepted then old(seenMessages)[id := now] else old(seenMessages))
              && p2p.outbox == old(p2p.outbox)
                               + if accepted
                                 then multiset(p2p.Packets(p2p.peers - {peer}, "gossip:" + kind, payload))
                                 else multiset{}
    {
      var cut := if |payload| < MESSAGE_ID_LEN then |payload| else MESSAGE_ID_LEN;
      var id := payload[..cut];
      if id in seenMessages {
        return false;
      }
      if !handler(peer, payload[cut..]) {
        return false;
      }
      seenMessages := seenMessages[id := now];
      p2p.BroadcastMessage("gossip:" + kind, payload, {peer});
      return true;
    }

    /** The entries kept are exactly those at most 300 seconds old. */
    method CleanupLoop(now: real)
      modifies this`seenMessages
      ensures seenMessages == Expire(old(seenMessages), now)
      ensures forall id :: id in seenMessages <==>
                id in old(seenMessages) && now <= old(seenMessages)[id] + 300.0
    {
      var expired := set id | id in seenMessages && now - seenMessages[id] > EXPIRY_TIME;
      var left := expired;
      while left != {}
        invariant left <= expired <= old(seenMessages).Keys
        invariant seenMessages == old(seenMessages) - (expired - left)
        decreases left
      {
        var key :| key in left;
        left := left - {key};
        seenMessages := seenMessages - {key};
      }
    }
  }
}
