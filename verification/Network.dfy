/** The framing pair over a byte stream that arrives in arbitrary chunks. */
module Network {
  import opened Types
  import opened Wire

  function Flatten(chunks: seq<bytes>): bytes {
    if chunks == [] then [] else chunks[0] + Flatten(chunks[1..])
  }

  /** The receiving end of a connection: the chunks still to come, each non-empty, then the end of the stream. A
      receive that raises is the end of the stream too. */
  class Socket {
    var chunks: seq<bytes>

    ghost predicate Valid()
      reads this
    {
      forall i :: 0 <= i < |chunks| ==> chunks[i] != []
    }

    function Stream(): bytes
      reads this
    {
      Flatten(chunks)
    }

    constructor (chunks: seq<bytes>)
      requires forall i :: 0 <= i < |chunks| ==> chunks[i] != []
      ensures Valid() && this.chunks == chunks
    {
      this.chunks := chunks;
    }

    /** At most `limit` bytes of the next chunk, and nothing only at the end. */
    method Recv(limit: nat) returns (packet: bytes)
      requires Valid() && limit > 0
      modifies this
      ensures Valid()
      ensures |packet| <= limit && old(Stream()) == packet + Stream()
      ensures packet == [] <==> old(Stream()) == []
    {
      if chunks == [] {
        return [];
      }
      var first := chunks[0];
      if |first| <= limit {
        packet, chunks := first, chunks[1..];
      } else {
        packet, chunks := first[..limit], [first[limit..]] + chunks[1..];
        assert first == packet + first[limit..];
        assert Flatten(chunks) == first[limit..] + Flatten(chunks[1..]);
      }
    }
  }

  /** Exactly the next `n` bytes whatever the chunks; `None` once fewer than `n` are left. */
  method RecvExact(sock: Socket, n: nat) returns (r: Option<bytes>)
    requires sock.Valid()
    modifies sock
    ensures sock.Valid()
    ensures var stream := old(sock.Stream());
            if n <= |stream|
            then r == Some(stream[..n]) && sock.Stream() == stream[n..]
            else r == None && sock.Stream() == []
  {
    var data: bytes := [];
    while |data| < n
      invariant sock.Valid()
      invariant |data| <= n && data + sock.Stream() == old(sock.Stream())
    {
      var packet := sock.Recv(n - |data|);
      if packet == [] {
        return None;
      }
      data := data + packet;
    }
    return Some(data);
  }

  class TcpConnection {
    /** The peer's address, numbered; connections compare equal by it. */
    const addr: nat
    const sock: Socket
    var connected: bool
    /** Everything written to the peer. */
    var sent: bytes

    constructor (addr: nat, sock: Socket)
      ensures this.addr == addr && this.sock == sock && connected && sent == []
    {
      this.addr, this.sock, connected, sent := addr, sock, true, [];
    }

    /** A closed connection swallows the message; a message of 2^32 bytes or more raises. */
    method SendMessage(message: bytes) returns (raised: Option<Error>)
      modifies this`sent
      ensures if !connected then raised == None && sent == old(sent)
              else
                match Frame(message)
                case Err(e) => raised == Some(e) && sent == old(sent)
                case Ok(f) => raised == None && sent == old(sent) + f
    {
      if !connected {
        return None;
      }
      var length := ToBigEndian(|message|, 4);
      if length.Err? {
        return Some(length.error);
      }
      sent := sent + (length.value + message);
      return None;
    }
  }

  /** The server side of one connection: the messages passed to the listeners, and how often a disconnect was
      announced. */
  class TcpServer {
    var received: seq<bytes>
    var disconnects: nat

    constructor ()
      ensures received == [] && disconnects == 0
    {
      received, disconnects := [], 0;
    }

    /** One pass of the receive loop: one whole frame, or the disconnect. */
    method RecvLoop(conn: TcpConnection)
      requires conn.sock.Valid()
      modifies this, conn`connected, conn.sock
      ensures conn.sock.Valid()
      ensures var (messages, left) := ReadFrames(old(conn.sock.Stream()));
              if messages == []
              then
                && received == old(received) && !conn.connected && conn.sock.Stream() == []
                && disconnects == old(disconnects) + if old(conn.connected) then 1 else 0
              else
                && received == old(received) + [messages[0]]
                && conn.connected == old(conn.connected) && disconnects == old(disconnects)
                && ReadFrames(conn.sock.Stream()) == (messages[1..], left)
                && |conn.sock.Stream()| < |old(conn.sock.Stream())|
    {
      ghost var stream := conn.sock.Stream();
      var lenBytes := RecvExact(conn.sock, 4);
      if lenBytes.None? {
        Disconnect(conn);
        return;
      }
      var message := RecvExact(conn.sock, FromBigEndian(lenBytes.value));
      if message.None? {
        Disconnect(conn);
        return;
      }
      ghost var length := FromBigEndian(stream[..4]);
      assert stream[4..][..length] == stream[4..4 + length];
      assert stream[4..][length..] == stream[4 + length..];
      received := received + [message.value];
    }

    method Disconnect(conn: TcpConnection)
      modifies this`disconnects, conn`connected
      ensures !conn.connected
      ensures disconnects == old(disconnects) + if old(conn.connected) then 1 else 0
    {
      if conn.connected {
        conn.connected := false;
        disconnects := disconnects + 1;
      }
    }

    /** The listening thread: passes of the receive loop until the connection is gone. Every frame of the stream is
        delivered once and in order, and one disconnect is announced. In particular the messages a stream carries
        arrive exactly, in order, however the stream is cut into chunks. */
    method Listen(conn: TcpConnection)
      requires conn.sock.Valid() && conn.connected
      modifies this, conn`connected, conn.sock
      ensures received == old(received) + ReadFrames(old(conn.sock.Stream())).0
      ensures !conn.connected && disconnects == old(disconnects) + 1 && conn.sock.Stream() == []
      ensures forall ms :: AllSendable(ms) && Carries(old(conn.sock.Stream()), ms) ==>
                DeserializeAll(received[|old(received)|..]) == Ok(ms)
    {
      hide AllSendable, Carries, DeserializeAll, Flatten, ReadFrames;
      NothingToRead();
      ghost var stream := conn.sock.Stream();
      while conn.connected
        invariant conn.sock.Valid()
        invariant received + ReadFrames(conn.sock.Stream()).0 == old(received) + ReadFrames(old(conn.sock.Stream())).0
        invariant !conn.connected ==> conn.sock.Stream() == []
        invariant disconnects == old(disconnects) + if conn.connected then 0 else 1
        decreases conn.connected, |conn.sock.Stream()|
      {
        ghost var before := received;
        ghost var frames := ReadFrames(conn.sock.Stream()).0;
        RecvLoop(conn);
        if frames != [] {
          assert before + frames == before + [frames[0]] + frames[1..];
        }
      }
      assert received == old(received) + ReadFrames(stream).0;
      forall ms | AllSendable(ms) && Carries(stream, ms) ensures DeserializeAll(ReadFrames(stream).0) == Ok(ms) {
        WireRoundTrip(ms, stream);
      }
    }
  }
}
