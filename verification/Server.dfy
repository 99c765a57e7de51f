/** `transport.Server` and the part of `transport.ServerConn` that the rest of the server sees. */
module Server {
  import opened Prelude
  import opened Registry
  import opened FramePort
  import Envelope

  class ServerConn {
    var conn: OutStream?
    var chanWrite: seq<Bytes>
    var chanWriteOpen: bool
    var chanClose: nat
    var isClosed: bool

    constructor (stream: OutStream)
      ensures conn == stream && chanWrite == [] && chanWriteOpen && chanClose == 0 && !isClosed
    {
      conn := stream;
      chanWrite, chanWriteOpen, chanClose, isClosed := [], true, 0, false;
    }

    /** Queues `data`. Sending on the closed channel panics, and the recovered panic drops the message. */
    method Write(data: Bytes)
      modifies this`chanWrite
      ensures chanWrite == if chanWriteOpen then old(chanWrite) + [data] else old(chanWrite)
    {
      if chanWriteOpen {
        chanWrite := chanWrite + [data];
      }
    }

    method SendPacket(pkt: Bytes)
      modifies this`chanWrite
      ensures chanWrite == if chanWriteOpen then old(chanWrite) + [Envelope.Marshal(Envelope.PacketType(pkt))]
                           else old(chanWrite)
    {
      Write(Envelope.Marshal(Envelope.PacketType(pkt)));
    }

    /** Signals the writer and closes the queue; closing a closed channel panics, so it may be called once. */
    method Stop()
      requires chanWriteOpen
      modifies this`chanClose, this`chanWriteOpen
      ensures chanClose == old(chanClose) + 1 && !chanWriteOpen
    {
      chanClose := chanClose + 1;
      chanWriteOpen := false;
    }
  }

  class Server {
    var Conns: map<Addr, ServerConn>
    var ConnsReverse: map<ServerConn, Addr>

    ghost function Maps(): Registry<ServerConn>
      reads this
    {
      Registry(Conns, ConnsReverse)
    }

    ghost function Closed(): set<ServerConn>
      reads this, Conns.Values
    {
      set c | c in Conns.Values && c.isClosed
    }

    ghost function Streamless(): set<ServerConn>
      reads this, Conns.Values
    {
      set c | c in Conns.Values && c.conn == null
    }

    constructor ()
      ensures Maps() == Registry(map[], map[])
    {
      Conns, ConnsReverse := map[], map[];
    }

    method GetConnsByAddr(dst: Addr) returns (conn: ServerConn?)
      ensures match Maps().Lookup(dst)
              case None => conn == null
              case Some(c) => conn == c
    {
      if dst in Conns {
        return Conns[dst];
      }
      return null;
    }

    method DeleteDeadConn(dst: Addr)
      modifies this
      ensures Maps() == old(Maps()).DeleteDeadConn(dst)
    {
      var conn: ServerConn? := null;
      if dst in Conns {
        conn := Conns[dst];
        Conns := Conns - {dst};
      }
      if conn != null {
        ConnsReverse := ConnsReverse - {conn};
      }
    }

    /**
     * Registers a connection under a free address. A taken address stays, unless its connection has no stream: that
     * one is stopped and dropped.
     */
    method SetConns(dst: Addr, serverConn: ServerConn?)
      requires dst in Conns && Conns[dst].conn == null ==> Conns[dst].chanWriteOpen
      modifies this, if dst in Conns then {Conns[dst]} else {}
      ensures serverConn == null && dst !in old(Conns) ==> Maps() == old(Maps())
      ensures serverConn != null ==> Maps() == old(Maps()).SetConns(dst, serverConn, old(Streamless()))
      ensures dst in old(Conns) ==>
                var v: ServerConn := old(Conns)[dst];
                if old(v.conn) != null then Maps() == old(Maps())
                else Conns == old(Conns) - {dst} && ConnsReverse == old(ConnsReverse)
                     && v.chanClose == old(v.chanClose) + 1 && !v.chanWriteOpen
                     && unchanged(v`conn, v`chanWrite, v`isClosed)
      ensures forall a :: a in old(Conns) && old(Conns[a].conn) != null ==> unchanged(old(Conns[a]))
    {
      if dst !in Conns {
        if serverConn == null {
          return;
        }
        Conns := Conns[dst := serverConn];
        ConnsReverse := ConnsReverse[serverConn := dst];
      } else {
        var v := Conns[dst];
        if v.conn == null {
          v.Stop();
          Conns := Conns - {dst};
        }
      }
    }

    method RemoveConnByConnPointer(conn: ServerConn)
      modifies this
      ensures Maps() == old(Maps()).RemoveConnByConnPointer(conn)
    {
      if conn in ConnsReverse {
        Conns := Conns - {ConnsReverse[conn]};
      }
      ConnsReverse := ConnsReverse - {conn};
    }
  }
}
