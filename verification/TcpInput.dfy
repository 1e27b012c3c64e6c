/**
 * The input side of the TCP client (src/ksi/net_tcp_async.c:274-363): arbitrary pieces of a byte stream are put
 * together into PDUs in a fixed buffer. The outcomes of recv are a parameter.
 */
module TcpInput {
  import opened Common
  import opened Tlv

  /** What recv can return. */
  datatype Recv = Data(bytes: seq<Byte>) | WouldBlock | Closed | Failed

  /** recv never returns more than it was asked for, and never nothing. */
  predicate PossibleRecv(r: Recv) { r.Data? ==> 1 <= |r.bytes| <= TLV_MAX_SIZE }

  /** The bytes that can be read before the socket stops delivering. */
  function Arrived(script: seq<Recv>): seq<Byte>
    decreases |script|
  {
    if script == [] || !script[0].Data? then [] else script[0].bytes + Arrived(script[1..])
  }

  /** Why it stops. */
  function Ending(script: seq<Recv>): Recv
    decreases |script|
  {
    if script == [] then WouldBlock else if script[0].Data? then Ending(script[1..]) else script[0]
  }

  lemma NextArrival(script: seq<Recv>, i: nat)
    requires i <= |script|
    ensures i == |script| || !script[i].Data? ==> Arrived(script[i..]) == []
    ensures i == |script| ==> Ending(script[i..]).WouldBlock?
    ensures i < |script| && !script[i].Data? ==> Ending(script[i..]) == script[i]
    ensures i < |script| && script[i].Data? ==>
              && Arrived(script[i..]) == script[i].bytes + Arrived(script[i + 1..])
              && Ending(script[i..]) == Ending(script[i + 1..])
    ensures script[0..] == script
  {
    assert i < |script| ==> script[i..][1..] == script[i + 1..];
  }

  class TcpInput {
    const inBuf: array<Byte>
    var inLen: nat
    var respQueue: seq<seq<Byte>>

    ghost var stream: seq<Byte>             // all bytes of this connection
    ghost var queued: seq<seq<Byte>>        // all PDUs of this connection put into the queue

    /** The buffer holds what tiling leaves over; so there is always room for one more read. */
    ghost predicate Valid()
      reads this, inBuf
    {
      && inBuf.Length == 2 * TLV_MAX_SIZE
      && inLen < TLV_MAX_SIZE
      && Tile(stream) == Tiling(queued, inBuf[..inLen])
    }

    constructor ()
      ensures Valid() && fresh(inBuf) && stream == [] && queued == [] && respQueue == []
    {
      inBuf := new Byte[2 * TLV_MAX_SIZE];
      inLen, respQueue, stream, queued := 0, [], [], [];
      new;
      assert inBuf[..0] == [];
      TileStep([]);
    }

    /** closeSocket: the unfinished rest is dropped, and a new connection starts with an empty stream. */
    method CloseSocket()
      requires inBuf.Length == 2 * TLV_MAX_SIZE
      modifies this`inLen, this`stream, this`queued
      ensures Valid() && inLen == 0 && stream == [] && queued == []
    {
      inLen, stream, queued := 0, [], [];
      assert inBuf[..0] == [];
      TileStep([]);
    }

    /** recv writes behind what is already in the buffer. */
    method Append(bytes: seq<Byte>)
      requires inLen + |bytes| <= inBuf.Length
      modifies inBuf, this`inLen
      ensures inLen == old(inLen) + |bytes|
      ensures inBuf[..inLen] == old(inBuf[..inLen]) + bytes
    {
      var n := inLen;
      forall i | 0 <= i < |bytes| {
        inBuf[n + i] := bytes[i];
      }
      inLen := n + |bytes|;
    }

    /** memmove of the bytes behind the first `count`. */
    method Remove(count: nat)
      requires count <= inLen <= inBuf.Length
      modifies inBuf, this`inLen
      ensures inLen == old(inLen) - count
      ensures inBuf[..inLen] == old(inBuf[..inLen])[count..]
    {
      inLen := inLen - count;
      forall i | 0 <= i < inLen {
        inBuf[i] := inBuf[i + count];
      }
    }

    /** The inner loop: every complete PDU moves from the buffer into the queue. */
    method Drain()
      requires inLen <= inBuf.Length
      modifies inBuf, this`inLen, this`respQueue, this`queued
      ensures inLen <= old(inLen)
      ensures var t := Tile(old(inBuf[..inLen]));
              inBuf[..inLen] == t.rest && respQueue == old(respQueue) + t.pdus && queued == old(queued) + t.pdus
    {
      hide Tile, Complete, TlvLength, Prepend;
      ghost var t, done := Tile(inBuf[..inLen]), [];
      assert done + t.pdus == t.pdus;
      while inLen > 0
        invariant inLen <= old(inLen) && inLen <= inBuf.Length
        invariant respQueue == old(respQueue) + done && queued == old(queued) + done
        invariant t == After(done, Tile(inBuf[..inLen]))
        decreases inLen
      {
        ghost var s := inBuf[..inLen];
        TileStep(s);
        var res, ftlv := MemRead(inBuf[..inLen]);
        var count := ftlv.hdrLen + ftlv.datLen;
        if !(count != 0 && inLen >= count) {
          break;
        }
        NoShortHeader(s);
        // The header is complete here, so reading it has succeeded: the branch that closes the connection is dead.
        assert res == KSI_OK;
        var pdu := inBuf[..count];
        assert pdu == s[..count];
        TakeOne(done, s, count);
        respQueue := respQueue + [pdu];
        Remove(count);
        queued := queued + [pdu];
        done := done + [pdu];
      }
      StoppedAt(done, inBuf[..inLen]);
      NoTlvInNothing(inBuf[..inLen]);
    }

    /**
     * The input loop of dispatch. `readable` is POLLIN; the outcomes of the reads come from `script`, and when it
     * ends the socket would block. All complete PDUs of the bytes received are queued, in order, and only those.
     */
    method HandleInput(readable: bool, script: seq<Recv>) returns (res: int, ghost got: seq<Byte>)
      requires Valid() && forall i :: 0 <= i < |script| ==> PossibleRecv(script[i])
      modifies this, inBuf
      ensures Valid()
      ensures got == if readable then Arrived(script) else []
      ensures res == KSI_OK || res == KSI_ASYNC_CONNECTION_CLOSED
      ensures res == KSI_ASYNC_CONNECTION_CLOSED <==> readable && (Ending(script).Closed? || Ending(script).Failed?)
      ensures res == KSI_OK ==> stream == old(stream) + got
      ensures res != KSI_OK ==> stream == []
      ensures var t := Tile(old(stream) + got);
              old(queued) <= t.pdus && respQueue == old(respQueue) + t.pdus[|old(queued)|..]
    {
      hide Tile, Arrived, Ending;
      got := [];
      StartsWithNothing();
      var i := 0;
      NextArrival(script, 0);
      var inputProcessed := false;
      while !inputProcessed
        invariant Valid() && i <= |script|
        invariant stream == old(stream) + got
        invariant old(queued) <= queued && respQueue == old(respQueue) + queued[|old(queued)|..]
        invariant readable ==> got + Arrived(script[i..]) == Arrived(script) && Ending(script[i..]) == Ending(script)
        invariant readable && inputProcessed ==> Arrived(script[i..]) == [] && Ending(script[i..]).WouldBlock?
        invariant !readable ==> got == []
        decreases !inputProcessed, |script| - i
      {
        inputProcessed := true;
        var bytes := [];
        NextArrival(script, i);
        if readable {
          var outcome := if i < |script| then script[i] else WouldBlock;
          if outcome.Closed? || outcome.Failed? {
            CloseSocket();
            return KSI_ASYNC_CONNECTION_CLOSED, got;
          }
          if outcome.Data? {
            inputProcessed := false;
            bytes := outcome.bytes;
            i := i + 1;
          }
        }
        Take(bytes);
        got := got + bytes;
      }
      res := KSI_OK;
    }

    lemma StartsWithNothing()
      requires Valid()
      ensures stream + [] == stream && respQueue + queued[|queued|..] == respQueue
    {
      assert stream + [] == stream && queued[|queued|..] == [] && respQueue + [] == respQueue;
    }

    /**
     * New bytes, possibly none, and the drain that follows. The test that a read of full size fits into the buffer
     * always succeeds, so the branch for a buffer that is too full does not occur.
     */
    method Take(bytes: seq<Byte>)
      requires Valid() && |bytes| <= TLV_MAX_SIZE
      modifies this, inBuf
      ensures Valid() && stream == old(stream) + bytes
      ensures old(queued) <= queued && respQueue == old(respQueue) + queued[|old(queued)|..]
    {
      TileAppend(stream, bytes);
      Append(bytes);
      stream := stream + bytes;
      Drain();
      RestIsShort(old(inBuf[..inLen]) + bytes);
      hide Tile;
      assert queued[|old(queued)|..] == Tile(old(inBuf[..inLen]) + bytes).pdus;
    }

    /** getResponse: PDUs leave the queue in the order in which they came. */
    method GetResponse() returns (response: Option<seq<Byte>>, left: nat)
      modifies this`respQueue
      ensures response.None? <==> old(respQueue) == []
      ensures response.Some? ==> [response.value] + respQueue == old(respQueue)
      ensures left == |respQueue|
    {
      response := None;
      if |respQueue| > 0 {
        response := Some(respQueue[0]);
        respQueue := respQueue[1..];
      }
      left := |respQueue|;
    }
  }

  /** The PDUs taken so far, followed by the rest of the tiling. */
  lemma TakeOne(done: seq<seq<Byte>>, s: seq<Byte>, n: nat)
    requires n <= |s| && Tile(s) == Prepend(s[..n], Tile(s[n..]))
    ensures After(done, Tile(s)) == After(done + [s[..n]], Tile(s[n..]))
  {
    hide Tile;
    assert done + ([s[..n]] + Tile(s[n..]).pdus) == (done + [s[..n]]) + Tile(s[n..]).pdus;
  }

  /** Without a whole header, nothing is complete; with one, only the length of the TLV matters. */
  lemma NoShortHeader(s: seq<Byte>)
    requires s != []
    ensures Complete(s) <==> |s| >= HeaderLength(s[0]) && |s| >= TlvLength(s)
  {
  }

  lemma NoTlvInNothing(s: seq<Byte>)
    ensures s == [] ==> !Complete(s)
  {
  }
}
