/** Moving whole buffers over a stream socket: usbip_net_xmit and sendall. */
module Transfer {
  import opened Words

  /** A connected stream socket. turns(t) is what the kernel does in its t-th call: not
      positive means the call fails, w > 0 means that it moves at most w bytes. */
  class Socket {
    const turns: nat -> int
    var turn: nat
    var outgoing: seq<u8>
    var incoming: seq<u8>

    constructor (turns: nat -> int, incoming: seq<u8>)
      ensures this.turns == turns && turn == 0 && outgoing == [] && this.incoming == incoming
    {
      this.turns, turn, outgoing, this.incoming := turns, 0, [], incoming;
    }

    /** send(2): -1, or the length of the piece that was taken. */
    method Send(piece: seq<u8>) returns (n: int)
      requires piece != []
      modifies this`turn, this`outgoing
      ensures turn == old(turn) + 1
      ensures turns(old(turn)) > 0 <==> n != -1
      ensures n == -1 || 0 < n <= |piece|
      ensures outgoing == if n == -1 then old(outgoing) else old(outgoing) + piece[..n]
    {
      var w := turns(turn);
      turn := turn + 1;
      if w <= 0 {
        return -1;
      }
      n := if w < |piece| then w else |piece|;
      outgoing := outgoing + piece[..n];
    }

    /** recv(2): -1, 0 at the end of the stream, or the length of the piece received. */
    method Recv(len: nat) returns (n: int, piece: seq<u8>)
      requires len > 0
      modifies this`turn, this`incoming
      ensures turn == old(turn) + 1
      ensures turns(old(turn)) > 0 && old(incoming) != [] <==> n > 0
      ensures n > 0 ==> n == |piece| <= len && old(incoming) == piece + incoming
      ensures n <= 0 ==> incoming == old(incoming)
    {
      var w := turns(turn);
      turn := turn + 1;
      piece := [];
      if w <= 0 {
        return -1, piece;
      }
      n := if w < len then w else len;
      n := if n < |incoming| then n else |incoming|;
      piece, incoming := incoming[..n], incoming[n..];
    }
  }

  ghost predicate AllTurnsMove(turns: nat -> int) {
    forall t :: turns(t) > 0
  }

  /** What a sending operation did to the stream: all of bytes on success, a prefix on failure. */
  ghost predicate Sent(before: seq<u8>, after: seq<u8>, bytes: seq<u8>, ok: bool) {
    if ok then after == before + bytes else before <= after <= before + bytes
  }

  /** Sending a then, if that succeeded, b. */
  lemma SentThen(s0: seq<u8>, s1: seq<u8>, s2: seq<u8>, a: seq<u8>, b: seq<u8>, ok1: bool, ok2: bool)
    requires Sent(s0, s1, a, ok1)
    requires if ok1 then Sent(s1, s2, b, ok2) else s2 == s1
    ensures Sent(s0, s2, a + b, ok1 && ok2)
  {
    assert s0 + (a + b) == s0 + a + b;
  }

  /** usbip_net_xmit with sending set: usbip_net_send. */
  method Send(s: Socket, buff: seq<u8>) returns (total: int)
    modifies s`turn, s`outgoing
    ensures total == |buff| || total == -1
    ensures Sent(old(s.outgoing), s.outgoing, buff, total >= 0)
    ensures AllTurnsMove(s.turns) ==> total == |buff|
  {
    var at, bufflen := 0, |buff|;
    total := 0;
    if bufflen == 0 {
      return;
    }
    while true
      invariant at + bufflen == |buff| && bufflen > 0 && total == at
      invariant s.outgoing == old(s.outgoing) + buff[..at]
      decreases bufflen
    {
      var nbytes := s.Send(buff[at..]);
      if nbytes <= 0 {
        return -1;
      }
      assert buff[at..] == buff[at..at + bufflen];
      PieceMoves(buff, at, bufflen, nbytes);
      at, bufflen, total := at + nbytes, bufflen - nbytes, total + nbytes;
      if bufflen == 0 {
        assert buff[..at] == buff;
        return;
      }
    }
  }

  /** usbip_net_xmit with sending clear: usbip_net_recv, which fills buff. */
  method Recv(s: Socket, buff: array<u8>) returns (total: int)
    modifies s`turn, s`incoming, buff
    ensures total == buff.Length || total == -1
    ensures total == buff.Length ==> old(s.incoming) == buff[..] + s.incoming
    ensures total == -1 ==> exists k | 0 <= k < buff.Length :: old(s.incoming) == buff[..k] + s.incoming
    ensures AllTurnsMove(s.turns) && |old(s.incoming)| >= buff.Length ==> total == buff.Length
  {
    var at, bufflen := 0, buff.Length;
    total := 0;
    if bufflen == 0 {
      assert buff[..] == [];
      return;
    }
    while true
      invariant at + bufflen == buff.Length && bufflen > 0 && total == at
      invariant old(s.incoming) == buff[..at] + s.incoming
      decreases bufflen
    {
      var nbytes, piece := s.Recv(bufflen);
      if nbytes <= 0 {
        return -1;
      }
      ghost var before := buff[..at];
      forall k | 0 <= k < nbytes {
        buff[at + k] := piece[k];
      }
      assert buff[..at + nbytes] == before + piece;
      at, bufflen, total := at + nbytes, bufflen - nbytes, total + nbytes;
      if bufflen == 0 {
        assert buff[..at] == buff[..];
        return;
      }
    }
  }

  /** sendall of usb_metadata_server.c: len is updated to the number of bytes delivered. */
  method SendAll(s: Socket, buf: seq<u8>, len: u32) returns (ret: int, len': u32)
    requires 0 < len <= |buf|
    modifies s`turn, s`outgoing
    ensures ret == 0 || ret == -1
    ensures len' <= len && s.outgoing == old(s.outgoing) + buf[..len']
    ensures ret == 0 <==> len' == len
    ensures AllTurnsMove(s.turns) ==> ret == 0
  {
    var total, bytesleft: int := 0, len;
    var n := 0;
    while total < len
      invariant 0 <= total <= len && total + bytesleft == len && n != -1
      invariant s.outgoing == old(s.outgoing) + buf[..total]
    {
      n := s.Send(buf[total..total + bytesleft]);
      if n == -1 {
        break;
      }
      PieceMoves(buf, total, bytesleft, n);
      total := total + n;
      bytesleft := bytesleft - n;
    }
    len' := total;
    ret := if n == -1 then -1 else 0;
  }

  lemma PieceMoves(buf: seq<u8>, at: nat, len: nat, n: nat)
    requires at + len <= |buf| && n <= len
    ensures buf[..at] + buf[at..at + len][..n] == buf[..at + n]
  {
  }
}
