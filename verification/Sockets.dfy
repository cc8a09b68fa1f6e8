/**
 * core/stablemate_core/sockets.py: one newline-framed message, read the same however it is cut into packets.
 *
 * A packet is what one `recv` returns: some bytes, or none once the other side has closed.
 */
module Sockets {
  import opened Wrappers
  import opened Text

  type Byte = bv8
  type Bytes = seq<Byte>

  const NEWLINE: Byte := 10

  /** The two texts `read_message` raises: the second when it has not seen a newline yet. */
  datatype Error = Exceeded | ExceededWithNoNewline

  /** `chunk.find(b"\n")`. */
  function NewlineIn(chunk: Bytes): (i: int)
    ensures -1 <= i < |chunk|
    ensures i >= 0 ==> chunk[i] == NEWLINE
    ensures forall k :: 0 <= k < (if i < 0 then |chunk| else i) ==> chunk[k] != NEWLINE
  {
    if chunk == [] then -1
    else if chunk[0] == NEWLINE then 0
    else
      var rest := NewlineIn(chunk[1..]);
      assert forall k :: 0 < k < |chunk| ==> chunk[k] == chunk[1..][k - 1];
      if rest < 0 then -1 else rest + 1
  }

  /** The message a stream starts with: the bytes before its first newline, or all of them. */
  function MessageOf(stream: Bytes): Bytes {
    if NewlineIn(stream) < 0 then stream else stream[..NewlineIn(stream)]
  }

  /** What one call makes of the packets to come, `taken` being the bytes it has so far. */
  function Receive(packets: seq<Bytes>, taken: Bytes, limit: int): Result<Bytes, Error> {
    if packets == [] || packets[0] == [] then Ok(taken)
    else
      var newline := NewlineIn(packets[0]);
      if newline >= 0 then
        if |taken| + newline > limit then Err(Exceeded) else Ok(taken + packets[0][..newline])
      else if |taken| + |packets[0]| > limit then Err(ExceededWithNoNewline)
      else Receive(packets[1..], taken + packets[0], limit)
  }

  /** How many packets that call takes off the connection. */
  function Consumed(packets: seq<Bytes>, taken: nat, limit: int): (n: nat)
    ensures n <= |packets|
  {
    if packets == [] then 0
    else if packets[0] == [] || NewlineIn(packets[0]) >= 0 || taken + |packets[0]| > limit then 1
    else 1 + Consumed(packets[1..], taken + |packets[0]|, limit)
  }

  class Connection {
    var packets: seq<Bytes>

    constructor (incoming: seq<Bytes>)
      ensures packets == incoming
    {
      packets := incoming;
    }

    method Recv() returns (chunk: Bytes)
      modifies this
      ensures old(packets) == [] ==> chunk == [] && packets == []
      ensures old(packets) != [] ==> [chunk] + packets == old(packets)
    {
      if packets == [] {
        chunk := [];
      } else {
        chunk := packets[0];
        packets := packets[1..];
      }
    }

    /** `read_message`, before the bytes are decoded. */
    method ReadMessage(limit: int) returns (r: Result<Bytes, Error>)
      modifies this
      ensures r == Receive(old(packets), [], limit)
      ensures packets == old(packets)[Consumed(old(packets), 0, limit)..]
    {
      var message: Bytes := [];
      var total := 0;
      ghost var read := 0;
      while true
        invariant total == |message|
        invariant read <= |old(packets)| && packets == old(packets)[read..]
        invariant Receive(packets, message, limit) == Receive(old(packets), [], limit)
        invariant read + Consumed(packets, total, limit) == Consumed(old(packets), 0, limit)
        decreases |packets|
      {
        ghost var before := packets;
        var chunk := Recv();
        if chunk == [] {
          return Ok(message);
        }
        read := read + 1;
        assert packets == before[1..] && chunk == before[0];
        var newline := NewlineIn(chunk);
        if newline >= 0 {
          message := message + chunk[..newline];
          total := total + newline;
          if total > limit {
            return Err(Exceeded);
          }
          return Ok(message);
        }
        message := message + chunk;
        total := total + |chunk|;
        if total > limit {
          return Err(ExceededWithNoNewline);
        }
      }
    }
  }

  // ---- the packets do not matter ----

  /** A split of a stream into packets, none of them empty. */
  predicate Packets(packets: seq<Bytes>) {
    forall k :: 0 <= k < |packets| ==> packets[k] != []
  }

  lemma NewlineIsAt(chunk: Bytes, i: int)
    requires -1 <= i < |chunk| && (i >= 0 ==> chunk[i] == NEWLINE)
    requires forall k :: 0 <= k < (if i < 0 then |chunk| else i) ==> chunk[k] != NEWLINE
    ensures NewlineIn(chunk) == i
  {
  }

  /** The message so far does not change when more of it comes, and is complete once a newline does. */
  lemma MessageGrows(taken: Bytes, packet: Bytes, rest: Bytes)
    requires NewlineIn(taken) < 0
    ensures NewlineIn(packet) >= 0 ==> MessageOf(taken + packet + rest) == taken + packet[..NewlineIn(packet)]
    ensures NewlineIn(packet) < 0 ==> NewlineIn(taken + packet) < 0
  {
    var stream := taken + packet + rest;
    var i := NewlineIn(packet);
    if i >= 0 {
      NewlineIsAt(stream, |taken| + i);
      assert stream[..|taken| + i] == taken + packet[..i];
    } else {
      NewlineIsAt(taken + packet, -1);
    }
  }

  /** A message is no shorter than the bytes that hold no newline at its start. */
  lemma MessageIsLonger(taken: Bytes, rest: Bytes)
    requires NewlineIn(taken) < 0
    ensures |taken| <= |MessageOf(taken + rest)|
  {
    assert forall k :: 0 <= k < |taken| ==> (taken + rest)[k] == taken[k];
  }

  lemma FlattenStep(taken: Bytes, packets: seq<Bytes>)
    requires packets != []
    ensures taken + Flatten(packets) == taken + packets[0] + Flatten(packets[1..])
  {
  }

  lemma {:induction false} ReceiveIsTheMessage(packets: seq<Bytes>, taken: Bytes, limit: int)
    requires Packets(packets) && NewlineIn(taken) < 0 && (packets == [] || |taken| <= limit || taken == [])
    ensures var r, message := Receive(packets, taken, limit), MessageOf(taken + Flatten(packets));
      && (r.Ok? ==> r.value == message && (packets != [] ==> |message| <= limit))
      && (r.Err? ==> packets != [] && |message| > limit)
    decreases |packets|
  {
    if packets == [] {
      assert taken + Flatten(packets) == taken;
    } else {
      var rest := Flatten(packets[1..]);
      FlattenStep(taken, packets);
      MessageGrows(taken, packets[0], rest);
      if NewlineIn(packets[0]) < 0 {
        MessageIsLonger(taken + packets[0], rest);
        if |taken| + |packets[0]| <= limit {
          ReceiveIsTheMessage(packets[1..], taken + packets[0], limit);
          if packets[1..] == [] {
            assert taken + packets[0] + rest == taken + packets[0];
          }
        }
      }
    }
  }

  /**
   * However a stream is cut into packets, the answer is its message, or an error exactly when some byte came and the
   * message is longer than the limit.
   */
  lemma ReadMessageIgnoresPackets(packets: seq<Bytes>, limit: int)
    requires Packets(packets)
    ensures var r, stream := Receive(packets, [], limit), Flatten(packets);
      && (r.Err? <==> stream != [] && |MessageOf(stream)| > limit)
      && (r.Ok? ==> r.value == MessageOf(stream))
  {
    ReceiveIsTheMessage(packets, [], limit);
    assert [] + Flatten(packets) == Flatten(packets);
    if packets != [] {
      FlattenStep([], packets);
    }
  }

  /** Two splits of one stream are read alike, but for the text of an error. */
  lemma SameStreamSameMessage(a: seq<Bytes>, b: seq<Bytes>, limit: int)
    requires Packets(a) && Packets(b) && Flatten(a) == Flatten(b)
    ensures Receive(a, [], limit).Ok? ==> Receive(b, [], limit) == Receive(a, [], limit)
    ensures Receive(a, [], limit).Err? ==> Receive(b, [], limit).Err?
  {
    ReadMessageIgnoresPackets(a, limit);
    ReadMessageIgnoresPackets(b, limit);
  }

  // ---- what is left unread, and the text of an error ----

  /** The packets before the first that holds a newline. */
  function Early(packets: seq<Bytes>): (early: seq<Bytes>)
    ensures early <= packets
    ensures |early| < |packets| ==> NewlineIn(packets[|early|]) >= 0
  {
    if packets == [] || NewlineIn(packets[0]) >= 0 then []
    else [packets[0]] + Early(packets[1..])
  }

  /** Nothing is read past the packet that holds the newline, so a call never waits for bytes after its message. */
  lemma {:induction false} ReadsNoFurther(packets: seq<Bytes>, taken: nat, limit: int)
    ensures Consumed(packets, taken, limit) <= |Early(packets)| + 1
  {
    hide NewlineIn, Receive;
    if packets != [] && packets[0] != [] && NewlineIn(packets[0]) < 0 && taken + |packets[0]| <= limit {
      ReadsNoFurther(packets[1..], taken + |packets[0]|, limit);
    }
  }

  lemma {:induction false} ErrorTextFrom(packets: seq<Bytes>, taken: Bytes, limit: int)
    requires Packets(packets) && Receive(packets, taken, limit).Err?
    ensures Receive(packets, taken, limit).error.Exceeded? <==> Early(packets) == [] || |taken| + |Flatten(Early(packets))| <= limit
  {
    if NewlineIn(packets[0]) < 0 {
      var early := Early(packets);
      assert early[1..] == Early(packets[1..]);
      FlattenStep([], early);
      if |taken| + |packets[0]| <= limit {
        ErrorTextFrom(packets[1..], taken + packets[0], limit);
      }
    }
  }

  /** The text of an error does depend on the packets: it tells of no newline exactly when the packets before the first newline's are already too long. */
  lemma ErrorTextExactlyWhen(packets: seq<Bytes>, limit: nat)
    requires Packets(packets) && Receive(packets, [], limit).Err?
    ensures Receive(packets, [], limit) == Err(ExceededWithNoNewline) <==> |Flatten(Early(packets))| > limit
  {
    ErrorTextFrom(packets, [], limit);
  }

  /** Two bytes and a newline, limit one, whole and in pieces. */
  lemma ErrorTextDependsOnPackets()
    ensures exists a, b, limit: nat ::
      Packets(a) && Packets(b) && Flatten(a) == Flatten(b) && Receive(a, [], limit) != Receive(b, [], limit)
  {
    var whole: seq<Bytes> := [[1, 1, NEWLINE]];
    var pieces: seq<Bytes> := [[1, 1], [NEWLINE]];
    NewlineIsAt([1, 1, NEWLINE], 2);
    NewlineIsAt([1, 1], -1);
    assert Flatten(whole[1..]) == [];
    assert pieces[1..] == [[NEWLINE]] && Flatten(pieces[1..][1..]) == [];
    assert Flatten(whole) == [1, 1, NEWLINE] == Flatten(pieces);
    assert Receive(whole, [], 1) == Err(Exceeded);
    assert Receive(pieces, [], 1) == Err(ExceededWithNoNewline);
  }

  // ---- which packets are received ----

  /** After this packet nothing more is received: it is empty, it holds a newline, or with it there are too many bytes. */
  predicate EndsTheCall(packets: seq<Bytes>, i: nat, taken: nat, limit: int)
    requires i < |packets|
  {
    packets[i] == [] || NEWLINE in packets[i] || taken + |Flatten(packets[..i + 1])| > limit
  }

  /** Exactly the packets up to the first that ends the call are received, or all of them if none does. */
  lemma {:induction false} ReceivesExactly(packets: seq<Bytes>, taken: nat, limit: int)
    ensures var n := Consumed(packets, taken, limit);
      && (forall i :: 0 <= i < n - 1 ==> !EndsTheCall(packets, i, taken, limit))
      && (n < |packets| ==> n > 0 && EndsTheCall(packets, n - 1, taken, limit))
  {
    if packets != [] {
      var rest := packets[1..];
      NewlineInExactlyWhen(packets[0]);
      assert packets[..1] == [packets[0]] && Flatten(packets[..1]) == packets[0] + Flatten([]) == packets[0];
      ReceivesExactly(rest, taken + |packets[0]|, limit);
      forall i | 0 < i < |packets|
        ensures EndsTheCall(packets, i, taken, limit) <==> EndsTheCall(rest, i - 1, taken + |packets[0]|, limit)
      {
        assert packets[..i + 1][1..] == rest[..i] && packets[..i + 1][0] == packets[0];
      }
    }
  }

  lemma NewlineInExactlyWhen(chunk: Bytes)
    ensures NewlineIn(chunk) >= 0 <==> NEWLINE in chunk
  {
  }
}
