/** Reassembly of messages from a byte stream that arrives in arbitrary pieces. */
module StreamReader {
  import opened Bytes
  import opened MessageHeader

  const BUFFER_SIZE: nat := 0x400000
  const DEADBEEF: nat := 0xDEADBEEF

  datatype Option<T> = None | Some(value: T)

  /** A whole message: an 8-byte header with the message's own length, the marker, the pieces. It
      may be as long as the header can say, which is more than the buffer holds. */
  ghost predicate IsFrame(m: seq<byte>) {
    && PREFIX_SIZE <= |m|
    && MessageLength(Value(m[..8])) == |m|
    && Value(m[8..PREFIX_SIZE]) == DEADBEEF
  }

  ghost predicate AreFrames(frames: seq<seq<byte>>) {
    forall i :: 0 <= i < |frames| ==> IsFrame(frames[i])
  }

  /** The bytes still to be handed out are these messages. */
  ghost predicate Framed(frames: seq<seq<byte>>, bytes: seq<byte>) {
    AreFrames(frames) && Flatten(frames) == bytes
  }

  /** What the buffer's front shows is the first message's header, as soon as it is all there. */
  lemma {:induction false} FrontIsFrame(frames: seq<seq<byte>>, live: seq<byte>, rest: seq<byte>)
    requires Framed(frames, live + rest)
    ensures |live| > 0 ==> frames != []
    ensures PREFIX_SIZE <= |live| ==>
        MessageLength(Value(live[..8])) == |frames[0]| && Value(live[8..PREFIX_SIZE]) == DEADBEEF
    ensures frames != [] ==> IsFrame(frames[0])
    ensures frames != [] && |frames[0]| <= |live| ==>
        live[..|frames[0]|] == frames[0] && Framed(frames[1..], live[|frames[0]|..] + rest)
  {
    if frames != [] {
      var m, all := frames[0], live + rest;
      assert all == m + Flatten(frames[1..]);
      assert |m| <= |all| && all[..|m|] == m && all[|m|..] == Flatten(frames[1..]);
      if PREFIX_SIZE <= |live| {
        assert live[..8] == all[..8] == m[..8];
        assert live[8..PREFIX_SIZE] == all[8..PREFIX_SIZE] == m[8..PREFIX_SIZE];
      }
      if |m| <= |live| {
        assert live[..|m|] == all[..|m|];
        assert live[|m|..] + rest == all[|m|..];
      }
    }
  }

  function Min(a: nat, b: nat): nat {
    if a < b then a else b
  }

  /** What a read brings when `room` is offered: no more than the next piece, the room and what there
      is; nothing when there is no next piece, or the read fails. */
  function Handed(chunks: seq<int>, room: nat, unread: nat): (n: nat)
    ensures n <= room && n <= unread
    ensures chunks != [] && chunks[0] > 0 && room > 0 && unread > 0 ==> n > 0
  {
    if chunks == [] || chunks[0] <= 0 then 0 else Min(chunks[0], Min(room, unread))
  }

  /** The pieces still to come after a read. */
  function Rest(chunks: seq<int>, room: nat): seq<int> {
    if room == 0 || chunks == [] then chunks else chunks[1..]
  }

  /** How much is in the buffer after up to `polls` polls for a message of this length, of which nothing is
      read any more once it is there. */
  function Arrived(chunks: seq<int>, live: nat, unread: nat, length: nat, polls: nat): (n: nat)
    requires live <= BUFFER_SIZE
    ensures live <= n <= BUFFER_SIZE
    decreases polls
  {
    if polls == 0 || length <= live then live
    else
      var room := BUFFER_SIZE - live;
      var n := Handed(chunks, room, unread);
      Arrived(Rest(chunks, room), live + n, unread - n, length, polls - 1)
  }

  lemma {:induction false} ArrivedStep(chunks: seq<int>, live: nat, unread: nat, length: nat, polls: nat)
    requires live <= BUFFER_SIZE
    ensures polls == 0 || length <= live ==> Arrived(chunks, live, unread, length, polls) == live
    ensures polls > 0 && live < length ==>
              var n := Handed(chunks, BUFFER_SIZE - live, unread);
              Arrived(chunks, live, unread, length, polls)
              == Arrived(Rest(chunks, BUFFER_SIZE - live), live + n, unread - n, length, polls - 1)
    ensures polls == 1 && live < length ==>
              Arrived(chunks, live, unread, length, 1) == live + Handed(chunks, BUFFER_SIZE - live, unread)
  {
  }

  /** The next reads all bring something. */
  ghost predicate Flowing(chunks: seq<int>, polls: nat) {
    polls <= |chunks| && forall i :: 0 <= i < polls ==> chunks[i] > 0
  }

  /** A message that fits the buffer has arrived after as many polls as it has bytes missing, if the
      reads bring something; one that does not fit never arrives. */
  lemma {:induction false} ArrivesInTime(chunks: seq<int>, live: nat, unread: nat, length: nat, polls: nat)
    requires live <= BUFFER_SIZE && length <= live + unread
    ensures length > BUFFER_SIZE ==> Arrived(chunks, live, unread, length, polls) < length
    ensures length <= BUFFER_SIZE && Flowing(chunks, polls) && length <= live + polls ==>
              length <= Arrived(chunks, live, unread, length, polls)
    decreases polls
  {
    if polls > 0 && live < length <= BUFFER_SIZE && Flowing(chunks, polls) {
      var room := BUFFER_SIZE - live;
      var n := Handed(chunks, room, unread);
      assert Flowing(chunks[1..], polls - 1);
      ArrivesInTime(chunks[1..], live + n, unread - n, length, polls - 1);
    }
  }

  /** The peer's byte stream. The sizes of the pieces that the reads bring are given; a piece of size 0
      or less is a read that fails. */
  class Socket {
    var unread: seq<byte>
    var chunks: seq<int>

    constructor (stream: seq<byte>, chunks: seq<int>)
      ensures unread == stream && this.chunks == chunks
    {
      unread, this.chunks := stream, chunks;
    }

    method ReadAsync(buffer: array<byte>, from: nat, room: nat) returns (received: int)
      requires from + room <= buffer.Length
      modifies this, buffer
      ensures var n := old(Handed(chunks, room, |unread|));
              && (if n > 0 then received == n else received <= 0) && unread == old(unread)[n..]
              && buffer[..from] == old(buffer[..from]) && buffer[from..from + n] == old(unread)[..n]
      ensures chunks == old(Rest(chunks, room))
    {
      received := 0;
      if room == 0 {
        return;
      }
      received := Handed(chunks, room, |unread|);
      chunks := if chunks == [] then [] else chunks[1..];
      if received > 0 {
        var i := 0;
        while i < received
          invariant 0 <= i <= received && unread == old(unread) && chunks == old(Rest(chunks, room))
          invariant buffer[..from] == old(buffer[..from])
          invariant buffer[from..from + i] == unread[..i]
        {
          buffer[from + i] := unread[i];
          assert buffer[from..from + i + 1] == buffer[from..from + i] + [unread[i]];
          i := i + 1;
        }
        unread := unread[received..];
      } else {
        received := -1;
      }
    }
  }

  class BufferedReader {
    const socket: Socket
    const buffer: array<byte>
    var bytesRead: nat
    var bytesTotal: nat
    ghost var pending: seq<seq<byte>>
    ghost var delivered: seq<seq<byte>>
    ghost const messages: seq<seq<byte>>

    ghost predicate Shape()
      reads this
    {
      buffer.Length == BUFFER_SIZE && bytesRead <= bytesTotal <= BUFFER_SIZE
    }

    /** The bytes read from the socket and not yet handed out. */
    function Live(): seq<byte>
      requires Shape()
      reads this, buffer
    {
      buffer[bytesRead..bytesTotal]
    }

    ghost function Undelivered(): seq<byte>
      requires Shape()
      reads this, buffer, socket
    {
      Live() + socket.unread
    }

    /** Delivered messages, live bytes and unread bytes are the stream; what was delivered are its
        first messages, in order, and the rest of it are the pending ones. */
    ghost predicate Valid()
      reads this, buffer, socket
    {
      && Shape()
      && Framed(pending, Undelivered())
      && Flatten(delivered) + Undelivered() == Flatten(messages)
      && delivered + pending == messages
    }

    constructor (socket: Socket, ghost messages: seq<seq<byte>>)
      requires AreFrames(messages) && socket.unread == Flatten(messages)
      ensures Valid() && this.socket == socket && delivered == [] && this.messages == messages
      ensures fresh(buffer)
    {
      this.socket := socket;
      buffer := new byte[BUFFER_SIZE];
      bytesRead, bytesTotal, delivered, pending, this.messages := 0, 0, [], messages, messages;
    }

    method HasMessage() returns (has: bool)
      requires Valid()
      ensures has <==> pending != [] && |pending[0]| <= |Live()|
    {
      FrontIsFrame(pending, Live(), socket.unread);
      if bytesRead + PREFIX_SIZE > bytesTotal {
        return false;
      }
      var header := Value(buffer[bytesRead..bytesRead + 8]);
      assert buffer[bytesRead..bytesRead + 8] == Live()[..8];
      has := bytesRead + MessageLength(header) <= bytesTotal;
    }

    /** The loop that moves overlapping bytes: front to back, each from behind. */
    method ShiftDown(left: nat)
      requires Shape() && bytesRead + left <= BUFFER_SIZE
      modifies buffer
      ensures buffer[..left] == old(buffer[bytesRead..bytesRead + left])
    {
      var i := 0;
      while i < left
        invariant 0 <= i <= left
        invariant forall k :: 0 <= k < i ==> buffer[k] == old(buffer[bytesRead + k])
        invariant forall k :: i <= k < BUFFER_SIZE ==> buffer[k] == old(buffer[k])
      {
        buffer[i] := buffer[i + bytesRead];
        i := i + 1;
      }
    }

    /** The block copy for bytes that do not overlap: it may go in any order. */
    method CopyDown(left: nat)
      requires Shape() && left <= bytesRead && bytesRead + left <= BUFFER_SIZE
      modifies buffer
      ensures buffer[..left] == old(buffer[bytesRead..bytesRead + left])
    {
      forall i | 0 <= i < left {
        buffer[i] := buffer[i + bytesRead];
      }
    }

    /** Moves the live bytes to the front of the buffer. */
    method Compact()
      requires Shape()
      modifies `bytesRead, `bytesTotal, buffer
      ensures Shape() && Live() == old(Live()) && bytesRead == 0
    {
      var left := bytesTotal - bytesRead;
      if left > 0 && bytesRead > 0 {
        if left <= bytesRead {
          CopyDown(left);
        } else {
          ShiftDown(left);
        }
      }
      bytesTotal, bytesRead := left, 0;
    }

    /** One read behind the live bytes, for all the room there is. */
    method ReadMore()
      requires Shape() && bytesRead == 0
      modifies `bytesTotal, buffer, socket
      ensures Shape() && Undelivered() == old(Undelivered()) && old(Live()) <= Live()
      ensures |Live()| == |old(Live())| + old(Handed(socket.chunks, BUFFER_SIZE - |Live()|, |socket.unread|))
      ensures |socket.unread| == |old(socket.unread)| - (|Live()| - |old(Live())|)
      ensures socket.chunks == old(Rest(socket.chunks, BUFFER_SIZE - |Live()|))
    {
      hide Handed, Rest, Flatten;
      ghost var live, unread := Live(), socket.unread;
      var received := socket.ReadAsync(buffer, bytesTotal, BUFFER_SIZE - bytesTotal);
      if received > 0 {
        bytesTotal := bytesTotal + received;
        ReadAppends(buffer[..bytesTotal - received], buffer[bytesTotal - received..bytesTotal], unread, received);
        assert buffer[..bytesTotal] == buffer[..bytesTotal - received] + buffer[bytesTotal - received..bytesTotal];
      }
    }

    lemma {:induction false} ReadAppends(live: seq<byte>, read: seq<byte>, unread: seq<byte>, n: nat)
      requires n <= |unread| && read == unread[..n]
      ensures (live + read) + unread[n..] == live + unread
    {
      assert unread == unread[..n] + unread[n..];
    }

    /** The next message is all in the buffer. */
    ghost predicate Whole()
      requires Shape()
      reads this, buffer
    {
      pending != [] && |pending[0]| <= |Live()|
    }

    /** Without a whole message in the buffer there is one read, for all the free room; with one there
        is none. */
    method FetchMessage()
      requires Valid()
      modifies `bytesRead, `bytesTotal, buffer, socket
      ensures Valid() && Undelivered() == old(Undelivered()) && old(Live()) <= Live()
      ensures old(Whole()) ==> Live() == old(Live()) && socket.chunks == old(socket.chunks)
      ensures !old(Whole()) ==>
                && |Live()| == |old(Live())| + old(Handed(socket.chunks, BUFFER_SIZE - |Live()|, |socket.unread|))
                && socket.chunks == old(Rest(socket.chunks, BUFFER_SIZE - |Live()|))
      ensures |socket.unread| == |old(socket.unread)| - (|Live()| - |old(Live())|)
    {
      hide Framed, Flatten, Handed, Rest;
      var has := HasMessage();
      if !has {
        Compact();
        ReadMore();
      }
    }

    /** Copies the first message out of the buffer. */
    method TakeFirst() returns (data: seq<byte>)
      requires Valid() && pending != [] && |pending[0]| <= |Live()|
      modifies `bytesRead, `pending, `delivered
      ensures Valid() && data == old(pending)[0] && pending == old(pending)[1..] && delivered == old(delivered) + [data]
      ensures |Live()| == |old(Live())| - |data|
    {
      hide Flatten;
      FrontIsFrame(pending, Live(), socket.unread);
      assert buffer[bytesRead..bytesRead + 8] == Live()[..8];
      var header := Value(buffer[bytesRead..bytesRead + 8]);
      var length := MessageLength(header);
      data := buffer[bytesRead..bytesRead + length];
      assert data == Live()[..length];
      FlattenAppend(delivered, data);
      ghost var live := Live();
      Deliver(Flatten(delivered), live, socket.unread, length);
      bytesRead, delivered, pending := bytesRead + length, delivered + [data], pending[1..];
      assert Live() == live[length..];
    }

    /** The next message arrives in time if it fits the buffer and the reads bring something, and never
        if it does not fit. */
    lemma {:induction false} InTime(polls: nat)
      requires Valid() && pending != []
      ensures |pending[0]| > BUFFER_SIZE ==>
                Arrived(socket.chunks, |Live()|, |socket.unread|, |pending[0]|, polls) < |pending[0]|
      ensures |pending[0]| <= BUFFER_SIZE && Flowing(socket.chunks, polls) && |pending[0]| <= |Live()| + polls ==>
                |pending[0]| <= Arrived(socket.chunks, |Live()|, |socket.unread|, |pending[0]|, polls)
    {
      hide Arrived, Flowing;
      assert Undelivered() == pending[0] + Flatten(pending[1..]);
      assert |Undelivered()| == |Live()| + |socket.unread|;
      ArrivesInTime(socket.chunks, |Live()|, |socket.unread|, |pending[0]|, polls);
    }

    /** Hands out the next message if all of it has arrived with the read that this call makes. */
    method NextMessage() returns (message: Option<seq<byte>>)
      requires Valid()
      modifies `bytesRead, `bytesTotal, `pending, `delivered, buffer, socket
      ensures Valid()
      ensures message.Some? <==>
                old(pending != [] && |pending[0]| <= Arrived(socket.chunks, |Live()|, |socket.unread|, |pending[0]|, 1))
      ensures message.Some? ==>
                && message.value == old(pending)[0] && pending == old(pending)[1..]
                && delivered == old(delivered) + [message.value]
      ensures message.None? ==> pending == old(pending) && delivered == old(delivered)
      ensures var n := old(if Whole() then 0 else Handed(socket.chunks, BUFFER_SIZE - |Live()|, |socket.unread|));
              && |socket.unread| == |old(socket.unread)| - n
              && |Live()| == |old(Live())| + n - if message.Some? then |message.value| else 0
      ensures socket.chunks == old(if Whole() then socket.chunks else Rest(socket.chunks, BUFFER_SIZE - |Live()|))
    {
      hide Framed, Flatten, Handed, Rest;
      FetchMessage();
      var has := HasMessage();
      if !has {
        return None;
      }
      var data := TakeFirst();
      message := Some(data);
    }

    /** The dispatcher polls up to `polls` times for the next message. It comes exactly if it has arrived
        by then. */
    method Await(polls: nat) returns (message: Option<seq<byte>>)
      requires Valid() && polls > 0
      modifies `bytesRead, `bytesTotal, `pending, `delivered, buffer, socket
      ensures Valid()
      ensures message.Some? <==>
                old(pending != []
                    && |pending[0]| <= Arrived(socket.chunks, |Live()|, |socket.unread|, |pending[0]|, polls))
      ensures message.Some? ==>
                && message.value == old(pending)[0] && pending == old(pending)[1..]
                && delivered == old(delivered) + [message.value]
      ensures message.None? ==> pending == old(pending) && delivered == old(delivered)
      ensures old(pending != [] && |pending[0]| <= BUFFER_SIZE && |pending[0]| <= polls
                  && Flowing(socket.chunks, polls)) ==>
                message.Some?
      ensures old(pending != [] && |pending[0]| > BUFFER_SIZE) ==> message.None?
    {
      hide Framed, Flatten, Handed, Rest, Flowing, Arrived;
      if pending != [] {
        InTime(polls);
      }
      message := None;
      ghost var length := if pending == [] then 0 else |pending[0]|;
      ghost var all := Arrived(socket.chunks, |Live()|, |socket.unread|, length, polls);
      var done := 0;
      while done < polls && message.None?
        invariant done <= polls && Valid() && (message.Some? ==> length <= all)
        invariant message.None? ==>
                    && pending == old(pending) && delivered == old(delivered)
                    && (pending != [] ==>
                          && all == Arrived(socket.chunks, |Live()|, |socket.unread|, length, polls - done)
                          && (done > 0 ==> |Live()| < length))
        invariant message.Some? ==>
                    && old(pending) != [] && message.value == old(pending)[0] && pending == old(pending)[1..]
                    && delivered == old(delivered) + [message.value]
        decreases polls - done
      {
        ArrivedStep(socket.chunks, |Live()|, |socket.unread|, length, polls - done);
        ArrivedStep(socket.chunks, |Live()|, |socket.unread|, length, 1);
        message := NextMessage();
        done := done + 1;
      }
      if message.None? && pending != [] {
        ArrivedStep(socket.chunks, |Live()|, |socket.unread|, length, 0);
        assert all < length;
      }
    }

    lemma {:induction false} Deliver(a: seq<byte>, live: seq<byte>, rest: seq<byte>, length: nat)
      requires length <= |live|
      ensures (a + live[..length]) + (live[length..] + rest) == a + (live + rest)
    {
      assert live == live[..length] + live[length..];
    }
  }
}
