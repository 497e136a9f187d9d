/** The byte queue in front of a socket (output_buffer.h) and the framing of responses through it
    (network_event_handler.cpp): whatever the kernel takes of each write, what has been sent and what is still buffered
    is always the framed responses in order. */
module OutputBuffer {
  import opened PowerOfTwo

  type Byte = b: int | 0 <= b < 0x100

  type UInt32 = x: int | 0 <= x < U32

  const U32: int := 0x1_0000_0000
  const MAX_CONSUME_OFFSET: UInt32 := 1024

  /** The size a buffer gets when it is asked to hold x bytes: the power of two, in 32 bits. */
  function NewSize(x: UInt32): UInt32 { RoundUpPowOfTwo(x) % U32 }

  /** That is enough exactly for the sizes up to 2^31; above, it is nothing at all. */
  lemma NewSizeFits(x: UInt32)
    ensures x <= 0x8000_0000 ==> x <= NewSize(x) <= 0x8000_0000
    ensures x > 0x8000_0000 ==> NewSize(x) == 0
  {
    RoundUpIsLeast(x);
    Pow2Of64();
    var r := RoundUpPowOfTwo(x);
    if x > 0 {
      assert IsPow2(Pow2(32)) && IsPow2(r) && r <= U32;
      assert Pow2(31 + 1) == 2 * Pow2(31);
      assert IsPow2(Pow2(31)) && Pow2(31) == 0x8000_0000;
      var k: nat :| r == Pow2(k);
      if k < 32 {
        Pow2Monotone(k, 31);
      } else {
        Pow2Monotone(32, k);
      }
    }
  }

  /** memmove to the start of an array. */
  method MemMove(a: array<Byte>, src: nat, n: nat)
    requires src + n <= a.Length
    modifies a
    ensures a[..n] == old(a[src..src + n])
  {
    for k := 0 to n
      invariant forall i :: 0 <= i < k ==> a[i] == old(a[src + i])
      invariant forall i :: k <= i < a.Length ==> a[i] == old(a[i])
    {
      a[k] := a[src + k];
    }
  }

  /** memcpy to the start of an array, which must not overlap what is copied. */
  method MemCpy(a: array<Byte>, src: nat, n: nat)
    requires src + n <= a.Length && n <= src
    modifies a
    ensures a[..n] == old(a[src..src + n])
  {
    MemMove(a, src, n);
  }

  /** What GetEmptyBuffer asks for when size bytes do not fit. */
  function Wanted(buffer_size: UInt32, used: UInt32, size: UInt32): UInt32 {
    (buffer_size + (size - (buffer_size - used) % U32)) % U32
  }

  /** It gets room for them exactly if the buffer need not hold more than 2^31 bytes. */
  lemma Room(buffer_size: UInt32, used: UInt32, size: UInt32)
    requires used <= buffer_size
    ensures (buffer_size - used) % U32 == buffer_size - used
    ensures used + size < U32 ==> (used + size) % U32 == used + size
    ensures var got := NewSize(Wanted(buffer_size, used, size));
            && (used + size <= got <==> used + size <= 0x8000_0000)
            && (used + size <= got ==> used <= got)
  {
    var sum := used + size;
    assert Wanted(buffer_size, used, size) == if sum < U32 then sum else sum - U32;
    NewSizeFits(Wanted(buffer_size, used, size));
  }

  /** A full buffer of 2^31 bytes is resized to nothing for one more; for so many more that the sum wraps around, to a
      few bytes. */
  lemma NoRoom()
    ensures NewSize(Wanted(0x8000_0000, 0x8000_0000, 1)) == 0
    ensures NewSize(Wanted(0x8000_0000, 0x8000_0000, 0x8000_0005)) == 8
  {
    hide NewSize;
    NewSizeFits(0x8000_0001);
    EightForFive();
  }

  lemma EightForFive()
    ensures NewSize(5) == 8
  {
    assert BitLength(4) == 3;
    assert Pow2(3) == 8;
  }

  /** What AdjustBuffer makes of used_buffer_size and consume_offset. */
  function Adjusted(used: nat, consumed: nat): (nat, nat)
    requires consumed <= used
  {
    if used == consumed then (0, 0)
    else if consumed > MAX_CONSUME_OFFSET then (used - consumed, 0)
    else (used, consumed)
  }

  class OutputBuffer {
    var buffer: array<Byte>
    var buffer_size: UInt32
    var used_buffer_size: UInt32
    var consume_offset: UInt32

    ghost predicate Valid()
      reads this
    {
      buffer.Length == buffer_size && consume_offset <= used_buffer_size <= buffer_size
    }

    /** What has been put in and not yet consumed. */
    ghost function Contents(): seq<Byte>
      requires Valid()
      reads this, buffer
    {
      buffer[consume_offset..used_buffer_size]
    }

    constructor (size: UInt32)
      ensures Valid() && fresh(buffer) && Contents() == [] && buffer_size == size
    {
      buffer_size, used_buffer_size, consume_offset := size, 0, 0;
      buffer := new Byte[size];
    }

    function SurplusSize(): UInt32
      reads this
    {
      (buffer_size - used_buffer_size) % U32
    }

    function BufferContentsSize(): UInt32
      reads this
    {
      (used_buffer_size - consume_offset) % U32
    }

    method Resize(size: UInt32)
      modifies this`buffer, this`buffer_size
      ensures fresh(buffer) && buffer.Length == buffer_size == NewSize(size)
      ensures forall i :: 0 <= i < old(buffer.Length) && i < buffer.Length ==> buffer[i] == old(buffer[i])
    {
      var was, bigger := buffer, new Byte[NewSize(size)];
      var n := if was.Length < bigger.Length then was.Length else bigger.Length;
      for k := 0 to n
        invariant forall i :: 0 <= i < k ==> bigger[i] == was[i]
      {
        bigger[k] := was[k];
      }
      buffer, buffer_size := bigger, NewSize(size);
    }

    /** Makes room for size more bytes and gives their place. They fit exactly if they fitted before or all that the
        buffer is to hold is at most 2^31 bytes. */
    method GetEmptyBuffer(size: UInt32) returns (at: UInt32)
      requires Valid()
      modifies this
      ensures buffer == old(buffer) || fresh(buffer)
      ensures at == old(used_buffer_size) && consume_offset == old(consume_offset)
      ensures at + size <= buffer.Length <==> at + size <= old(buffer_size) || at + size <= 0x8000_0000
      ensures at + size <= buffer.Length ==>
                Valid() && used_buffer_size == at + size && Contents() == old(Contents()) + buffer[at..at + size]
    {
      hide NewSize, Wanted;
      Room(buffer_size, used_buffer_size, size);
      if size > SurplusSize() {
        Resize(Wanted(buffer_size, used_buffer_size, size));
      }
      at := used_buffer_size;
      used_buffer_size := (used_buffer_size + size) % U32;
    }

    /** Drops what has been written. */
    method Consume(size: UInt32)
      requires Valid() && size <= BufferContentsSize()
      modifies this`consume_offset
      ensures Valid() && Contents() == old(Contents())[size..]
    {
      consume_offset := (consume_offset + size) % U32;
    }

    /** Moves the contents to the front when much has been consumed; the copy that does not allow for overlap is only
        used when there is none. */
    method AdjustBuffer()
      requires Valid()
      modifies this`used_buffer_size, this`consume_offset, buffer
      ensures Valid() && Contents() == old(Contents()) && consume_offset <= MAX_CONSUME_OFFSET
      ensures (used_buffer_size, consume_offset) == old(Adjusted(used_buffer_size, consume_offset))
    {
      if used_buffer_size == consume_offset {
        used_buffer_size, consume_offset := 0, 0;
      } else if consume_offset > MAX_CONSUME_OFFSET {
        if used_buffer_size - consume_offset > consume_offset {
          MemMove(buffer, consume_offset, used_buffer_size - consume_offset);
        } else {
          MemCpy(buffer, consume_offset, used_buffer_size - consume_offset);
        }
        used_buffer_size := used_buffer_size - consume_offset;
        consume_offset := 0;
      }
    }

    /** Stores bytes where there is room for them. */
    method Store(at: nat, bytes: seq<Byte>)
      requires Valid() && consume_offset <= at <= at + |bytes| == used_buffer_size
      modifies buffer
      ensures Contents() == old(Contents())[..at - consume_offset] + bytes
    {
      for k := 0 to |bytes|
        invariant forall i :: 0 <= i < at ==> buffer[i] == old(buffer[i])
        invariant forall i :: 0 <= i < k ==> buffer[at + i] == bytes[i]
      {
        buffer[at + k] := bytes[k];
      }
    }

    /** Bytes stored where GetEmptyBuffer made room for them. */
    method Append(bytes: seq<Byte>)
      requires Valid() && used_buffer_size + |bytes| <= 0x8000_0000
      modifies this, buffer
      ensures Valid() && (buffer == old(buffer) || fresh(buffer))
      ensures used_buffer_size == old(used_buffer_size) + |bytes| && consume_offset == old(consume_offset)
      ensures Contents() == old(Contents()) + bytes
    {
      var at := GetEmptyBuffer(|bytes|);
      Store(at, bytes);
    }
  }

  // ---- framing ------------------------------------------------------------------------------------------------

  /** htonl. */
  function BigEndian(n: UInt32): (bytes: seq<Byte>)
    ensures |bytes| == 4
  {
    [n / 0x100_0000, n / 0x1_0000 % 0x100, n / 0x100 % 0x100, n % 0x100]
  }

  /** ntohl. */
  function FromBigEndian(bytes: seq<Byte>): UInt32
    requires |bytes| == 4
  {
    var b := seq(4, i requires 0 <= i < 4 => bytes[i] as int);
    b[0] * 0x100_0000 + b[1] * 0x1_0000 + b[2] * 0x100 + b[3]
  }

  /** The first byte weighs most. */
  lemma BigEndianInverse(n: UInt32)
    ensures FromBigEndian(BigEndian(n)) == n
    ensures var b := BigEndian(n);
            b[0] as int * 0x100_0000 + b[1] as int * 0x1_0000 + b[2] as int * 0x100 + b[3] as int == n
  {
    ByteByByte(n);
  }

  /** Dropping bytes one by one, or two or three at once. */
  lemma ByteByByte(n: nat)
    ensures n / 0x1_0000 == n / 0x100 / 0x100 && n / 0x100_0000 == n / 0x100 / 0x100 / 0x100
  {
    var a, r := n / 0x100, n % 0x100;
    var b, s := a / 0x100, a % 0x100;
    var c, t := b / 0x100, b % 0x100;
    ModUnique(n, 0x1_0000, b, 0x100 * s + r);
    ModUnique(n, 0x100_0000, c, 0x1_0000 * t + 0x100 * s + r);
  }

  /** A response on the wire: its length and its bytes. */
  function Frame(body: seq<Byte>): (bytes: seq<Byte>)
    requires |body| < U32
    ensures |bytes| == 4 + |body|
  {
    BigEndian(|body|) + body
  }

  ghost predicate Sendable(bodies: seq<seq<Byte>>) {
    forall i :: 0 <= i < |bodies| ==> |bodies[i]| < U32
  }

  function Stream(bodies: seq<seq<Byte>>): seq<Byte>
    requires Sendable(bodies)
  {
    if bodies == [] then [] else Stream(bodies[..|bodies| - 1]) + Frame(bodies[|bodies| - 1])
  }

  /** What a receiver makes of a stream: the complete responses at its start. */
  function Unframe(bytes: seq<Byte>): seq<seq<Byte>>
    decreases |bytes|
  {
    if |bytes| < 4 then [] else
      var n := FromBigEndian(bytes[..4]);
      if |bytes| < 4 + n then [] else [bytes[4..4 + n]] + Unframe(bytes[4 + n..])
  }

  lemma {:induction false} StreamCons(body: seq<Byte>, rest: seq<seq<Byte>>)
    requires |body| < U32 && Sendable([body] + rest) && Sendable(rest)
    ensures Stream([body] + rest) == Frame(body) + Stream(rest)
  {
    var all := [body] + rest;
    if rest == [] {
      assert all[..0] == [];
      assert Stream(all) == Stream(all[..0]) + Frame(body);
    } else {
      var n := |rest| - 1;
      assert all[..|all| - 1] == [body] + rest[..n];
      assert Sendable(rest[..n]) && Sendable([body] + rest[..n]) by {
        assert forall i :: 0 <= i < n ==> rest[..n][i] == rest[i];
      }
      StreamCons(body, rest[..n]);
    }
  }

  lemma UnframeNothing()
    ensures Unframe([]) == []
  {
  }

  lemma UnframeFirst(body: seq<Byte>, more: seq<Byte>)
    requires |body| < U32
    ensures Unframe(Frame(body) + more) == [body] + Unframe(more)
  {
    var s := Frame(body) + more;
    BigEndianInverse(|body|);
    assert s[..4] == BigEndian(|body|);
    assert s[4..4 + |body|] == body && s[4 + |body|..] == more;
  }

  lemma UnframePart(body: seq<Byte>, got: nat)
    requires |body| < U32 && got < |Frame(body)|
    ensures Unframe(Frame(body)[..got]) == []
  {
    if got >= 4 {
      BigEndianInverse(|body|);
      assert Frame(body)[..got][..4] == BigEndian(|body|);
    }
  }

  /** A receiver who has any part of the stream so far sees the first responses, each whole and as it was sent. */
  lemma {:induction false} UnframePrefix(bodies: seq<seq<Byte>>, got: nat)
    requires Sendable(bodies) && got <= |Stream(bodies)|
    ensures Unframe(Stream(bodies)[..got]) <= bodies
    ensures got == |Stream(bodies)| ==> Unframe(Stream(bodies)[..got]) == bodies
    decreases |bodies|
  {
    hide Frame, Unframe, FromBigEndian, BigEndian;
    var s := Stream(bodies)[..got];
    if bodies == [] {
      UnframeNothing();
    } else {
      var body, rest := bodies[0], bodies[1..];
      assert bodies == [body] + rest;
      assert forall i :: 0 <= i < |rest| ==> rest[i] == bodies[i + 1];
      StreamCons(body, rest);
      var n := |Frame(body)|;
      if got >= n {
        assert s == Frame(body) + Stream(rest)[..got - n];
        UnframeFirst(body, Stream(rest)[..got - n]);
        UnframePrefix(rest, got - n);
      } else {
        assert s == Frame(body)[..got];
        UnframePart(body, got);
      }
    }
  }

  function Min(a: nat, b: nat): nat { if a < b then a else b }

  // ---- ResponseCb ---------------------------------------------------------------------------------------------

  lemma OneMore(sent: seq<Byte>, held: seq<Byte>, bodies: seq<seq<Byte>>, body: seq<Byte>)
    requires |body| < U32 && Sendable(bodies) && sent + held == Stream(bodies)
    ensures Sendable(bodies + [body]) && sent + ((held + BigEndian(|body|)) + body) == Stream(bodies + [body])
  {
  }

  /** The sending side of one socket. */
  class Connection {
    var output_buffer: OutputBuffer
    ghost var responses: seq<seq<Byte>>
    ghost var sent: seq<Byte>

    /** Nothing is lost, repeated or reordered: what has been sent, followed by what is buffered, is the stream of the
        responses so far. */
    ghost predicate Valid()
      reads this, output_buffer, output_buffer.buffer
    {
      output_buffer.Valid() && Sendable(responses) && sent + output_buffer.Contents() == Stream(responses)
    }

    constructor ()
      ensures Valid() && fresh(output_buffer) && fresh(output_buffer.buffer) && responses == [] && sent == []
    {
      output_buffer := new OutputBuffer(128);
      responses, sent := [], [];
    }

    /** Puts a framed response into the buffer. */
    method Append(body: seq<Byte>)
      requires Valid() && output_buffer.used_buffer_size + 4 + |body| <= 0x8000_0000
      modifies this, output_buffer, output_buffer.buffer
      ensures Valid() && output_buffer == old(output_buffer)
      ensures sent == old(sent) && responses == old(responses) + [body]
      ensures output_buffer.buffer == old(output_buffer.buffer) || fresh(output_buffer.buffer)
      ensures output_buffer.used_buffer_size == old(output_buffer.used_buffer_size) + 4 + |body|
      ensures output_buffer.consume_offset == old(output_buffer.consume_offset)
    {
      ghost var before := output_buffer.Contents();
      output_buffer.Append(BigEndian(|body|));
      output_buffer.Append(body);
      responses := responses + [body];
      OneMore(sent, before, old(responses), body);
    }

    /** Queues a response and offers everything buffered to the kernel, which takes any part of it. */
    method Respond(body: seq<Byte>, take: nat)
      requires Valid() && output_buffer.used_buffer_size + 4 + |body| <= 0x8000_0000
      modifies this, output_buffer, output_buffer.buffer
      ensures Valid() && output_buffer == old(output_buffer) && responses == old(responses) + [body]
      ensures output_buffer.buffer == old(output_buffer.buffer) || fresh(output_buffer.buffer)
      ensures old(sent) <= sent && Sendable(responses) && (take >= 0x8000_0000 ==> sent == Stream(responses))
      ensures (output_buffer.used_buffer_size, output_buffer.consume_offset) ==
              old(Flushed(output_buffer.used_buffer_size + 4 + |body|, output_buffer.consume_offset, take))
    {
      hide Adjusted, Flushed, Stream;
      OffsetFirst();
      Append(body);
      Flush(take);
    }

    lemma OffsetFirst()
      requires Valid()
      ensures output_buffer.consume_offset <= output_buffer.used_buffer_size && Sendable(responses)
    {
    }

    /** Writes what is buffered, of which the kernel takes no more than so much. */
    method Flush(take: nat)
      requires Valid()
      modifies this`sent, output_buffer`consume_offset, output_buffer`used_buffer_size, output_buffer.buffer
      ensures Valid() && output_buffer.consume_offset <= output_buffer.used_buffer_size
      ensures var held := old(output_buffer.Contents()); sent == old(sent) + held[..Min(take, |held|)]
      ensures (output_buffer.used_buffer_size, output_buffer.consume_offset) ==
              old(Flushed(output_buffer.used_buffer_size, output_buffer.consume_offset, take))
    {
      hide Adjusted, Stream;
      var held := output_buffer.BufferContentsSize();
      Write(Min(take, held));
      output_buffer.AdjustBuffer();
    }

    /** write, when it takes size bytes of what is offered. */
    method Write(size: UInt32)
      requires Valid() && size <= output_buffer.BufferContentsSize()
      modifies this`sent, output_buffer`consume_offset
      ensures Valid() && sent == old(sent) + old(output_buffer.Contents())[..size]
      ensures output_buffer.consume_offset == old(output_buffer.consume_offset) + size
    {
      ghost var held := output_buffer.Contents();
      sent := sent + held[..size];
      output_buffer.Consume(size);
      assert held == held[..size] + held[size..];
      assert old(sent) + held == (old(sent) + held[..size]) + held[size..];
    }

    /** Drains the responses queued for this socket; of the k-th write the kernel takes no more than takes[k] bytes. All
        that is asked for is that each response finds room in the buffer when its turn comes. */
    method ResponseCb(queue: seq<seq<Byte>>, takes: seq<nat>)
      requires Valid() && |takes| == |queue|
      requires HaveRoom(output_buffer.used_buffer_size, output_buffer.consume_offset, queue, takes)
      modifies this, output_buffer, output_buffer.buffer
      ensures Valid() && responses == old(responses) + queue && old(sent) <= sent
      ensures Sendable(responses) && (queue != [] && takes[|queue| - 1] >= 0x8000_0000 ==> sent == Stream(responses))
      ensures output_buffer == old(output_buffer)
    {
      hide Flushed, Valid;
      OffsetFirst();
      for k := 0 to |queue|
        invariant Valid() && responses == old(responses) + queue[..k] && old(sent) <= sent
        invariant Sendable(responses) && (k > 0 && takes[k - 1] >= 0x8000_0000 ==> sent == Stream(responses))
        invariant output_buffer == old(output_buffer)
        invariant output_buffer.buffer == old(output_buffer.buffer) || fresh(output_buffer.buffer)
        invariant HaveRoom(output_buffer.used_buffer_size, output_buffer.consume_offset, queue[k..], takes[k..])
      {
        assert queue[k..][1..] == queue[k + 1..] && takes[k..][1..] == takes[k + 1..];
        OffsetFirst();
        Respond(queue[k], takes[k]);
      }
    }
  }

  /** used_buffer_size and consume_offset after a write of which the kernel takes no more than so much. */
  ghost function Flushed(used: nat, consumed: nat, take: nat): (after: (nat, nat))
    requires consumed <= used
    ensures after.1 <= after.0 <= used
  {
    Adjusted(used, if take < used - consumed then consumed + take else used)
  }

  /** Each response finds room in the buffer when its turn comes. */
  ghost predicate HaveRoom(used: nat, consumed: nat, queue: seq<seq<Byte>>, takes: seq<nat>)
    decreases |queue|
  {
    queue != [] && consumed <= used && takes != [] ==>
      var more := used + 4 + |queue[0]|;
      && more <= 0x8000_0000
      && var (used', consumed') := Flushed(more, consumed, takes[0]);
         HaveRoom(used', consumed', queue[1..], takes[1..])
  }

  /** The bytes it takes to buffer some responses. */
  ghost function Total(bodies: seq<seq<Byte>>): nat {
    if bodies == [] then 0 else 4 + |bodies[0]| + Total(bodies[1..])
  }

  /** Responses have room, whatever the kernel takes, if there is room for all of them together. */
  lemma {:induction false} RoomForAll(used: nat, consumed: nat, queue: seq<seq<Byte>>, takes: seq<nat>)
    requires used + Total(queue) <= 0x8000_0000
    ensures HaveRoom(used, consumed, queue, takes)
    decreases |queue|
  {
    if queue != [] && consumed <= used && takes != [] {
      var (used', consumed') := Flushed(used + 4 + |queue[0]|, consumed, takes[0]);
      RoomForAll(used', consumed', queue[1..], takes[1..]);
    }
  }

  /** If the kernel keeps up, it is enough that there is room for each of them. */
  lemma {:induction false} RoomForEach(queue: seq<seq<Byte>>, takes: seq<nat>)
    requires |takes| == |queue|
    requires forall k :: 0 <= k < |queue| ==> 4 + |queue[k]| <= takes[k] && 4 + |queue[k]| <= 0x8000_0000
    ensures HaveRoom(0, 0, queue, takes)
  {
    if queue != [] {
      RoomForEach(queue[1..], takes[1..]);
    }
  }
}
