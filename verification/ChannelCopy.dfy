/** `ChannelCopyTest`, and the echo loop of the channel servers: bytes copied between
    channels through a buffer, under every schedule of short reads and partial writes.
    A channel may transfer nothing a bounded but arbitrary number of times (`stalls`);
    everything else about how much it transfers is left open. */
module ChannelCopy {

  newtype byte = x: int | -128 <= x < 128

  lemma Assoc<T>(a: seq<T>, b: seq<T>, c: seq<T>)
    ensures (a + b) + c == a + (b + c)
  {
  }

  lemma Joined<T>(s: seq<T>, i: nat, j: nat, k: nat)
    requires i <= j <= k <= |s|
    ensures s[i..j] + s[j..k] == s[i..k]
  {
  }

  /** Destination plus held bytes are what was consumed, also after reading some more. */
  lemma Conserved<T>(original: seq<T>, data: seq<T>, start: nat, from: nat, to: nat, written: seq<T>, held: seq<T>)
    requires start <= from <= to <= |data| && written + held == original + data[start..from]
    ensures written + (held + data[from..to]) == original + data[start..to]
  {
    Assoc(written, held, data[from..to]);
    Assoc(original, data[start..from], data[from..to]);
    Joined(data, start, from, to);
  }

  /** `java.nio.ByteBuffer`: while it is being filled, the bytes before `position` are
      held; while it is being drained, those from `position` up to `limit`. */
  class ByteBuffer {
    const bytes: array<byte>
    var position: nat
    var limit: nat

    ghost predicate Valid()
      reads this
    {
      position <= limit <= bytes.Length
    }

    ghost predicate Filling()
      reads this
    {
      Valid() && limit == bytes.Length
    }

    ghost function Filled(): seq<byte>
      requires Valid()
      reads this, bytes
    {
      bytes[..position]
    }

    ghost function Remaining(): seq<byte>
      requires Valid()
      reads this, bytes
    {
      bytes[position..limit]
    }

    constructor (capacity: nat)
      ensures Filling() && position == 0 && bytes.Length == capacity && fresh(bytes)
    {
      bytes := new byte[capacity](_ => 0);
      position, limit := 0, capacity;
    }

    predicate HasRemaining()
      reads this
    {
      position < limit
    }

    method Flip()
      requires Valid()
      modifies this
      ensures Valid() && Remaining() == old(Filled()) && position == 0 && limit == old(position)
    {
      limit, position := position, 0;
    }

    method Clear()
      modifies this
      ensures Filling() && Filled() == []
    {
      position, limit := 0, bytes.Length;
    }

    method Compact()
      requires Valid()
      modifies this, bytes
      ensures Filling() && Filled() == old(Remaining())
    {
      var n := limit - position;
      forall i | 0 <= i < n {
        bytes[i] := bytes[position + i];
      }
      position, limit := n, bytes.Length;
    }

    method Put(s: seq<byte>)
      requires Valid() && |s| <= limit - position
      modifies this, bytes
      ensures Valid() && limit == old(limit) && position == old(position) + |s|
      ensures Filled() == old(Filled()) + s
    {
      forall i | 0 <= i < |s| {
        bytes[position + i] := s[i];
      }
      position := position + |s|;
    }
  }

  /** A readable channel: the bytes that will arrive on it, and how many were consumed.
      `open`: more may come later, so reading past what has arrived returns 0, not -1. */
  class Source {
    const data: seq<byte>
    const open: bool
    var consumed: nat
    var stalls: nat

    ghost predicate Valid()
      reads this
    {
      consumed <= |data|
    }

    constructor (data: seq<byte>, open: bool, stalls: nat)
      ensures this.data == data && this.open == open && Valid() && consumed == 0
    {
      this.data, this.open, this.consumed, this.stalls := data, open, 0, stalls;
    }

    /** Moves some bytes into the buffer and returns their number, or -1 at the end of the
        stream. With no room in the buffer 0 is returned, or at the end perhaps -1. */
    method Read(buffer: ByteBuffer) returns (count: int)
      requires Valid() && buffer.Valid()
      modifies this, buffer, buffer.bytes
      ensures Valid() && buffer.Valid() && buffer.limit == old(buffer.limit)
      ensures count == -1 ==> consumed == |data| && !open
      ensures count != -1 ==> 0 <= count == consumed - old(consumed) <= old(buffer.limit - buffer.position)
      ensures count <= 0 ==> consumed == old(consumed)
      ensures buffer.Filled() == old(buffer.Filled()) + data[old(consumed)..consumed]
      ensures stalls <= old(stalls)
      ensures count == 0 && old(buffer.HasRemaining()) ==>
        (if consumed < |data| then stalls < old(stalls) else open)
    {
      var room, left := buffer.limit - buffer.position, |data| - consumed;
      if left == 0 && !open {
        if room > 0 {
          return -1;
        }
        count :| count == 0 || count == -1;
        return;
      }
      var most := if room < left then room else left;
      count :| 0 <= count <= most && (count == 0 ==> most == 0 || stalls > 0);
      if count == 0 && most > 0 {
        stalls := stalls - 1;
      }
      buffer.Put(data[consumed..consumed + count]);
      consumed := consumed + count;
    }
  }

  /** A writable channel and what was written to it. */
  class Sink {
    var written: seq<byte>
    var stalls: nat

    constructor (stalls: nat)
      ensures written == []
    {
      this.written, this.stalls := [], stalls;
    }

    method Write(buffer: ByteBuffer)
      requires buffer.Valid()
      modifies this, buffer`position
      ensures buffer.Valid() && buffer.position >= old(buffer.position)
      ensures written == old(written) + buffer.bytes[old(buffer.position)..buffer.position]
      ensures stalls <= old(stalls)
      ensures buffer.position == old(buffer.position) && old(buffer.HasRemaining()) ==> stalls < old(stalls)
    {
      var room := buffer.limit - buffer.position;
      var n :| 0 <= n <= room && (n == 0 ==> room == 0 || stalls > 0);
      if n == 0 && room > 0 {
        stalls := stalls - 1;
      }
      written := written + buffer.bytes[buffer.position..buffer.position + n];
      buffer.position := buffer.position + n;
    }

    /** The loop `while (buffer.hasRemaining()) write(buffer)`. */
    method WriteFully(buffer: ByteBuffer)
      requires buffer.Valid()
      modifies this, buffer`position
      ensures buffer.Valid() && !buffer.HasRemaining()
      ensures written == old(written) + old(buffer.Remaining())
      ensures stalls <= old(stalls)
    {
      while buffer.HasRemaining()
        invariant buffer.Valid() && stalls <= old(stalls)
        invariant written + buffer.Remaining() == old(written) + old(buffer.Remaining())
        decreases buffer.limit - buffer.position, stalls
      {
        ghost var before, p := written, buffer.position;
        Write(buffer);
        Joined(buffer.bytes[..], p, buffer.position, buffer.limit);
        Assoc(before, buffer.bytes[p..buffer.position], buffer.Remaining());
      }
      assert buffer.Remaining() == [];
    }
  }

  const CAPACITY: nat := 16 * 1024

  /** `channelCopy1`: what a partial write leaves is compacted and kept for the next one. */
  method CopyCompacting(src: Source, dest: Sink)
    requires src.Valid() && !src.open
    modifies src, dest
    ensures src.Valid() && src.consumed == |src.data|
    ensures dest.written == old(dest.written) + src.data[old(src.consumed)..]
  {
    var buffer := new ByteBuffer(CAPACITY);
    ghost var start := src.consumed;
    var count := src.Read(buffer);
    while count != -1
      invariant src.Valid() && buffer.Filling() && start <= src.consumed
      invariant fresh(buffer) && fresh(buffer.bytes) && buffer.bytes.Length == CAPACITY
      invariant count == -1 ==> src.consumed == |src.data|
      invariant dest.written + buffer.Filled() == old(dest.written) + src.data[start..src.consumed]
      decreases if count == -1 then 0 else 1,
        2 * (|src.data| - src.consumed) + buffer.position + src.stalls + dest.stalls
    {
      buffer.Flip();
      ghost var before := dest.written;
      dest.Write(buffer);
      Joined(buffer.bytes[..], 0, buffer.position, buffer.limit);
      Assoc(before, buffer.bytes[..buffer.position], buffer.Remaining());
      buffer.Compact();
      ghost var from, held := src.consumed, buffer.Filled();
      count := src.Read(buffer);
      Conserved(old(dest.written), src.data, start, from, src.consumed, dest.written, held);
    }
    buffer.Flip();
    dest.WriteFully(buffer);
  }

  /** `channelCopy2`: the buffer is drained before every read. */
  method CopyClearing(src: Source, dest: Sink)
    requires src.Valid() && !src.open
    modifies src, dest
    ensures src.Valid() && src.consumed == |src.data|
    ensures dest.written == old(dest.written) + src.data[old(src.consumed)..]
  {
    var buffer := new ByteBuffer(CAPACITY);
    ghost var start := src.consumed;
    var count := src.Read(buffer);
    while count != -1
      invariant src.Valid() && buffer.Filling() && start <= src.consumed
      invariant fresh(buffer) && fresh(buffer.bytes) && buffer.bytes.Length == CAPACITY
      invariant count == -1 ==> src.consumed == |src.data| && buffer.Filled() == []
      invariant dest.written + buffer.Filled() == old(dest.written) + src.data[start..src.consumed]
      decreases if count == -1 then 0 else 1, |src.data| - src.consumed, src.stalls
    {
      buffer.Flip();
      dest.WriteFully(buffer);
      buffer.Clear();
      ghost var from, held := src.consumed, buffer.Filled();
      count := src.Read(buffer);
      Conserved(old(dest.written), src.data, start, from, src.consumed, dest.written, held);
    }
    assert dest.written + buffer.Filled() == dest.written;
  }

  const ECHO_CAPACITY: nat := 1024

  /** `drainChannel` without its interest-set updates: echoes until a read returns nothing.
      -1 tells the caller to close the channel, 0 to watch it again. */
  method EchoAvailable(buffer: ByteBuffer, src: Source, dest: Sink) returns (count: int)
    requires src.Valid() && buffer.Valid() && buffer.bytes.Length == ECHO_CAPACITY
    modifies src, dest, buffer, buffer.bytes
    ensures src.Valid() && old(src.consumed) <= src.consumed && -1 <= count <= 0
    ensures dest.written == old(dest.written) + src.data[old(src.consumed)..src.consumed]
    ensures count == -1 ==> src.consumed == |src.data| && !src.open
    ensures count == 0 ==> src.open || src.stalls < old(src.stalls)
  {
    buffer.Clear();
    ghost var start := src.consumed;
    count := src.Read(buffer);
    while count > 0
      invariant src.Valid() && buffer.Filling() && start <= src.consumed && src.stalls <= old(src.stalls)
      invariant count <= 0 ==> buffer.Filled() == []
      invariant -1 <= count
      invariant count == -1 ==> src.consumed == |src.data| && !src.open
      invariant count == 0 ==> src.open || src.stalls < old(src.stalls)
      invariant dest.written + buffer.Filled() == old(dest.written) + src.data[start..src.consumed]
      decreases if count > 0 then 1 else 0, |src.data| - src.consumed
    {
      buffer.Flip();
      dest.WriteFully(buffer);
      buffer.Clear();
      ghost var from, held := src.consumed, buffer.Filled();
      count := src.Read(buffer);
      Conserved(old(dest.written), src.data, start, from, src.consumed, dest.written, held);
    }
  }
}
