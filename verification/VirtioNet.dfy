/** What both queues of the virtio-net driver share: their limits and the Ethernet header. */
module VirtioNet {
  import opened Bytes

  const MAX_PENDING: nat := 64
  const MAC_SIZE: nat := 6
  const MEDIA_HEADER: nat := 14

  type Mac = m: Mem | |m| == MAC_SIZE witness [0, 0, 0, 0, 0, 0]

  type Protocol = p: nat | p < 0x1_0000

  /** The Ethernet header of a packet. */
  datatype Media = Media(dest: Mac, src: Mac, protocol: Protocol)

  function MediaOf(data: Mem): Media
    requires MEDIA_HEADER <= |data|
  {
    Media(data[..6], data[6..12], (data[12] as int) * 0x100 + data[13] as int)
  }

  /** The header on the wire: both addresses, then the protocol, high byte first. */
  function MediaBytes(m: Media): (r: Mem)
    ensures |r| == MEDIA_HEADER
  {
    m.dest + m.src + [m.protocol / 0x100, m.protocol % 0x100]
  }

  /** The fourteen bytes in the order of the wire. */
  lemma MediaOnWire(m: Media)
    ensures MediaBytes(m)[0..6] == m.dest && MediaBytes(m)[6..12] == m.src
    ensures MediaBytes(m)[12] as int * 256 + MediaBytes(m)[13] as int == m.protocol
  {
  }

  /** What the sender puts in front of a packet is what the receiver reads. */
  lemma MediaRoundTrip(m: Media, rest: Mem)
    ensures MediaOf(MediaBytes(m) + rest) == m
  {
    var p := MediaBytes(m) + rest;
    assert p[..6] == m.dest && p[6..12] == m.src;
  }

  /** And the other way around. */
  lemma BytesRoundTrip(data: Mem)
    requires MEDIA_HEADER <= |data|
    ensures MediaBytes(MediaOf(data)) == data[..MEDIA_HEADER]
  {
    var p: int := (data[12] as int) * 0x100 + data[13] as int;
    assert p / 0x100 == data[12] as int && p % 0x100 == data[13] as int;
  }

  /** Reads the addresses and the protocol by moving through the packet. */
  method ReadMedia(data: Mem) returns (m: Media)
    requires MEDIA_HEADER <= |data|
    ensures m == MediaOf(data)
  {
    var at := 0;
    var dest := data[at..at + MAC_SIZE];
    at := at + MAC_SIZE;
    var src := data[at..at + MAC_SIZE];
    at := at + MAC_SIZE;
    return Media(dest, src, (data[at] as int) * 0x100 + data[at + 1] as int);
  }

  /** Copies `data` to position `at`. */
  method CopyTo(buffer: array<byte>, at: nat, data: Mem)
    requires at + |data| <= buffer.Length
    modifies buffer
    ensures forall k :: 0 <= k < buffer.Length ==>
              buffer[k] == if at <= k < at + |data| then data[k - at] else old(buffer[k])
  {
    for i := 0 to |data|
      invariant forall k :: 0 <= k < i ==> buffer[at + k] == data[k]
      invariant forall k :: 0 <= k < buffer.Length && !(at <= k < at + i) ==> buffer[k] == old(buffer[k])
    {
      buffer[at + i] := data[i];
    }
  }

  /** A buffer that holds the header byte by byte, and the rest of another. */
  lemma Assembled(b: Mem, m: Media, before: Mem)
    requires |b| == |before| && MEDIA_HEADER <= |b|
    requires forall k :: 0 <= k < 6 ==> b[k] == m.dest[k]
    requires forall k :: 0 <= k < 6 ==> b[k + 6] == m.src[k]
    requires b[12] as int == m.protocol / 0x100 && b[13] as int == m.protocol % 0x100
    requires forall k :: 14 <= k < |b| ==> b[k] == before[k]
    ensures b == MediaBytes(m) + before[MEDIA_HEADER..]
  {
    var w := MediaBytes(m) + before[MEDIA_HEADER..];
    forall k | 0 <= k < |b|
      ensures b[k] == w[k]
    {
      if 6 <= k < 12 {
        assert b[(k - 6) + 6] == m.src[k - 6];
      }
    }
  }

  /** Fills in the header in front of the caller's packet. */
  method FillMedia(buffer: array<byte>, m: Media)
    requires MEDIA_HEADER <= buffer.Length
    modifies buffer
    ensures buffer[..] == MediaBytes(m) + old(buffer[MEDIA_HEADER..])
  {
    hide MediaBytes;
    ghost var before := buffer[..];
    var at := 0;
    CopyTo(buffer, at, m.dest);
    at := at + MAC_SIZE;
    CopyTo(buffer, at, m.src);
    at := at + MAC_SIZE;
    buffer[at] := m.protocol / 0x100;
    at := at + 1;
    buffer[at] := m.protocol % 0x100;
    at := at + 1;
    assert at == MEDIA_HEADER;
    Assembled(buffer[..], m, before);
  }
}
