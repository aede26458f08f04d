/** The packet framing: a 40-byte header and a body, read back from a stream
    that the network may cut anywhere. */
module Protocol {
  import opened Common

  const MAGIC: Bytes := [0x51, 0x4B, 0x4E, 0x54]
  const PROTOCOL_VERSION: byte := 1
  const HEADER_SIZE := 40
  const MAX_PAYLOAD_SIZE := 16 * 1024 * 1024
  const NONCE_SIZE := 12
  const TAG_SIZE := 16

  const PLAINTEXT_PACKET_TYPES: set<int> := {0x01, 0x02, 0xF0, 0xF1, 0xF2, 0xF3}

  datatype Error =
    | ConnectionClosed | BadMagic | BadVersion | TooLarge | UnknownType
    | NoKey | DecryptFailed | BadJson

  datatype Packet<+P> = Packet(kind: int, payload: P)

  datatype Head = Head(kind: int, length: nat, nonce: Bytes, tag: Bytes)

  /** The values of the `PacketType` enumeration. */
  predicate IsKind(kind: int)
    ensures IsKind(kind) ==> 0 <= kind < 0x1_0000
  {
    kind in {
      0x01, 0x02, 0x10, 0x11, 0x12, 0x13, 0x14, 0x15, 0x20, 0x21, 0x22, 0x23, 0x24, 0x25,
      0x30, 0x31, 0x40, 0x41, 0x42, 0x50, 0x51, 0x52, 0x53, 0x54, 0x55, 0x56, 0x57,
      0x60, 0x61, 0x62, 0x70, 0x71, 0x72, 0x73, 0x74, 0x75, 0x80, 0x81, 0x82, 0x83,
      0x90, 0x91, 0x92, 0xF0, 0xF1, 0xF2, 0xF3, 0xFD, 0xFE, 0xFF }
  }

  /** The foreign code: JSON printing and parsing, and authenticated encryption
      (key, nonce, text, associated data). `empty` is the empty object. */
  datatype Codec<!P> = Codec(
    dumps: P -> Bytes,
    loads: Bytes -> Option<P>,
    empty: P,
    encrypt: (Bytes, Bytes, Bytes, Bytes) -> (Bytes, Bytes),
    decrypt: (Bytes, Bytes, Bytes, Bytes, Bytes) -> Option<Bytes>)

  /** What is assumed of the foreign code. */
  ghost predicate Lawful<P(!new)>(c: Codec<P>) {
    && (forall p :: c.dumps(p) != [] && c.loads(c.dumps(p)) == Some(p))
    && (forall key, nonce, text, aad ::
          var sealed := c.encrypt(key, nonce, text, aad);
          |sealed.0| == |text| && |sealed.1| == TAG_SIZE &&
          c.decrypt(key, nonce, sealed.0, sealed.1, aad) == Some(text))
  }

  function Zeros(n: nat): Bytes {
    seq(n, _ => 0)
  }

  function U16(n: int): (r: Bytes)
    requires 0 <= n < 0x1_0000
    ensures |r| == 2
  {
    [n / 256, n % 256]
  }

  function U32(n: int): (r: Bytes)
    requires 0 <= n < 0x1_0000_0000
    ensures |r| == 4
  {
    U16(n / 0x1_0000) + U16(n % 0x1_0000)
  }

  function ReadU16(b: Bytes): (n: int)
    requires |b| == 2
    ensures 0 <= n < 0x1_0000 && U16(n) == b
  {
    var hi: int, lo: int := b[0], b[1];
    hi * 256 + lo
  }

  function ReadU32(b: Bytes): (n: int)
    requires |b| == 4
    ensures 0 <= n < 0x1_0000_0000 && U32(n) == b
  {
    ReadU16(b[..2]) * 0x1_0000 + ReadU16(b[2..])
  }

  /** The associated data, which is also the start of the header. */
  function Aad(kind: int, length: int): (r: Bytes)
    requires IsKind(kind) && 0 <= length < 0x1_0000_0000
    ensures |r| == 12
  {
    MAGIC + U16(PROTOCOL_VERSION) + U16(kind) + U32(length)
  }

  function Header(kind: int, length: int, nonce: Bytes, tag: Bytes): (r: Bytes)
    requires IsKind(kind) && 0 <= length < 0x1_0000_0000
    requires |nonce| == NONCE_SIZE && |tag| == TAG_SIZE
    ensures |r| == HEADER_SIZE
  {
    Aad(kind, length) + nonce + tag
  }

  predicate Encrypts(kind: int, key: Option<Bytes>) {
    key.Some? && kind !in PLAINTEXT_PACKET_TYPES
  }

  /** `encode_packet`; `nonce` is the random draw, used only when encrypting. A
      length that does not fit 32 bits cannot be packed. */
  function EncodePacket<P>(c: Codec<P>, p: Packet<P>, key: Option<Bytes>, nonce: Bytes): Option<Bytes>
    requires IsKind(p.kind) && |nonce| == NONCE_SIZE
  {
    var text := c.dumps(p.payload);
    if |text| >= 0x1_0000_0000 then None
    else if Encrypts(p.kind, key) then
      var sealed := c.encrypt(key.value, nonce, text, Aad(p.kind, |text|));
      if |sealed.0| >= 0x1_0000_0000 || |sealed.1| != TAG_SIZE then None
      else Some(Header(p.kind, |sealed.0|, nonce, sealed.1) + sealed.0)
    else
      Some(Header(p.kind, |text|, Zeros(NONCE_SIZE), Zeros(TAG_SIZE)) + text)
  }

  function DecodeHeader(h: Bytes): (r: Result<Head, Error>)
    requires |h| == HEADER_SIZE
    ensures r.Ok? ==> IsKind(r.value.kind) && r.value.length <= MAX_PAYLOAD_SIZE
    ensures r.Ok? ==> |r.value.nonce| == NONCE_SIZE && |r.value.tag| == TAG_SIZE
  {
    var length := ReadU32(h[8..12]);
    if h[..4] != MAGIC then Err(BadMagic)
    else if ReadU16(h[4..6]) != PROTOCOL_VERSION then Err(BadVersion)
    else if length > MAX_PAYLOAD_SIZE then Err(TooLarge)
    else if !IsKind(ReadU16(h[6..8])) then Err(UnknownType)
    else Ok(Head(ReadU16(h[6..8]), length, h[12..24], h[24..40]))
  }

  /** The body of `read_packet` once all its bytes are in. */
  function Open<P>(c: Codec<P>, head: Head, raw: Bytes, key: Option<Bytes>): Result<Packet<P>, Error>
    requires IsKind(head.kind) && head.length <= MAX_PAYLOAD_SIZE
  {
    if head.nonce == Zeros(NONCE_SIZE) then Parsed(c, head.kind, raw)
    else if key.None? then Err(NoKey)
    else
      var text := c.decrypt(key.value, head.nonce, raw, head.tag, Aad(head.kind, head.length));
      if text.None? then Err(DecryptFailed) else Parsed(c, head.kind, text.value)
  }

  function Parsed<P>(c: Codec<P>, kind: int, text: Bytes): Result<Packet<P>, Error> {
    if text == [] then Ok(Packet(kind, c.empty))
    else
      var p := c.loads(text);
      if p.None? then Err(BadJson) else Ok(Packet(kind, p.value))
  }

  /** Reading one packet off a stream that ends after the given bytes: the
      outcome and the bytes left unread. */
  function ReadOne<P>(c: Codec<P>, stream: Bytes, key: Option<Bytes>): (Result<Packet<P>, Error>, Bytes) {
    if |stream| < HEADER_SIZE then (Err(ConnectionClosed), [])
    else
      var rest := stream[HEADER_SIZE..];
      var head := DecodeHeader(stream[..HEADER_SIZE]);
      if head.Err? then (Err(head.error), rest)
      else if |rest| < head.value.length then (Err(ConnectionClosed), [])
      else (Open(c, head.value, rest[..head.value.length], key), rest[head.value.length..])
  }

  /* ---------- the socket ---------- */

  /** A connected socket; `incoming` is all that will ever arrive on it. */
  class Socket {
    var incoming: Bytes

    constructor (data: Bytes)
      ensures incoming == data
    {
      incoming := data;
    }

    /** Returns some non-empty piece of what is to come, of at most n bytes;
        nothing only once the peer has closed. */
    method Recv(n: nat) returns (chunk: Bytes)
      requires n > 0
      modifies this
      ensures chunk + incoming == old(incoming) && |chunk| <= n
      ensures chunk == [] <==> old(incoming) == []
    {
      if incoming == [] { return []; }
      var k :| 1 <= k <= n && k <= |incoming|;
      chunk := incoming[..k];
      incoming := incoming[k..];
    }

    method RecvExact(n: nat) returns (r: Option<Bytes>)
      modifies this
      ensures n <= |old(incoming)| ==> r == Some(old(incoming)[..n]) && incoming == old(incoming)[n..]
      ensures n > |old(incoming)| ==> r == None && incoming == []
    {
      var data: Bytes := [];
      while |data| < n
        invariant |data| <= n && data + incoming == old(incoming)
      {
        var chunk := Recv(n - |data|);
        if chunk == [] { return None; }
        assert old(incoming) == data + (chunk + incoming);
        data := data + chunk;
      }
      r := Some(data);
    }

    /** However the network cuts the bytes, the outcome and what is left are
        those of the stream itself. */
    method ReadPacket<P>(c: Codec<P>, key: Option<Bytes>) returns (r: Result<Packet<P>, Error>)
      modifies this
      ensures (r, incoming) == ReadOne(c, old(incoming), key)
    {
      var h := RecvExact(HEADER_SIZE);
      if h.None? { return Err(ConnectionClosed); }
      var head := DecodeHeader(h.value);
      if head.Err? { return Err(head.error); }
      var raw := [];
      if head.value.length > 0 {
        var body := RecvExact(head.value.length);
        if body.None? { return Err(ConnectionClosed); }
        raw := body.value;
      }
      r := Open(c, head.value, raw, key);
    }

    /** A connection's reading loop: packet after packet until one fails, with
        the session key held at each (none before the handshake). */
    method ReadLoop<P>(c: Codec<P>, keys: seq<Option<Bytes>>) returns (packets: seq<Packet<P>>, error: Option<Error>)
      modifies this
      ensures (packets, error, incoming) == ReadAll(c, old(incoming), keys)
    {
      packets, error := [], None;
      var i := 0;
      ReadStart(c, incoming, keys);
      while i < |keys|
        invariant 0 <= i <= |keys|
        invariant ReadAll(c, old(incoming), keys) == Behind(packets, ReadAll(c, incoming, keys[i..]))
      {
        ReadNext(c, incoming, keys, i, packets);
        var r := ReadPacket(c, keys[i]);
        if r.Err? { return packets, Some(r.error); }
        packets := packets + [r.value];
        i := i + 1;
      }
      assert packets + [] == packets;
    }
  }

  /* ---------- headers ---------- */

  lemma U32Back(n: int)
    requires 0 <= n < 0x1_0000_0000
    ensures ReadU32(U32(n)) == n
  {
  }

  lemma HeaderFields(kind: int, length: int, nonce: Bytes, tag: Bytes)
    requires IsKind(kind) && 0 <= length < 0x1_0000_0000
    requires |nonce| == NONCE_SIZE && |tag| == TAG_SIZE
    ensures var h := Header(kind, length, nonce, tag);
            h[..4] == MAGIC && h[4..6] == U16(PROTOCOL_VERSION) && h[6..8] == U16(kind) &&
            h[8..12] == U32(length) && h[12..24] == nonce && h[24..40] == tag
  {
  }

  /** A header that was written is accepted exactly when it announces at most
      16 MB, and then gives back its four fields. */
  lemma HeaderReadsBack(kind: int, length: int, nonce: Bytes, tag: Bytes)
    requires IsKind(kind) && 0 <= length < 0x1_0000_0000
    requires |nonce| == NONCE_SIZE && |tag| == TAG_SIZE
    ensures DecodeHeader(Header(kind, length, nonce, tag)) ==
      if length <= MAX_PAYLOAD_SIZE then Ok(Head(kind, length, nonce, tag)) else Err(TooLarge)
  {
    HeaderFields(kind, length, nonce, tag);
    U32Back(length);
    assert ReadU16(U16(kind)) == kind && ReadU16(U16(PROTOCOL_VERSION)) == PROTOCOL_VERSION;
  }

  /** Only one header gives a set of fields: nothing malformed is accepted. */
  lemma AcceptedHeaderIsWritten(h: Bytes)
    requires |h| == HEADER_SIZE && DecodeHeader(h).Ok?
    ensures var f := DecodeHeader(h).value; h == Header(f.kind, f.length, f.nonce, f.tag)
  {
    var f := DecodeHeader(h).value;
    HeaderFields(f.kind, f.length, f.nonce, f.tag);
    assert h == h[..4] + h[4..6] + h[6..8] + h[8..12] + h[12..24] + h[24..40];
  }

  /** The header byte by byte: big-endian, 40 bytes, and its first twelve are what
      encryption authenticates. */
  lemma HeaderBytes(kind: int, length: int, nonce: Bytes, tag: Bytes)
    requires IsKind(kind) && 0 <= length < 0x1_0000_0000 && |nonce| == 12 && |tag| == 16
    ensures var h := Header(kind, length, nonce, tag);
            && |h| == 40 && h[..12] == Aad(kind, length) && h[12..24] == nonce && h[24..] == tag
            && h[..6] == [0x51, 0x4B, 0x4E, 0x54, 0, 1]
            && h[6] == kind / 256 && h[7] == kind % 256
            && h[8] == length / 0x100_0000 && h[9] == length / 0x1_0000 % 256
            && h[10] == length / 256 % 256 && h[11] == length % 256
  {
    var h := Header(kind, length, nonce, tag);
    U32Is(length);
    assert h[..6] == MAGIC + U16(PROTOCOL_VERSION);
    assert h[6..8] == U16(kind) && h[6] == h[6..8][0] && h[7] == h[6..8][1];
    var size := U32(length);
    assert h[8..12] == size;
    assert h[8] == size[0] && h[9] == size[1] && h[10] == size[2] && h[11] == size[3];
  }

  lemma U32Is(n: int)
    requires 0 <= n < 0x1_0000_0000
    ensures var b := U32(n);
            b[0] == n / 0x100_0000 && b[1] == n / 0x1_0000 % 256 && b[2] == n / 256 % 256 && b[3] == n % 256
  {
    var high, low := n / 0x1_0000, n % 0x1_0000;
    assert U32(n) == [high / 256, high % 256, low / 256, low % 256];
    Digits(n, high / 256, high % 256, low / 256, low % 256);
  }

  lemma Digits(n: int, b3: int, b2: int, b1: int, b0: int)
    requires n == 0x100_0000 * b3 + 0x1_0000 * b2 + 256 * b1 + b0
    requires 0 <= b2 < 256 && 0 <= b1 < 256 && 0 <= b0 < 256
    ensures n / 0x100_0000 == b3 && n / 256 % 256 == b1 && n % 256 == b0
  {
    assert n == 256 * (0x1_0000 * b3 + 256 * b2 + b1) + b0;
    assert n / 256 == 256 * (256 * b3 + b2) + b1;
  }

  /** The types there are. */
  lemma KindsAre(kind: int)
    ensures IsKind(kind) <==>
      || 0x01 <= kind <= 0x02 || 0x10 <= kind <= 0x15 || 0x20 <= kind <= 0x25 || 0x30 <= kind <= 0x31
      || 0x40 <= kind <= 0x42 || 0x50 <= kind <= 0x57 || 0x60 <= kind <= 0x62 || 0x70 <= kind <= 0x75
      || 0x80 <= kind <= 0x83 || 0x90 <= kind <= 0x92 || 0xF0 <= kind <= 0xF3 || 0xFD <= kind <= 0xFF
  {
  }

  /** The types that go in the clear even with a session key. */
  lemma ClearKindsAre(kind: int, key: Bytes)
    ensures Encrypts(kind, Some(key)) <==>
      && kind != 0x01 && kind != 0x02 && kind != 0xF0 && kind != 0xF1 && kind != 0xF2 && kind != 0xF3
    ensures !Encrypts(kind, None)
  {
  }

  /** Why a header is refused: the first of the four tests it fails. */
  lemma RefusedHeader(h: Bytes)
    requires |h| == 40
    ensures var kind, length := ReadU16(h[6..8]), ReadU32(h[8..12]);
            DecodeHeader(h) ==
              if h[..4] != [0x51, 0x4B, 0x4E, 0x54] then Err(BadMagic)
              else if h[4..6] != [0, 1] then Err(BadVersion)
              else if length > 16777216 then Err(TooLarge)
              else if !IsKind(kind) then Err(UnknownType)
              else Ok(Head(kind, length, h[12..24], h[24..40]))
    ensures U16(ReadU16(h[6..8])) == h[6..8] && U32(ReadU32(h[8..12])) == h[8..12]
  {
    assert h[4..6] == [h[4], h[5]];
  }

  /* ---------- packets ---------- */

  /** One packet as sent: under which session key and with which nonce. */
  datatype Sent<+P> = Sent(packet: Packet<P>, key: Option<Bytes>, nonce: Bytes)

  predicate Sendable<P>(c: Codec<P>, s: Sent<P>) {
    && IsKind(s.packet.kind)
    && |s.nonce| == NONCE_SIZE
    && s.nonce != Zeros(NONCE_SIZE)
    && |c.dumps(s.packet.payload)| < 0x1_0000_0000
  }

  function BodyLength<P>(c: Codec<P>, s: Sent<P>): nat {
    |c.dumps(s.packet.payload)|
  }

  function Wire<P>(c: Codec<P>, s: Sent<P>): Option<Bytes>
    requires Sendable(c, s)
  {
    EncodePacket(c, s.packet, s.key, s.nonce)
  }

  /** The receiver holds the sender's key whenever the packet is encrypted. */
  predicate KeysAgree<P>(s: Sent<P>, key: Option<Bytes>) {
    Encrypts(s.packet.kind, s.key) ==> key == s.key
  }

  /** The shape of a packet on the wire, and what opening its body gives. */
  lemma WireOpens<P(!new)>(c: Codec<P>, s: Sent<P>, key: Option<Bytes>) returns (h: Head, body: Bytes)
    requires Lawful(c) && Sendable(c, s) && KeysAgree(s, key)
    ensures IsKind(h.kind) && |h.nonce| == NONCE_SIZE && |h.tag| == TAG_SIZE
    ensures h.kind == s.packet.kind && h.length == |body| == BodyLength(c, s)
    ensures Wire(c, s) == Some(Header(h.kind, h.length, h.nonce, h.tag) + body)
    ensures h.length <= MAX_PAYLOAD_SIZE ==> Open(c, h, body, key) == Ok(s.packet)
  {
    var text := c.dumps(s.packet.payload);
    if Encrypts(s.packet.kind, s.key) {
      var sealed := c.encrypt(s.key.value, s.nonce, text, Aad(s.packet.kind, |text|));
      h, body := Head(s.packet.kind, |text|, s.nonce, sealed.1), sealed.0;
      assert c.decrypt(s.key.value, s.nonce, sealed.0, sealed.1, Aad(s.packet.kind, |text|)) == Some(text);
    } else {
      h, body := Head(s.packet.kind, |text|, Zeros(NONCE_SIZE), Zeros(TAG_SIZE)), text;
    }
  }

  /** One packet followed by anything reads back as itself, leaving exactly what
      followed, if and only if its body is within 16 MB. */
  lemma ReadsBackExactly<P(!new)>(c: Codec<P>, s: Sent<P>, key: Option<Bytes>, rest: Bytes)
    requires Lawful(c) && Sendable(c, s) && KeysAgree(s, key)
    ensures Wire(c, s).Some?
    ensures ReadOne(c, Wire(c, s).value + rest, key) == (Ok(s.packet), rest) <==> BodyLength(c, s) <= MAX_PAYLOAD_SIZE
    ensures BodyLength(c, s) > MAX_PAYLOAD_SIZE ==> ReadOne(c, Wire(c, s).value + rest, key).0 == Err(TooLarge)
  {
    var h, body := WireOpens(c, s, key);
    HeaderReadsBack(h.kind, h.length, h.nonce, h.tag);
    var stream := Wire(c, s).value + rest;
    var header := Header(h.kind, h.length, h.nonce, h.tag);
    assert stream[..HEADER_SIZE] == header;
    assert stream[HEADER_SIZE..] == body + rest;
    assert (body + rest)[..|body|] == body && (body + rest)[|body|..] == rest;
  }

  /** A packet cut short is never accepted, wherever the cut falls. */
  lemma CutShort<P(!new)>(c: Codec<P>, s: Sent<P>, key: Option<Bytes>, cut: nat)
    requires Lawful(c) && Sendable(c, s) && KeysAgree(s, key) && BodyLength(c, s) <= MAX_PAYLOAD_SIZE
    requires Wire(c, s).Some? && cut < |Wire(c, s).value|
    ensures ReadOne(c, Wire(c, s).value[..cut], key) == (Err(ConnectionClosed), [])
  {
    var h, body := WireOpens(c, s, key);
    HeaderReadsBack(h.kind, h.length, h.nonce, h.tag);
    var stream := Wire(c, s).value[..cut];
    if cut >= HEADER_SIZE {
      assert stream[..HEADER_SIZE] == Header(h.kind, h.length, h.nonce, h.tag);
    }
  }

  /** What an encrypted packet whose nonce is drawn as twelve zero bytes reads
      back as: its ciphertext is taken for plain JSON. */
  lemma ZeroNonceIsReadAsPlain<P(!new)>(c: Codec<P>, p: Packet<P>, key: Bytes, rest: Bytes)
    requires Lawful(c) && IsKind(p.kind) && p.kind !in PLAINTEXT_PACKET_TYPES
    requires |c.dumps(p.payload)| <= MAX_PAYLOAD_SIZE
    ensures var wire := EncodePacket(c, p, Some(key), Zeros(NONCE_SIZE));
            var text := c.dumps(p.payload);
            wire.Some? && ReadOne(c, wire.value + rest, Some(key)) ==
              (Parsed(c, p.kind, c.encrypt(key, Zeros(NONCE_SIZE), text, Aad(p.kind, |text|)).0), rest)
  {
    var text := c.dumps(p.payload);
    var sealed := c.encrypt(key, Zeros(NONCE_SIZE), text, Aad(p.kind, |text|));
    assert |sealed.0| == |text| && |sealed.1| == TAG_SIZE;
    var header := Header(p.kind, |text|, Zeros(NONCE_SIZE), sealed.1);
    HeaderReadsBack(p.kind, |text|, Zeros(NONCE_SIZE), sealed.1);
    var stream := header + sealed.0 + rest;
    assert stream[..HEADER_SIZE] == header;
    assert stream[HEADER_SIZE..] == sealed.0 + rest;
    assert (sealed.0 + rest)[..|text|] == sealed.0 && (sealed.0 + rest)[|text|..] == rest;
  }

  /** A sealed packet on the wire: the nonce and tag in the header, the ciphertext
      as the body, sealed under the header's own first twelve bytes. */
  lemma SealedOnTheWire<P(!new)>(c: Codec<P>, p: Packet<P>, key: Bytes, nonce: Bytes)
    requires Lawful(c) && IsKind(p.kind) && p.kind !in {0x01, 0x02, 0xF0, 0xF1, 0xF2, 0xF3} && |nonce| == 12
    requires |c.dumps(p.payload)| < 0x1_0000_0000
    ensures var text := c.dumps(p.payload);
            var sealed := c.encrypt(key, nonce, text, Aad(p.kind, |text|));
            EncodePacket(c, p, Some(key), nonce) == Some(Header(p.kind, |text|, nonce, sealed.1) + sealed.0)
  {
    ClearKindsAre(p.kind, key);
    var text := c.dumps(p.payload);
    var sealed := c.encrypt(key, nonce, text, Aad(p.kind, |text|));
    assert |sealed.0| == |text| && |sealed.1| == TAG_SIZE;
  }

  /** What the key buys: of a packet sealed with an ordinary nonce a receiver
      without a key gets nothing but the complaint, and one with any key exactly
      what decryption under that key gives. */
  lemma SealedFromOthers<P(!new)>(
    c: Codec<P>, p: Packet<P>, key: Bytes, nonce: Bytes, other: Option<Bytes>, rest: Bytes)
    requires Lawful(c) && IsKind(p.kind) && p.kind !in {0x01, 0x02, 0xF0, 0xF1, 0xF2, 0xF3}
    requires |nonce| == 12 && nonce != Zeros(12) && |c.dumps(p.payload)| <= 16777216
    ensures var text := c.dumps(p.payload);
            var aad := Aad(p.kind, |text|);
            var sealed := c.encrypt(key, nonce, text, aad);
            var wire := EncodePacket(c, p, Some(key), nonce);
            var plain := if other.Some? then c.decrypt(other.value, nonce, sealed.0, sealed.1, aad) else None;
            && wire.Some?
            && ReadOne(c, wire.value + rest, other)
               == (if other.None? then Err(NoKey)
                   else if plain.None? then Err(DecryptFailed) else Parsed(c, p.kind, plain.value), rest)
  {
    var text := c.dumps(p.payload);
    var sealed := c.encrypt(key, nonce, text, Aad(p.kind, |text|));
    SealedOnTheWire(c, p, key, nonce);
    assert |sealed.0| == |text| && |sealed.1| == TAG_SIZE;
    ReadsWhole(c, Head(p.kind, |text|, nonce, sealed.1), sealed.0, other, rest);
  }

  /** A header, its body and whatever follows: the body is opened and the rest left. */
  lemma ReadsWhole<P(!new)>(c: Codec<P>, head: Head, body: Bytes, key: Option<Bytes>, rest: Bytes)
    requires IsKind(head.kind) && |head.nonce| == NONCE_SIZE && |head.tag| == TAG_SIZE
    requires head.length == |body| <= MAX_PAYLOAD_SIZE
    ensures ReadOne(c, Header(head.kind, head.length, head.nonce, head.tag) + body + rest, key)
         == (Open(c, head, body, key), rest)
  {
    var header := Header(head.kind, head.length, head.nonce, head.tag);
    HeaderReadsBack(head.kind, head.length, head.nonce, head.tag);
    var stream := header + body + rest;
    assert stream[..HEADER_SIZE] == header;
    assert stream[HEADER_SIZE..] == body + rest;
    assert (body + rest)[..|body|] == body && (body + rest)[|body|..] == rest;
  }

  /** Without a key, or for the six open types, the text goes out as it is under an
      all-zero nonce and tag. */
  lemma ClearOnTheWire<P>(c: Codec<P>, p: Packet<P>, key: Option<Bytes>, nonce: Bytes)
    requires IsKind(p.kind) && |nonce| == 12 && |c.dumps(p.payload)| < 0x1_0000_0000
    requires key.None? || p.kind in {0x01, 0x02, 0xF0, 0xF1, 0xF2, 0xF3}
    ensures var text := c.dumps(p.payload);
            EncodePacket(c, p, key, nonce) == Some(Header(p.kind, |text|, Zeros(12), Zeros(16)) + text)
  {
  }

  /** What a body in the clear is read as. */
  lemma ClearBodyIs<P(!new)>(c: Codec<P>, kind: int, body: Bytes, key: Option<Bytes>, rest: Bytes)
    requires IsKind(kind) && |body| <= 16777216
    ensures var payload := if body == [] then Some(c.empty) else c.loads(body);
            ReadOne(c, Header(kind, |body|, Zeros(12), Zeros(16)) + body + rest, key)
            == (if payload.None? then Err(BadJson) else Ok(Packet(kind, payload.value)), rest)
  {
    ReadsWhole(c, Head(kind, |body|, Zeros(NONCE_SIZE), Zeros(TAG_SIZE)), body, key, rest);
  }

  /* ---------- streams ---------- */

  /** The bytes of a list of packets sent one after the other. */
  function WireAll<P>(c: Codec<P>, sents: seq<Sent<P>>): Bytes {
    if sents == [] then [] else BytesOf(c, sents[0]) + WireAll(c, sents[1..])
  }

  /** A packet's bytes; nothing is sent for one that cannot be packed. */
  function BytesOf<P>(c: Codec<P>, s: Sent<P>): Bytes {
    if Sendable(c, s) && Wire(c, s).Some? then Wire(c, s).value else []
  }

  /** Reading packets one by one until one fails, with the key held for each. */
  function ReadAll<P>(c: Codec<P>, stream: Bytes, keys: seq<Option<Bytes>>): (seq<Packet<P>>, Option<Error>, Bytes) {
    if keys == [] then ([], None, stream)
    else
      var (r, rest) := ReadOne(c, stream, keys[0]);
      if r.Err? then ([], Some(r.error), rest)
      else
        var (more, error, left) := ReadAll(c, rest, keys[1..]);
        ([r.value] + more, error, left)
  }

  function Behind<P>(done: seq<Packet<P>>, ahead: (seq<Packet<P>>, Option<Error>, Bytes))
    : (seq<Packet<P>>, Option<Error>, Bytes)
  {
    (done + ahead.0, ahead.1, ahead.2)
  }

  lemma ReadStart<P>(c: Codec<P>, stream: Bytes, keys: seq<Option<Bytes>>)
    ensures Behind([], ReadAll(c, stream, keys[0..])) == ReadAll(c, stream, keys)
  {
    assert keys[0..] == keys;
    assert [] + ReadAll(c, stream, keys).0 == ReadAll(c, stream, keys).0;
  }

  lemma ReadNext<P>(c: Codec<P>, stream: Bytes, keys: seq<Option<Bytes>>, i: nat, done: seq<Packet<P>>)
    requires i < |keys|
    ensures var (r, rest) := ReadOne(c, stream, keys[i]);
            Behind(done, ReadAll(c, stream, keys[i..])) ==
              if r.Err? then (done, Some(r.error), rest) else Behind(done + [r.value], ReadAll(c, rest, keys[i + 1..]))
  {
    var (r, rest) := ReadOne(c, stream, keys[i]);
    assert keys[i..][0] == keys[i] && keys[i..][1..] == keys[i + 1..];
    assert done + [] == done;
    if r.Ok? {
      var more := ReadAll(c, rest, keys[i + 1..]).0;
      assert done + ([r.value] + more) == done + [r.value] + more;
    }
  }

  ghost predicate Readable<P(!new)>(c: Codec<P>, s: Sent<P>) {
    Sendable(c, s) && BodyLength(c, s) <= MAX_PAYLOAD_SIZE && Wire(c, s).Some?
  }

  /** Each packet is readable and the receiver holds the key it needs for it. */
  ghost predicate Conversation<P(!new)>(c: Codec<P>, sents: seq<Sent<P>>, keys: seq<Option<Bytes>>) {
    if sents == [] then keys == []
    else
      && keys != [] && Readable(c, sents[0]) && KeysAgree(sents[0], keys[0])
      && Conversation(c, sents[1..], keys[1..])
  }

  function Packets<P>(sents: seq<Sent<P>>): (r: seq<Packet<P>>)
    ensures |r| == |sents| && forall i :: 0 <= i < |r| ==> r[i] == sents[i].packet
  {
    if sents == [] then [] else [sents[0].packet] + Packets(sents[1..])
  }

  /** Reading on: the first packet, then whatever the rest of the stream gives. */
  lemma ReadsFirst<P(!new)>(c: Codec<P>, s: Sent<P>, keys: seq<Option<Bytes>>, tail: Bytes)
    requires Lawful(c) && Readable(c, s) && keys != [] && KeysAgree(s, keys[0])
    ensures ReadAll(c, BytesOf(c, s) + tail, keys) == Behind([s.packet], ReadAll(c, tail, keys[1..]))
  {
    ReadsBackExactly(c, s, keys[0], tail);
  }

  /** A list of packets, plaintext and encrypted mixed, is read back as the same
      list, consuming exactly its bytes. */
  lemma {:induction false} StreamRoundTrip<P(!new)>(c: Codec<P>, sents: seq<Sent<P>>, keys: seq<Option<Bytes>>,
                                             rest: Bytes)
    requires Lawful(c) && Conversation(c, sents, keys)
    ensures ReadAll(c, WireAll(c, sents) + rest, keys) == (Packets(sents), None, rest)
  {
    if sents == [] {
      assert WireAll(c, sents) + rest == rest;
    } else {
      var tail := WireAll(c, sents[1..]) + rest;
      assert WireAll(c, sents) + rest == BytesOf(c, sents[0]) + tail;
      ReadsFirst(c, sents[0], keys, tail);
      StreamRoundTrip(c, sents[1..], keys[1..], rest);
    }
  }

  /** The first packets of a list start with the first. */
  lemma WirePrefix<P>(c: Codec<P>, sents: seq<Sent<P>>, j: nat)
    requires j < |sents|
    ensures WireAll(c, sents[..j + 1]) == BytesOf(c, sents[0]) + WireAll(c, sents[1..][..j])
    ensures Packets(sents[..j + 1]) == [sents[0].packet] + Packets(sents[1..][..j])
  {
    assert sents[..j + 1][0] == sents[0] && sents[..j + 1][1..] == sents[1..][..j];
  }

  /** Cut at `cut`, the stream delivers exactly the first `k` packets, those that
      end before the cut, and then reports the closed connection. */
  ghost predicate DeliversOnly<P(!new)>(c: Codec<P>, sents: seq<Sent<P>>, keys: seq<Option<Bytes>>, cut: nat, k: nat) {
    && k < |sents|
    && |WireAll(c, sents[..k])| <= cut < |WireAll(c, sents[..k + 1])|
    && cut <= |WireAll(c, sents)|
    && ReadAll(c, WireAll(c, sents)[..cut], keys) == (Packets(sents[..k]), Some(ConnectionClosed), [])
  }

  /** A connection that dies at any byte delivers exactly the packets that were
      complete, and then reports the closed connection. */
  lemma {:induction false} StreamCutAnywhere<P(!new)>(c: Codec<P>, sents: seq<Sent<P>>, keys: seq<Option<Bytes>>,
                                               cut: nat)
    returns (k: nat)
    requires Lawful(c) && Conversation(c, sents, keys) && cut < |WireAll(c, sents)|
    ensures DeliversOnly(c, sents, keys, cut, k)
  {
    var first := BytesOf(c, sents[0]);
    if cut < |first| {
      k := 0;
      CutInFirst(c, sents, keys, cut);
    } else {
      var j := StreamCutAnywhere(c, sents[1..], keys[1..], cut - |first|);
      k := j + 1;
      CutLater(c, sents, keys, cut, j);
    }
  }

  lemma CutInFirst<P(!new)>(c: Codec<P>, sents: seq<Sent<P>>, keys: seq<Option<Bytes>>, cut: nat)
    requires Lawful(c) && sents != [] && keys != [] && Readable(c, sents[0]) && KeysAgree(sents[0], keys[0])
    requires cut < |BytesOf(c, sents[0])|
    ensures DeliversOnly(c, sents, keys, cut, 0)
  {
    WirePrefix(c, sents, 0);
    assert sents[1..][..0] == [] && sents[..0] == [];
    assert WireAll(c, sents)[..cut] == BytesOf(c, sents[0])[..cut];
    CutShort(c, sents[0], keys[0], cut);
  }

  lemma CutLater<P(!new)>(c: Codec<P>, sents: seq<Sent<P>>, keys: seq<Option<Bytes>>, cut: nat, j: nat)
    requires sents != [] && keys != [] && |BytesOf(c, sents[0])| <= cut <= |WireAll(c, sents)|
    requires Lawful(c) && Readable(c, sents[0]) && KeysAgree(sents[0], keys[0])
    requires DeliversOnly(c, sents[1..], keys[1..], cut - |BytesOf(c, sents[0])|, j)
    ensures DeliversOnly(c, sents, keys, cut, j + 1)
  {
    CutTail(BytesOf(c, sents[0]), WireAll(c, sents[1..]), cut);
    ReadsFirst(c, sents[0], keys, WireAll(c, sents[1..])[..cut - |BytesOf(c, sents[0])|]);
    WirePrefix(c, sents, j);
    WirePrefix(c, sents, j + 1);
  }

  lemma CutTail(first: Bytes, rest: Bytes, cut: nat)
    requires |first| <= cut <= |first + rest|
    ensures (first + rest)[..cut] == first + rest[..cut - |first|]
  {
  }
}
