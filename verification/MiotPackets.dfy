/**
 The binary packets of packages/miot-device/src/packet/: a 32-byte header built and read in place, an
 encrypted payload, and a checksum over both. MD5 and AES-128-CBC are parameters; all that is used of
 them is that decryption inverts encryption and the sizes of their results.
 */
module MiotPackets {
  import opened Wrappers

  type byte = x: int | 0 <= x < 0x100

  const HEADER_SIZE := 32
  const MAX_UINT16 := 0xFFFF
  const MAX_UINT32 := 0xFFFF_FFFF

  /** The longest payload whose packet length fits the 16-bit length field. */
  const MAX_PAYLOAD := 65487

  datatype Crypto = Crypto(
    md5: seq<byte> -> seq<byte>,
    encrypt: (seq<byte>, seq<byte>, seq<byte>) -> seq<byte>,
    decrypt: (seq<byte>, seq<byte>, seq<byte>) -> Option<seq<byte>>)

  /** PKCS#7 padding always adds at least one byte (RFC 5652, section 6.3). */
  function CipherLength(n: nat): nat {
    (n / 16 + 1) * 16
  }

  ghost predicate Sound(c: Crypto) {
    && (forall s :: |c.md5(s)| == 16)
    && (forall k, iv, d :: |c.encrypt(k, iv, d)| == CipherLength(|d|))
    && (forall k, iv, d :: c.decrypt(k, iv, c.encrypt(k, iv, d)) == Some(d))
  }

  datatype PacketError = BadToken | NoToken | RangeError | TooShort | BadMagic | BadChecksum | BadPadding

  // ---------- big-endian fields ----------

  function U16(v: nat): seq<byte>
    requires v <= MAX_UINT16
  {
    [v / 0x100, v % 0x100]
  }

  function U32(v: nat): (s: seq<byte>)
    requires v <= MAX_UINT32
    ensures |s| == 4
  {
    [v / 0x100_0000, v / 0x1_0000 % 0x100, v / 0x100 % 0x100, v % 0x100]
  }

  function FromU32(s: seq<byte>): nat
    requires |s| == 4
  {
    s[0] as int * 0x100_0000 + s[1] as int * 0x1_0000 + s[2] as int * 0x100 + s[3] as int
  }

  lemma U32RoundTrip(v: nat)
    requires v <= MAX_UINT32
    ensures FromU32(U32(v)) == v
  {
    var a := v / 0x100;
    var b := a / 0x100;
    assert v / 0x1_0000 == b && v / 0x100_0000 == b / 0x100;
  }

  /** Some bytes written over others. */
  function Put(s: seq<byte>, offset: nat, bytes: seq<byte>): (r: seq<byte>)
    requires offset + |bytes| <= |s|
    ensures |r| == |s|
  {
    s[..offset] + bytes + s[offset + |bytes|..]
  }

  /** What a write leaves alone: any range that does not overlap it. */
  lemma PutKeeps(s: seq<byte>, offset: nat, bytes: seq<byte>, lo: nat, hi: nat)
    requires offset + |bytes| <= |s| && lo <= hi <= |s| && (hi <= offset || offset + |bytes| <= lo)
    ensures Put(s, offset, bytes)[lo..hi] == s[lo..hi]
  {
  }

  lemma PutSets(s: seq<byte>, offset: nat, bytes: seq<byte>)
    requires offset + |bytes| <= |s|
    ensures Put(s, offset, bytes)[offset..offset + |bytes|] == bytes
  {
  }

  function Key(c: Crypto, token: seq<byte>): seq<byte> {
    c.md5(token)
  }

  function IV(c: Crypto, token: seq<byte>): seq<byte> {
    c.md5(Key(c, token) + token)
  }

  // ---------- what a packet is, byte by byte ----------

  const FILL_4: seq<byte> := [0xFF, 0xFF, 0xFF, 0xFF]
  const FILL_16: seq<byte> := FILL_4 + FILL_4 + FILL_4 + FILL_4
  const HELLO_HEADER: seq<byte> := [0x21, 0x31, 0, 0] + FILL_4 + FILL_4 + FILL_4 + FILL_16

  /** The first 16 bytes of a command packet of `length` bytes. */
  function Prefix(length: nat, idAndStamp: seq<byte>): seq<byte>
    requires length <= MAX_UINT16
  {
    [0x21, 0x31] + U16(length) + [0, 0, 0, 0] + idAndStamp
  }

  function Checksum(c: Crypto, prefix: seq<byte>, token: seq<byte>, encrypted: seq<byte>): seq<byte> {
    c.md5(prefix + token + encrypted)
  }

  function Encrypted(c: Crypto, token: seq<byte>, payload: seq<byte>): seq<byte> {
    c.encrypt(Key(c, token), IV(c, token), payload)
  }

  function CommandPacket(c: Crypto, token: seq<byte>, idAndStamp: seq<byte>, payload: seq<byte>): Result<seq<byte>, PacketError> {
    var encrypted := Encrypted(c, token, payload);
    var length := HEADER_SIZE + |encrypted|;
    if length > MAX_UINT16 then Failure(RangeError)
    else
      var prefix := Prefix(length, idAndStamp);
      Success(prefix + Checksum(c, prefix, token, encrypted) + encrypted)
  }

  datatype Parsed = Parsed(deviceId: nat, stamp: nat, data: Option<seq<byte>>)

  function Parse(c: Crypto, token: seq<byte>, msg: seq<byte>): Result<Parsed, PacketError> {
    if |token| != 16 then Failure(BadToken)
    else if |msg| < HEADER_SIZE then Failure(TooShort)
    else
      var encrypted := msg[HEADER_SIZE..];
      if encrypted == [] then Success(Parsed(FromU32(msg[8..12]), FromU32(msg[12..16]), None))
      else if msg[16..32] != Checksum(c, msg[..16], token, encrypted) then Failure(BadChecksum)
      else
        match c.decrypt(Key(c, token), IV(c, token), encrypted)
        case None => Failure(BadPadding)
        case Some(data) => Success(Parsed(FromU32(msg[8..12]), FromU32(msg[12..16]), Some(data)))
  }

  // ---------- the packet objects ----------

  /** The shared header, as both packet classes build on it. */
  class BasePacket {
    const header: array<byte>
    const token: Option<seq<byte>>
    const tokenKey: seq<byte>
    const tokenIV: seq<byte>

    constructor (c: Crypto, token: Option<seq<byte>>)
      ensures fresh(header) && header.Length == HEADER_SIZE && header[..] == HELLO_HEADER
      ensures this.token == token
      ensures token.Some? ==> tokenKey == Key(c, token.value) && tokenIV == IV(c, token.value)
    {
      header := new byte[HEADER_SIZE](_ => 0);
      this.token := token;
      var key := if token.Some? then c.md5(token.value) else [];
      tokenKey := key;
      tokenIV := if token.Some? then c.md5(key + token.value) else [];
      new;
      header[0], header[1] := 0x21, 0x31;
      for i := 4 to HEADER_SIZE
        invariant header[..4] == [0x21, 0x31, 0, 0]
        invariant forall k :: 4 <= k < i ==> header[k] == 0xFF
      {
        header[i] := 0xFF;
      }
    }

    method WriteUInt16BE(value: nat, offset: nat)
      requires value <= MAX_UINT16 && offset + 2 <= header.Length
      modifies header
      ensures header[..] == Put(old(header[..]), offset, U16(value))
    {
      header[offset], header[offset + 1] := value / 0x100, value % 0x100;
    }

    method WriteUInt32BE(value: nat, offset: nat)
      requires value <= MAX_UINT32 && offset + 4 <= header.Length
      modifies header
      ensures header[..] == Put(old(header[..]), offset, U32(value))
    {
      header[offset] := value / 0x100_0000;
      header[offset + 1] := value / 0x1_0000 % 0x100;
      header[offset + 2] := value / 0x100 % 0x100;
      header[offset + 3] := value % 0x100;
    }

    /** `copy` of some bytes into the header. */
    method CopyIn(bytes: seq<byte>, offset: nat)
      requires offset + |bytes| <= header.Length
      modifies header
      ensures header[..] == Put(old(header[..]), offset, bytes)
    {
      for i := 0 to |bytes|
        invariant forall k :: 0 <= k < header.Length ==>
                    header[k] == if offset <= k < offset + i then bytes[k - offset] else old(header[k])
      {
        header[offset + i] := bytes[i];
      }
    }

    method ReadUInt32BE(offset: nat) returns (v: nat)
      requires offset + 4 <= header.Length
      ensures v == FromU32(header[offset..offset + 4])
    {
      v := header[offset] as int * 0x100_0000 + header[offset + 1] as int * 0x1_0000
         + header[offset + 2] as int * 0x100 + header[offset + 3] as int;
    }
  }

  class OutgoingPacket {
    const crypto: Crypto
    const base: BasePacket
    const payload: Option<seq<byte>>  // the JSON text, UTF-8 encoded

    ghost predicate Valid()
      reads this, base, base.header
    {
      base.header.Length == HEADER_SIZE && base.header[..2] == [0x21, 0x31]
    }

    constructor (crypto: Crypto, base: BasePacket, payload: Option<seq<byte>>)
      requires base.header.Length == HEADER_SIZE && base.header[..2] == [0x21, 0x31]
      ensures Valid() && this.crypto == crypto && this.base == base && this.payload == payload
    {
      this.crypto, this.base, this.payload := crypto, base, payload;
    }

    /** Device id and stamp written over the 0xFF fill, where they are given. */
    static method Create(crypto: Crypto, token: Option<seq<byte>>, deviceId: Option<nat>, stamp: Option<nat>, payload: Option<seq<byte>>)
        returns (r: Result<OutgoingPacket, PacketError>)
      ensures r.Failure? <==> (token.Some? && |token.value| != 16)
                              || (deviceId.Some? && deviceId.value > MAX_UINT32) || (stamp.Some? && stamp.value > MAX_UINT32)
      ensures r.Success? ==>
                && fresh(r.value.base.header) && r.value.Valid()
                && r.value.crypto == crypto && r.value.payload == payload && r.value.base.token == token
                && (token.Some? ==> r.value.base.tokenKey == Key(crypto, token.value) && r.value.base.tokenIV == IV(crypto, token.value))
                && r.value.base.header[..] == HeaderWith(deviceId, stamp)
    {
      if token.Some? && |token.value| != 16 {
        return Failure(BadToken);
      }
      if (deviceId.Some? && deviceId.value > MAX_UINT32) || (stamp.Some? && stamp.value > MAX_UINT32) {
        return Failure(RangeError);
      }
      var base := new BasePacket(crypto, token);
      if deviceId.Some? {
        base.WriteUInt32BE(deviceId.value, 8);
      }
      if stamp.Some? {
        base.WriteUInt32BE(stamp.value, 12);
      }
      HeaderFields(deviceId, stamp);
      var packet := new OutgoingPacket(crypto, base, payload);
      return Success(packet);
    }

    /** `raw`: the hello packet, or the command packet; asking again gives the same bytes. */
    method Raw() returns (r: Result<seq<byte>, PacketError>)
      requires Valid() && Sound(crypto)
      requires base.token.Some? ==> base.tokenKey == Key(crypto, base.token.value) && base.tokenIV == IV(crypto, base.token.value)
      modifies base.header
      ensures Valid() && base.header[8..16] == old(base.header[8..16])
      ensures payload.None? ==> r == Success([0x21, 0x31, 0, 32] + old(base.header[4..]))
      ensures payload.Some? ==> r == if base.token.None? then Failure(NoToken)
                                     else CommandPacket(crypto, base.token.value, old(base.header[8..16]), payload.value)
    {
      if payload.Some? {
        r := BuildCommandPacket();
        return;
      }
      ghost var h := base.header[..];
      base.WriteUInt16BE(HEADER_SIZE, 2);
      PutKeeps(h, 2, U16(HEADER_SIZE), 0, 2);
      PutKeeps(h, 2, U16(HEADER_SIZE), 8, 16);
      assert base.header[..] == h[..2] + [0, 32] + h[4..] == [0x21, 0x31, 0, 32] + h[4..];
      return Success(base.header[..]);
    }

    method BuildCommandPacket() returns (r: Result<seq<byte>, PacketError>)
      requires Valid() && Sound(crypto) && payload.Some?
      requires base.token.Some? ==> base.tokenKey == Key(crypto, base.token.value) && base.tokenIV == IV(crypto, base.token.value)
      modifies base.header
      ensures Valid() && base.header[8..16] == old(base.header[8..16])
      ensures r == if base.token.None? then Failure(NoToken)
                   else CommandPacket(crypto, base.token.value, old(base.header[8..16]), payload.value)
    {
      if base.token.None? {
        return Failure(NoToken);
      }
      ghost var h := base.header[..];
      base.WriteUInt32BE(0, 4);
      ghost var zeroed := base.header[..];
      PutKeeps(h, 4, U32(0), 0, 2);
      PutKeeps(h, 4, U32(0), 8, 16);
      PutSets(h, 4, U32(0));
      var encrypted := crypto.encrypt(base.tokenKey, base.tokenIV, payload.value);
      if HEADER_SIZE + |encrypted| > MAX_UINT16 {
        return Failure(RangeError);
      }
      base.WriteUInt16BE(HEADER_SIZE + |encrypted|, 2);
      ghost var g, length := base.header[..], U16(HEADER_SIZE + |encrypted|);
      PutKeeps(zeroed, 2, length, 0, 2);
      PutKeeps(zeroed, 2, length, 4, 8);
      PutKeeps(zeroed, 2, length, 8, 16);
      PutSets(zeroed, 2, length);
      ghost var prefix := Prefix(HEADER_SIZE + |encrypted|, h[8..16]);
      assert prefix == g[0..2] + g[2..4] + g[4..8] + g[8..16];
      assert base.header[..16] == prefix;
      var digest := crypto.md5(base.header[..16] + base.token.value + encrypted);
      base.CopyIn(digest, 16);
      PutKeeps(g, 16, digest, 8, 16);
      PutKeeps(g, 16, digest, 0, 2);
      assert base.header[..] == prefix + digest;
      return Success(base.header[..] + encrypted);
    }
  }

  function IdAndStamp(deviceId: Option<nat>, stamp: Option<nat>): seq<byte>
    requires deviceId.Some? ==> deviceId.value <= MAX_UINT32
    requires stamp.Some? ==> stamp.value <= MAX_UINT32
  {
    IdBytes(deviceId) + IdBytes(stamp)
  }

  function IdBytes(v: Option<nat>): seq<byte>
    requires v.Some? ==> v.value <= MAX_UINT32
  {
    if v.Some? then U32(v.value) else FILL_4
  }

  /** The hello header with device id and stamp written over its fill. */
  function HeaderWith(deviceId: Option<nat>, stamp: Option<nat>): seq<byte>
    requires deviceId.Some? ==> deviceId.value <= MAX_UINT32
    requires stamp.Some? ==> stamp.value <= MAX_UINT32
  {
    var h := if deviceId.Some? then Put(HELLO_HEADER, 8, U32(deviceId.value)) else HELLO_HEADER;
    if stamp.Some? then Put(h, 12, U32(stamp.value)) else h
  }

  /** ... holds the two fields where a command packet has them, and nothing else has changed. */
  lemma HeaderFields(deviceId: Option<nat>, stamp: Option<nat>)
    requires deviceId.Some? ==> deviceId.value <= MAX_UINT32
    requires stamp.Some? ==> stamp.value <= MAX_UINT32
    ensures HeaderWith(deviceId, stamp) == HELLO_HEADER[..8] + IdAndStamp(deviceId, stamp) + HELLO_HEADER[16..]
    ensures HeaderWith(deviceId, stamp)[8..16] == IdAndStamp(deviceId, stamp)
    ensures HeaderWith(deviceId, stamp)[..2] == [0x21, 0x31]
  {
    var h := if deviceId.Some? then Put(HELLO_HEADER, 8, U32(deviceId.value)) else HELLO_HEADER;
    IdField(deviceId);
    Reassemble(h, HELLO_HEADER[..8], IdBytes(deviceId), HELLO_HEADER[16..], stamp);
  }

  lemma IdField(deviceId: Option<nat>)
    requires deviceId.Some? ==> deviceId.value <= MAX_UINT32
    ensures (if deviceId.Some? then Put(HELLO_HEADER, 8, U32(deviceId.value)) else HELLO_HEADER)
         == HELLO_HEADER[..8] + IdBytes(deviceId) + FILL_4 + HELLO_HEADER[16..]
  {
    assert HELLO_HEADER[12..] == FILL_4 + HELLO_HEADER[16..];
  }

  lemma Reassemble(h: seq<byte>, lead: seq<byte>, id: seq<byte>, tail: seq<byte>, stamp: Option<nat>)
    requires stamp.Some? ==> stamp.value <= MAX_UINT32
    requires |lead| == 8 && |id| == 4 && lead[..2] == [0x21, 0x31] && h == lead + id + FILL_4 + tail
    ensures var g := if stamp.Some? then Put(h, 12, U32(stamp.value)) else h;
            && g == lead + (id + IdBytes(stamp)) + tail
            && g[8..16] == id + IdBytes(stamp) && g[..2] == [0x21, 0x31]
  {
    assert h[..12] == lead + id && h[16..] == tail;
  }

  /** A packet received: its header is the shared one, loaded from the message. */
  class IncomingPacket {
    const base: BasePacket
    const data: Option<seq<byte>>

    ghost predicate Valid()
      reads this, base, base.header
    {
      base.header.Length == HEADER_SIZE
    }

    /** What has been parsed, as the accessors give it. */
    ghost function Value(): Parsed
      requires Valid()
      reads this, base, base.header
    {
      Parsed(FromU32(base.header[8..12]), FromU32(base.header[12..16]), data)
    }

    constructor (base: BasePacket, data: Option<seq<byte>>)
      requires base.header.Length == HEADER_SIZE
      ensures Valid() && this.base == base && this.data == data
    {
      this.base, this.data := base, data;
    }

    /** The source's constructor: every way in which it throws, or the packet. */
    static method Create(crypto: Crypto, token: seq<byte>, msg: seq<byte>) returns (r: Result<IncomingPacket, PacketError>)
      ensures match r
              case Failure(e) => Parse(crypto, token, msg) == Failure(e)
              case Success(packet) => fresh(packet) && packet.Valid() && Parse(crypto, token, msg) == Success(packet.Value())
    {
      if |token| != 16 {
        return Failure(BadToken);
      }
      var base := new BasePacket(crypto, Some(token));
      if |msg| < HEADER_SIZE {
        return Failure(TooShort);
      }
      base.CopyIn(msg[..HEADER_SIZE], 0);
      PutSets(HELLO_HEADER, 0, msg[..HEADER_SIZE]);
      assert base.header[..] == msg[..HEADER_SIZE];
      assert base.header[8..12] == msg[8..12] && base.header[12..16] == msg[12..16];
      var encrypted := msg[HEADER_SIZE..];
      if |encrypted| == 0 {
        var empty := new IncomingPacket(base, None);
        return Success(empty);
      }
      assert base.header[..16] == msg[..16] && base.header[16..32] == msg[16..32];
      var expected := crypto.md5(base.header[..16] + token + encrypted);
      if base.header[16..32] != expected {
        return Failure(BadChecksum);
      }
      var plain := crypto.decrypt(base.tokenKey, base.tokenIV, encrypted);
      if plain.None? {
        return Failure(BadPadding);
      }
      var packet := new IncomingPacket(base, plain);
      return Success(packet);
    }

    /** The text handed to the JSON parser by `json`: the data without trailing null bytes. */
    method Json() returns (text: Option<seq<byte>>)
      ensures text.Some? <==> data.Some?
      ensures text.Some? ==> text.value == StripTrailingNulls(data.value)
    {
      if data.None? {
        return None;
      }
      var end: nat := |data.value|;
      assert data.value[..end] == data.value;
      while end > 0 && data.value[end - 1] == 0
        invariant end <= |data.value|
        invariant StripTrailingNulls(data.value[..end]) == StripTrailingNulls(data.value)
      {
        assert data.value[..end][..end - 1] == data.value[..end - 1];
        end := end - 1;
      }
      return Some(data.value[..end]);
    }
  }

  /** `new IncomingPacket(msg, token)` and its accessors. */
  method Receive(crypto: Crypto, token: seq<byte>, msg: seq<byte>) returns (r: Result<Parsed, PacketError>)
    ensures r == Parse(crypto, token, msg)
  {
    var received := IncomingPacket.Create(crypto, token, msg);
    match received {
      case Failure(e) => return Failure(e);
      case Success(packet) =>
        var deviceId := packet.base.ReadUInt32BE(8);
        var stamp := packet.base.ReadUInt32BE(12);
        return Success(Parsed(deviceId, stamp, packet.data));
    }
  }

  /** `IncomingPacket.parseHello`: device id and stamp of a response that starts with the magic number. */
  function ParseHello(msg: seq<byte>): Result<(nat, nat), PacketError> {
    if |msg| < HEADER_SIZE then Failure(TooShort)
    else if msg[0] as int * 0x100 + msg[1] as int != 0x2131 then Failure(BadMagic)
    else Success((FromU32(msg[8..12]), FromU32(msg[12..16])))
  }

  // ---------- round trips ----------

  /** A packet is built exactly for payloads of at most MAX_PAYLOAD bytes. */
  lemma PacketFitsExactlyUpTo(c: Crypto, token: seq<byte>, idAndStamp: seq<byte>, payload: seq<byte>)
    requires Sound(c)
    ensures CommandPacket(c, token, idAndStamp, payload).Success? <==> |payload| <= 65487
  {
    assert |Encrypted(c, token, payload)| == CipherLength(|payload|);
  }

  /** The fields are big-endian. */
  lemma FieldsAreBigEndian(v: nat)
    requires v <= 0xFFFF_FFFF
    ensures var b := U32(v);
            && b[0] as int * 16777216 + b[1] as int * 65536 + b[2] as int * 256 + b[3] as int == v
            && FromU32(b) == v
    ensures v <= 0xFFFF ==> U16(v)[0] as int * 256 + U16(v)[1] as int == v && |U16(v)| == 2
  {
    U32RoundTrip(v);
  }

  /** A hello packet is the magic number, its length and 0xFF throughout. */
  lemma HelloLayout()
    ensures |HELLO_HEADER| == 32 && HELLO_HEADER[..4] == [0x21, 0x31, 0, 0]
    ensures forall k :: 4 <= k < 32 ==> HELLO_HEADER[k] == 0xFF
  {
  }

  /**
   The layout of a command packet: magic number, length, zeros, device id, stamp, checksum, and the encrypted payload.
   The key is the digest of the token, the initial vector that of key and token, the checksum that of the first 16
   bytes, the token and what is encrypted.
   */
  lemma CommandPacketLayout(c: Crypto, token: seq<byte>, id: nat, stamp: nat, payload: seq<byte>)
    requires Sound(c) && id <= 0xFFFF_FFFF && stamp <= 0xFFFF_FFFF
    requires CommandPacket(c, token, IdAndStamp(Some(id), Some(stamp)), payload).Success?
    ensures var packet := CommandPacket(c, token, IdAndStamp(Some(id), Some(stamp)), payload).value;
            && |packet| == 32 + (|payload| / 16 + 1) * 16
            && packet[..2] == [0x21, 0x31]
            && packet[2] as int * 256 + packet[3] as int == |packet|
            && packet[4..8] == [0, 0, 0, 0]
            && BigEndian(packet[8..12]) == id && BigEndian(packet[12..16]) == stamp
            && packet[32..] == c.encrypt(c.md5(token), c.md5(c.md5(token) + token), payload)
            && packet[16..32] == c.md5(packet[..16] + token + packet[32..])
  {
    var ids := IdAndStamp(Some(id), Some(stamp));
    var encrypted := Encrypted(c, token, payload);
    var length := HEADER_SIZE + |encrypted|;
    var prefix := Prefix(length, ids);
    var digest := Checksum(c, prefix, token, encrypted);
    var packet := CommandPacket(c, token, ids, payload).value;
    assert packet == prefix + digest + encrypted;
    assert packet[..16] == prefix && packet[16..32] == digest && packet[32..] == encrypted;
    assert packet[8..12] == U32(id) && packet[12..16] == U32(stamp);
    assert packet[2..4] == U16(length);
    assert packet[2] == U16(length)[0] && packet[3] == U16(length)[1];
    FieldsAreBigEndian(length);
    FieldsAreBigEndian(id);
    FieldsAreBigEndian(stamp);
  }

  ghost function BigEndian(b: seq<byte>): int
    requires |b| == 4
  {
    b[0] as int * 16777216 + b[1] as int * 65536 + b[2] as int * 256 + b[3] as int
  }

  /** What is rejected: a token or message that is too short, a checksum that is not that of header, token and data, bad padding. */
  lemma ParseRejects(c: Crypto, token: seq<byte>, msg: seq<byte>)
    ensures |token| != 16 ==> Parse(c, token, msg) == Failure(BadToken)
    ensures |token| == 16 && |msg| < 32 ==> Parse(c, token, msg) == Failure(TooShort)
    ensures |token| == 16 && |msg| == 32 ==>
              Parse(c, token, msg) == Success(Parsed(BigEndian(msg[8..12]), BigEndian(msg[12..16]), None))
    ensures |token| == 16 && |msg| > 32 ==>
              var plain := c.decrypt(c.md5(token), c.md5(c.md5(token) + token), msg[32..]);
              Parse(c, token, msg) ==
                if msg[16..32] != c.md5(msg[..16] + token + msg[32..]) then Failure(BadChecksum)
                else if plain == None then Failure(BadPadding)
                else Success(Parsed(BigEndian(msg[8..12]), BigEndian(msg[12..16]), plain))
  {
  }

  lemma ParseHelloRejects(msg: seq<byte>)
    ensures |msg| < 32 ==> ParseHello(msg) == Failure(TooShort)
    ensures |msg| >= 32 && msg[..2] != [0x21, 0x31] ==> ParseHello(msg) == Failure(BadMagic)
    ensures |msg| >= 32 && msg[..2] == [0x21, 0x31] ==> ParseHello(msg) == Success((BigEndian(msg[8..12]), BigEndian(msg[12..16])))
  {
    if |msg| >= 32 {
      assert msg[..2] == [msg[0], msg[1]];
    }
  }

  /** Parsing a built packet passes the checksum and gives back device id, stamp and payload. */
  lemma PacketRoundTrip(c: Crypto, token: seq<byte>, deviceId: nat, stamp: nat, payload: seq<byte>)
    requires Sound(c) && |token| == 16 && deviceId <= MAX_UINT32 && stamp <= MAX_UINT32 && |payload| <= MAX_PAYLOAD
    ensures var packet := CommandPacket(c, token, IdAndStamp(Some(deviceId), Some(stamp)), payload);
            && packet.Success?
            && Parse(c, token, packet.value) == Success(Parsed(deviceId, stamp, Some(payload)))
            && |packet.value| == HEADER_SIZE + CipherLength(|payload|)
            && packet.value[2..4] == U16(|packet.value|)
  {
    var ids := IdAndStamp(Some(deviceId), Some(stamp));
    PacketFitsExactlyUpTo(c, token, ids, payload);
    var encrypted := Encrypted(c, token, payload);
    var prefix := Prefix(HEADER_SIZE + |encrypted|, ids);
    var digest := Checksum(c, prefix, token, encrypted);
    var msg := CommandPacket(c, token, ids, payload).value;
    assert msg == prefix + digest + encrypted;
    assert msg[..16] == prefix && msg[16..32] == digest && msg[32..] == encrypted;
    assert msg[8..12] == U32(deviceId) && msg[12..16] == U32(stamp);
    U32RoundTrip(deviceId);
    U32RoundTrip(stamp);
  }

  /** Different device ids, stamps or payloads never share a packet. */
  lemma PacketsAreDistinct(c: Crypto, token: seq<byte>, id: nat, stamp: nat, payload: seq<byte>, id': nat, stamp': nat, payload': seq<byte>)
    requires Sound(c) && |token| == 16 && |payload| <= MAX_PAYLOAD && |payload'| <= MAX_PAYLOAD
    requires id <= MAX_UINT32 && stamp <= MAX_UINT32 && id' <= MAX_UINT32 && stamp' <= MAX_UINT32
    requires CommandPacket(c, token, IdAndStamp(Some(id), Some(stamp)), payload)
          == CommandPacket(c, token, IdAndStamp(Some(id'), Some(stamp')), payload')
    ensures id == id' && stamp == stamp' && payload == payload'
  {
    PacketRoundTrip(c, token, id, stamp, payload);
    PacketRoundTrip(c, token, id', stamp', payload');
  }

  /** A response carrying a header field pair is read back by `parseHello`. */
  lemma HelloRoundTrip(deviceId: nat, stamp: nat, tail: seq<byte>)
    requires deviceId <= MAX_UINT32 && stamp <= MAX_UINT32 && |tail| >= 16
    ensures ParseHello(HELLO_HEADER[..8] + IdAndStamp(Some(deviceId), Some(stamp)) + tail) == Success((deviceId, stamp))
  {
    var msg := HELLO_HEADER[..8] + IdAndStamp(Some(deviceId), Some(stamp)) + tail;
    assert msg[8..12] == U32(deviceId) && msg[12..16] == U32(stamp);
    assert msg[0] == 0x21 && msg[1] == 0x31;
    U32RoundTrip(deviceId);
    U32RoundTrip(stamp);
  }

  // ---------- the JSON text ----------

  function StripTrailingNulls(data: seq<byte>): seq<byte> {
    if data != [] && data[|data| - 1] == 0 then StripTrailingNulls(data[..|data| - 1]) else data
  }

  /** Stripping takes off exactly the null bytes at the end. */
  lemma {:induction false} StrippingIsExact(data: seq<byte>)
    ensures var text := StripTrailingNulls(data);
            && text <= data
            && (forall k :: |text| <= k < |data| ==> data[k] == 0)
            && (text == [] || text[|text| - 1] != 0)
  {
    if data != [] && data[|data| - 1] == 0 {
      StrippingIsExact(data[..|data| - 1]);
    }
  }

  /** So it leaves exactly the texts that do not end in a null byte, as no JSON text does, untouched. */
  lemma StrippingKeepsJson(data: seq<byte>)
    ensures StripTrailingNulls(data) == data <==> data == [] || data[|data| - 1] != 0
  {
    StrippingIsExact(data);
  }

  datatype Message = Message(deviceId: nat, stamp: nat, text: Option<seq<byte>>)

  /**
   From one end to the other: a command is built, sent and received with the same token. It fails exactly when the
   token, id, stamp or payload does not fit, and otherwise all of it arrives, down to the text of the JSON parser.
   */
  method Transmit(crypto: Crypto, token: seq<byte>, deviceId: nat, stamp: nat, payload: seq<byte>) returns (r: Result<Message, PacketError>)
    requires Sound(crypto)
    ensures r.Success? <==> |token| == 16 && deviceId <= MAX_UINT32 && stamp <= MAX_UINT32 && |payload| <= MAX_PAYLOAD
    ensures r.Success? ==> r.value == Message(deviceId, stamp, Some(StripTrailingNulls(payload)))
    ensures r.Success? && payload != [] && payload[|payload| - 1] != 0 ==> r.value.text == Some(payload)
  {
    var outgoing := OutgoingPacket.Create(crypto, Some(token), Some(deviceId), Some(stamp), Some(payload));
    if outgoing.Failure? {
      return Failure(outgoing.error);
    }
    HeaderFields(Some(deviceId), Some(stamp));
    PacketFitsExactlyUpTo(crypto, token, IdAndStamp(Some(deviceId), Some(stamp)), payload);
    var raw := outgoing.value.Raw();
    if raw.Failure? {
      return Failure(raw.error);
    }
    PacketRoundTrip(crypto, token, deviceId, stamp, payload);
    StrippingKeepsJson(payload);
    var incoming := IncomingPacket.Create(crypto, token, raw.value);
    var packet := incoming.value;
    var id := packet.base.ReadUInt32BE(8);
    var at := packet.base.ReadUInt32BE(12);
    var text := packet.Json();
    return Success(Message(id, at, text));
  }
}
