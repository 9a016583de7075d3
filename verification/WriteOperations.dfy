/** The logged write operation as bytes: a fixed header, a checksum, the key and the payload. */
module WriteOperations {
  import opened Keys
  import opened LittleEndian
  import opened Managers

  const HEADER_SIZE := 24
  const VERSION := 3
  const MAGIC: Bytes := [0x5A, 0x4F, 0x50, 0x31]

  datatype CodecError = InvalidPrimaryKey | PayloadTooLarge | Truncated | BadMagic | BadVersion | BadTypeOrFlags | BadLengths | BadChecksum

  function Code(kind: OperationKind): Byte {
    match kind case Insert => 1 case Upsert => 2 case Update => 3 case Delete => 4
  }

  function KindOf(code: Byte): OperationKind
    requires 1 <= code <= 4
  {
    if code == 1 then Insert else if code == 2 then Upsert else if code == 3 then Update else Delete
  }

  function Header(op: Operation): (s: Bytes)
    ensures |s| == HEADER_SIZE
  {
    MAGIC + Put(VERSION, 2) + [Code(op.kind), 0] + Put(op.docID, 8) + Put(|op.key|, 4) + Put(|op.payload|, 4)
  }

  function Layout(op: Operation, crc: Checksum): Bytes {
    Header(op) + Put(Sum(crc, Header(op) + (op.key + op.payload)), 4) + (op.key + op.payload)
  }

  function Encode(op: Operation, crc: Checksum): Result<Bytes, CodecError> {
    if !ValidPrimaryKey(op.key) then Err(InvalidPrimaryKey)
    else if |op.payload| > MAX_DOCUMENT_PAYLOAD_SIZE then Err(PayloadTooLarge)
    else Ok(Layout(op, crc))
  }

  function Decode(s: Bytes, crc: Checksum): Result<Operation, CodecError> {
    if |s| < HEADER_SIZE + 4 then Err(Truncated)
    else if s[..4] != MAGIC then Err(BadMagic)
    else if Get(s[4..6]) != VERSION then Err(BadVersion)
    else if s[6] < 1 || s[6] > 4 || s[7] != 0 then Err(BadTypeOrFlags)
    else
      var keyLength, payloadLength := Get(s[16..20]), Get(s[20..24]);
      if keyLength == 0 || keyLength > MAX_PRIMARY_KEY_BYTES || payloadLength > MAX_DOCUMENT_PAYLOAD_SIZE
         || keyLength + payloadLength != |s| - HEADER_SIZE - 4 then Err(BadLengths)
      else if Sum(crc, s[..24] + s[28..]) != Get(s[24..28]) then Err(BadChecksum)
      else
        var key := s[28..28 + keyLength];
        if !ValidPrimaryKey(key) then Err(InvalidPrimaryKey)
        else Ok(Operation(KindOf(s[6]), Get(s[8..16]), key, s[28 + keyLength..]))
  }

  lemma HeaderFields(op: Operation, rest: Bytes)
    ensures var s := Header(op) + rest;
      && s[..24] == Header(op) && s[24..] == rest
      && s[..4] == MAGIC && s[4..6] == Put(VERSION, 2) && s[6] == Code(op.kind) && s[7] == 0
      && s[8..16] == Put(op.docID, 8) && s[16..20] == Put(|op.key|, 4) && s[20..24] == Put(|op.payload|, 4)
  {
    hide Put;
  }

  /** The bytes of an encoding: the letters ZOP1, version 3, the kind from 1 to 4, then the numbers lowest byte
      first, the checksum of everything but itself, the key and the payload. */
  lemma EncodingBytes(op: Operation, crc: Checksum)
    requires Encode(op, crc).Ok?
    ensures var s := Encode(op, crc).value;
      && |s| == 28 + |op.key| + |op.payload|
      && s[0] == 'Z' as int && s[1] == 'O' as int && s[2] == 'P' as int && s[3] == '1' as int && s[4] == 3 && s[5] == 0
      && s[6] == (match op.kind case Insert => 1 case Upsert => 2 case Update => 3 case Delete => 4) && s[7] == 0
      && NumberAt(s, 8, op.docID, 8) && NumberAt(s, 16, |op.key|, 4) && NumberAt(s, 20, |op.payload|, 4)
      && NumberAt(s, 24, crc(s[..24] + s[28..]) % 0x1_0000_0000, 4)
      && s[28..28 + |op.key|] == op.key && s[28 + |op.key|..] == op.payload
  {
    var s := Encode(op, crc).value;
    var body := op.key + op.payload;
    var sum := Put(Sum(crc, Header(op) + body), 4);
    assert s == Header(op) + (sum + body);
    HeaderFields(op, sum + body);
    assert s[24..28] == sum && s[28..] == body;
    assert s[28..28 + |op.key|] == op.key && s[28 + |op.key|..] == op.payload;
    VersionBytes();
    NumberIsAt(s, 8, op.docID, 8);
    NumberIsAt(s, 16, |op.key|, 4);
    NumberIsAt(s, 20, |op.payload|, 4);
    NumberIsAt(s, 24, Sum(crc, Header(op) + body), 4);
    assert s[0] == s[..4][0] && s[1] == s[..4][1] && s[2] == s[..4][2] && s[3] == s[..4][3];
    assert s[4] == s[4..6][0] && s[5] == s[4..6][1];
    hide Header, Put, Power, ValidPrimaryKey;
  }

  lemma VersionBytes()
    ensures Put(VERSION, 2) == [3, 0]
  {
  }

  /** Decoding what was encoded gives the operation back. */
  lemma DecodeEncode(op: Operation, crc: Checksum)
    requires ValidPrimaryKey(op.key) && |op.payload| <= MAX_DOCUMENT_PAYLOAD_SIZE && op.docID <= MAX_UINT64
    ensures Encode(op, crc).Ok? && Decode(Encode(op, crc).value, crc) == Ok(op)
  {
    hide Put, Get, Header, ValidPrimaryKey;
    var body, sum := op.key + op.payload, Sum(crc, Header(op) + (op.key + op.payload));
    var s := Layout(op, crc);
    KeyBounds(op.key);
    PowerValues();
    GetPut(VERSION, 2);
    GetPut(op.docID, 8);
    GetPut(|op.key|, 4);
    GetPut(|op.payload|, 4);
    GetPut(sum, 4);
    HeaderFields(op, Put(sum, 4) + body);
    assert s == Header(op) + (Put(sum, 4) + body);
    assert s[24..28] == Put(sum, 4) && s[28..] == body;
    assert s[28..28 + |op.key|] == op.key && s[28 + |op.key|..] == op.payload;
  }

  lemma KeyBounds(key: Bytes)
    requires ValidPrimaryKey(key)
    ensures 0 < |key| <= MAX_PRIMARY_KEY_BYTES
  {
  }

  /** Every buffer that decodes is the one encoding of its operation. */
  lemma EncodeDecode(s: Bytes, crc: Checksum)
    requires Decode(s, crc).Ok?
    ensures Encode(Decode(s, crc).value, crc) == Ok(s)
    ensures Decode(s, crc).value.docID <= MAX_UINT64
  {
    hide Put, Get, ValidPrimaryKey;
    var op := Decode(s, crc).value;
    PowerValues();
    PutGet(s[4..6]);
    PutGet(s[8..16]);
    PutGet(s[16..20]);
    PutGet(s[20..24]);
    PutGet(s[24..28]);
    assert |op.key| == Get(s[16..20]) && |op.payload| == Get(s[20..24]);
    assert s[..24] == s[..4] + s[4..6] + [s[6], s[7]] + s[8..16] + s[16..20] + s[20..24];
    assert Header(op) == s[..24];
    assert op.key + op.payload == s[28..];
    assert s == s[..24] + s[24..28] + s[28..];
  }

  /** Different valid operations have different encodings. */
  lemma EncodingsDiffer(a: Operation, b: Operation, crc: Checksum)
    requires Encode(a, crc).Ok? && Encode(a, crc) == Encode(b, crc) && a.docID <= MAX_UINT64 && b.docID <= MAX_UINT64
    ensures a == b
  {
    DecodeEncode(a, crc);
    DecodeEncode(b, crc);
  }

  // ----- Buffers -----------------------------------------------------------------------------------

  /** Copy bytes to an offset. */
  method CopyAt(data: array<Byte>, offset: nat, s: Bytes)
    requires offset + |s| <= data.Length
    modifies data
    ensures data[..offset] == old(data[..offset]) && data[offset + |s|..] == old(data[offset + |s|..])
    ensures data[..offset + |s|] == old(data[..offset]) + s
  {
    for k := 0 to |s|
      invariant data[offset..offset + k] == s[..k]
      invariant forall i :: 0 <= i < data.Length && !(offset <= i < offset + k) ==> data[i] == old(data[i])
    {
      ghost var before := data[offset..offset + k];
      data[offset + k] := s[k];
      assert data[offset..offset + k] == before;
      assert data[offset..offset + k + 1] == before + [s[k]];
      assert s[..k + 1] == s[..k] + [s[k]];
    }
    assert s[..|s|] == s;
    assert data[..offset + |s|] == data[..offset] + data[offset..offset + |s|];
  }

  /** Fill the header fields at their offsets. */
  method PutHeader(encoded: array<Byte>, op: Operation)
    requires encoded.Length >= HEADER_SIZE
    modifies encoded
    ensures encoded[..HEADER_SIZE] == Header(op)
  {
    hide Put;
    CopyAt(encoded, 0, MAGIC);
    assert encoded[..4] == MAGIC;
    PutAt(encoded, 4, VERSION, 2);
    CopyAt(encoded, 6, [Code(op.kind), 0]);
    PutAt(encoded, 8, op.docID, 8);
    PutAt(encoded, 16, |op.key|, 4);
    PutAt(encoded, 20, |op.payload|, 4);
  }

  /** Fill a buffer of the operation's size field by field; the checksum covers everything but itself. */
  method EncodeWriteOperation(op: Operation, crc: Checksum) returns (r: Result<array<Byte>, CodecError>)
    ensures r.Err? ==> Encode(op, crc) == Err(r.error)
    ensures r.Ok? ==> fresh(r.value) && Encode(op, crc) == Ok(r.value[..])
  {
    if !ValidPrimaryKey(op.key) {
      return Err(InvalidPrimaryKey);
    }
    if |op.payload| > MAX_DOCUMENT_PAYLOAD_SIZE {
      return Err(PayloadTooLarge);
    }
    hide Put, Header;
    var encoded := new Byte[HEADER_SIZE + 4 + |op.key| + |op.payload|];
    PutHeader(encoded, op);
    PutBody(encoded, op);
    var sum := Sum(crc, encoded[..24] + encoded[28..]);
    PutAt(encoded, 24, sum, 4);
    assert encoded[..] == encoded[..28] + encoded[28..];
    r := Ok(encoded);
  }

  /** Key and payload behind the header and the room for the checksum. */
  method PutBody(encoded: array<Byte>, op: Operation)
    requires encoded.Length == 28 + |op.key| + |op.payload|
    modifies encoded
    ensures encoded[..24] == old(encoded[..24]) && encoded[28..] == op.key + op.payload
  {
    ghost var head := encoded[..28];
    CopyAt(encoded, 28, op.key);
    CopyAt(encoded, 28 + |op.key|, op.payload);
    ghost var s := encoded[..];
    assert s == head + op.key + op.payload;
    assert s[..24] == head[..24] && s[28..] == op.key + op.payload;
    assert encoded[..24] == s[..24] && encoded[28..] == s[28..];
  }
}
