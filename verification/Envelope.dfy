/** The stored shape of an encrypted field. */
module EnvelopeFormat {
  import opened Utf8Text

  const ENVELOPE_FORMAT_VERSION: Byte := 1
  const IV_BYTES: nat := 12
  const TAG_BYTES: nat := 16
  const DATA_KEY_BYTES: nat := 32
  const HEADER_BYTES: nat := 2

  datatype Envelope = Envelope(
    keyId: Text, wrapIv: Bytes, wrapTag: Bytes, wrappedKey: Bytes, iv: Bytes, tag: Bytes, ciphertext: Bytes)

  datatype FormatError = ShorterThanHeader | UnsupportedVersion | EmptyKeyId | Truncated | KeyIdLength

  datatype Parsed<T> = Ok(value: T) | Malformed(error: FormatError)

  /** `Buffer.from(text, 'ascii')` keeps the low byte of each unit. */
  function AsciiBytes(s: Text): Bytes {
    seq(|s|, i requires 0 <= i < |s| => (s[i] as int % 0x100) as Byte)
  }

  /** `buffer.toString('ascii')` drops the high bit of each byte. */
  function AsciiText(bytes: Bytes): Text {
    seq(|bytes|, i requires 0 <= i < |bytes| => (bytes[i] as int % 0x80) as Unit)
  }

  function Body(e: Envelope): Bytes {
    e.wrapIv + e.wrapTag + e.wrappedKey + e.iv + e.tag + e.ciphertext
  }

  function Encode(e: Envelope): Parsed<Bytes> {
    var keyId := AsciiBytes(e.keyId);
    if |keyId| == 0 || |keyId| > 255 then Malformed(KeyIdLength)
    else Ok([ENVELOPE_FORMAT_VERSION, |keyId| as Byte] + keyId + Body(e))
  }

  function FixedBytes(keyIdLength: nat): nat {
    HEADER_BYTES + keyIdLength + IV_BYTES + TAG_BYTES + DATA_KEY_BYTES + IV_BYTES + TAG_BYTES
  }

  function Decode(bytes: Bytes): Parsed<Envelope> {
    if |bytes| < HEADER_BYTES then Malformed(ShorterThanHeader)
    else if bytes[0] != ENVELOPE_FORMAT_VERSION then Malformed(UnsupportedVersion)
    else if bytes[1] == 0 then Malformed(EmptyKeyId)
    else
      var n := HEADER_BYTES + bytes[1] as nat;
      if |bytes| < FixedBytes(bytes[1] as nat) then Malformed(Truncated)
      else Ok(Envelope(
        AsciiText(bytes[2..n]), bytes[n..n + 12], bytes[n + 12..n + 28], bytes[n + 28..n + 60],
        bytes[n + 60..n + 72], bytes[n + 72..n + 88], bytes[n + 88..]))
  }

  /** The buffer cut at an offset that moves on with each cut. */
  method DecodeEnvelope(bytes: Bytes) returns (r: Parsed<Envelope>)
    ensures r == Decode(bytes)
  {
    if |bytes| < HEADER_BYTES {
      return Malformed(ShorterThanHeader);
    }
    if bytes[0] != ENVELOPE_FORMAT_VERSION {
      return Malformed(UnsupportedVersion);
    }
    var keyIdLength := bytes[1] as nat;
    if keyIdLength == 0 {
      return Malformed(EmptyKeyId);
    }
    if |bytes| < FixedBytes(keyIdLength) {
      return Malformed(Truncated);
    }
    var offset := HEADER_BYTES;
    var keyId, wrapIv, wrapTag, wrappedKey, iv, tag;
    keyId, offset := Take(bytes, offset, keyIdLength);
    wrapIv, offset := Take(bytes, offset, IV_BYTES);
    wrapTag, offset := Take(bytes, offset, TAG_BYTES);
    wrappedKey, offset := Take(bytes, offset, DATA_KEY_BYTES);
    iv, offset := Take(bytes, offset, IV_BYTES);
    tag, offset := Take(bytes, offset, TAG_BYTES);
    return Ok(Envelope(AsciiText(keyId), wrapIv, wrapTag, wrappedKey, iv, tag, bytes[offset..]));
  }

  method Take(bytes: Bytes, offset: nat, length: nat) returns (slice: Bytes, next: nat)
    requires offset + length <= |bytes|
    ensures slice == bytes[offset..offset + length] && next == offset + length
  {
    slice := bytes[offset..offset + length];
    next := offset + length;
  }

  // ---------------------------------------------------------------------------
  // Round trips
  // ---------------------------------------------------------------------------

  predicate IsAscii(s: Text) {
    forall i :: 0 <= i < |s| ==> s[i] < 0x80
  }

  /** The parts have their fixed sizes. */
  predicate Sized(e: Envelope) {
    && |e.wrapIv| == IV_BYTES && |e.wrapTag| == TAG_BYTES && |e.wrappedKey| == DATA_KEY_BYTES
    && |e.iv| == IV_BYTES && |e.tag| == TAG_BYTES
  }

  lemma AsciiRoundTrip(s: Text)
    ensures AsciiText(AsciiBytes(s)) == s <==> IsAscii(s)
  {
    var t := AsciiText(AsciiBytes(s));
    forall i | 0 <= i < |s|
      ensures t[i] == s[i] <==> s[i] < 0x80
    {
      UnitRoundTrip(s[i]);
    }
    if t == s {
      assert forall i :: 0 <= i < |s| ==> t[i] == s[i];
    }
  }

  lemma UnitRoundTrip(u: Unit)
    ensures u as int % 0x100 % 0x80 == u as int <==> u < 0x80
  {
  }

  lemma SlicesOfBody(e: Envelope, head: Bytes, bytes: Bytes, n: nat)
    requires Sized(e) && n == |head| && bytes == head + Body(e)
    ensures |bytes| == n + 88 + |e.ciphertext|
    ensures bytes[n..n + 12] == e.wrapIv && bytes[n + 12..n + 28] == e.wrapTag && bytes[n + 28..n + 60] == e.wrappedKey
    ensures bytes[n + 60..n + 72] == e.iv && bytes[n + 72..n + 88] == e.tag && bytes[n + 88..] == e.ciphertext
  {
    var body := Body(e);
    assert bytes[n..] == body;
    assert body[..12] == e.wrapIv && body[12..28] == e.wrapTag && body[28..60] == e.wrappedKey;
    assert body[60..72] == e.iv && body[72..88] == e.tag && body[88..] == e.ciphertext;
    assert bytes[n..n + 12] == body[..12] && bytes[n + 12..n + 28] == body[12..28];
    assert bytes[n + 28..n + 60] == body[28..60] && bytes[n + 60..n + 72] == body[60..72];
    assert bytes[n + 72..n + 88] == body[72..88] && bytes[n + 88..] == body[88..];
  }

  /** What was stored decodes to what was written exactly when the parts have their sizes and the id is ASCII. */
  lemma DecodeOfEncode(e: Envelope)
    requires Encode(e).Ok?
    ensures Decode(Encode(e).value) == Ok(e) <==> Sized(e) && IsAscii(e.keyId)
  {
    var bytes := Encode(e).value;
    var id := AsciiBytes(e.keyId);
    var head := [ENVELOPE_FORMAT_VERSION, |id| as Byte] + id;
    AsciiRoundTrip(e.keyId);
    if Sized(e) {
      SlicesOfBody(e, head, bytes, |head|);
      assert bytes[2..|head|] == id;
    }
    if Decode(bytes) == Ok(e) {
      DecodedIsSized(bytes);
    }
  }

  /** Where the parts of a stored envelope lie: version 1, the length of the key id, the key id and the rest. */
  lemma EncodedLayout(e: Envelope)
    requires Encode(e).Ok? && Sized(e)
    ensures var bytes, n := Encode(e).value, 2 + |e.keyId|;
      && |bytes| == n + 88 + |e.ciphertext| && bytes[0] == 1 && bytes[1] as int == |e.keyId|
      && bytes[2..n] == AsciiBytes(e.keyId)
      && bytes[n..n + 12] == e.wrapIv && bytes[n + 12..n + 28] == e.wrapTag && bytes[n + 28..n + 60] == e.wrappedKey
      && bytes[n + 60..n + 72] == e.iv && bytes[n + 72..n + 88] == e.tag && bytes[n + 88..] == e.ciphertext
  {
    hide Body;
    var id := AsciiBytes(e.keyId);
    var head := [ENVELOPE_FORMAT_VERSION, |id| as Byte] + id;
    SlicesOfBody(e, head, Encode(e).value, |head|);
  }

  lemma DecodedIsSized(bytes: Bytes)
    requires Decode(bytes).Ok?
    ensures Sized(Decode(bytes).value) && IsAscii(Decode(bytes).value.keyId)
    ensures 1 <= |Decode(bytes).value.keyId| <= 255
  {
  }

  /** Stored bytes are written back as they were exactly when their key id has no high bit set. */
  lemma EncodeOfDecode(bytes: Bytes)
    requires Decode(bytes).Ok?
    ensures Encode(Decode(bytes).value) == Ok(bytes) <==>
      forall i :: 2 <= i < 2 + bytes[1] as int ==> bytes[i] < 0x80
  {
    hide Body;
    var e := Decode(bytes).value;
    var n := 2 + bytes[1] as int;
    var id := AsciiBytes(e.keyId);
    assert bytes == [bytes[0], bytes[1]] + bytes[2..n] + bytes[n..];
    BodyOfDecoded(bytes);
    forall i | 0 <= i < |id|
      ensures id[i] == bytes[2 + i] <==> bytes[2 + i] < 0x80
    {
      assert id[i] as int == bytes[2 + i] as int % 0x80 % 0x100;
    }
    if id == bytes[2..n] {
      forall i | 2 <= i < n
        ensures bytes[i] < 0x80
      {
        assert id[i - 2] == bytes[2..n][i - 2];
      }
    }
    assert (forall i :: 2 <= i < n ==> bytes[i] < 0x80) ==> id == bytes[2..n];
    assert Encode(e).value[2..n] == id;
  }

  lemma BodyOfDecoded(bytes: Bytes)
    requires Decode(bytes).Ok?
    ensures Body(Decode(bytes).value) == bytes[2 + bytes[1] as int..]
  {
    var n := 2 + bytes[1] as int;
    assert bytes[n..] == bytes[n..n + 12] + bytes[n + 12..n + 28] + bytes[n + 28..n + 60]
                         + bytes[n + 60..n + 72] + bytes[n + 72..n + 88] + bytes[n + 88..];
  }
}
