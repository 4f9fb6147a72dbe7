/** Envelope encryption of one column value: a data key for the value, wrapped under a key from the ring. */
module FieldCipher {
  import opened Options
  import opened Utf8Text
  import opened EnvelopeFormat

  // ---------------------------------------------------------------------------
  // What a ciphertext is bound to
  // ---------------------------------------------------------------------------

  datatype Context = Context(table: Text, column: Text, id: Text)

  predicate PartAllowed(part: Text) {
    part != [] && 0 !in part
  }

  /** `None` where the program throws: an empty part, or a NUL in one. */
  function EncodeFieldContext(c: Context): Option<Bytes> {
    if PartAllowed(c.table) && PartAllowed(c.column) && PartAllowed(c.id)
    then Some(Utf8(c.table + [0] + c.column + [0] + c.id))
    else None
  }

  const DEK: Text := [0x64, 0x65, 0x6B]
  const ONE: Text := [0x31]
  const FIELD: Text := [0x66, 0x69, 0x65, 0x6C, 0x64]

  function WrapAad(keyId: Text, context: Bytes): Bytes {
    Utf8(DEK + [0] + ONE + [0] + keyId + [0]) + context
  }

  function PayloadAad(context: Bytes): Bytes {
    Utf8(FIELD + [0]) + context
  }

  /** The text of plain ASCII characters, as units. */
  function Ascii(s: string): Text
    requires forall i :: 0 <= i < |s| ==> s[i] as int < 0x80
  {
    seq(|s|, i requires 0 <= i < |s| => s[i] as int as Unit)
  }

  /** A wrap authenticates the words `dek` and `1`, its key id and the context; a payload the word `field` and the context. */
  lemma AadLabels(keyId: Text, context: Bytes)
    ensures WrapAad(keyId, context) == Utf8(Ascii("dek") + [0] + Ascii("1") + [0] + keyId + [0]) + context
    ensures PayloadAad(context) == Utf8(Ascii("field") + [0]) + context
  {
    hide Utf8;
    assert DEK == Ascii("dek") && ONE == Ascii("1") && FIELD == Ascii("field");
  }

  /** The same table, column and id, character by character. */
  predicate SamePlace(c: Context, d: Context) {
    Points(c.table) == Points(d.table) && Points(c.column) == Points(d.column) && Points(c.id) == Points(d.id)
  }

  lemma ContextBytes(c: Context)
    requires EncodeFieldContext(c).Some?
    ensures EncodeFieldContext(c).value == Utf8(c.table) + [0] + (Utf8(c.column) + [0] + Utf8(c.id))
    ensures 0 !in Utf8(c.table) && 0 !in Utf8(c.column)
  {
    hide Utf8;
    var whole := c.table + [0] + c.column + [0] + c.id;
    assert whole == c.table + [0] + (c.column + [0] + c.id);
    Utf8OfJoin(c.table, c.column + [0] + c.id);
    Utf8OfJoin(c.column, c.id);
    NoNul(c.table);
    NoNul(c.column);
  }

  /** A context can be serialised exactly when no part of it is empty and there is no NUL in it. */
  lemma ContextIsAllowedIff(c: Context)
    ensures EncodeFieldContext(c).Some? <==>
      |c.table| > 0 && |c.column| > 0 && |c.id| > 0 && 0 !in c.table + c.column + c.id
  {
    hide Utf8;
    assert forall u :: u in c.table + c.column + c.id <==> u in c.table || u in c.column || u in c.id;
  }

  /** Two contexts are serialised alike exactly when they name the same place. */
  lemma ContextDetermines(c: Context, d: Context)
    requires EncodeFieldContext(c).Some? && EncodeFieldContext(d).Some?
    ensures EncodeFieldContext(c) == EncodeFieldContext(d) <==> SamePlace(c, d)
  {
    hide Utf8, Points, EncodeFieldContext;
    ContextBytes(c);
    ContextBytes(d);
    Utf8Determines(c.table, d.table);
    Utf8Determines(c.column, d.column);
    Utf8Determines(c.id, d.id);
    if EncodeFieldContext(c) == EncodeFieldContext(d) {
      SplitAtNul(Utf8(c.table), Utf8(c.column) + [0] + Utf8(c.id), Utf8(d.table), Utf8(d.column) + [0] + Utf8(d.id));
      SplitAtNul(Utf8(c.column), Utf8(c.id), Utf8(d.column), Utf8(d.id));
    }
  }

  /** For texts without stray surrogates, the same place means the same context. */
  lemma SamePlaceIsEquality(c: Context, d: Context)
    requires WellFormed(c.table) && WellFormed(c.column) && WellFormed(c.id)
    requires WellFormed(d.table) && WellFormed(d.column) && WellFormed(d.id)
    ensures SamePlace(c, d) <==> c == d
  {
    hide Points, WellFormed;
    if SamePlace(c, d) {
      PointsInjective(c.table, d.table);
      PointsInjective(c.column, d.column);
      PointsInjective(c.id, d.id);
    }
  }

  lemma WrapAadBytes(keyId: Text, context: Bytes)
    ensures WrapAad(keyId, context) == Utf8(DEK) + [0] + (Utf8(ONE) + [0] + (Utf8(keyId) + [0] + context))
  {
    hide Utf8;
    var rest := ONE + [0] + keyId + [0];
    assert DEK + [0] + ONE + [0] + keyId + [0] == DEK + [0] + rest;
    assert rest == ONE + [0] + (keyId + [0] + []) && keyId + [0] + [] == keyId + [0];
    Utf8OfJoin(DEK, rest);
    Utf8OfJoin(ONE, keyId + [0] + []);
    Utf8OfJoin(keyId, []);
    assert Utf8([]) == [] by { NothingIsNothing(); }
    assert Utf8(keyId) + [0] + [] == Utf8(keyId) + [0];
  }

  lemma NothingIsNothing()
    ensures Utf8([]) == []
  {
  }

  /** The key id and the context can both be read off the data a wrap authenticates. */
  lemma WrapAadDetermines(k: Text, x: Bytes, l: Text, y: Bytes)
    requires 0 !in k && 0 !in l
    ensures WrapAad(k, x) == WrapAad(l, y) <==> Points(k) == Points(l) && x == y
  {
    hide Utf8, Points, WrapAad;
    WrapAadBytes(k, x);
    WrapAadBytes(l, y);
    Utf8Determines(k, l);
    NoNul(k);
    NoNul(l);
    NoNul(DEK);
    NoNul(ONE);
    var kx, ly := Utf8(k) + [0] + x, Utf8(l) + [0] + y;
    if WrapAad(k, x) == WrapAad(l, y) {
      SplitAtNul(Utf8(DEK), Utf8(ONE) + [0] + kx, Utf8(DEK), Utf8(ONE) + [0] + ly);
      SplitAtNul(Utf8(ONE), kx, Utf8(ONE), ly);
      SplitAtNul(Utf8(k), x, Utf8(l), y);
    }
  }

  /** A wrap and a payload never authenticate the same data. */
  lemma AadsAreDisjoint(keyId: Text, x: Bytes, y: Bytes)
    ensures WrapAad(keyId, x) != PayloadAad(y)
  {
    hide WrapAad, PayloadAad, Utf8;
    WrapAadBytes(keyId, x);
    PayloadAadBytes(y);
    FirstBytes();
    assert WrapAad(keyId, x)[0] == 0x64;
    assert PayloadAad(y)[0] == 0x66;
  }

  lemma PayloadAadBytes(y: Bytes)
    ensures PayloadAad(y) == Utf8(FIELD) + [0] + y
  {
    hide Utf8;
    assert FIELD + [0] == FIELD + [0] + [];
    Utf8OfJoin(FIELD, []);
    NothingIsNothing();
    assert Utf8(FIELD) + [0] + [] == Utf8(FIELD) + [0];
  }

  lemma FirstBytes()
    ensures Utf8(DEK) != [] && Utf8(FIELD) != [] && Utf8(DEK)[0] == 0x64 && Utf8(FIELD)[0] == 0x66
  {
    assert Points(DEK)[0] == 0x64 && Points(FIELD)[0] == 0x66;
  }

  // ---------------------------------------------------------------------------
  // The cipher and the ring
  // ---------------------------------------------------------------------------

  datatype Sealed = Sealed(tag: Bytes, ciphertext: Bytes)

  /** Authenticated encryption: key, nonce, additional data, then the text or what it was sealed to. */
  datatype Aead = Aead(
    seal: (Bytes, Bytes, Bytes, Bytes) -> Sealed,
    open: (Bytes, Bytes, Bytes, Sealed) -> Option<Bytes>)

  /** What was sealed opens under the same key, nonce and additional data. */
  ghost predicate Lawful(a: Aead) {
    forall key, iv, aad, plain :: Opens(a, key, iv, aad, plain)
  }

  ghost predicate Opens(a: Aead, key: Bytes, iv: Bytes, aad: Bytes, plain: Bytes) {
    && a.open(key, iv, aad, a.seal(key, iv, aad, plain)) == Some(plain)
    && |a.seal(key, iv, aad, plain).tag| == TAG_BYTES
    && |a.seal(key, iv, aad, plain).ciphertext| == |plain|
  }

  /** This one sealed text opens under no additional data but its own. */
  ghost predicate Bound(a: Aead, key: Bytes, iv: Bytes, aad: Bytes, plain: Bytes) {
    forall other :: other != aad ==> a.open(key, iv, other, a.seal(key, iv, aad, plain)).None?
  }

  predicate IsKeyIdUnit(u: Unit) {
    || 0x30 <= u <= 0x39 || 0x41 <= u <= 0x5A || 0x61 <= u <= 0x7A
    || u == 0x5F || u == 0x2E || u == 0x2D
  }

  predicate IsKeyId(id: Text) {
    1 <= |id| <= 32 && forall i :: 0 <= i < |id| ==> IsKeyIdUnit(id[i])
  }

  /** A parsed ring: its ids are plain, and it holds the active one. */
  datatype Keyring = Keyring(keys: map<Text, Bytes>, activeKeyId: Text) {
    ghost predicate Valid() {
      activeKeyId in keys && forall id :: id in keys ==> IsKeyId(id)
    }

    predicate Holds(id: Text, key: Bytes) {
      id in keys && keys[id] == key
    }
  }

  datatype Failure =
    | BadContext
    | BadEnvelope(error: FormatError)
    | UnknownKey
    | WrapNotAuthentic
    | WrongKeyLength
    | PayloadNotAuthentic

  datatype Outcome<T> = Done(value: T) | Failed(failure: Failure)

  // ---------------------------------------------------------------------------
  // Operations; random bytes are parameters
  // ---------------------------------------------------------------------------

  /** An envelope around a payload, its data key wrapped under the ring's active key. */
  function Wrapped(a: Aead, ring: Keyring, dataKey: Bytes, context: Bytes, wrapIv: Bytes, iv: Bytes, payload: Sealed)
    : Outcome<Bytes>
    requires ring.activeKeyId in ring.keys
  {
    var id := ring.activeKeyId;
    var wrap := a.seal(ring.keys[id], wrapIv, WrapAad(id, context), dataKey);
    match Encode(Envelope(id, wrapIv, wrap.tag, wrap.ciphertext, iv, payload.tag, payload.ciphertext))
    case Malformed(error) => Failed(BadEnvelope(error))
    case Ok(bytes) => Done(bytes)
  }

  function Encrypt(a: Aead, ring: Keyring, plain: Bytes, c: Context, dataKey: Bytes, iv: Bytes, wrapIv: Bytes)
    : Outcome<Bytes>
    requires ring.activeKeyId in ring.keys
  {
    match EncodeFieldContext(c)
    case None => Failed(BadContext)
    case Some(context) =>
      Wrapped(a, ring, dataKey, context, wrapIv, iv, a.seal(dataKey, iv, PayloadAad(context), plain))
  }

  function Unwrap(a: Aead, ring: Keyring, e: Envelope, context: Bytes): Outcome<Bytes> {
    if e.keyId !in ring.keys then Failed(UnknownKey)
    else match a.open(ring.keys[e.keyId], e.wrapIv, WrapAad(e.keyId, context), Sealed(e.wrapTag, e.wrappedKey))
      case None => Failed(WrapNotAuthentic)
      case Some(dataKey) => if |dataKey| != DATA_KEY_BYTES then Failed(WrongKeyLength) else Done(dataKey)
  }

  /** What both decrypting and rewrapping start from. */
  datatype Prepared = Prepared(context: Bytes, envelope: Envelope, dataKey: Bytes)

  function Prepare(a: Aead, ring: Keyring, stored: Bytes, c: Context): Outcome<Prepared> {
    match EncodeFieldContext(c)
    case None => Failed(BadContext)
    case Some(context) =>
      match Decode(stored)
      case Malformed(error) => Failed(BadEnvelope(error))
      case Ok(e) =>
        match Unwrap(a, ring, e, context)
        case Failed(failure) => Failed(failure)
        case Done(dataKey) => Done(Prepared(context, e, dataKey))
  }

  function Decrypt(a: Aead, ring: Keyring, stored: Bytes, c: Context): Outcome<Bytes> {
    match Prepare(a, ring, stored, c)
    case Failed(failure) => Failed(failure)
    case Done(Prepared(context, e, dataKey)) =>
      match a.open(dataKey, e.iv, PayloadAad(context), Sealed(e.tag, e.ciphertext))
      case None => Failed(PayloadNotAuthentic)
      case Some(plain) => Done(plain)
  }

  function Rewrap(a: Aead, ring: Keyring, stored: Bytes, c: Context, wrapIv: Bytes): Outcome<Bytes>
    requires ring.activeKeyId in ring.keys
  {
    match Prepare(a, ring, stored, c)
    case Failed(failure) => Failed(failure)
    case Done(Prepared(context, e, dataKey)) =>
      Wrapped(a, ring, dataKey, context, wrapIv, e.iv, Sealed(e.tag, e.ciphertext))
  }

  function NeedsRewrap(ring: Keyring, stored: Bytes): Outcome<bool> {
    match Decode(stored)
    case Malformed(error) => Failed(BadEnvelope(error))
    case Ok(e) => Done(e.keyId != ring.activeKeyId)
  }
}

/** What key rotation keeps. */
module KeyRotation {
  import opened Options
  import opened Utf8Text
  import opened EnvelopeFormat
  import opened FieldCipher

  /** One value's secret and public parts, which no rewrap touches. */
  datatype Payload = Payload(dataKey: Bytes, iv: Bytes, body: Sealed)

  /** The stored bytes are an envelope for this payload, wrapped in this context under this key. */
  ghost predicate Protects(
    a: Aead, stored: Bytes, context: Bytes, keyId: Text, key: Bytes, wrapIv: Bytes, p: Payload)
  {
    match Decode(stored)
    case Malformed(_) => false
    case Ok(e) =>
      && e.keyId == keyId && e.wrapIv == wrapIv && e.iv == p.iv && Sealed(e.tag, e.ciphertext) == p.body
      && Sealed(e.wrapTag, e.wrappedKey) == a.seal(key, wrapIv, WrapAad(keyId, context), p.dataKey)
  }

  ghost predicate SizedPayload(p: Payload) {
    |p.dataKey| == DATA_KEY_BYTES && |p.iv| == IV_BYTES && |p.body.tag| == TAG_BYTES
  }

  lemma KeyIdFits(id: Text)
    requires IsKeyId(id)
    ensures IsAscii(id) && |AsciiBytes(id)| == |id| && 1 <= |id| <= 255 && 0 !in id
  {
  }

  lemma WrappedProtects(a: Aead, ring: Keyring, context: Bytes, wrapIv: Bytes, p: Payload)
    requires Lawful(a) && ring.Valid() && |wrapIv| == IV_BYTES && SizedPayload(p)
    ensures var r := Wrapped(a, ring, p.dataKey, context, wrapIv, p.iv, p.body);
      r.Done? && Protects(a, r.value, context, ring.activeKeyId, ring.keys[ring.activeKeyId], wrapIv, p)
  {
    hide Decode, WrapAad, IsKeyId, AsciiBytes, Body;
    var id := ring.activeKeyId;
    KeyIdFits(id);
    assert Opens(a, ring.keys[id], wrapIv, WrapAad(id, context), p.dataKey);
    var wrap := a.seal(ring.keys[id], wrapIv, WrapAad(id, context), p.dataKey);
    DecodeOfEncode(Envelope(id, wrapIv, wrap.tag, wrap.ciphertext, p.iv, p.body.tag, p.body.ciphertext));
  }

  lemma PrepareOpens(
    a: Aead, ring: Keyring, stored: Bytes, c: Context, keyId: Text, key: Bytes, wrapIv: Bytes, p: Payload)
    requires Lawful(a) && EncodeFieldContext(c).Some? && ring.Holds(keyId, key) && SizedPayload(p)
    requires Protects(a, stored, EncodeFieldContext(c).value, keyId, key, wrapIv, p)
    ensures Prepare(a, ring, stored, c) ==
      Done(Prepared(EncodeFieldContext(c).value, Decode(stored).value, p.dataKey))
  {
    hide Decode, WrapAad, EncodeFieldContext;
    var e := Decode(stored).value;
    assert Opens(a, key, e.wrapIv, WrapAad(keyId, EncodeFieldContext(c).value), p.dataKey);
  }

  // ---------------------------------------------------------------------------
  // Rotation
  // ---------------------------------------------------------------------------

  /** One rewrap: the ring in force, and the nonce it draws. */
  datatype Step = Step(ring: Keyring, wrapIv: Bytes)

  /** Each ring in turn still holds the key the one before it wrote under. */
  ghost predicate Custody(first: Keyring, steps: seq<Step>) {
    forall k :: 0 <= k < |steps| ==>
      && steps[k].ring.Valid() && |steps[k].wrapIv| == IV_BYTES
      && HandsOver(RingAt(first, steps, k), steps[k].ring)
  }

  ghost predicate HandsOver(from: Keyring, ring: Keyring) {
    from.activeKeyId in from.keys && ring.Holds(from.activeKeyId, from.keys[from.activeKeyId])
  }

  /** The ring under which the value is wrapped after `k` rewraps. */
  function RingAt(first: Keyring, steps: seq<Step>, k: nat): Keyring
    requires k <= |steps|
  {
    if k == 0 then first else steps[k - 1].ring
  }

  /** The nonce of that wrap. */
  function NonceAt(wrapIv: Bytes, steps: seq<Step>, k: nat): Bytes
    requires k <= |steps|
  {
    if k == 0 then wrapIv else steps[k - 1].wrapIv
  }

  function RewrapAll(a: Aead, stored: Bytes, c: Context, steps: seq<Step>): Outcome<Bytes> {
    if steps == [] then Done(stored)
    else match RewrapAll(a, stored, c, steps[..|steps| - 1])
      case Failed(failure) => Failed(failure)
      case Done(before) =>
        var Step(ring, wrapIv) := steps[|steps| - 1];
        if ring.activeKeyId in ring.keys then Rewrap(a, ring, before, c, wrapIv) else Failed(UnknownKey)
  }

  lemma {:induction false} RewrapsKeepProtecting(
    a: Aead, first: Keyring, stored: Bytes, c: Context, wrapIv: Bytes, steps: seq<Step>, p: Payload)
    requires Lawful(a) && first.Valid() && Custody(first, steps) && EncodeFieldContext(c).Some? && SizedPayload(p)
    requires Protects(
      a, stored, EncodeFieldContext(c).value, first.activeKeyId, first.keys[first.activeKeyId], wrapIv, p)
    ensures var r, last := RewrapAll(a, stored, c, steps), RingAt(first, steps, |steps|);
      && r.Done? && last.Valid()
      && Protects(a, r.value, EncodeFieldContext(c).value, last.activeKeyId, last.keys[last.activeKeyId],
                  NonceAt(wrapIv, steps, |steps|), p)
  {
    hide Protects, Lawful, EncodeFieldContext, Rewrap, IsKeyId, Custody;
    if steps != [] {
      var n := |steps| - 1;
      CustodyBefore(first, steps);
      RewrapsKeepProtecting(a, first, stored, c, wrapIv, steps[..n], p);
      OneRewrap(a, RingAt(first, steps, n), NonceAt(wrapIv, steps[..n], n), steps[n],
                RewrapAll(a, stored, c, steps[..n]).value, c, p);
    }
  }

  lemma CustodyBefore(first: Keyring, steps: seq<Step>)
    requires Custody(first, steps) && steps != []
    ensures var n := |steps| - 1;
      && Custody(first, steps[..n]) && RingAt(first, steps[..n], n) == RingAt(first, steps, n)
      && steps[n].ring.Valid() && |steps[n].wrapIv| == IV_BYTES && HandsOver(RingAt(first, steps, n), steps[n].ring)
  {
    var n := |steps| - 1;
    assert forall k :: 0 <= k <= n ==> RingAt(first, steps[..n], k) == RingAt(first, steps, k);
  }

  lemma OneRewrap(a: Aead, last: Keyring, nonce: Bytes, step: Step, before: Bytes, c: Context, p: Payload)
    requires Lawful(a) && step.ring.Valid() && |step.wrapIv| == IV_BYTES && HandsOver(last, step.ring)
    requires EncodeFieldContext(c).Some? && SizedPayload(p)
    requires Protects(a, before, EncodeFieldContext(c).value, last.activeKeyId, last.keys[last.activeKeyId], nonce, p)
    ensures var r, ring := Rewrap(a, step.ring, before, c, step.wrapIv), step.ring;
      && r.Done?
      && Protects(a, r.value, EncodeFieldContext(c).value, ring.activeKeyId, ring.keys[ring.activeKeyId],
                  step.wrapIv, p)
  {
    hide Decode, WrapAad, EncodeFieldContext, Prepare, Wrapped, IsKeyId;
    PrepareOpens(a, step.ring, before, c, last.activeKeyId, last.keys[last.activeKeyId], nonce, p);
    WrappedProtects(a, step.ring, EncodeFieldContext(c).value, step.wrapIv, p);
  }

  lemma EncryptProtects(
    a: Aead, ring: Keyring, plain: Bytes, c: Context, dataKey: Bytes, iv: Bytes, wrapIv: Bytes) returns (p: Payload)
    requires Lawful(a) && ring.Valid() && EncodeFieldContext(c).Some?
    requires |dataKey| == DATA_KEY_BYTES && |iv| == IV_BYTES && |wrapIv| == IV_BYTES
    ensures p == Payload(dataKey, iv, a.seal(dataKey, iv, PayloadAad(EncodeFieldContext(c).value), plain))
    ensures SizedPayload(p) && Encrypt(a, ring, plain, c, dataKey, iv, wrapIv).Done?
    ensures Protects(a, Encrypt(a, ring, plain, c, dataKey, iv, wrapIv).value, EncodeFieldContext(c).value,
                     ring.activeKeyId, ring.keys[ring.activeKeyId], wrapIv, p)
  {
    hide Decode, WrapAad, PayloadAad, EncodeFieldContext, Wrapped, IsKeyId;
    var context := EncodeFieldContext(c).value;
    p := Payload(dataKey, iv, a.seal(dataKey, iv, PayloadAad(context), plain));
    assert Opens(a, dataKey, iv, PayloadAad(context), plain);
    WrappedProtects(a, ring, context, wrapIv, p);
  }

  /** An envelope is due for a rewrap exactly when it names a key that is not the active one; other bytes are refused. */
  lemma RewrapIsDue(ring: Keyring, e: Envelope, bytes: Bytes)
    requires Encode(e).Ok? && Sized(e) && IsAscii(e.keyId)
    ensures NeedsRewrap(ring, Encode(e).value) == Done(e.keyId != ring.activeKeyId)
    ensures NeedsRewrap(ring, bytes).Failed? <==> Decode(bytes).Malformed?
  {
    hide Decode, Encode, Sized, IsAscii;
    DecodeOfEncode(e);
  }

  /** What one ring wrote is due under another exactly when they write under different keys. */
  lemma WrittenIsDue(
    a: Aead, writer: Keyring, plain: Bytes, c: Context, dataKey: Bytes, iv: Bytes, wrapIv: Bytes, ring: Keyring)
    requires Lawful(a) && writer.Valid() && EncodeFieldContext(c).Some?
    requires |dataKey| == DATA_KEY_BYTES && |iv| == IV_BYTES && |wrapIv| == IV_BYTES
    ensures var r := Encrypt(a, writer, plain, c, dataKey, iv, wrapIv);
      r.Done? && NeedsRewrap(ring, r.value) == Done(writer.activeKeyId != ring.activeKeyId)
  {
    hide Decode, WrapAad, PayloadAad, EncodeFieldContext, Encrypt, IsKeyId;
    var p := EncryptProtects(a, writer, plain, c, dataKey, iv, wrapIv);
  }

  /**
   * However often a value is rewrapped, through rings that each still hold the
   * key before, it decrypts in its own context to what was encrypted, its
   * payload bytes are those first written, and it needs no further rewrap.
   */
  lemma RewrapPreservesMeaning(
    a: Aead, first: Keyring, plain: Bytes, c: Context, dataKey: Bytes, iv: Bytes, wrapIv: Bytes,
    steps: seq<Step>, reader: Keyring)
    requires Lawful(a) && first.Valid() && Custody(first, steps) && EncodeFieldContext(c).Some?
    requires |dataKey| == DATA_KEY_BYTES && |iv| == IV_BYTES && |wrapIv| == IV_BYTES
    requires HandsOver(RingAt(first, steps, |steps|), reader)
    ensures Encrypt(a, first, plain, c, dataKey, iv, wrapIv).Done?
    ensures var stored := Encrypt(a, first, plain, c, dataKey, iv, wrapIv).value;
      var r := RewrapAll(a, stored, c, steps);
      && r.Done?
      && Decrypt(a, reader, r.value, c) == Done(plain)
      && Decode(r.value).Ok? && Decode(stored).Ok?
      && Decode(r.value).value.iv == Decode(stored).value.iv
      && Decode(r.value).value.tag == Decode(stored).value.tag
      && Decode(r.value).value.ciphertext == Decode(stored).value.ciphertext
      && NeedsRewrap(RingAt(first, steps, |steps|), r.value) == Done(false)
  {
    hide Decode, WrapAad, PayloadAad, EncodeFieldContext, Encrypt, Prepare, IsKeyId, Custody;
    var p := EncryptProtects(a, first, plain, c, dataKey, iv, wrapIv);
    var stored := Encrypt(a, first, plain, c, dataKey, iv, wrapIv).value;
    RewrapsKeepProtecting(a, first, stored, c, wrapIv, steps, p);
    var last, r := RingAt(first, steps, |steps|), RewrapAll(a, stored, c, steps).value;
    PrepareOpens(a, reader, r, c, last.activeKeyId, last.keys[last.activeKeyId], NonceAt(wrapIv, steps, |steps|), p);
    assert Opens(a, dataKey, iv, PayloadAad(EncodeFieldContext(c).value), plain);
  }

  /**
   * When the wrap it is stored with opens under no other additional data, a value
   * opens in a place exactly when that is the place it was written for, however
   * often it was rewrapped since.
   */
  lemma OpensOnlyInItsPlace(
    a: Aead, first: Keyring, plain: Bytes, c: Context, dataKey: Bytes, iv: Bytes, wrapIv: Bytes,
    steps: seq<Step>, reader: Keyring, d: Context)
    requires Lawful(a) && first.Valid() && Custody(first, steps) && EncodeFieldContext(c).Some?
    requires |dataKey| == DATA_KEY_BYTES && |iv| == IV_BYTES && |wrapIv| == IV_BYTES
    requires HandsOver(RingAt(first, steps, |steps|), reader)
    requires var last := RingAt(first, steps, |steps|);
      Bound(a, last.keys[last.activeKeyId], NonceAt(wrapIv, steps, |steps|),
            WrapAad(last.activeKeyId, EncodeFieldContext(c).value), dataKey)
    ensures Encrypt(a, first, plain, c, dataKey, iv, wrapIv).Done?
    ensures var r := RewrapAll(a, Encrypt(a, first, plain, c, dataKey, iv, wrapIv).value, c, steps);
      r.Done? && Decrypt(a, reader, r.value, d) ==
        if EncodeFieldContext(d).None? then Failed(BadContext)
        else if SamePlace(c, d) then Done(plain)
        else Failed(WrapNotAuthentic)
  {
    hide Decode, WrapAad, PayloadAad, EncodeFieldContext, Encrypt, IsKeyId, Custody, SamePlace, Bound;
    var p := EncryptProtects(a, first, plain, c, dataKey, iv, wrapIv);
    var stored := Encrypt(a, first, plain, c, dataKey, iv, wrapIv).value;
    RewrapsKeepProtecting(a, first, stored, c, wrapIv, steps, p);
    var last, r := RingAt(first, steps, |steps|), RewrapAll(a, stored, c, steps).value;
    var nonce := NonceAt(wrapIv, steps, |steps|);
    if EncodeFieldContext(d).Some? {
      ContextDetermines(c, d);
      if SamePlace(c, d) {
        PrepareOpens(a, reader, r, d, last.activeKeyId, last.keys[last.activeKeyId], nonce, p);
        assert Opens(a, dataKey, iv, PayloadAad(EncodeFieldContext(c).value), plain);
      } else {
        RefusedElsewhere(
          a, reader, r, EncodeFieldContext(c).value, d, last.activeKeyId, last.keys[last.activeKeyId], nonce, p);
      }
    }
  }

  lemma RefusedElsewhere(
    a: Aead, reader: Keyring, stored: Bytes, context: Bytes, d: Context, keyId: Text, key: Bytes, wrapIv: Bytes,
    p: Payload)
    requires IsKeyId(keyId) && reader.Holds(keyId, key) && Protects(a, stored, context, keyId, key, wrapIv, p)
    requires Bound(a, key, wrapIv, WrapAad(keyId, context), p.dataKey)
    requires EncodeFieldContext(d).Some? && EncodeFieldContext(d).value != context
    ensures Prepare(a, reader, stored, d) == Failed(WrapNotAuthentic)
  {
    hide Decode, WrapAad, EncodeFieldContext, IsKeyId;
    var other := EncodeFieldContext(d).value;
    KeyIdFits(keyId);
    WrapAadDetermines(keyId, context, keyId, other);
    assert WrapAad(keyId, other) != WrapAad(keyId, context);
  }

  /** What is asked of the cipher can be had: some lawful cipher binds all that is sealed with given data. */
  lemma BindingIsPossible(aad: Bytes) returns (a: Aead)
    ensures Lawful(a) && forall key, iv, plain :: Bound(a, key, iv, aad, plain)
  {
    var yes, no := seq(TAG_BYTES, _ => 1 as Byte), seq(TAG_BYTES, _ => 0 as Byte);
    assert yes[0] != no[0];
    a := Aead(
      (_, _, data, plain) => Sealed(if data == aad then yes else no, plain),
      (_, _, data, s: Sealed) => if s.tag == (if data == aad then yes else no) then Some(s.ciphertext) else None);
    assert forall key, iv, data, plain :: Opens(a, key, iv, data, plain);
  }
}
