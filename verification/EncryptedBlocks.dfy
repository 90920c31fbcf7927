/** One encrypted block and its wire format. */
module EncryptedBlocks {
  import opened Wrappers

  type byte = x: int | 0 <= x < 256
  type Bytes = seq<byte>

  const NONCE_SIZE: nat := 12
  const TAG_SIZE: nat := 16
  const MAX_KEY_ID: nat := 255

  type Nonce = n: Bytes | |n| == NONCE_SIZE witness seq(NONCE_SIZE, _ => 0)

  datatype CryptoError =
    | BadNonce | BadTag | KeyIdTooLong | TooShort | TooShortForKeyId | BadText
    | UnknownKey(keyId: string) | Rejected | FrameTooLong

  /** Strict UTF-8. Text with lone surrogates has no encoding; ill-formed bytes have no decoding. */
  datatype TextCodec = TextCodec(encode: string -> Option<Bytes>, decode: Bytes -> Option<string>) {
    ghost predicate Exact() {
      forall text, bytes :: encode(text) == Some(bytes) <==> decode(bytes) == Some(text)
    }
  }

  datatype EncryptedBlock = EncryptedBlock(keyId: string, nonce: Bytes, ciphertext: Bytes, tag: Bytes) {
    predicate Formed() {
      |nonce| == NONCE_SIZE && |tag| == TAG_SIZE
    }
  }

  /** Construction rejects nonces and tags of the wrong size. */
  function Construct(keyId: string, nonce: Bytes, ciphertext: Bytes, tag: Bytes): Result<EncryptedBlock, CryptoError> {
    if |nonce| != NONCE_SIZE then Err(BadNonce)
    else if |tag| != TAG_SIZE then Err(BadTag)
    else Ok(EncryptedBlock(keyId, nonce, ciphertext, tag))
  }

  lemma ConstructChecks(keyId: string, nonce: Bytes, ciphertext: Bytes, tag: Bytes)
    ensures var r := Construct(keyId, nonce, ciphertext, tag);
            && (|nonce| != 12 ==> r == Err(BadNonce))
            && (|nonce| == 12 && |tag| != 16 ==> r == Err(BadTag))
            && (|nonce| == 12 && |tag| == 16 ==> r == Ok(EncryptedBlock(keyId, nonce, ciphertext, tag)))
  {
  }

  function Serialize(codec: TextCodec, b: EncryptedBlock): Result<Bytes, CryptoError> {
    match codec.encode(b.keyId)
    case None => Err(BadText)
    case Some(id) =>
      if |id| > MAX_KEY_ID then Err(KeyIdTooLong)
      else Ok([|id| as byte] + id + b.nonce + b.ciphertext + b.tag)
  }

  function Deserialize(codec: TextCodec, data: Bytes): Result<EncryptedBlock, CryptoError> {
    if |data| < 1 + NONCE_SIZE + TAG_SIZE then Err(TooShort)
    else
      var n: nat := data[0];
      if |data| < 1 + n + NONCE_SIZE + TAG_SIZE then Err(TooShortForKeyId)
      else
        match codec.decode(data[1..1 + n])
        case None => Err(BadText)
        case Some(id) =>
          var offset := 1 + n + NONCE_SIZE;
          var tagStart := |data| - TAG_SIZE;
          Construct(id, data[1 + n..offset], data[offset..tagStart], data[tagStart..])
  }

  /** The five fields lie side by side, so each can be cut out again. */
  lemma FieldsAreRecovered(id: Bytes, b: EncryptedBlock, data: Bytes)
    requires b.Formed() && |id| <= MAX_KEY_ID
    requires data == [|id| as byte] + id + b.nonce + b.ciphertext + b.tag
    ensures data[0] == |id| && data[1..1 + |id|] == id
    ensures data[1 + |id|..1 + |id| + NONCE_SIZE] == b.nonce
    ensures data[1 + |id| + NONCE_SIZE..|data| - TAG_SIZE] == b.ciphertext
    ensures data[|data| - TAG_SIZE..] == b.tag
  {
  }

  /** Where a printed block's fields lie: one length byte, the key id, 12 bytes of nonce, the ciphertext and
      16 bytes of tag. A key id that is no text, or longer than 255 bytes, is not printed. */
  lemma WireLayout(codec: TextCodec, b: EncryptedBlock, id: Bytes)
    requires b.Formed() && codec.encode(b.keyId) == Some(id)
    ensures Serialize(codec, b).Ok? <==> |id| <= 255
    ensures Serialize(codec, b).Ok? ==>
              var data := Serialize(codec, b).value;
              && |data| == 1 + |id| + 12 + |b.ciphertext| + 16
              && data[0] == |id| && data[1..1 + |id|] == id && data[1 + |id|..13 + |id|] == b.nonce
              && data[13 + |id|..|data| - 16] == b.ciphertext && data[|data| - 16..] == b.tag
  {
    if |id| <= MAX_KEY_ID {
      FieldsAreRecovered(id, b, Serialize(codec, b).value);
    }
  }

  /** Parsing and printing undo each other in both directions: for a well-formed block, the bytes it is
      printed as are exactly the bytes it is parsed from. */
  lemma PrintIffParse(codec: TextCodec, b: EncryptedBlock, data: Bytes)
    requires codec.Exact() && b.Formed()
    ensures Serialize(codec, b) == Ok(data) <==> Deserialize(codec, data) == Ok(b)
  {
    if Serialize(codec, b) == Ok(data) {
      PrintedParses(codec, b, data);
    }
    if Deserialize(codec, data) == Ok(b) {
      ParsedPrints(codec, b, data);
    }
    hide *;
  }

  lemma PrintedParses(codec: TextCodec, b: EncryptedBlock, data: Bytes)
    requires codec.Exact() && b.Formed() && Serialize(codec, b) == Ok(data)
    ensures Deserialize(codec, data) == Ok(b)
  {
    var id := codec.encode(b.keyId).value;
    assert codec.decode(id) == Some(b.keyId);
    FieldsAreRecovered(id, b, data);
    hide TextCodec.Exact;
  }

  lemma ParsedPrints(codec: TextCodec, b: EncryptedBlock, data: Bytes)
    requires codec.Exact() && Deserialize(codec, data) == Ok(b)
    ensures Serialize(codec, b) == Ok(data)
  {
    var n: nat := data[0];
    var id := data[1..1 + n];
    assert codec.encode(b.keyId) == Some(id);
    hide TextCodec.Exact;
    JoinFields(data, n);
    assert [n as byte] == data[..1];
  }

  lemma JoinFields(data: Bytes, n: nat)
    requires 1 + n + NONCE_SIZE + TAG_SIZE <= |data|
    ensures data == data[..1] + data[1..1 + n] + data[1 + n..1 + n + NONCE_SIZE]
                    + data[1 + n + NONCE_SIZE..|data| - TAG_SIZE] + data[|data| - TAG_SIZE..]
  {
  }

  /** Every parsed block is well formed, and a byte string parses exactly if it is long enough for the
      key id it announces and for nonce and tag, and that key id is text. */
  lemma ParsesExactly(codec: TextCodec, data: Bytes)
    ensures Deserialize(codec, data).Ok? <==>
            && |data| >= 29
            && data[0] <= |data| - 29
            && codec.decode(data[1..1 + data[0]]).Some?
    ensures Deserialize(codec, data).Ok? ==>
              var b := Deserialize(codec, data).value;
              |b.nonce| == 12 && |b.tag| == 16 && data[0] == |data| - |b.ciphertext| - 29
  {
  }

  /** No two well-formed blocks share a wire form. */
  lemma WireFormIsInjective(codec: TextCodec, a: EncryptedBlock, b: EncryptedBlock)
    requires codec.Exact() && a.Formed() && b.Formed()
    requires Serialize(codec, a).Ok? && Serialize(codec, a) == Serialize(codec, b)
    ensures a == b
  {
    PrintIffParse(codec, a, Serialize(codec, a).value);
    PrintIffParse(codec, b, Serialize(codec, a).value);
  }

  // ---------- What the format relies on can be had ----------

  predicate AsciiText(text: string) {
    forall i :: 0 <= i < |text| ==> text[i] < '\U{80}'
  }

  /** Characters below 128 as themselves. */
  function AsciiBytes(text: string): Option<Bytes> {
    if AsciiText(text) then Some(seq(|text|, i requires 0 <= i < |text| && AsciiText(text) => text[i] as int)) else None
  }

  function AsciiOf(bytes: Bytes): Option<string> {
    if forall i :: 0 <= i < |bytes| ==> bytes[i] < 128
    then Some(seq(|bytes|, i requires 0 <= i < |bytes| && bytes[i] < 128 => bytes[i] as char)) else None
  }

  function AsciiCodec(): TextCodec {
    TextCodec(AsciiBytes, AsciiOf)
  }

  /** There is an exact codec that encodes every text of such characters. */
  lemma ExactCodecExists()
    ensures AsciiCodec().Exact()
    ensures forall text :: AsciiText(text) ==> AsciiCodec().encode(text).Some?
  {
    forall text, bytes
      ensures AsciiBytes(text) == Some(bytes) <==> AsciiOf(bytes) == Some(text)
    {
      if AsciiBytes(text) == Some(bytes) {
        assert AsciiOf(bytes).value == text;
      }
      if AsciiOf(bytes) == Some(text) {
        assert AsciiBytes(text).value == bytes;
      }
    }
  }
}
