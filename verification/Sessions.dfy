/** Encrypting and decrypting with per-session keys that are derived once and remembered. */
module Sessions {
  import opened Wrappers
  import opened EncryptedBlocks

  const KEY_SIZE: nat := 32
  const MIN_BLOCK_SIZE: nat := 64

  datatype EncryptionConfig = EncryptionConfig(masterKey: Bytes, keyId: string, blockSize: int) {
    /** What construction accepts. */
    predicate Formed() {
      |masterKey| == KEY_SIZE && blockSize >= MIN_BLOCK_SIZE
    }
  }

  /** The library's authenticated encryption (AES-GCM) and key derivation (HKDF). */
  datatype Cipher = Cipher(
    derive: (Bytes, Bytes) -> Bytes,
    seal: (Bytes, Nonce, Bytes) -> Bytes,
    open: (Bytes, Bytes, Bytes) -> Option<Bytes>)
  {
    ghost predicate Lawful() {
      forall key: Bytes, nonce: Nonce, plaintext: Bytes ::
        var sealed := seal(key, nonce, plaintext);
        |sealed| == |plaintext| + TAG_SIZE && open(key, nonce, sealed) == Some(plaintext)
    }

    /** Opening accepts nothing but what sealing gives. */
    ghost predicate Strict() {
      forall key: Bytes, nonce: Nonce, sealed: Bytes, plaintext: Bytes ::
        open(key, nonce, sealed) == Some(plaintext) ==> sealed == seal(key, nonce, plaintext)
    }
  }

  /** A cipher that hides nothing has the law as well. */
  function OpenCipher(): Cipher {
    Cipher((master: Bytes, _: Bytes) => master,
           (_: Bytes, _: Nonce, plaintext: Bytes) => plaintext + seq(TAG_SIZE, _ => 0),
           (_: Bytes, _: Bytes, sealed: Bytes) =>
             if |sealed| < TAG_SIZE || sealed[|sealed| - TAG_SIZE..] != seq(TAG_SIZE, _ => 0) then None
             else Some(sealed[..|sealed| - TAG_SIZE]))
  }

  lemma LawfulCipherExists()
    ensures OpenCipher().Lawful() && OpenCipher().Strict()
  {
    forall sealed: Bytes | |sealed| >= TAG_SIZE
      ensures sealed == sealed[..|sealed| - TAG_SIZE] + sealed[|sealed| - TAG_SIZE..]
    {
    }
    forall plaintext: Bytes
      ensures (plaintext + seq(TAG_SIZE, _ => 0))[..|plaintext|] == plaintext
    {
    }
  }

  // ---------- Encryption ----------

  /** The block that stands for `plaintext`. */
  function Sealed(cipher: Cipher, config: EncryptionConfig, session: Bytes, plaintext: Bytes, nonce: Nonce): EncryptedBlock {
    var sealed := cipher.seal(cipher.derive(config.masterKey, session), nonce, plaintext);
    var cut := if |sealed| < TAG_SIZE then 0 else |sealed| - TAG_SIZE;
    EncryptedBlock(config.keyId, nonce, sealed[..cut], sealed[cut..])
  }

  class Encryptor {
    const cipher: Cipher
    const config: EncryptionConfig
    var sessionKeys: map<Bytes, Bytes>

    /** A remembered key is the one a fresh derivation gives. */
    ghost predicate Valid()
      reads this
    {
      && cipher.Lawful() && config.Formed()
      && forall s :: s in sessionKeys ==> sessionKeys[s] == cipher.derive(config.masterKey, s)
    }

    constructor (cipher: Cipher, config: EncryptionConfig)
      requires cipher.Lawful() && config.Formed()
      ensures Valid() && this.cipher == cipher && this.config == config && sessionKeys == map[]
    {
      this.cipher, this.config, sessionKeys := cipher, config, map[];
    }

    method SessionKey(session: Bytes) returns (key: Bytes)
      requires Valid()
      modifies this
      ensures Valid() && key == cipher.derive(config.masterKey, session)
      ensures sessionKeys == old(sessionKeys)[session := key]
    {
      if session !in sessionKeys {
        sessionKeys := sessionKeys[session := cipher.derive(config.masterKey, session)];
      }
      key := sessionKeys[session];
      assert sessionKeys == old(sessionKeys)[session := key];
    }

    /** Whatever was remembered before, the block is the sealing of `plaintext`, and is well formed. */
    method Encrypt(plaintext: Bytes, session: Bytes, nonce: Nonce) returns (block: EncryptedBlock)
      requires Valid()
      modifies this
      ensures Valid() && block == Sealed(cipher, config, session, plaintext, nonce)
      ensures block.Formed() && |block.ciphertext| == |plaintext|
    {
      var key := SessionKey(session);
      var sealed := cipher.seal(key, nonce, plaintext);
      assert |sealed| == |plaintext| + TAG_SIZE;
      block := EncryptedBlock(config.keyId, nonce, sealed[..|sealed| - TAG_SIZE], sealed[|sealed| - TAG_SIZE..]);
    }
  }

  // ---------- Decryption ----------

  /** What a decryptor holds: its keys, and the session keys it has derived so far. */
  datatype Keyring = Keyring(keys: map<string, EncryptionConfig>, memo: map<(string, Bytes), Bytes>)

  function AddKey(ring: Keyring, config: EncryptionConfig): Keyring {
    ring.(keys := ring.keys[config.keyId := config])
  }

  /** The session key a lookup comes up with. */
  function KeyFor(cipher: Cipher, ring: Keyring, keyId: string, session: Bytes): Option<Bytes> {
    if (keyId, session) in ring.memo then Some(ring.memo[(keyId, session)])
    else if keyId in ring.keys then Some(cipher.derive(ring.keys[keyId].masterKey, session))
    else None
  }

  /** What the keyring is after the lookup. */
  function Looked(cipher: Cipher, ring: Keyring, keyId: string, session: Bytes): Keyring {
    match KeyFor(cipher, ring, keyId, session)
    case None => ring
    case Some(key) => ring.(memo := ring.memo[(keyId, session) := key])
  }

  function Opened(cipher: Cipher, ring: Keyring, block: EncryptedBlock, session: Bytes): Result<Bytes, CryptoError> {
    match KeyFor(cipher, ring, block.keyId, session)
    case None => Err(UnknownKey(block.keyId))
    case Some(key) =>
      match cipher.open(key, block.nonce, block.ciphertext + block.tag)
      case None => Err(Rejected)
      case Some(plaintext) => Ok(plaintext)
  }

  /** The plaintexts of several blocks, one after the other; the first failure is the answer. */
  function OpenedAll(cipher: Cipher, ring: Keyring, blocks: seq<EncryptedBlock>, session: Bytes): Result<Bytes, CryptoError> {
    if blocks == [] then Ok([])
    else
      match Opened(cipher, ring, blocks[0], session)
      case Err(e) => Err(e)
      case Ok(plaintext) =>
        match OpenedAll(cipher, ring, blocks[1..], session)
        case Err(e) => Err(e)
        case Ok(rest) => Ok(plaintext + rest)
  }

  /** Two keyrings that look up the same session keys. */
  ghost predicate SameKeys(cipher: Cipher, a: Keyring, b: Keyring) {
    forall id, s :: KeyFor(cipher, a, id, s) == KeyFor(cipher, b, id, s)
  }

  /** Looking a key up changes no later lookup. */
  lemma LookupChangesNoKey(cipher: Cipher, ring: Keyring, keyId: string, session: Bytes)
    ensures SameKeys(cipher, Looked(cipher, ring, keyId, session), ring)
  {
  }

  lemma {:induction false} SameKeysOpenTheSame(cipher: Cipher, a: Keyring, b: Keyring, blocks: seq<EncryptedBlock>, session: Bytes)
    requires SameKeys(cipher, a, b)
    ensures OpenedAll(cipher, a, blocks, session) == OpenedAll(cipher, b, blocks, session)
  {
    if blocks != [] {
      assert KeyFor(cipher, a, blocks[0].keyId, session) == KeyFor(cipher, b, blocks[0].keyId, session);
      SameKeysOpenTheSame(cipher, a, b, blocks[1..], session);
    }
  }

  /** A keyring that looks up the session key a block was sealed with opens it to the plaintext. */
  lemma SealedOpens(cipher: Cipher, config: EncryptionConfig, ring: Keyring, session: Bytes, plaintext: Bytes, nonce: Nonce)
    requires cipher.Lawful()
    requires KeyFor(cipher, ring, config.keyId, session) == Some(cipher.derive(config.masterKey, session))
    ensures var block := Sealed(cipher, config, session, plaintext, nonce);
            block.Formed() && block.nonce == nonce && block.keyId == config.keyId && |block.ciphertext| == |plaintext|
    ensures Opened(cipher, ring, Sealed(cipher, config, session, plaintext, nonce), session) == Ok(plaintext)
  {
    var key := cipher.derive(config.masterKey, session);
    var sealed := cipher.seal(key, nonce, plaintext);
    assert |sealed| == |plaintext| + TAG_SIZE && cipher.open(key, nonce, sealed) == Some(plaintext);
    var cut := |sealed| - TAG_SIZE;
    assert sealed[..cut] + sealed[cut..] == sealed;
  }

  /** With a strict cipher a block opens to a plaintext if and only if it is that plaintext's sealing under
      the key looked up: a block changed in nonce, ciphertext or tag opens to nothing else, and is rejected
      unless it is a sealing itself. */
  lemma OpensExactlySealings(cipher: Cipher, ring: Keyring, block: EncryptedBlock, session: Bytes, plaintext: Bytes)
    requires cipher.Lawful() && cipher.Strict() && block.Formed()
    ensures var key, r := KeyFor(cipher, ring, block.keyId, session), Opened(cipher, ring, block, session);
            && (r == Ok(plaintext)
                <==> key.Some? && block.ciphertext + block.tag == cipher.seal(key.value, block.nonce, plaintext))
            && (r == Err(UnknownKey(block.keyId)) <==> key == None)
            && (key.Some? && r.Err? ==> r == Err(Rejected))
  {
  }

  /** Several blocks open to their plaintexts in order, or fail as the first that fails. */
  lemma {:induction false} FirstFailureDecides(cipher: Cipher, ring: Keyring, blocks: seq<EncryptedBlock>, session: Bytes)
    ensures var all := OpenedAll(cipher, ring, blocks, session);
            && (all.Ok? <==> forall i :: 0 <= i < |blocks| ==> Opened(cipher, ring, blocks[i], session).Ok?)
            && (all.Err? ==> exists i :: 0 <= i < |blocks| && Opened(cipher, ring, blocks[i], session) == Err(all.error)
                               && forall j :: 0 <= j < i ==> Opened(cipher, ring, blocks[j], session).Ok?)
  {
    if blocks != [] {
      FirstFailureDecides(cipher, ring, blocks[1..], session);
      var rest := OpenedAll(cipher, ring, blocks[1..], session);
      if Opened(cipher, ring, blocks[0], session).Ok? && rest.Err? {
        var i :| 0 <= i < |blocks[1..]| && Opened(cipher, ring, blocks[1..][i], session) == Err(rest.error)
                 && forall j :: 0 <= j < i ==> Opened(cipher, ring, blocks[1..][j], session).Ok?;
        assert blocks[i + 1] == blocks[1..][i];
        forall j | 0 <= j < i + 1
          ensures Opened(cipher, ring, blocks[j], session).Ok?
        {
          if j > 0 {
            assert blocks[j] == blocks[1..][j - 1];
          }
        }
      } else if rest.Ok? {
        forall i | 0 < i < |blocks|
          ensures Opened(cipher, ring, blocks[i], session).Ok?
        {
          assert blocks[i] == blocks[1..][i - 1];
        }
      }
    }
  }

  class Decryptor {
    const cipher: Cipher
    var keys: map<string, EncryptionConfig>
    var sessionKeys: map<(string, Bytes), Bytes>

    function Ring(): Keyring
      reads this
    {
      Keyring(keys, sessionKeys)
    }

    constructor (cipher: Cipher, config: EncryptionConfig)
      ensures Ring() == Start(config) && this.cipher == cipher
    {
      this.cipher, keys, sessionKeys := cipher, map[config.keyId := config], map[];
    }

    method Add(config: EncryptionConfig)
      modifies this`keys
      ensures Ring() == AddKey(old(Ring()), config)
    {
      keys := keys[config.keyId := config];
    }

    method SessionKey(keyId: string, session: Bytes) returns (key: Result<Bytes, CryptoError>)
      modifies this`sessionKeys
      ensures key == match KeyFor(cipher, old(Ring()), keyId, session)
                     case None => Err(UnknownKey(keyId))
                     case Some(k) => Ok(k)
      ensures Ring() == Looked(cipher, old(Ring()), keyId, session)
    {
      if (keyId, session) !in sessionKeys {
        if keyId !in keys {
          return Err(UnknownKey(keyId));
        }
        sessionKeys := sessionKeys[(keyId, session) := cipher.derive(keys[keyId].masterKey, session)];
      }
      key := Ok(sessionKeys[(keyId, session)]);
      assert sessionKeys == Looked(cipher, old(Ring()), keyId, session).memo;
    }

    method Decrypt(block: EncryptedBlock, session: Bytes) returns (plaintext: Result<Bytes, CryptoError>)
      modifies this`sessionKeys
      ensures plaintext == Opened(cipher, old(Ring()), block, session)
      ensures Ring() == Looked(cipher, old(Ring()), block.keyId, session)
    {
      var key := SessionKey(block.keyId, session);
      if key.Err? {
        return Err(key.error);
      }
      match cipher.open(key.value, block.nonce, block.ciphertext + block.tag)
      case None => plaintext := Err(Rejected);
      case Some(p) => plaintext := Ok(p);
    }

    method DecryptStream(blocks: seq<EncryptedBlock>, session: Bytes) returns (data: Result<Bytes, CryptoError>)
      modifies this`sessionKeys
      ensures data == OpenedAll(cipher, old(Ring()), blocks, session)
      ensures SameKeys(cipher, Ring(), old(Ring()))
    {
      var joined: Bytes := [];
      ghost var start := Ring();
      assert blocks[0..] == blocks;
      for i := 0 to |blocks|
        invariant SameKeys(cipher, Ring(), start)
        invariant OpenedAll(cipher, start, blocks, session)
               == Prefixed(joined, OpenedAll(cipher, start, blocks[i..], session))
      {
        ghost var before := Ring();
        assert blocks[i..][0] == blocks[i];
        assert KeyFor(cipher, before, blocks[i].keyId, session) == KeyFor(cipher, start, blocks[i].keyId, session);
        var plaintext := Decrypt(blocks[i], session);
        LookupChangesNoKey(cipher, before, blocks[i].keyId, session);
        if plaintext.Err? {
          return plaintext;
        }
        OpenOneMore(cipher, start, blocks, session, i, joined);
        joined := joined + plaintext.value;
      }
      assert blocks[|blocks|..] == [] && joined + [] == joined;
      data := Ok(joined);
    }
  }

  function Prefixed(front: Bytes, rest: Result<Bytes, CryptoError>): (all: Result<Bytes, CryptoError>)
    ensures front == [] ==> all == rest
  {
    match rest
    case Err(e) => Err(e)
    case Ok(bytes) =>
      assert [] + bytes == bytes;
      Ok(front + bytes)
  }

  /** Opening the rest, one block at a time. */
  lemma OpenOneMore(cipher: Cipher, ring: Keyring, blocks: seq<EncryptedBlock>, session: Bytes, i: nat, joined: Bytes)
    requires i < |blocks| && Opened(cipher, ring, blocks[i], session).Ok?
    ensures Prefixed(joined, OpenedAll(cipher, ring, blocks[i..], session))
         == Prefixed(joined + Opened(cipher, ring, blocks[i], session).value, OpenedAll(cipher, ring, blocks[i + 1..], session))
  {
    var plaintext := Opened(cipher, ring, blocks[i], session).value;
    assert blocks[i..][0] == blocks[i] && blocks[i..][1..] == blocks[i + 1..];
    match OpenedAll(cipher, ring, blocks[i + 1..], session)
    case Err(_) =>
    case Ok(rest) => assert joined + (plaintext + rest) == joined + plaintext + rest;
  }

  // ---------- What a decryptor does over a whole run ----------

  datatype Use = Add(config: EncryptionConfig) | Decrypt(block: EncryptedBlock, session: Bytes)

  function Start(config: EncryptionConfig): Keyring {
    Keyring(map[config.keyId := config], map[])
  }

  function After(cipher: Cipher, first: EncryptionConfig, run: seq<Use>): Keyring {
    if run == [] then Start(first)
    else
      var ring := After(cipher, first, run[..|run| - 1]);
      match run[|run| - 1]
      case Add(config) => AddKey(ring, config)
      case Decrypt(block, session) => Looked(cipher, ring, block.keyId, session)
  }

  /** The key most recently registered under an id. */
  function Bound(first: EncryptionConfig, run: seq<Use>, keyId: string): Option<EncryptionConfig> {
    if run == [] then (if first.keyId == keyId then Some(first) else None)
    else
      var last := run[|run| - 1];
      if last.Add? && last.config.keyId == keyId then Some(last.config)
      else Bound(first, run[..|run| - 1], keyId)
  }

  /** The key that was registered under an id when a block of a session was first decrypted with it. */
  function FirstBound(first: EncryptionConfig, run: seq<Use>, keyId: string, session: Bytes): Option<EncryptionConfig> {
    if run == [] then None
    else
      var front, last := run[..|run| - 1], run[|run| - 1];
      var earlier := FirstBound(first, front, keyId, session);
      if earlier.Some? then earlier
      else if last.Decrypt? && last.block.keyId == keyId && last.session == session then Bound(first, front, keyId)
      else None
  }

  /** After any run the decryptor decrypts a session's blocks of an id under the key that was
      registered when it first did so; only before that under the key registered now. */
  lemma {:induction false} FirstBindingDecides(cipher: Cipher, first: EncryptionConfig, run: seq<Use>, keyId: string, session: Bytes)
    ensures var ring := After(cipher, first, run);
            var decided := FirstBound(first, run, keyId, session);
            && (keyId in ring.keys <==> Bound(first, run, keyId).Some?)
            && (keyId in ring.keys ==> ring.keys[keyId] == Bound(first, run, keyId).value)
            && ((keyId, session) in ring.memo <==> decided.Some?)
            && KeyFor(cipher, ring, keyId, session)
               == match (if decided.Some? then decided else Bound(first, run, keyId))
                  case None => None
                  case Some(config) => Some(cipher.derive(config.masterKey, session))
  {
    if run != [] {
      FirstBindingDecides(cipher, first, run[..|run| - 1], keyId, session);
    }
  }

  /** The decryptor's memo agrees with fresh derivation. */
  ghost predicate Fresh(cipher: Cipher, ring: Keyring, keyId: string, session: Bytes) {
    keyId in ring.keys ==>
      KeyFor(cipher, ring, keyId, session) == Some(cipher.derive(ring.keys[keyId].masterKey, session))
  }

  /** No id is ever given a second master key. */
  ghost predicate NeverRebound(first: EncryptionConfig, run: seq<Use>) {
    && (forall i :: 0 <= i < |run| && run[i].Add? && run[i].config.keyId == first.keyId ==>
          run[i].config.masterKey == first.masterKey)
    && (forall i, j :: 0 <= i < j < |run| && run[i].Add? && run[j].Add? && run[i].config.keyId == run[j].config.keyId ==>
          run[i].config.masterKey == run[j].config.masterKey)
  }

  /** A registered key is one of those the run registered. */
  lemma {:induction false} BoundIsRegistered(first: EncryptionConfig, run: seq<Use>, keyId: string)
    requires Bound(first, run, keyId).Some?
    ensures var config := Bound(first, run, keyId).value;
            config.keyId == keyId && (config == first || exists i :: 0 <= i < |run| && run[i] == Add(config))
  {
    if run != [] && !(run[|run| - 1].Add? && run[|run| - 1].config.keyId == keyId) {
      BoundIsRegistered(first, run[..|run| - 1], keyId);
    }
  }

  lemma {:induction false} FirstBoundIsRegistered(first: EncryptionConfig, run: seq<Use>, keyId: string, session: Bytes)
    requires FirstBound(first, run, keyId, session).Some?
    ensures var config := FirstBound(first, run, keyId, session).value;
            config.keyId == keyId && (config == first || exists i :: 0 <= i < |run| && run[i] == Add(config))
  {
    var front := run[..|run| - 1];
    if FirstBound(first, front, keyId, session).Some? {
      FirstBoundIsRegistered(first, front, keyId, session);
    } else {
      BoundIsRegistered(first, front, keyId);
    }
  }

  /** In every run that rebinds no id, the memo always equals fresh derivation. */
  lemma MemoIsFreshUnlessRebound(cipher: Cipher, first: EncryptionConfig, run: seq<Use>, keyId: string, session: Bytes)
    requires NeverRebound(first, run)
    ensures Fresh(cipher, After(cipher, first, run), keyId, session)
  {
    FirstBindingDecides(cipher, first, run, keyId, session);
    var decided, now := FirstBound(first, run, keyId, session), Bound(first, run, keyId);
    if decided.Some? && now.Some? {
      FirstBoundIsRegistered(first, run, keyId, session);
      BoundIsRegistered(first, run, keyId);
    }
  }

  /** Once a session's block has been decrypted, rebinding its id leaves the memo stale exactly when the
      new master key derives another session key. */
  lemma RebindingIsIgnored(cipher: Cipher, first: EncryptionConfig, run: seq<Use>, config: EncryptionConfig, session: Bytes)
    ensures var ring := After(cipher, first, run + [Use.Add(config)]);
            var decided := FirstBound(first, run, config.keyId, session);
            Fresh(cipher, ring, config.keyId, session) <==>
              decided == None
              || cipher.derive(decided.value.masterKey, session) == cipher.derive(config.masterKey, session)
  {
    FirstBindingDecides(cipher, first, run, config.keyId, session);
    assert (run + [Use.Add(config)])[..|run|] == run;
    FirstBindingDecides(cipher, first, run + [Use.Add(config)], config.keyId, session);
  }
}
