/** Streams of encrypted blocks: chunking, reassembly in any order, and framing on the wire. */
module CrypticStreams {
  import opened Arithmetic
  import opened Wrappers
  import opened Sorting
  import opened EncryptedBlocks
  import opened Sessions

  datatype StreamBlock = StreamBlock(index: int, block: EncryptedBlock, isLast: bool)

  // ---------- Chunks ----------

  /** None and 0 stand for the configured size. */
  function BlockSize(requested: Option<int>, config: EncryptionConfig): int {
    match requested
    case Some(bs) => if bs != 0 then bs else config.blockSize
    case None => config.blockSize
  }

  /** A requested size is used as it is unless it is 0; never is a size of 0 used. */
  lemma WhichBlockSize(requested: Option<int>, config: EncryptionConfig)
    requires config.Formed()
    ensures BlockSize(requested, config) != 0
    ensures requested.Some? && requested.value != 0 ==> BlockSize(requested, config) == requested.value
    ensures requested in {None, Some(0)} ==> BlockSize(requested, config) == config.blockSize >= 64
  {
  }

  function Min(a: int, b: int): int { if a < b then a else b }

  /** How many blocks stand for `n` bytes: the least positive number whose blocks have room for them. */
  function Count(n: nat, bs: int): nat
    requires bs > 0
  {
    if n == 0 then 1 else (n - 1) / bs + 1
  }

  /** Where block `k` starts. */
  function Cut(n: nat, bs: int, k: nat): nat
    requires bs > 0
  {
    Product(k, bs);
    Min(k * bs, n)
  }

  lemma Product(k: nat, bs: nat)
    ensures 0 <= k * bs
  {
  }

  /** Block `k` exists exactly if it starts before the end. */
  lemma StartsInside(n: nat, bs: int, k: nat)
    requires n > 0 && bs > 0
    ensures k < Count(n, bs) <==> k * bs < n
  {
    var q := (n - 1) / bs;
    if k <= q {
      assert k * bs <= q * bs;
    } else {
      assert (q + 1) * bs <= k * bs;
    }
  }

  lemma CutsAscend(n: nat, bs: int, k: nat, m: nat)
    requires bs > 0 && k <= m
    ensures Cut(n, bs, k) <= Cut(n, bs, m)
  {
    assert k * bs <= m * bs;
  }

  function Chunk(data: Bytes, bs: int, k: nat): Bytes
    requires bs > 0
  {
    CutsAscend(|data|, bs, k, k + 1);
    data[Cut(|data|, bs, k)..Cut(|data|, bs, k + 1)]
  }

  /** The stream that stands for `data`. No bytes make one empty block; a negative size makes no blocks. */
  function StreamOf(cipher: Cipher, config: EncryptionConfig, session: Bytes, data: Bytes, bs: int, nonces: nat -> Nonce): seq<StreamBlock> {
    if data == [] then [StreamBlock(0, Sealed(cipher, config, session, [], nonces(0)), true)]
    else if bs <= 0 then []
    else seq(Count(|data|, bs), k requires 0 <= k < Count(|data|, bs) =>
               StreamBlock(k, Sealed(cipher, config, session, Chunk(data, bs, k), nonces(k)), k == Count(|data|, bs) - 1))
  }

  /** What the loops compute for the block that starts at byte `k * bs`. */
  lemma BlockFromOffset(data: Bytes, bs: int, k: nat)
    requires bs > 0 && k * bs < |data|
    ensures k * bs / bs == k && k < Count(|data|, bs)
    ensures Chunk(data, bs, k) == data[k * bs..Min(k * bs + bs, |data|)]
    ensures k * bs + bs >= |data| <==> k == Count(|data|, bs) - 1
  {
    StartsInside(|data|, bs, k);
    StartsInside(|data|, bs, k + 1);
    assert (k + 1) * bs == k * bs + bs;
    assert k * bs / bs == k by {
      DivideBack(k, bs);
    }
  }

  lemma DivideBack(k: nat, bs: nat)
    requires bs > 0
    ensures k * bs / bs == k
  {
    var q := k * bs / bs;
    Times(q + 1, k, bs);
    Times(k + 1, q, bs);
  }

  /** Byte `i` is where block `k` starts. */
  ghost predicate StartsAt(i: int, bs: int, k: nat) {
    i == k * bs
  }

  lemma NextStart(i: int, bs: int, k: nat)
    ensures StartsAt(0, bs, 0)
    ensures StartsAt(i, bs, k) ==> StartsAt(i + bs, bs, k + 1)
  {
    assert (k + 1) * bs == k * bs + bs;
  }

  function IndexOf(i: int, bs: int): int
    requires bs > 0
  {
    i / bs
  }

  /** The block both loops make at byte `k * bs`. */
  function BlockAt(cipher: Cipher, config: EncryptionConfig, session: Bytes, data: Bytes, bs: int, nonces: nat -> Nonce, i: nat, k: nat): StreamBlock
    requires bs > 0
  {
    var chunk := if i < |data| then data[i..Min(i + bs, |data|)] else [];
    StreamBlock(IndexOf(i, bs), Sealed(cipher, config, session, chunk, nonces(k)), i + bs >= |data|)
  }

  lemma BlockAtOffset(cipher: Cipher, config: EncryptionConfig, session: Bytes, data: Bytes, bs: int, nonces: nat -> Nonce, i: nat, k: nat)
    requires bs > 0 && StartsAt(i, bs, k)
    ensures var stream := StreamOf(cipher, config, session, data, bs, nonces);
            && (k < |stream| <==> i < |data| || i == 0)
            && (k < |stream| ==> stream[k] == BlockAt(cipher, config, session, data, bs, nonces, i, k))
            && (k < |stream| ==>
                  (BlockAt(cipher, config, session, data, bs, nonces, i, k).isLast <==> k == |stream| - 1)
                  && (i + bs >= |data| <==> k == |stream| - 1))
  {
    if data == [] {
      Times(1, k, bs);
      assert k * bs / bs == k by { DivideBack(k, bs); }
    } else {
      StartsInside(|data|, bs, k);
      if k * bs < |data| {
        BlockFromOffset(data, bs, k);
      }
    }
  }

  /** One round of either loop. */
  method EncryptAt(data: Bytes, encryptor: Encryptor, session: Bytes, bs: int, nonces: nat -> Nonce, i: nat, k: nat)
    returns (sb: StreamBlock)
    requires encryptor.Valid() && bs > 0
    modifies encryptor
    ensures encryptor.Valid() && sb == BlockAt(encryptor.cipher, encryptor.config, session, data, bs, nonces, i, k)
  {
    var chunk := if i < |data| then data[i..Min(i + bs, |data|)] else [];
    var block := encryptor.Encrypt(chunk, session, nonces(k));
    var isLast := i + bs >= |data| || (i == 0 && data == []);
    sb := StreamBlock(IndexOf(i, bs), block, isLast);
  }

  method EncryptToStream(data: Bytes, encryptor: Encryptor, session: Bytes, requested: Option<int>, nonces: nat -> Nonce)
    returns (blocks: seq<StreamBlock>)
    requires encryptor.Valid()
    modifies encryptor
    ensures encryptor.Valid()
    ensures blocks == StreamOf(encryptor.cipher, encryptor.config, session, data, BlockSize(requested, encryptor.config), nonces)
  {
    var bs := BlockSize(requested, encryptor.config);
    blocks := [];
    if data == [] {
      var block := encryptor.Encrypt([], session, nonces(0));
      return [StreamBlock(0, block, true)];
    }
    if bs < 0 {
      return;
    }
    ghost var expected := StreamOf(encryptor.cipher, encryptor.config, session, data, bs, nonces);
    var i := 0;
    hide StreamOf, StartsAt, BlockAt;
    NextStart(i, bs, 0);
    BlockAtOffset(encryptor.cipher, encryptor.config, session, data, bs, nonces, i, 0);
    while i < |data|
      invariant encryptor.Valid()
      invariant 0 <= i && StartsAt(i, bs, |blocks|) && |blocks| <= |expected|
      invariant forall j :: 0 <= j < |blocks| ==> blocks[j] == expected[j]
      invariant |blocks| < |expected| <==> i < |data|
    {
      BlockAtOffset(encryptor.cipher, encryptor.config, session, data, bs, nonces, i, |blocks|);
      var sb := EncryptAt(data, encryptor, session, bs, nonces, i, |blocks|);
      NextStart(i, bs, |blocks|);
      blocks := blocks + [sb];
      i := i + bs;
    }
    assert blocks == expected;
  }

  /** The generator yields the stream of `EncryptToStream`, except that a negative size yields nothing
      even for no bytes. */
  method StreamIter(data: Bytes, encryptor: Encryptor, session: Bytes, requested: Option<int>, nonces: nat -> Nonce)
    returns (yielded: seq<StreamBlock>)
    requires encryptor.Valid()
    modifies encryptor
    ensures encryptor.Valid()
    ensures var bs := BlockSize(requested, encryptor.config);
            yielded == if bs < 0 then [] else StreamOf(encryptor.cipher, encryptor.config, session, data, bs, nonces)
  {
    var bs := BlockSize(requested, encryptor.config);
    var total := |data|;
    yielded := [];
    if bs < 0 {
      return;
    }
    ghost var expected := StreamOf(encryptor.cipher, encryptor.config, session, data, bs, nonces);
    var i, stop := 0, if total > 1 then total else 1;
    hide StreamOf, StartsAt, BlockAt;
    NextStart(i, bs, 0);
    BlockAtOffset(encryptor.cipher, encryptor.config, session, data, bs, nonces, i, 0);
    while i < stop
      invariant encryptor.Valid()
      invariant 0 <= i < stop && StartsAt(i, bs, |yielded|) && |yielded| < |expected|
      invariant forall j :: 0 <= j < |yielded| ==> yielded[j] == expected[j]
    {
      BlockAtOffset(encryptor.cipher, encryptor.config, session, data, bs, nonces, i, |yielded|);
      var sb := EncryptAt(data, encryptor, session, bs, nonces, i, |yielded|);
      NextStart(i, bs, |yielded|);
      yielded := yielded + [sb];
      if sb.isLast {
        break;
      }
      i := i + bs;
    }
    assert yielded == expected;
  }

  /** The encryptor's own list of blocks: the blocks of the stream, and none at all for no bytes. */
  method EncryptBlocks(data: Bytes, encryptor: Encryptor, session: Bytes, requested: Option<int>, nonces: nat -> Nonce)
    returns (blocks: seq<EncryptedBlock>)
    requires encryptor.Valid()
    modifies encryptor
    ensures encryptor.Valid()
    ensures var bs := BlockSize(requested, encryptor.config);
            blocks == if data == [] then []
                      else BlocksOf(StreamOf(encryptor.cipher, encryptor.config, session, data, bs, nonces))
  {
    var bs := BlockSize(requested, encryptor.config);
    blocks := [];
    if data == [] || bs < 0 {
      return;
    }
    ghost var stream := StreamOf(encryptor.cipher, encryptor.config, session, data, bs, nonces);
    var i := 0;
    hide StreamOf, StartsAt, BlockAt;
    NextStart(i, bs, 0);
    BlockAtOffset(encryptor.cipher, encryptor.config, session, data, bs, nonces, i, 0);
    while i < |data|
      invariant encryptor.Valid()
      invariant 0 <= i && StartsAt(i, bs, |blocks|) && |blocks| <= |stream|
      invariant forall j :: 0 <= j < |blocks| ==> blocks[j] == stream[j].block
      invariant |blocks| < |stream| <==> i < |data|
    {
      BlockAtOffset(encryptor.cipher, encryptor.config, session, data, bs, nonces, i, |blocks|);
      var sb := EncryptAt(data, encryptor, session, bs, nonces, i, |blocks|);
      NextStart(i, bs, |blocks|);
      blocks := blocks + [sb.block];
      i := i + bs;
    }
    assert blocks == BlocksOf(stream);
  }

  // ---------- Reassembly ----------

  function ByIndex(): StreamBlock -> real {
    (sb: StreamBlock) => sb.index as real
  }

  function BlocksOf(stream: seq<StreamBlock>): seq<EncryptedBlock> {
    seq(|stream|, i requires 0 <= i < |stream| => stream[i].block)
  }

  function Decrypted(cipher: Cipher, ring: Keyring, arrived: seq<StreamBlock>, session: Bytes): Result<Bytes, CryptoError> {
    OpenedAll(cipher, ring, BlocksOf(Sort(ByIndex(), arrived)), session)
  }

  method DecryptStream(arrived: seq<StreamBlock>, decryptor: Decryptor, session: Bytes) returns (data: Result<Bytes, CryptoError>)
    modifies decryptor`sessionKeys
    ensures data == Decrypted(decryptor.cipher, old(decryptor.Ring()), arrived, session)
    ensures SameKeys(decryptor.cipher, decryptor.Ring(), old(decryptor.Ring()))
  {
    var inOrder := Sort(ByIndex(), arrived);
    data := decryptor.DecryptStream(BlocksOf(inOrder), session);
  }

  /** The keyring's key for this configuration and session is the one the encryptor derived. */
  predicate Holds(cipher: Cipher, ring: Keyring, config: EncryptionConfig, session: Bytes) {
    KeyFor(cipher, ring, config.keyId, session) == Some(cipher.derive(config.masterKey, session))
  }

  /** Blocks `k` up to `m` of a stream decrypt to the bytes between their cuts. */
  lemma {:induction false} SegmentOpens(cipher: Cipher, config: EncryptionConfig, ring: Keyring, session: Bytes,
                                        data: Bytes, bs: int, nonces: nat -> Nonce, k: nat, m: nat)
    requires cipher.Lawful() && Holds(cipher, ring, config, session) && bs > 0 && data != []
    requires k <= m <= Count(|data|, bs)
    ensures |StreamOf(cipher, config, session, data, bs, nonces)| == Count(|data|, bs)
    ensures Cut(|data|, bs, k) <= Cut(|data|, bs, m)
    ensures OpenedAll(cipher, ring, BlocksOf(StreamOf(cipher, config, session, data, bs, nonces)[k..m]), session)
         == Ok(data[Cut(|data|, bs, k)..Cut(|data|, bs, m)])
    decreases m - k
  {
    var n, stream := |data|, StreamOf(cipher, config, session, data, bs, nonces);
    CutsAscend(n, bs, k, m);
    if k < m {
      SegmentOpens(cipher, config, ring, session, data, bs, nonces, k + 1, m);
      SealedOpens(cipher, config, ring, session, Chunk(data, bs, k), nonces(k));
      CutsAscend(n, bs, k, k + 1);
      assert BlocksOf(stream[k..m])[0] == stream[k].block;
      assert BlocksOf(stream[k..m])[1..] == BlocksOf(stream[k + 1..m]);
      assert data[Cut(n, bs, k)..Cut(n, bs, m)] == Chunk(data, bs, k) + data[Cut(n, bs, k + 1)..Cut(n, bs, m)];
    } else {
      assert BlocksOf(stream[k..m]) == [];
      assert data[Cut(n, bs, k)..Cut(n, bs, m)] == [];
    }
  }

  lemma AllCut(n: nat, bs: int)
    requires n > 0 && bs > 0
    ensures Cut(n, bs, 0) == 0 && Cut(n, bs, Count(n, bs)) == n
  {
    StartsInside(n, bs, Count(n, bs));
  }

  lemma IndicesAscend(cipher: Cipher, config: EncryptionConfig, session: Bytes, data: Bytes, bs: int, nonces: nat -> Nonce)
    ensures var stream := StreamOf(cipher, config, session, data, bs, nonces);
            forall i, j :: 0 <= i < j < |stream| ==> ByIndex()(stream[i]) < ByIndex()(stream[j])
  {
  }

  /** Sorting by index undoes any reordering. */
  lemma InOrder(cipher: Cipher, config: EncryptionConfig, session: Bytes, data: Bytes, bs: int, nonces: nat -> Nonce,
                arrived: seq<StreamBlock>)
    requires multiset(arrived) == multiset(StreamOf(cipher, config, session, data, bs, nonces))
    ensures Sort(ByIndex(), arrived) == StreamOf(cipher, config, session, data, bs, nonces)
  {
    IndicesAscend(cipher, config, session, data, bs, nonces);
    SortRestores(ByIndex(), arrived, StreamOf(cipher, config, session, data, bs, nonces));
  }

  lemma InOrderRoundTrip(cipher: Cipher, config: EncryptionConfig, ring: Keyring, session: Bytes,
                         data: Bytes, bs: int, nonces: nat -> Nonce)
    requires cipher.Lawful() && Holds(cipher, ring, config, session) && bs != 0
    ensures OpenedAll(cipher, ring, BlocksOf(StreamOf(cipher, config, session, data, bs, nonces)), session)
         == Ok(if bs > 0 then data else [])
  {
    var stream := StreamOf(cipher, config, session, data, bs, nonces);
    if data == [] {
      SealedOpens(cipher, config, ring, session, [], nonces(0));
      OneBlockOpens(cipher, ring, stream[0].block, session);
      assert BlocksOf(stream) == [stream[0].block];
    } else if bs > 0 {
      SegmentOpens(cipher, config, ring, session, data, bs, nonces, 0, Count(|data|, bs));
      AllCut(|data|, bs);
      assert stream[0..Count(|data|, bs)] == stream && data[0..|data|] == data;
    } else {
      assert BlocksOf(stream) == [];
    }
  }

  /** The same for the encryptor's own list of blocks, kept in order. */
  lemma ListRoundTrip(cipher: Cipher, config: EncryptionConfig, ring: Keyring, session: Bytes,
                      data: Bytes, bs: int, nonces: nat -> Nonce)
    requires cipher.Lawful() && Holds(cipher, ring, config, session) && bs != 0
    ensures var blocks := if data == [] then [] else BlocksOf(StreamOf(cipher, config, session, data, bs, nonces));
            OpenedAll(cipher, ring, blocks, session) == Ok(data) <==> bs > 0 || data == []
  {
    InOrderRoundTrip(cipher, config, ring, session, data, bs, nonces);
  }

  lemma OneBlockOpens(cipher: Cipher, ring: Keyring, block: EncryptedBlock, session: Bytes)
    ensures OpenedAll(cipher, ring, [block], session) == Opened(cipher, ring, block, session)
  {
    assert OpenedAll(cipher, ring, [block][1..], session) == Ok([]);
    var plaintext := Opened(cipher, ring, block, session).GetOr([]);
    assert plaintext + [] == plaintext;
  }

  /** Chunk, encrypt, reorder in any way, decrypt: the result is the original bytes if and only if the
      block size is not negative, or there are no bytes. */
  lemma ReorderedRoundTrip(cipher: Cipher, config: EncryptionConfig, ring: Keyring, session: Bytes,
                           data: Bytes, bs: int, nonces: nat -> Nonce, arrived: seq<StreamBlock>)
    requires cipher.Lawful() && Holds(cipher, ring, config, session) && bs != 0
    requires multiset(arrived) == multiset(StreamOf(cipher, config, session, data, bs, nonces))
    ensures Decrypted(cipher, ring, arrived, session) == Ok(data) <==> bs > 0 || data == []
  {
    var stream := StreamOf(cipher, config, session, data, bs, nonces);
    InOrder(cipher, config, session, data, bs, nonces, arrived);
    InOrderRoundTrip(cipher, config, ring, session, data, bs, nonces);
  }

  /** Blocks are numbered from 0, exactly the final one is flagged, and each carries the key id and its own
      nonce. */
  lemma StreamShape(cipher: Cipher, config: EncryptionConfig, session: Bytes, data: Bytes, bs: int, nonces: nat -> Nonce, k: nat)
    requires cipher.Lawful() && bs > 0 && k < Count(|data|, bs)
    ensures var stream := StreamOf(cipher, config, session, data, bs, nonces);
            && |stream| == Count(|data|, bs)
            && stream[k].index == k && (stream[k].isLast <==> k == |stream| - 1)
            && stream[k].block.Formed() && stream[k].block.keyId == config.keyId && stream[k].block.nonce == nonces(k)
            && |stream[k].block.ciphertext| == Cut(|data|, bs, k + 1) - Cut(|data|, bs, k)
  {
    if data != [] {
      StartsInside(|data|, bs, k);
    }
    CutsAscend(|data|, bs, k, k + 1);
    var chunk := if data == [] then [] else Chunk(data, bs, k);
    var sealed := cipher.seal(cipher.derive(config.masterKey, session), nonces(k), chunk);
    assert |sealed| == |chunk| + TAG_SIZE;
  }

  /** There are as few blocks as have room, all but the final one are full, and only no bytes make an empty
      one. */
  lemma BlockSizes(n: nat, bs: int, k: nat)
    requires bs > 0 && k < Count(n, bs)
    ensures (Count(n, bs) - 1) * bs <= n <= Count(n, bs) * bs
    ensures Cut(n, bs, k + 1) - Cut(n, bs, k) == if k < Count(n, bs) - 1 then bs else n - k * bs
    ensures Cut(n, bs, k + 1) == Cut(n, bs, k) <==> n == 0
  {
    var count := Count(n, bs);
    if n > 0 {
      StartsInside(n, bs, k);
      StartsInside(n, bs, k + 1);
      StartsInside(n, bs, count);
      StartsInside(n, bs, count - 1);
      assert (k + 1) * bs == k * bs + bs;
    }
  }
}
