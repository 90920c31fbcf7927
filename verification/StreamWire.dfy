/** Streams as one byte string: length-prefixed frames, and what survives when the string is cut off. */
module StreamWire {
  import opened Wrappers
  import opened Sorting
  import opened EncryptedBlocks
  import opened Sessions
  import opened CrypticStreams

  const LENGTH_SIZE: nat := 4
  const LENGTH_LIMIT: nat := 0x1_0000_0000

  // ---------- Lengths ----------

  function BigEndian(n: nat): (bytes: Bytes)
    requires n < LENGTH_LIMIT
    ensures |bytes| == LENGTH_SIZE
  {
    var n1 := n / 256;
    var n2 := n1 / 256;
    [Low(n2 / 256), Low(n2), Low(n1), Low(n)]
  }

  function Low(n: nat): byte {
    var digit: int := n % 256;
    digit
  }

  function FromBigEndian(bytes: Bytes): (n: nat)
    requires |bytes| == LENGTH_SIZE
    ensures n < LENGTH_LIMIT
  {
    var b0: int, b1: int, b2: int, b3: int := bytes[0], bytes[1], bytes[2], bytes[3];
    ((b0 * 256 + b1) * 256 + b2) * 256 + b3
  }

  lemma LastDigit(q: nat, digit: nat)
    requires digit < 256
    ensures (q * 256 + digit) / 256 == q && Low(q * 256 + digit) == digit
  {
  }

  /** A length and its four bytes determine each other. */
  lemma LengthRoundTrip(n: nat, bytes: Bytes)
    requires n < LENGTH_LIMIT && |bytes| == LENGTH_SIZE
    ensures BigEndian(n) == bytes <==> FromBigEndian(bytes) == n
  {
    var b0: int, b1: int, b2: int := bytes[0], bytes[1], bytes[2];
    var q2 := b0 * 256 + b1;
    LastDigit(b0, b1);
    LastDigit(q2, b2);
    LastDigit(q2 * 256 + b2, bytes[3]);
    LastDigit(n / 256, Low(n));
    LastDigit(n / 256 / 256, Low(n / 256));
  }

  /** The most significant byte comes first. */
  lemma BigEndianValue(n: nat)
    requires n < 0x1_0000_0000
    ensures var b := BigEndian(n);
            var b0: int, b1: int, b2: int, b3: int := b[0], b[1], b[2], b[3];
            |b| == 4 && n == b0 * 16777216 + b1 * 65536 + b2 * 256 + b3
  {
    LengthRoundTrip(n, BigEndian(n));
  }

  // ---------- Frames ----------

  function Frame(codec: TextCodec, sb: StreamBlock): Result<Bytes, CryptoError> {
    match Serialize(codec, sb.block)
    case Err(e) => Err(e)
    case Ok(bytes) =>
      if |bytes| >= LENGTH_LIMIT then Err(FrameTooLong)
      else Ok(BigEndian(|bytes|) + bytes + [if sb.isLast then 1 else 0])
  }

  /** A frame is the length of the block in four bytes, the block, and one byte that is 1 for the last
      block; a block of 4 GiB has no frame. */
  lemma FrameLayout(codec: TextCodec, sb: StreamBlock, bytes: Bytes)
    requires Serialize(codec, sb.block) == Ok(bytes)
    ensures Frame(codec, sb).Ok? <==> |bytes| < 0x1_0000_0000
    ensures Frame(codec, sb).Ok? ==>
              var frame := Frame(codec, sb).value;
              && |frame| == |bytes| + 5
              && frame[..4] == BigEndian(|bytes|) && frame[4..4 + |bytes|] == bytes
              && frame[4 + |bytes|] == if sb.isLast then 1 else 0
  {
  }

  function Frames(codec: TextCodec, blocks: seq<StreamBlock>): Result<Bytes, CryptoError> {
    if blocks == [] then Ok([])
    else
      match Frame(codec, blocks[0])
      case Err(e) => Err(e)
      case Ok(frame) => Prefixed(frame, Frames(codec, blocks[1..]))
  }

  method SerializeStream(codec: TextCodec, blocks: seq<StreamBlock>) returns (out: Result<Bytes, CryptoError>)
    ensures out == Frames(codec, blocks)
  {
    var sent: Bytes := [];
    assert blocks[0..] == blocks;
    for i := 0 to |blocks|
      invariant Frames(codec, blocks) == Prefixed(sent, Frames(codec, blocks[i..]))
    {
      assert blocks[i..][0] == blocks[i] && blocks[i..][1..] == blocks[i + 1..];
      var frame := Frame(codec, blocks[i]);
      if frame.Err? {
        return frame;
      }
      PrefixedTwice(sent, frame.value, Frames(codec, blocks[i + 1..]));
      sent := sent + frame.value;
    }
    assert sent + [] == sent;
    out := Ok(sent);
  }

  lemma PrefixedTwice(a: Bytes, b: Bytes, rest: Result<Bytes, CryptoError>)
    ensures Prefixed(a, Prefixed(b, rest)) == Prefixed(a + b, rest)
  {
    if rest.Ok? {
      assert a + (b + rest.value) == a + b + rest.value;
    }
  }

  /** The length of the block that a byte string announces, if the whole frame is there. */
  function FrameLength(data: Bytes): Option<nat> {
    if |data| < LENGTH_SIZE then None
    else
      var n := FromBigEndian(data[..LENGTH_SIZE]);
      if |data| < LENGTH_SIZE + n + 1 then None else Some(n)
  }

  /** What a byte string is read as: complete frames, numbered from `index`. */
  function Parse(codec: TextCodec, data: Bytes, index: nat): Result<seq<StreamBlock>, CryptoError> {
    match FrameLength(data)
    case None => Ok([])
    case Some(n) =>
      var end := LENGTH_SIZE + n;
      match Deserialize(codec, data[LENGTH_SIZE..end])
      case Err(e) => Err(e)
      case Ok(block) => Listed(StreamBlock(index, block, data[end] != 0), Parse(codec, data[end + 1..], index + 1))
  }

  function Listed(sb: StreamBlock, rest: Result<seq<StreamBlock>, CryptoError>): Result<seq<StreamBlock>, CryptoError> {
    match rest
    case Err(e) => Err(e)
    case Ok(blocks) => Ok([sb] + blocks)
  }

  function Appended(front: seq<StreamBlock>, rest: Result<seq<StreamBlock>, CryptoError>): (all: Result<seq<StreamBlock>, CryptoError>)
    ensures front == [] ==> all == rest
  {
    match rest
    case Err(e) => Err(e)
    case Ok(blocks) =>
      assert [] + blocks == blocks;
      Ok(front + blocks)
  }

  method DeserializeStream(codec: TextCodec, data: Bytes) returns (stream: Result<seq<StreamBlock>, CryptoError>)
    ensures stream == Parse(codec, data, 0)
  {
    var blocks: seq<StreamBlock> := [];
    var offset, idx := 0, 0;
    assert data[0..] == data;
    assert Parse(codec, data, 0) == ParseFrom(codec, data, 0, 0);
    hide ParseFrom, Parse, Listed, Appended, Continues;
    while offset < |data|
      invariant 0 <= offset <= |data| && idx == |blocks|
      invariant Parse(codec, data, 0) == Appended(blocks, ParseFrom(codec, data, offset, idx))
    {
      var read := ReadFrame(codec, data, offset, idx);
      ContinuesFrom(codec, data, offset, idx, read);
      AppendEnd(blocks);
      match read {
        case Incomplete => break;
        case Broken(error) => return Err(error);
        case Complete(sb, next) =>
          AppendOne(blocks, sb, ParseFrom(codec, data, next, idx + 1));
          blocks := blocks + [sb];
          offset, idx := next, idx + 1;
      }
    }
    NothingLeft(codec, data, offset, idx);
    AppendEnd(blocks);
    stream := Ok(blocks);
  }

  /** One round of the loop: no complete frame is left, its block does not parse, or here it is. */
  datatype FrameRead = Incomplete | Broken(error: CryptoError) | Complete(sb: StreamBlock, next: nat)

  /** What is read from `offset` on starts with what this round came to. */
  predicate Continues(codec: TextCodec, data: Bytes, offset: nat, index: nat, read: FrameRead)
    requires offset <= |data|
  {
    match read
    case Incomplete => ParseFrom(codec, data, offset, index) == Ok([])
    case Broken(error) => ParseFrom(codec, data, offset, index) == Err(error)
    case Complete(sb, next) =>
      && offset < next <= |data|
      && ParseFrom(codec, data, offset, index) == Listed(sb, ParseFrom(codec, data, next, index + 1))
  }

  method ReadFrame(codec: TextCodec, data: Bytes, offset: nat, idx: nat) returns (read: FrameRead)
    requires offset < |data|
    ensures Continues(codec, data, offset, idx, read)
  {
    ParseAt(codec, data, offset, idx);
    if offset + LENGTH_SIZE > |data| {
      return Incomplete;
    }
    var blockLen := FromBigEndian(data[offset..offset + LENGTH_SIZE]);
    var start := offset + LENGTH_SIZE;
    var end := start + blockLen;
    if end + 1 > |data| {
      return Incomplete;
    }
    var block := Deserialize(codec, data[start..end]);
    if block.Err? {
      return Broken(block.error);
    }
    read := Complete(StreamBlock(idx, block.value, data[end] != 0), end + 1);
  }

  lemma ContinuesFrom(codec: TextCodec, data: Bytes, offset: nat, index: nat, read: FrameRead)
    requires offset <= |data| && Continues(codec, data, offset, index, read)
    ensures read.Incomplete? ==> ParseFrom(codec, data, offset, index) == Ok([])
    ensures read.Broken? ==> ParseFrom(codec, data, offset, index) == Err(read.error)
    ensures read.Complete? ==>
              && offset < read.next <= |data|
              && ParseFrom(codec, data, offset, index) == Listed(read.sb, ParseFrom(codec, data, read.next, index + 1))
  {
  }

  lemma NothingLeft(codec: TextCodec, data: Bytes, offset: nat, index: nat)
    requires offset <= |data|
    ensures offset == |data| ==> ParseFrom(codec, data, offset, index) == Ok([])
  {
    ParseAt(codec, data, offset, index);
  }

  function ParseFrom(codec: TextCodec, data: Bytes, offset: nat, index: nat): Result<seq<StreamBlock>, CryptoError>
    requires offset <= |data|
  {
    Parse(codec, data[offset..], index)
  }

  /** What is read from `offset` on, in terms of positions in the whole string. */
  lemma ParseAt(codec: TextCodec, data: Bytes, offset: nat, index: nat)
    requires offset <= |data|
    ensures ParseFrom(codec, data, offset, index)
         == if offset + LENGTH_SIZE > |data| then Ok([])
            else
              var end := offset + LENGTH_SIZE + FromBigEndian(data[offset..offset + LENGTH_SIZE]);
              if end + 1 > |data| then Ok([])
              else
                match Deserialize(codec, data[offset + LENGTH_SIZE..end])
                case Err(e) => Err(e)
                case Ok(block) => Listed(StreamBlock(index, block, data[end] != 0), ParseFrom(codec, data, end + 1, index + 1))
  {
    var rest := data[offset..];
    if offset + LENGTH_SIZE <= |data| {
      assert data[offset..offset + LENGTH_SIZE] == rest[..LENGTH_SIZE];
      var n := FromBigEndian(rest[..LENGTH_SIZE]);
      if offset + LENGTH_SIZE + n + 1 <= |data| {
        assert rest[LENGTH_SIZE..LENGTH_SIZE + n] == data[offset + LENGTH_SIZE..offset + LENGTH_SIZE + n];
        assert rest[LENGTH_SIZE + n + 1..] == data[offset + LENGTH_SIZE + n + 1..];
      }
    }
  }

  lemma AppendEnd(front: seq<StreamBlock>)
    ensures Appended(front, Ok([])) == Ok(front)
    ensures forall e :: Appended(front, Err(e)) == Err(e)
  {
    assert front + [] == front;
  }

  lemma AppendOne(front: seq<StreamBlock>, sb: StreamBlock, rest: Result<seq<StreamBlock>, CryptoError>)
    ensures Appended(front, Listed(sb, rest)) == Appended(front + [sb], rest)
  {
    if rest.Ok? {
      assert front + ([sb] + rest.value) == front + [sb] + rest.value;
    }
  }

  // ---------- Reading what was written ----------

  /** The blocks in the same order, with the indices a receiver gives them. */
  function Numbered(blocks: seq<StreamBlock>, index: nat): seq<StreamBlock> {
    seq(|blocks|, i requires 0 <= i < |blocks| => blocks[i].(index := index + i))
  }

  ghost predicate AllFormed(blocks: seq<StreamBlock>) {
    forall i :: 0 <= i < |blocks| ==> blocks[i].block.Formed()
  }

  /** How many of the frames fit into the first `k` bytes. */
  function Whole(codec: TextCodec, blocks: seq<StreamBlock>, k: nat): (m: nat)
    ensures m <= |blocks|
  {
    if blocks == [] then 0
    else
      match Frame(codec, blocks[0])
      case Err(_) => 0
      case Ok(frame) => if |frame| <= k then 1 + Whole(codec, blocks[1..], k - |frame|) else 0
  }

  /** `Whole` is the largest number of leading blocks whose own wire form is no longer than `k`. */
  lemma {:induction false} WholeIsMaximal(codec: TextCodec, blocks: seq<StreamBlock>, k: nat)
    requires Frames(codec, blocks).Ok?
    ensures var m := Whole(codec, blocks, k);
            && Frames(codec, blocks[..m]).Ok? && |Frames(codec, blocks[..m]).value| <= k
            && (m < |blocks| ==>
                  Frames(codec, blocks[..m + 1]).Ok? && |Frames(codec, blocks[..m + 1]).value| > k)
  {
    var m := Whole(codec, blocks, k);
    if blocks != [] {
      var frame := Frame(codec, blocks[0]).value;
      if |frame| <= k {
        WholeIsMaximal(codec, blocks[1..], k - |frame|);
        assert blocks[..m][1..] == blocks[1..][..m - 1];
        if m < |blocks| {
          assert blocks[..m + 1][1..] == blocks[1..][..m];
        }
      } else {
        assert blocks[..1][1..] == [];
      }
    }
  }

  /** A frame at the front is read back whole. */
  lemma FrameIsRead(codec: TextCodec, sb: StreamBlock, frame: Bytes, rest: Bytes, index: nat)
    requires codec.Exact() && sb.block.Formed() && Frame(codec, sb) == Ok(frame)
    ensures Parse(codec, frame + rest, index) == Listed(sb.(index := index), Parse(codec, rest, index + 1))
  {
    var bytes := Serialize(codec, sb.block).value;
    var n, wire := |bytes|, frame + rest;
    PrintIffParse(codec, sb.block, bytes);
    LengthRoundTrip(n, BigEndian(n));
    assert wire[..LENGTH_SIZE] == BigEndian(n);
    assert wire[LENGTH_SIZE..LENGTH_SIZE + n] == bytes;
    assert wire[LENGTH_SIZE + n + 1..] == rest;
  }

  /** Anything shorter than the frame is not read at all. */
  lemma PartOfFrameIsIgnored(codec: TextCodec, sb: StreamBlock, frame: Bytes, k: nat, index: nat)
    requires Frame(codec, sb) == Ok(frame) && k < |frame|
    ensures Parse(codec, frame[..k], index) == Ok([])
  {
    var n := |Serialize(codec, sb.block).value|;
    LengthRoundTrip(n, BigEndian(n));
    if k >= LENGTH_SIZE {
      assert frame[..k][..LENGTH_SIZE] == BigEndian(n);
    }
  }

  /** Reading any prefix of a written stream gives exactly the blocks whose frames lie inside it,
      numbered afresh, and never part of a block. */
  lemma {:induction false} PrefixIsRead(codec: TextCodec, blocks: seq<StreamBlock>, wire: Bytes, k: nat, index: nat)
    requires codec.Exact() && AllFormed(blocks) && Frames(codec, blocks) == Ok(wire) && k <= |wire|
    ensures Parse(codec, wire[..k], index) == Ok(Numbered(blocks[..Whole(codec, blocks, k)], index))
  {
    hide *;
    if blocks == [] {
      NothingWritten(codec, wire, k, index);
    } else {
      FirstFrame(codec, blocks, wire, k);
      var frame, rest := Frame(codec, blocks[0]).value, Frames(codec, blocks[1..]).value;
      if |frame| <= k {
        SplitPrefix(frame, rest, k);
        FrameIsRead(codec, blocks[0], frame, rest[..k - |frame|], index);
        PrefixIsRead(codec, blocks[1..], rest, k - |frame|, index + 1);
        ListedNumbered(blocks, Whole(codec, blocks, k), index);
      } else {
        PartOfFrameIsIgnored(codec, blocks[0], frame, k, index);
        assert wire[..k] == frame[..k];
        NumberedNothing(blocks, index);
      }
    }
  }

  lemma NothingWritten(codec: TextCodec, wire: Bytes, k: nat, index: nat)
    requires Frames(codec, []) == Ok(wire) && k <= |wire|
    ensures Parse(codec, wire[..k], index) == Ok(Numbered([][..Whole(codec, [], k)], index))
  {
    assert wire[..k] == [] && FrameLength([]) == None;
    NumberedNothing([], index);
    assert Whole(codec, [], k) == 0;
  }

  lemma NumberedNothing(blocks: seq<StreamBlock>, index: nat)
    ensures Numbered(blocks[..0], index) == []
  {
  }

  /** A written stream begins with its first frame. */
  lemma FirstFrame(codec: TextCodec, blocks: seq<StreamBlock>, wire: Bytes, k: nat)
    requires blocks != [] && AllFormed(blocks) && Frames(codec, blocks) == Ok(wire) && k <= |wire|
    ensures Frame(codec, blocks[0]).Ok? && Frames(codec, blocks[1..]).Ok?
    ensures wire == Frame(codec, blocks[0]).value + Frames(codec, blocks[1..]).value
    ensures blocks[0].block.Formed() && AllFormed(blocks[1..])
    ensures var n := |Frame(codec, blocks[0]).value|;
            Whole(codec, blocks, k) == if n <= k then 1 + Whole(codec, blocks[1..], k - n) else 0
  {
  }

  lemma SplitPrefix(front: Bytes, rest: Bytes, k: nat)
    requires |front| <= k <= |front| + |rest|
    ensures (front + rest)[..k] == front + rest[..k - |front|]
  {
  }

  lemma ListedNumbered(blocks: seq<StreamBlock>, m: nat, index: nat)
    requires 0 < m <= |blocks|
    ensures Listed(blocks[0].(index := index), Ok(Numbered(blocks[1..][..m - 1], index + 1))) == Ok(Numbered(blocks[..m], index))
  {
    NumberedHead(blocks[..m], index);
    assert blocks[..m][1..] == blocks[1..][..m - 1];
  }

  lemma NumberedHead(blocks: seq<StreamBlock>, index: nat)
    requires blocks != []
    ensures Numbered(blocks, index) == [blocks[0].(index := index)] + Numbered(blocks[1..], index + 1)
  {
  }

  /** The whole byte string gives the whole stream back, and gives the same indices exactly if the
      blocks were written in order of their indices from 0. */
  lemma WireRoundTrip(codec: TextCodec, blocks: seq<StreamBlock>, wire: Bytes)
    requires codec.Exact() && AllFormed(blocks) && Frames(codec, blocks) == Ok(wire)
    ensures Parse(codec, wire, 0) == Ok(Numbered(blocks, 0))
    ensures Parse(codec, wire, 0) == Ok(blocks) <==> forall i :: 0 <= i < |blocks| ==> blocks[i].index == i
  {
    PrefixIsRead(codec, blocks, wire, |wire|, 0);
    WholeOfAll(codec, blocks);
    assert wire[..|wire|] == wire && blocks[..|blocks|] == blocks;
    NumberedIsSame(blocks);
  }

  lemma NumberedIsSame(blocks: seq<StreamBlock>)
    ensures Numbered(blocks, 0) == blocks <==> forall i :: 0 <= i < |blocks| ==> blocks[i].index == i
  {
    if Numbered(blocks, 0) == blocks {
      forall i | 0 <= i < |blocks| ensures blocks[i].index == i {
        assert Numbered(blocks, 0)[i] == blocks[i];
      }
    }
  }

  /** All frames are whole exactly if nothing is missing. */
  lemma {:induction false} WholeOfAll(codec: TextCodec, blocks: seq<StreamBlock>)
    requires Frames(codec, blocks).Ok?
    ensures var n := |Frames(codec, blocks).value|;
            forall k: nat :: k <= n ==> (Whole(codec, blocks, k) == |blocks| <==> k == n)
  {
    if blocks != [] {
      WholeOfAll(codec, blocks[1..]);
    }
  }

  /** Behind a written stream an incomplete frame is ignored, and a complete one whose block does not parse
      makes reading fail with that block's error. */
  lemma {:induction false} ReadOn(codec: TextCodec, blocks: seq<StreamBlock>, wire: Bytes, rest: Bytes, index: nat)
    requires codec.Exact() && AllFormed(blocks) && Frames(codec, blocks) == Ok(wire)
    ensures Parse(codec, wire + rest, index) == Appended(Numbered(blocks, index), Parse(codec, rest, index + |blocks|))
  {
    hide *;
    if blocks == [] {
      ReadOnFromNothing(codec, wire, rest, index);
    } else {
      FirstFrame(codec, blocks, wire, |wire|);
      var frame, others := Frame(codec, blocks[0]).value, Frames(codec, blocks[1..]).value;
      assert wire + rest == frame + (others + rest);
      FrameIsRead(codec, blocks[0], frame, others + rest, index);
      ReadOn(codec, blocks[1..], others, rest, index + 1);
      NumberedHead(blocks, index);
      var sb := blocks[0].(index := index);
      ListedAppended(sb, Numbered(blocks[1..], index + 1), Parse(codec, rest, index + |blocks|));
    }
  }

  lemma ReadOnFromNothing(codec: TextCodec, wire: Bytes, rest: Bytes, index: nat)
    requires Frames(codec, []) == Ok(wire)
    ensures Parse(codec, wire + rest, index) == Appended(Numbered([], index), Parse(codec, rest, index))
  {
    assert wire + rest == rest && Numbered([], index) == [];
  }

  lemma ListedAppended(sb: StreamBlock, blocks: seq<StreamBlock>, rest: Result<seq<StreamBlock>, CryptoError>)
    ensures Listed(sb, Appended(blocks, rest)) == Appended([sb] + blocks, rest)
  {
    if rest.Ok? {
      assert [sb] + (blocks + rest.value) == [sb] + blocks + rest.value;
    }
  }

  lemma BadBlockFails(codec: TextCodec, blocks: seq<StreamBlock>, wire: Bytes, rest: Bytes)
    requires codec.Exact() && AllFormed(blocks) && Frames(codec, blocks) == Ok(wire)
    ensures FrameLength(rest) == None ==> Parse(codec, wire + rest, 0) == Ok(Numbered(blocks, 0))
    ensures FrameLength(rest).Some? ==>
              var block := Deserialize(codec, rest[4..4 + FrameLength(rest).value]);
              block.Err? ==> Parse(codec, wire + rest, 0) == Err(block.error)
  {
    ReadOn(codec, blocks, wire, rest, 0);
    AppendEnd(Numbered(blocks, 0));
  }

  /** A stream can be written if and only if each of its blocks can. */
  lemma {:induction false} WritableIff(codec: TextCodec, blocks: seq<StreamBlock>)
    ensures Frames(codec, blocks).Ok? <==> forall i :: 0 <= i < |blocks| ==> Frame(codec, blocks[i]).Ok?
  {
    if blocks != [] {
      WritableIff(codec, blocks[1..]);
      ForallTail(codec, blocks);
    }
  }

  lemma ForallTail(codec: TextCodec, blocks: seq<StreamBlock>)
    requires blocks != []
    ensures (forall i :: 0 <= i < |blocks| ==> Frame(codec, blocks[i]).Ok?)
       <==> Frame(codec, blocks[0]).Ok? && forall i :: 0 <= i < |blocks[1..]| ==> Frame(codec, blocks[1..][i]).Ok?
  {
    assert forall i :: 0 <= i < |blocks[1..]| ==> blocks[1..][i] == blocks[i + 1];
    assert forall i :: 0 < i < |blocks| ==> blocks[i] == blocks[1..][i - 1];
  }

  // ---------- Writing what was read ----------

  /** Nothing but complete frames whose flag byte is 0 or 1. */
  predicate Canonical(data: Bytes) {
    data == [] ||
    match FrameLength(data)
    case None => false
    case Some(n) => data[LENGTH_SIZE + n] <= 1 && Canonical(data[LENGTH_SIZE + n + 1..])
  }

  /** Bytes that are read without error are what the blocks read are written as, if and only if they are
      canonical: other flag bytes and an incomplete last frame are read but not written. */
  lemma {:induction false} ReadThenWrite(codec: TextCodec, data: Bytes, index: nat)
    requires codec.Exact() && Parse(codec, data, index).Ok?
    ensures Frames(codec, Parse(codec, data, index).value) == Ok(data) <==> Canonical(data)
  {
    match FrameLength(data)
    case None =>
    case Some(n) =>
      var sb, end := Parse(codec, data, index).value[0], LENGTH_SIZE + n;
      var rest := data[end + 1..];
      ReadThenWrite(codec, rest, index + 1);
      FrameIsRewritten(codec, data, sb);
      var frame := Frame(codec, sb).value;
      SplitFrame(data, frame, rest, Frames(codec, Parse(codec, rest, index + 1).value));
      assert Parse(codec, data, index).value[1..] == Parse(codec, rest, index + 1).value;
  }

  /** A frame that was read is written as it was, but for the flag byte. */
  lemma FrameIsRewritten(codec: TextCodec, data: Bytes, sb: StreamBlock)
    requires codec.Exact() && FrameLength(data).Some?
    requires Deserialize(codec, data[LENGTH_SIZE..LENGTH_SIZE + FrameLength(data).value]) == Ok(sb.block)
    ensures var end := LENGTH_SIZE + FrameLength(data).value;
            Frame(codec, sb) == Ok(data[..end] + [if sb.isLast then 1 else 0])
  {
    var n := FrameLength(data).value;
    var bytes := data[LENGTH_SIZE..LENGTH_SIZE + n];
    ParsesExactly(codec, bytes);
    PrintIffParse(codec, sb.block, bytes);
    LengthRoundTrip(n, data[..LENGTH_SIZE]);
    assert data[..LENGTH_SIZE + n] == data[..LENGTH_SIZE] + bytes;
  }

  lemma SplitFrame(data: Bytes, frame: Bytes, rest: Bytes, written: Result<Bytes, CryptoError>)
    requires 0 < |frame| <= |data| && rest == data[|frame|..] && frame[..|frame| - 1] == data[..|frame| - 1]
    ensures Prefixed(frame, written) == Ok(data) <==> frame[|frame| - 1] == data[|frame| - 1] && written == Ok(rest)
  {
    if written.Ok? {
      var all := frame + written.value;
      if all == data {
        assert all[|frame|..] == written.value;
        assert all[|frame| - 1] == data[|frame| - 1];
      }
      if frame[|frame| - 1] == data[|frame| - 1] && written.value == rest {
        assert frame == data[..|frame|];
        assert all == data;
      }
    }
  }

  // ---------- From sender to receiver ----------

  /** Encrypt, write, lose everything after byte `k`, read, decrypt: what arrives is a prefix of the
      data, cut at a block boundary, and it ends with a flagged block exactly if it is all of it. */
  lemma InterruptedTransfer(codec: TextCodec, cipher: Cipher, config: EncryptionConfig, ring: Keyring, session: Bytes,
                            data: Bytes, bs: int, nonces: nat -> Nonce, wire: Bytes, k: nat)
    requires codec.Exact() && cipher.Lawful() && Holds(cipher, ring, config, session) && bs > 0
    requires Frames(codec, StreamOf(cipher, config, session, data, bs, nonces)) == Ok(wire) && k <= |wire|
    ensures var stream := StreamOf(cipher, config, session, data, bs, nonces);
            var arrived := Parse(codec, wire[..k], 0);
            && arrived == Ok(stream[..Whole(codec, stream, k)])
            && Decrypted(cipher, ring, arrived.value, session) == Ok(data[..Cut(|data|, bs, |arrived.value|)])
            && (arrived.value != [] && arrived.value[|arrived.value| - 1].isLast <==> k == |wire|)
            && (k == |wire| ==> Decrypted(cipher, ring, arrived.value, session) == Ok(data))
  {
    var stream := StreamOf(cipher, config, session, data, bs, nonces);
    var m := Whole(codec, stream, k);
    StreamIsFormed(cipher, config, session, data, bs, nonces);
    PrefixIsRead(codec, stream, wire, k, 0);
    WholeOfAll(codec, stream);
    NumberedIsSame(stream[..m]);
    LeadingBlocksDecrypt(cipher, config, ring, session, data, bs, nonces, m);
    hide *;
  }

  lemma StreamIsFormed(cipher: Cipher, config: EncryptionConfig, session: Bytes, data: Bytes, bs: int, nonces: nat -> Nonce)
    requires cipher.Lawful() && bs > 0
    ensures var stream := StreamOf(cipher, config, session, data, bs, nonces);
            && |stream| == Count(|data|, bs)
            && AllFormed(stream)
            && forall k :: 0 <= k < |stream| ==> stream[k].index == k && (stream[k].isLast <==> k == |stream| - 1)
  {
    forall k: nat | k < Count(|data|, bs)
      ensures StreamOf(cipher, config, session, data, bs, nonces)[k].block.Formed()
    {
      StreamShape(cipher, config, session, data, bs, nonces, k);
    }
  }

  /** The first `m` blocks of a stream decrypt to the data up to the cut. */
  lemma LeadingBlocksDecrypt(cipher: Cipher, config: EncryptionConfig, ring: Keyring, session: Bytes,
                             data: Bytes, bs: int, nonces: nat -> Nonce, m: nat)
    requires cipher.Lawful() && Holds(cipher, ring, config, session) && bs > 0
    requires m <= Count(|data|, bs)
    ensures var stream := StreamOf(cipher, config, session, data, bs, nonces);
            && m <= |stream|
            && Decrypted(cipher, ring, stream[..m], session) == Ok(data[..Cut(|data|, bs, m)])
            && (m == |stream| ==> data[..Cut(|data|, bs, m)] == data)
  {
    var stream := StreamOf(cipher, config, session, data, bs, nonces);
    LeadingBlocksInOrder(cipher, config, session, data, bs, nonces, m);
    if data == [] {
      InOrderRoundTrip(cipher, config, ring, session, data, bs, nonces);
      assert if m == 1 then stream[..m] == stream else BlocksOf(stream[..m]) == [];
    } else {
      SegmentOpens(cipher, config, ring, session, data, bs, nonces, 0, m);
      AllCut(|data|, bs);
      assert stream[0..m] == stream[..m] && data[0..Cut(|data|, bs, m)] == data[..Cut(|data|, bs, m)];
    }
  }

  lemma LeadingBlocksInOrder(cipher: Cipher, config: EncryptionConfig, session: Bytes, data: Bytes, bs: int, nonces: nat -> Nonce, m: nat)
    requires bs > 0 && m <= Count(|data|, bs)
    ensures var stream := StreamOf(cipher, config, session, data, bs, nonces);
            m <= |stream| && Sort(ByIndex(), stream[..m]) == stream[..m]
  {
    var stream := StreamOf(cipher, config, session, data, bs, nonces);
    IndicesAscend(cipher, config, session, data, bs, nonces);
    SortRestores(ByIndex(), stream[..m], stream[..m]);
  }

  // ---------- Reordering before writing ----------

  /** The chunks of some block numbers, one behind the other. */
  function ChunksAt(data: Bytes, bs: int, order: seq<nat>): Bytes
    requires bs > 0
  {
    if order == [] then [] else Chunk(data, bs, order[0]) + ChunksAt(data, bs, order[1..])
  }

  /** Blocks of a stream in some order, with repeats and omissions if you like. */
  function Picked(stream: seq<StreamBlock>, order: seq<nat>): seq<StreamBlock>
    requires forall i :: 0 <= i < |order| ==> order[i] < |stream|
  {
    seq(|order|, i requires 0 <= i < |order| => stream[order[i]])
  }

  lemma {:induction false} PickedOpen(cipher: Cipher, config: EncryptionConfig, ring: Keyring, session: Bytes,
                                      data: Bytes, bs: int, nonces: nat -> Nonce, order: seq<nat>)
    requires cipher.Lawful() && Holds(cipher, ring, config, session) && bs > 0
    requires forall i :: 0 <= i < |order| ==> order[i] < |StreamOf(cipher, config, session, data, bs, nonces)|
    ensures OpenedAll(cipher, ring, BlocksOf(Picked(StreamOf(cipher, config, session, data, bs, nonces), order)), session)
         == Ok(ChunksAt(data, bs, order))
  {
    var stream := StreamOf(cipher, config, session, data, bs, nonces);
    if order == [] {
      assert BlocksOf(Picked(stream, order)) == [];
    } else {
      BlockOpens(cipher, config, ring, session, data, bs, nonces, order[0]);
      PickedOpen(cipher, config, ring, session, data, bs, nonces, order[1..]);
      PickedHead(stream, order);
      OpenedFirst(cipher, ring, stream[order[0]].block, BlocksOf(Picked(stream, order[1..])), session);
      assert ChunksAt(data, bs, order) == Chunk(data, bs, order[0]) + ChunksAt(data, bs, order[1..]);
      hide *;
    }
  }

  lemma BlockOpens(cipher: Cipher, config: EncryptionConfig, ring: Keyring, session: Bytes,
                   data: Bytes, bs: int, nonces: nat -> Nonce, k: nat)
    requires cipher.Lawful() && Holds(cipher, ring, config, session) && bs > 0
    requires k < |StreamOf(cipher, config, session, data, bs, nonces)|
    ensures Opened(cipher, ring, StreamOf(cipher, config, session, data, bs, nonces)[k].block, session) == Ok(Chunk(data, bs, k))
  {
    SealedOpens(cipher, config, ring, session, Chunk(data, bs, k), nonces(k));
    assert data == [] ==> Chunk(data, bs, k) == [];
  }

  lemma PickedHead(stream: seq<StreamBlock>, order: seq<nat>)
    requires order != [] && forall i :: 0 <= i < |order| ==> order[i] < |stream|
    ensures BlocksOf(Picked(stream, order)) == [stream[order[0]].block] + BlocksOf(Picked(stream, order[1..]))
  {
  }

  lemma OpenedFirst(cipher: Cipher, ring: Keyring, block: EncryptedBlock, rest: seq<EncryptedBlock>, session: Bytes)
    ensures var first, others := Opened(cipher, ring, block, session), OpenedAll(cipher, ring, rest, session);
            first.Ok? && others.Ok? ==> OpenedAll(cipher, ring, [block] + rest, session) == Ok(first.value + others.value)
  {
    assert ([block] + rest)[1..] == rest;
  }

  /** The receiver numbers blocks as they come, so sorting leaves them as they were written. */
  lemma NumberedIsSorted(blocks: seq<StreamBlock>)
    ensures Sort(ByIndex(), Numbered(blocks, 0)) == Numbered(blocks, 0)
    ensures BlocksOf(Numbered(blocks, 0)) == BlocksOf(blocks)
  {
    var numbered := Numbered(blocks, 0);
    assert forall i, j :: 0 <= i < j < |numbered| ==> ByIndex()(numbered[i]) < ByIndex()(numbered[j]);
    SortRestores(ByIndex(), numbered, numbered);
  }

  /** Blocks of a stream that are reordered before they are written decrypt, once read back, to their
      chunks in written order: the wire holds no index to put them right. */
  lemma ReorderedOnWire(codec: TextCodec, cipher: Cipher, config: EncryptionConfig, ring: Keyring, session: Bytes,
                        data: Bytes, bs: int, nonces: nat -> Nonce, order: seq<nat>, wire: Bytes)
    requires codec.Exact() && cipher.Lawful() && Holds(cipher, ring, config, session) && bs > 0
    requires forall i :: 0 <= i < |order| ==> order[i] < |StreamOf(cipher, config, session, data, bs, nonces)|
    requires Frames(codec, Picked(StreamOf(cipher, config, session, data, bs, nonces), order)) == Ok(wire)
    ensures Parse(codec, wire, 0).Ok?
    ensures Decrypted(cipher, ring, Parse(codec, wire, 0).value, session) == Ok(ChunksAt(data, bs, order))
  {
    var stream := StreamOf(cipher, config, session, data, bs, nonces);
    var written := Picked(stream, order);
    StreamIsFormed(cipher, config, session, data, bs, nonces);
    WireRoundTrip(codec, written, wire);
    NumberedIsSorted(written);
    PickedOpen(cipher, config, ring, session, data, bs, nonces, order);
  }

  /** Two full blocks written the wrong way round give the data back only if they hold the same bytes. */
  lemma SwappedChunks(data: Bytes, bs: int)
    requires bs > 0 && |data| == 2 * bs
    ensures ChunksAt(data, bs, [1, 0]) == data <==> data[..bs] == data[bs..]
  {
    var a, b := data[..bs], data[bs..];
    assert Cut(|data|, bs, 0) == 0 && Cut(|data|, bs, 1) == bs && Cut(|data|, bs, 2) == 2 * bs;
    assert Chunk(data, bs, 0) == a && Chunk(data, bs, 1) == b;
    assert ChunksAt(data, bs, [0]) == a && [1, 0][1..] == [0];
    assert ChunksAt(data, bs, [1, 0]) == b + a;
    assert data == a + b && (b + a)[..bs] == b;
  }
}
