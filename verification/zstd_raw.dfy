/**
  Zstandard frames made of raw blocks, and a decoder written from section 3.1.1 of
  RFC 8878 to hold them against.
 */
module ZstdRaw {
  import opened Bytes

  /** Decompression is a library's: given the input and the size declared for it, it
      yields the data or refuses. */
  type Inflate = (seq<byte>, nat) -> Option<seq<byte>>

  /** The only dictionary the server has a copy of. */
  const SUPPORTED_DICTIONARY: byte := 0

  const MAGIC: nat := 0xFD2F_B528
  const MAX_BLOCK: nat := 128 * 1024

  // ----- the writer -----

  /** `Block_Size` above the type bits, type 0, and `Last_Block` at the bottom. */
  function BlockHeader(len: nat, last: bool): (bs: seq<byte>)
    ensures |bs| == 3
  {
    LittleEndian(4, BitOr(len % TWO32 * Pow2(3) % TWO32, if last then 1 else 0))[..3]
  }

  function Blocks(data: seq<byte>): seq<byte> {
    if |data| <= MAX_BLOCK then BlockHeader(|data|, true) + data
    else BlockHeader(MAX_BLOCK, false) + (data[..MAX_BLOCK] + Blocks(data[MAX_BLOCK..]))
  }

  /** Descriptor 0b1010_0000: four bytes of content size, a single segment, no checksum
      and no dictionary. */
  function FrameHeader(len: nat): seq<byte> {
    LittleEndian(4, MAGIC) + ([0xA0] + LittleEndian(4, len % TWO32))
  }

  function Frame(data: seq<byte>): seq<byte> {
    FrameHeader(|data|) + Blocks(data)
  }

  method CompressRaw(data: seq<byte>) returns (out: seq<byte>)
    ensures out == Frame(data)
  {
    hide BlockHeader, LittleEndian, Blocks;
    out := LittleEndian(4, MAGIC);
    out := out + [0xA0];
    out := out + LittleEndian(4, |data| % TWO32);
    assert out == FrameHeader(|data|);
    if data == [] {
      EmptyBlock();
      return out + [1, 0, 0];
    }
    ghost var header := out;
    assert data[0..] == data;
    var at := 0;
    while at < |data|
      invariant at <= |data|
      invariant at < |data| ==> out + Blocks(data[at..]) == header + Blocks(data)
      invariant at == |data| ==> out == header + Blocks(data)
    {
      var end := if at + MAX_BLOCK < |data| then at + MAX_BLOCK else |data|;
      var block := data[at..end];
      BlocksStep(data, at, end);
      ghost var before := out;
      out := out + BlockHeader(|block|, end == |data|);
      out := out + block;
      assert out == before + (BlockHeader(|block|, end == |data|) + block);
      if end < |data| {
        assert out + Blocks(data[end..]) == before + (BlockHeader(|block|, false) + block + Blocks(data[end..]));
      }
      at := end;
    }
  }

  lemma EmptyBlock()
    ensures Blocks([]) == [1, 0, 0]
  {
    HeaderBytes(0, true);
    assert LittleEndian(3, 1) == [1, 0, 0];
  }

  lemma BlocksStep(data: seq<byte>, at: nat, end: nat)
    requires at < |data| && end == if at + MAX_BLOCK < |data| then at + MAX_BLOCK else |data|
    ensures Blocks(data[at..])
         == BlockHeader(end - at, end == |data|) + data[at..end] + (if end == |data| then [] else Blocks(data[end..]))
  {
    hide BlockHeader;
    var rest := data[at..];
    var header := BlockHeader(end - at, end == |data|);
    if end < |data| {
      assert rest[..MAX_BLOCK] == data[at..end] && rest[MAX_BLOCK..] == data[end..];
      assert header + (data[at..end] + Blocks(data[end..])) == header + data[at..end] + Blocks(data[end..]);
    } else {
      assert rest == data[at..end];
      assert Blocks(rest) == header + rest == header + rest + [];
    }
  }

  lemma HeaderBytes(len: nat, last: bool)
    requires len <= MAX_BLOCK
    ensures BlockHeader(len, last) == LittleEndian(3, len * 8 + (if last then 1 else 0))
    ensures FromLittleEndian(BlockHeader(len, last)) == len * 8 + (if last then 1 else 0)
  {
    hide LittleEndian, FromLittleEndian, BitOr, Pow256;
    var bit := if last then 1 else 0;
    assert Pow2(3) == 8;
    OrDisjoint(bit, len, 3);
    OrCommutes(len * Pow2(3), bit);
    var h := len * 8 + bit;
    LittleEndianPrefix(3, h);
    Pow256Words();
    LittleEndianInverse(3, h);
  }

  lemma {:induction false} LittleEndianPrefix(k: nat, v: nat)
    ensures LittleEndian(k + 1, v)[..k] == LittleEndian(k, v)
  {
    if k > 0 {
      LittleEndianPrefix(k - 1, v / 256);
      assert LittleEndian(k + 1, v)[..k] == [v % 256] + LittleEndian(k, v / 256)[..k - 1];
    }
  }

  /** How many bytes a frame takes for so many bytes of data: nine, the data, and three for
      every started 128 KiB. */
  function FrameSize(n: nat): nat {
    9 + n + 3 * if n == 0 then 1 else (n + 131071) / 131072
  }

  lemma {:induction false} BlocksSize(data: seq<byte>)
    ensures 9 + |Blocks(data)| == FrameSize(|data|)
    decreases |data|
  {
    hide BlockHeader, FrameSize;
    SizeSteps(|data|);
    if |data| > MAX_BLOCK {
      var rest := data[MAX_BLOCK..];
      BlocksSize(rest);
      assert |Blocks(data)| == 3 + MAX_BLOCK + |Blocks(rest)|;
    }
  }

  lemma SizeSteps(n: nat)
    ensures FrameSize(n) == if n <= MAX_BLOCK then 12 + n else 3 + MAX_BLOCK + FrameSize(n - MAX_BLOCK)
  {
  }

  lemma FrameHasSize(data: seq<byte>)
    ensures |Frame(data)| == FrameSize(|data|)
  {
    hide LittleEndian, Blocks, FrameSize;
    BlocksSize(data);
  }

  // ----- a decoder -----

  /** How many bytes the content size field takes. */
  function ContentSizeBytes(flag: nat, single: bool): nat {
    if flag == 0 then (if single then 1 else 0) else Pow2(flag)
  }

  /** `Window_Size` of a window descriptor. */
  function WindowSize(descriptor: byte): nat {
    var base := Pow2(10 + descriptor / 8);
    base + base / 8 * (descriptor % 8)
  }

  /** Raw and repeated blocks up to the one marked last: their content and where the
      last ends.  Compressed and reserved blocks are not decoded. */
  function DecodeBlocks(frame: seq<byte>, pos: nat, max: nat): Option<(seq<byte>, nat)>
    decreases |frame| - pos
  {
    if pos + 3 > |frame| then None
    else
      var header := FromLittleEndian(frame[pos..pos + 3]);
      var last, kind, size := header % 2, header / 2 % 4, header / 8;
      var taken := if kind == 0 then size else 1;
      if kind > 1 || size > max || pos + 3 + taken > |frame| then None
      else
        var end := pos + 3 + taken;
        var content := if kind == 0 then frame[pos + 3..end] else seq(size, _ => frame[pos + 3]);
        if last == 1 then Some((content, end))
        else
          match DecodeBlocks(frame, end, max)
          case None => None
          case Some(rest) => Some((content + rest.0, rest.1))
  }

  /** The content of one frame that fills the input.  Frames with a checksum or a
      dictionary are not decoded. */
  function DecodeFrame(frame: seq<byte>): Option<seq<byte>> {
    if |frame| < 5 || FromLittleEndian(frame[..4]) != MAGIC then None
    else
      var d := frame[4];
      var single := d / 32 % 2 == 1;
      var sizeBytes := ContentSizeBytes(d / 64, single);
      var start := if single then 5 else 6;
      if d / 8 % 2 == 1 || d / 4 % 2 == 1 || d % 4 != 0 || start + sizeBytes > |frame| then None
      else
        var declared := FromLittleEndian(frame[start..start + sizeBytes]) + (if sizeBytes == 2 then 256 else 0);
        var window := if single then declared else WindowSize(frame[5]);
        match DecodeBlocks(frame, start + sizeBytes, if window < MAX_BLOCK then window else MAX_BLOCK)
        case None => None
        case Some(body) => if body.1 == |frame| && (sizeBytes > 0 ==> |body.0| == declared) then Some(body.0) else None
  }

  // ----- the round trip -----

  lemma {:induction false} BlocksDecode(data: seq<byte>, frame: seq<byte>, pos: nat, max: nat)
    requires At(frame, pos, Blocks(data)) && |frame| == pos + |Blocks(data)|
    requires max <= MAX_BLOCK && (if |data| < MAX_BLOCK then |data| else MAX_BLOCK) <= max
    ensures DecodeBlocks(frame, pos, max) == Some((data, |frame|))
    decreases |data|
  {
    hide BlockHeader, LittleEndian, FromLittleEndian;
    var last := |data| <= MAX_BLOCK;
    var size := if last then |data| else MAX_BLOCK;
    var block, rest := data[..size], if last then [] else Blocks(data[size..]);
    assert Blocks(data) == BlockHeader(size, last) + (block + rest);
    HeaderBytes(size, last);
    AtConcat(frame, pos, BlockHeader(size, last), block + rest);
    AtConcat(frame, pos + 3, block, rest);
    HeaderFields(size, last);
    assert |block| == size && frame[pos + 3..pos + 3 + size] == block;
    if last {
      assert block == data && rest == [];
    } else {
      BlocksDecode(data[size..], frame, pos + 3 + size, max);
      assert data == block + data[size..];
    }
  }

  lemma HeaderFields(size: nat, last: bool)
    ensures var h := size * 8 + (if last then 1 else 0);
      h % 2 == (if last then 1 else 0) && h / 2 % 4 == 0 && h / 8 == size
  {
  }

  lemma HeaderDecodes(data: seq<byte>)
    ensures var frame := Frame(data);
      |frame| >= 9 && FromLittleEndian(frame[..4]) == MAGIC && frame[4] == 0xA0
      && FromLittleEndian(frame[5..9]) == |data| % TWO32 && At(frame, 9, Blocks(data))
      && |frame| == 9 + |Blocks(data)|
  {
    hide Blocks, LittleEndian, FromLittleEndian;
    var frame := Frame(data);
    var magic, size := LittleEndian(4, MAGIC), LittleEndian(4, |data| % TWO32);
    assert At(frame, 0, magic + ([0xA0] + size));
    AtConcat(frame, 0, magic, [0xA0] + size);
    AtConcat(frame, 4, [0xA0], size);
    assert frame[4] == frame[4..5][0];
    Pow256Words();
    LittleEndianInverse(4, MAGIC);
    LittleEndianInverse(4, |data| % TWO32);
  }

  /** The frame decodes to the data exactly when its length fits the size field; a
      decoder that finds the last block elsewhere, or another length, refuses it. */
  lemma FrameDecodes(data: seq<byte>)
    ensures DecodeFrame(Frame(data)) == Some(data) <==> |data| < TWO32
  {
    hide Blocks, FromLittleEndian, DecodeBlocks, DecodeFrame, Frame;
    var frame := Frame(data);
    HeaderDecodes(data);
    PlainHeader(frame);
    if |data| < TWO32 {
      BlocksDecode(data, frame, 9, if |data| < MAX_BLOCK then |data| else MAX_BLOCK);
    }
  }

  /** How the descriptor of these frames is understood: four bytes of size, then blocks. */
  lemma PlainHeader(frame: seq<byte>)
    requires |frame| >= 9 && FromLittleEndian(frame[..4]) == MAGIC && frame[4] == 0xA0
    ensures var size := FromLittleEndian(frame[5..9]);
      DecodeFrame(frame) == match DecodeBlocks(frame, 9, if size < MAX_BLOCK then size else MAX_BLOCK)
        case None => None
        case Some(body) => if body.1 == |frame| && |body.0| == size then Some(body.0) else None
  {
    hide FromLittleEndian, DecodeBlocks;
    assert ContentSizeBytes(2, true) == 4;
  }
}
