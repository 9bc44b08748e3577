/** Block handles, the footer of a table, and blocks with their trailers in a file. */
module TableFormat {
  import opened Wrappers
  import opened Bytes
  import opened Varints
  import opened Seqs
  import opened Coding
  import opened LogFormat

  // ---- Handles ----

  datatype BlockHandle = BlockHandle(offset: nat, size: nat)

  function EncodeHandle(h: BlockHandle): seq<byte> {
    VarintBytes(h.offset) + VarintBytes(h.size)
  }

  function DecodeHandle(s: seq<byte>): Option<Got<BlockHandle>> {
    match GetVarint64(s)
    case None => None
    case Some(Got(offset, s1)) =>
      match GetVarint64(s1)
      case None => None
      case Some(Got(size, s2)) => Some(Got(BlockHandle(offset, size), s2))
  }

  predicate Fits64(h: BlockHandle) {
    h.offset < TWO_64 && h.size < TWO_64
  }

  lemma HandleRoundTrip(h: BlockHandle, rest: seq<byte>)
    requires Fits64(h)
    ensures DecodeHandle(EncodeHandle(h) + rest) == Some(Got(h, rest))
  {
    hide VarintBytes, GetVarint64;
    Associate(VarintBytes(h.offset), VarintBytes(h.size), rest);
    Varint64RoundTrip(h.offset, VarintBytes(h.size) + rest);
    Varint64RoundTrip(h.size, rest);
  }

  // ---- Footer ----

  const MAGIC: nat := 0xdb47_7524_8b80_fb57
  const HANDLES_SIZE: nat := 40
  const FOOTER_SIZE: nat := 48

  function Resized(s: seq<byte>, n: nat): (r: seq<byte>)
    ensures |r| == n
  {
    if |s| <= n then s + Zeros(n - |s|) else s[..n]
  }

  function EncodeFooter(meta: BlockHandle, index: BlockHandle): (s: seq<byte>)
    ensures |s| == FOOTER_SIZE
  {
    Resized(EncodeHandle(meta) + EncodeHandle(index), HANDLES_SIZE)
    + ToLittleEndian(MAGIC % TWO_32, 4) + ToLittleEndian(MAGIC / TWO_32, 4)
  }

  function DecodeFooter(s: seq<byte>): Option<(BlockHandle, BlockHandle)>
    requires |s| == FOOTER_SIZE
  {
    if DecodeFixed32(s, HANDLES_SIZE) + TWO_32 * DecodeFixed32(s, HANDLES_SIZE + 4) != MAGIC then None
    else
      match DecodeHandle(s)
      case None => None
      case Some(Got(meta, rest)) =>
        match DecodeHandle(rest)
        case None => None
        case Some(Got(index, _)) => Some((meta, index))
  }

  // On any 48 bytes: without the magic number, or two handles, they are no footer.
  lemma FooterIff(s: seq<byte>)
    requires |s| == 48
    ensures DecodeFooter(s).Some?
            <==> s[40..] == [87, 251, 128, 139, 36, 117, 71, 219]
                 && DecodeHandle(s).Some? && DecodeHandle(DecodeHandle(s).value.rest).Some?
  {
    hide DecodeHandle, ToLittleEndian, LittleEndian;
    MagicBytes();
    var low, high := s[40..44], s[44..48];
    assert s[40..] == low + high;
    FourBytes();
    LittleEndianBound(low);
    LittleEndianBound(high);
    DivModUnique(LittleEndian(low) + TWO_32 * LittleEndian(high), TWO_32, LittleEndian(high), LittleEndian(low));
    FixedRoundTrip(MAGIC % TWO_32, 4);
    FixedRoundTrip(MAGIC / TWO_32, 4);
    if LittleEndian(low) == MAGIC % TWO_32 && LittleEndian(high) == MAGIC / TWO_32 {
      LittleEndianInjective(low, ToLittleEndian(MAGIC % TWO_32, 4));
      LittleEndianInjective(high, ToLittleEndian(MAGIC / TWO_32, 4));
    }
    if s[40..] == [87, 251, 128, 139, 36, 117, 71, 219] {
      assert low == s[40..][..4] && high == s[40..][4..];
    }
  }

  lemma FooterRoundTrip(meta: BlockHandle, index: BlockHandle)
    requires Fits64(meta) && Fits64(index)
    ensures DecodeFooter(EncodeFooter(meta, index)) == Some((meta, index))
  {
    hide DecodeHandle, VarintBytes, ToLittleEndian, LittleEndian;
    VarintLength64(meta.offset);
    VarintLength64(meta.size);
    VarintLength64(index.offset);
    VarintLength64(index.size);
    var a, b := EncodeHandle(meta), EncodeHandle(index);
    var pad := Zeros(HANDLES_SIZE - |a + b|);
    var lo, hi := ToLittleEndian(MAGIC % TWO_32, 4), ToLittleEndian(MAGIC / TWO_32, 4);
    var s := EncodeFooter(meta, index);
    assert s == a + (b + (pad + lo + hi));
    assert s[HANDLES_SIZE..HANDLES_SIZE + 4] == lo && s[HANDLES_SIZE + 4..HANDLES_SIZE + 8] == hi;
    FourBytes();
    FixedRoundTrip(MAGIC % TWO_32, 4);
    FixedRoundTrip(MAGIC / TWO_32, 4);
    HandleRoundTrip(meta, b + (pad + lo + hi));
    HandleRoundTrip(index, pad + lo + hi);
  }

  // The footer: the handles of meta index and index, each an offset and a size, zeros up to 40 bytes, and
  // eight bytes by which a table is known.
  lemma FooterFormat(meta: BlockHandle, index: BlockHandle)
    requires Fits64(meta) && Fits64(index)
    ensures var handles := VarintBytes(meta.offset) + VarintBytes(meta.size) + (VarintBytes(index.offset) + VarintBytes(index.size));
            |handles| <= 40
            && EncodeFooter(meta, index) == handles + Zeros(40 - |handles|) + [87, 251, 128, 139, 36, 117, 71, 219]
  {
    hide VarintBytes, Zeros;
    VarintLength64(meta.offset);
    VarintLength64(meta.size);
    VarintLength64(index.offset);
    VarintLength64(index.size);
    MagicBytes();
    var padded := Resized(EncodeHandle(meta) + EncodeHandle(index), HANDLES_SIZE);
    Associate(padded, ToLittleEndian(MAGIC % TWO_32, 4), ToLittleEndian(MAGIC / TWO_32, 4));
  }

  lemma MagicBytes()
    ensures ToLittleEndian(MAGIC % TWO_32, 4) == [87, 251, 128, 139] && ToLittleEndian(MAGIC / TWO_32, 4) == [36, 117, 71, 219]
    ensures ToLittleEndian(MAGIC % TWO_32, 4) + ToLittleEndian(MAGIC / TWO_32, 4) == [87, 251, 128, 139, 36, 117, 71, 219]
  {
    FourBytesOf(0x8b80_fb57);
    FourBytesOf(0xdb47_7524);
  }

  lemma FourBytesOf(v: nat)
    ensures ToLittleEndian(v, 4) == [v % 256, v / 256 % 256, v / 65536 % 256, v / 16777216 % 256]
  {
    var a, b, c := v / 256, v / 65536, v / 16777216;
    assert v / 256 / 256 == b && v / 256 / 256 / 256 == c && b / 256 == c;
    assert ToLittleEndian(c, 1) == [c % 256] + ToLittleEndian(c / 256, 0);
    assert ToLittleEndian(b, 2) == [b % 256] + ToLittleEndian(c, 1);
    assert ToLittleEndian(a, 3) == [a % 256] + ToLittleEndian(b, 2);
  }

  // ---- Blocks in a file ----

  const TRAILER_SIZE: nat := 5
  const NO_COMPRESSION: byte := 0

  // A compressor by its number.  Any will do that gives back what it was given and is not numbered 0.
  datatype Compressor = Compressor(id: byte, compress: seq<byte> -> seq<byte>, decompress: seq<byte> -> Option<seq<byte>>)

  ghost predicate Lossless(c: Compressor) {
    c.id != NO_COMPRESSION && forall s :: c.decompress(c.compress(s)) == Some(s)
  }

  // How often block keys are whole, and the first of the compressors, which may be none.
  datatype Options = Options(interval: nat, compressor: Option<Compressor>)

  type Format = f: Options | f.interval > 0 witness Options(1, None)

  // The contents and the type a block is stored with: compressed if that saves an eighth.
  function Packed(compressor: Option<Compressor>, b: seq<byte>): (r: (seq<byte>, byte)) {
    if compressor.Some? && |compressor.value.compress(b)| < |b| - |b| / 8 then (compressor.value.compress(b), compressor.value.id)
    else (b, NO_COMPRESSION)
  }

  // The type of a block, and the masked checksum of contents and type.
  function BlockTrailer(crc: Checksum, contents: seq<byte>, t: byte): (s: seq<byte>)
    requires IsChecksum(crc)
    ensures |s| == TRAILER_SIZE
  {
    [t] + ToLittleEndian(Mask(crc(contents + [t])), 4)
  }

  function OnDisk(crc: Checksum, compressor: Option<Compressor>, b: seq<byte>): (s: seq<byte>)
    requires IsChecksum(crc)
    ensures |s| == |Packed(compressor, b).0| + TRAILER_SIZE
  {
    Packed(compressor, b).0 + BlockTrailer(crc, Packed(compressor, b).0, Packed(compressor, b).1)
  }

  ghost predicate HasBlock(crc: Checksum, compressor: Option<Compressor>, file: seq<byte>, h: BlockHandle, b: seq<byte>)
    requires IsChecksum(crc)
  {
    h.size == |Packed(compressor, b).0| && h.offset + h.size + TRAILER_SIZE <= |file|
    && file[h.offset..h.offset + h.size + TRAILER_SIZE] == OnDisk(crc, compressor, b)
  }

  // The search stops at the compressor wanted or at an empty place, whichever comes first.
  function FindCompressor(compressors: seq<Option<Compressor>>, id: byte): Option<Compressor> {
    if compressors == [] then None
    else if compressors[0].None? || compressors[0].value.id == id then compressors[0]
    else FindCompressor(compressors[1..], id)
  }

  // ReadBlock.
  function ReadBlock(crc: Checksum, compressors: seq<Option<Compressor>>, file: seq<byte>, h: BlockHandle, verify: bool): Option<seq<byte>> {
    var end := h.offset + h.size;
    if end + TRAILER_SIZE > |file| then None
    else if verify && Unmask(DecodeFixed32(file, end + 1)) != crc(file[h.offset..end + 1]) then None
    else if file[end] == NO_COMPRESSION then Some(file[h.offset..end])
    else
      var compressor := FindCompressor(compressors, file[end]);
      if compressor.None? then None else compressor.value.decompress(file[h.offset..end])
  }

  // A block in a file: its contents, a byte for the type, which is 0 unless compression saved an eighth, and
  // the masked checksum of both.
  lemma BlockOnDisk(crc: Checksum, compressor: Option<Compressor>, b: seq<byte>)
    requires IsChecksum(crc)
    ensures var packs := compressor.Some? && 8 * |compressor.value.compress(b)| < 8 * |b| - |b| / 8 * 8;
            var x := if packs then compressor.value.compress(b) else b;
            var t := if packs then compressor.value.id else 0;
            OnDisk(crc, compressor, b) == x + ([t] + ToLittleEndian(Mask(crc(x + [t])), 4))
  {}

  // What is stored as x under type t is b: as it is, or for the first compressor of that number in a list
  // without a gap before it.
  ghost predicate Unpacks(compressors: seq<Option<Compressor>>, x: seq<byte>, t: byte, b: seq<byte>) {
    if t == 0 then x == b
    else exists i :: 0 <= i < |compressors| && FirstOf(compressors, t, i) && compressors[i].value.decompress(x) == Some(b)
  }

  ghost predicate FirstOf(compressors: seq<Option<Compressor>>, t: byte, i: nat)
    requires i < |compressors|
  {
    compressors[i].Some? && compressors[i].value.id == t
    && forall j :: 0 <= j < i ==> compressors[j].Some? && compressors[j].value.id != t
  }

  lemma {:induction false} FindsFirst(compressors: seq<Option<Compressor>>, t: byte)
    ensures match FindCompressor(compressors, t)
            case Some(c) => exists i :: 0 <= i < |compressors| && FirstOf(compressors, t, i) && compressors[i] == Some(c)
            case None => forall i :: 0 <= i < |compressors| ==> !FirstOf(compressors, t, i)
  {
    if compressors != [] && compressors[0].Some? && compressors[0].value.id != t {
      FindsFirst(compressors[1..], t);
      if FindCompressor(compressors, t).Some? {
        var i :| 0 <= i < |compressors[1..]| && FirstOf(compressors[1..], t, i)
                 && compressors[1..][i] == FindCompressor(compressors, t);
        assert forall j :: 0 <= j <= i ==> compressors[j + 1] == compressors[1..][j];
        assert FirstOf(compressors, t, i + 1);
      } else {
        forall i | 0 <= i < |compressors|
          ensures !FirstOf(compressors, t, i)
        {
          if i > 0 && FirstOf(compressors, t, i) {
            assert forall j :: 0 <= j < i ==> compressors[1..][j] == compressors[j + 1];
            assert FirstOf(compressors[1..], t, i - 1);
          }
        }
      }
    } else if compressors != [] && compressors[0].Some? {
      assert FirstOf(compressors, t, 0);
    }
  }

  // The bytes at a place are what the writer puts there for contents x and type t.
  ghost predicate StoredAt(crc: Checksum, file: seq<byte>, h: BlockHandle, x: seq<byte>, t: byte)
    requires IsChecksum(crc)
  {
    h.size == |x| && h.offset + h.size + TRAILER_SIZE <= |file|
    && file[h.offset..h.offset + h.size + TRAILER_SIZE] == x + BlockTrailer(crc, x, t)
  }

  // On any bytes: with checksums verified, a block is read exactly if what is there was written as one, and
  // only as what was packed.
  lemma ReadIff(crc: Checksum, compressors: seq<Option<Compressor>>, file: seq<byte>, h: BlockHandle, b: seq<byte>)
    requires IsChecksum(crc)
    ensures ReadBlock(crc, compressors, file, h, true) == Some(b)
            <==> exists x: seq<byte>, t: byte :: StoredAt(crc, file, h, x, t) && Unpacks(compressors, x, t, b)
  {
    hide BlockTrailer;
    if h.offset + h.size + TRAILER_SIZE <= |file| {
      var end := h.offset + h.size;
      var x, t := file[h.offset..end], file[end];
      FindsFirst(compressors, t);
      OneFirst(compressors, t);
      if ReadBlock(crc, compressors, file, h, true) == Some(b) {
        TrailerIs(crc, file, h);
        assert StoredAt(crc, file, h, x, t) && Unpacks(compressors, x, t, b);
      }
      forall x': seq<byte>, t': byte | StoredAt(crc, file, h, x', t')
        ensures x' == x && t' == t && Unmask(DecodeFixed32(file, end + 1)) == crc(file[h.offset..end + 1])
      {
        TrailerAt(crc, file, h, x', t');
      }
    }
  }

  lemma OneFirst(compressors: seq<Option<Compressor>>, t: byte)
    ensures forall i: nat, j: nat :: i < |compressors| && j < |compressors| && FirstOf(compressors, t, i) && FirstOf(compressors, t, j) ==> i == j
  {}

  // The other way round: where the checksum is right, the bytes are those the writer puts there.
  lemma TrailerIs(crc: Checksum, file: seq<byte>, h: BlockHandle)
    requires IsChecksum(crc) && h.offset + h.size + TRAILER_SIZE <= |file|
    requires var end := h.offset + h.size; Unmask(DecodeFixed32(file, end + 1)) == crc(file[h.offset..end + 1])
    ensures StoredAt(crc, file, h, file[h.offset..h.offset + h.size], file[h.offset + h.size])
  {
    hide Mask, Unmask, ToLittleEndian, LittleEndian;
    var end := h.offset + h.size;
    var x, t, word := file[h.offset..end], file[end], file[end + 1..end + 5];
    LittleEndianBound(word);
    FourBytes();
    UnmaskRoundTrip(LittleEndian(word));
    FixedRoundTrip(LittleEndian(word), 4);
    LittleEndianInjective(ToLittleEndian(LittleEndian(word), 4), word);
    assert file[h.offset..end + 1] == x + [t];
    assert file[h.offset..end + 5] == x + ([t] + word);
  }

  // A reader has the compressor a table was written with.
  ghost predicate Known(compressors: seq<Option<Compressor>>, compressor: Option<Compressor>) {
    compressor.Some? ==> Lossless(compressor.value) && FindCompressor(compressors, compressor.value.id) == compressor
  }

  lemma ReadsBack(crc: Checksum, compressors: seq<Option<Compressor>>, compressor: Option<Compressor>, file: seq<byte>, h: BlockHandle,
                  b: seq<byte>, verify: bool)
    requires IsChecksum(crc) && HasBlock(crc, compressor, file, h, b) && Known(compressors, compressor)
    ensures ReadBlock(crc, compressors, file, h, verify) == Some(b)
  {
    hide FindCompressor;
    var (x, t) := Packed(compressor, b);
    TrailerAt(crc, file, h, x, t);
  }

  // What is found at the place of a block.
  lemma TrailerAt(crc: Checksum, file: seq<byte>, h: BlockHandle, x: seq<byte>, t: byte)
    requires IsChecksum(crc) && h.size == |x| && h.offset + h.size + TRAILER_SIZE <= |file|
    requires file[h.offset..h.offset + h.size + TRAILER_SIZE] == x + BlockTrailer(crc, x, t)
    ensures var end := h.offset + h.size;
            file[h.offset..end] == x && file[end] == t && Unmask(DecodeFixed32(file, end + 1)) == crc(file[h.offset..end + 1])
  {
    hide Mask, Unmask, ToLittleEndian, LittleEndian;
    var n := |x|;
    var all := file[h.offset..h.offset + n + TRAILER_SIZE];
    var word := ToLittleEndian(Mask(crc(x + [t])), 4);
    assert all == x + [t] + word;
    SliceOfSlice(file, h.offset, h.offset + n + TRAILER_SIZE, 0, n);
    SliceOfSlice(file, h.offset, h.offset + n + TRAILER_SIZE, 0, n + 1);
    SliceOfSlice(file, h.offset, h.offset + n + TRAILER_SIZE, n + 1, n + TRAILER_SIZE);
    assert all[..n] == x && all[..n + 1] == x + [t] && all[n + 1..] == word;
    assert file[h.offset + n] == all[n];
    FourBytes();
    FixedRoundTrip(Mask(crc(x + [t])), 4);
    MaskRoundTrip(crc(x + [t]));
  }

  // Appending to the file moves nothing.
  lemma BlockStays(crc: Checksum, compressor: Option<Compressor>, file: seq<byte>, more: seq<byte>, h: BlockHandle, b: seq<byte>)
    requires IsChecksum(crc) && HasBlock(crc, compressor, file, h, b)
    ensures HasBlock(crc, compressor, file + more, h, b)
  {
    hide OnDisk, Packed;
    SliceOfConcat(file, more, h.offset, h.offset + h.size + TRAILER_SIZE);
  }

  lemma BlockAppended(crc: Checksum, compressor: Option<Compressor>, file: seq<byte>, b: seq<byte>)
    requires IsChecksum(crc)
    ensures HasBlock(crc, compressor, file + OnDisk(crc, compressor, b), BlockHandle(|file|, |Packed(compressor, b).0|), b)
  {
    hide OnDisk, Packed;
    var t := OnDisk(crc, compressor, b);
    assert (file + t)[|file|..|file| + |t|] == t;
  }
}
