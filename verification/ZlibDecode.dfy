/** The decoder's entry points, and what they promise about a whole compressed stream. */
module ZlibDecode {
  import opened Wrappers
  import opened Bits
  import opened Rfc1951
  import opened ZBuf
  import opened ZSupply
  import opened ZTruncation
  import DeflateEncoding

  /** Where the DEFLATE data starts, in bits. */
  function DataStart(parseHeader: bool): nat
  {
    if parseHeader then 16 else 0
  }

  /** The output of the reference decoder using only bits of the input itself; None if it fails. */
  ghost function Inflated(input: seq<byte>, parseHeader: bool): Option<seq<byte>>
  {
    if parseHeader && !ZlibHeader(input) then None
    else
      match Blocks(input, DataStart(parseHeader), [], 8 * |input|)
      case None => None
      case Some(st) => Some(st.out)
  }

  /** data is the reference decoder's output if `used` bits of the zero-padded input may be used. */
  ghost predicate InflatesTo(input: seq<byte>, parseHeader: bool, used: nat, data: seq<byte>)
  {
    && (parseHeader ==> ZlibHeader(input))
    && Blocks(input, DataStart(parseHeader), [], used) == Some(Step(data, used))
  }

  /** stbi_zlib_decode_malloc_guesssize_headerflag: exactly the accepted streams are decoded.  These include all data
      that fits in memory and needs only bits of the input, and everything else that is accepted is correct for the
      input followed by zeros. */
  method DecodeMalloc(input: seq<byte>, initialSize: nat, parseHeader: bool) returns (r: Option<seq<byte>>)
    requires 0 < initialSize <= UINT_MAX
    ensures r == DataOf(Accepted(input, parseHeader, MaxCapacity(initialSize)))
    ensures r.Some? ==> exists used: nat ::
      used <= 8 * |input| + 7200 && InflatesTo(input, parseHeader, used, r.value)
    ensures var data := Inflated(input, parseHeader);
      data.Some? && |data.value| <= MaxCapacity(initialSize) ==> r == data
  {
    hide MaxCapacity, Inflated, InflatesTo, Accepted;
    var z := new Inflater(input, initialSize, true);
    var ok := z.ParseZlib(parseHeader);
    AcceptedSound(input, parseHeader, MaxCapacity(initialSize));
    AcceptedComplete(input, parseHeader, MaxCapacity(initialSize));
    r := None;
    if ok {
      r := Some(z.out[..z.zout]);
    }
  }

  /** stbi_zlib_decode_buffer and stbi_zlib_decode_noheader_buffer: the same into a buffer of fixed size. */
  method DecodeBuffer(input: seq<byte>, size: nat, parseHeader: bool) returns (r: Option<seq<byte>>)
    requires size <= UINT_MAX
    ensures r == DataOf(Accepted(input, parseHeader, size))
    ensures r.Some? ==> |r.value| <= size && exists used: nat ::
      used <= 8 * |input| + 7200 && InflatesTo(input, parseHeader, used, r.value)
    ensures var data := Inflated(input, parseHeader);
      data.Some? && |data.value| <= size ==> r == data
  {
    hide MaxCapacity, Inflated, InflatesTo, Accepted;
    var z := new Inflater(input, size, false);
    var ok := z.ParseZlib(parseHeader);
    AcceptedSound(input, parseHeader, size);
    AcceptedComplete(input, parseHeader, size);
    r := None;
    if ok {
      r := Some(z.out[..z.zout]);
    }
  }

  function DataOf(f: Option<Final>): Option<seq<byte>>
  {
    match f
    case None => None
    case Some(final) => Some(final.out)
  }

  /** What is accepted is correct, fits, and uses a bounded number of zeros past the end. */
  lemma AcceptedSound(input: seq<byte>, parseHeader: bool, ceiling: nat)
    ensures var f := Accepted(input, parseHeader, ceiling); f.Some? ==>
      && InflatesTo(input, parseHeader, f.value.p, f.value.out)
      && f.value.p <= 8 * |input| + 7200 && |f.value.out| <= ceiling
  {
    hide Blocks, BlocksWith;
    var f := Accepted(input, parseHeader, ceiling);
    if f.Some? {
      var p, s := DataStart(parseHeader), Supply(DataStart(parseHeader) / 8, false);
      BlocksSound(input, p, [], s, ceiling);
      AcceptedBound(input, p, [], s, ceiling);
      assert Blocks(input, p, [], f.value.p) == Some(Step(f.value.out, f.value.p));
    }
  }

  /** What the reference decoder reads from the input alone is accepted if it fits. */
  lemma AcceptedComplete(input: seq<byte>, parseHeader: bool, ceiling: nat)
    ensures var data := Inflated(input, parseHeader);
      data.Some? && |data.value| <= ceiling ==> DataOf(Accepted(input, parseHeader, ceiling)) == data
  {
    hide Blocks, BlocksWith;
    var data := Inflated(input, parseHeader);
    if data.Some? && |data.value| <= ceiling {
      BlocksComplete(input, DataStart(parseHeader), [], Supply(DataStart(parseHeader) / 8, false), ceiling);
    }
  }

  /** A stream that ends too early can be accepted: [0x03, 0x00] without its last byte. */
  lemma TruncatedAccepted(ceiling: nat)
    ensures DataOf(Accepted([0x03], false, ceiling)) == Some([]) && Inflated([0x03], false) == None
    ensures InflatesTo([0x03], false, 10, [])
  {
    ShortEmptyAccepted(ceiling);
    assert SHORT_EMPTY == [0x03];
    hide BlocksWith, Blocks;
  }

  /** And it can be rejected, even if only two zero bits are missing: [0x63, 0x60, 0x60, 0x00, 0x00] without its last
      byte. */
  lemma TruncatedRejected(ceiling: nat)
    ensures Accepted([0x63, 0x60, 0x60, 0x00], false, ceiling) == None
    ensures InflatesTo([0x63, 0x60, 0x60, 0x00], false, 34, [0, 0, 0])
  {
    ShortZerosRejected(ceiling);
    assert SHORT_ZEROS == [0x63, 0x60, 0x60, 0x00];
    hide BlocksWith, Blocks;
  }

  /** Whatever an encoder makes of the data, the decoder's entry points are bound to give the data back: with
      DecodeMalloc and DecodeBuffer this holds for all data that fits. */
  lemma DecodeInvertsEncode(before: seq<byte>, bs: seq<DeflateEncoding.BlockOf>, extra: seq<byte>, parseHeader: bool)
    requires 8 * |before| == DataStart(parseHeader) && DeflateEncoding.StreamOk(bs, 8 * |before|, [])
    requires parseHeader ==> ZlibHeader(before + DeflateEncoding.Deflated(bs, 8 * |before|) + extra)
    ensures Inflated(before + DeflateEncoding.Deflated(bs, 8 * |before|) + extra, parseHeader)
         == Some(DeflateEncoding.StreamData(bs, 8 * |before|, []))
  {
    hide Blocks;
    DeflateEncoding.InflateInvertsDeflate(before, bs, extra);
  }

  /** The zlib form of any data, as stored blocks. */
  ghost function ZlibStored(data: seq<byte>): seq<byte>
  {
    DeflateEncoding.StoreAllEncodes(data, 16, []);
    [0x78, 0x01] + DeflateEncoding.Deflated(DeflateEncoding.StoreAll(data, 16), 16)
  }

  /** All data has an input that inflates to it. */
  lemma AllDataIsReached(data: seq<byte>)
    ensures Inflated(ZlibStored(data), true) == Some(data)
  {
    DeflateEncoding.StoreAllEncodes(data, 16, []);
    hide Blocks, Inflated, DeflateEncoding.StreamData, DeflateEncoding.StreamOk, DeflateEncoding.StoreAll;
    var bs := DeflateEncoding.StoreAll(data, 16);
    var body := DeflateEncoding.Deflated(bs, 16);
    assert [0x78, 0x01] + body + [] == [0x78, 0x01] + body;
    DeflatedIsNotEmpty(bs, 16);
    HeaderFits(body);
    DecodeInvertsEncode([0x78, 0x01], bs, [], true);
    assert [] + data == data;
  }

  lemma DeflatedIsNotEmpty(bs: seq<DeflateEncoding.BlockOf>, p: nat)
    requires DeflateEncoding.StreamOk(bs, p, [])
    ensures DeflateEncoding.Deflated(bs, p) != []
  {
  }

  lemma HeaderFits(body: seq<byte>)
    requires body != []
    ensures ZlibHeader([0x78, 0x01] + body)
  {
  }
}
