# Dafny model of the image decoders and the world download

This project models the parts of Capy Engine in which simple formats are handled by code that is anything but simple,
and proves that the code means what the formats say.

* **DEFLATE** (`Bits`, `BitStream`, `Canonical`, `ZHuffman`, `Rfc1951`, `ZSupply`, `ZBuf`, `ZTruncation`, `ZlibDecode`,
  `BitWriter`, `DeflateEncoding`, `DeflateRanges`, `FixedCode`, `DeflateSamples`).
  `Rfc1951` is a reference decoder written from section 3.2 of RFC 1951: it reads symbols by their canonical codes from
  a sequence of bits. `ZBuf.Inflater` is the decoder with its bit buffer, fast table, slow path and growing output. What
  it accepts is stated exactly by `ZSupply`, which is the reference decoder with an account of the bytes given to the bit
  buffer, and is proved sound and complete; `ZTruncation` bounds how far an accepted stream reaches past the input.
  `DeflateEncoding` and `BitWriter` describe every encoding the format allows, and decoding is proved to invert all of
  them. `DeflateRanges`, `FixedCode` and `DeflateSamples` pin the tables of the format.
* **PNG** (`PngFilter`, `PngUnfilter`, `Sizes`, `PngImage`, `PngRoundTrip`, `Adam7`, `PngInterlace`, `PngPasses`,
  `PngPixels`). Filters,
  two alternating line buffers, packed samples, added alpha, size checks and interlacing; decoding inverts packing and
  filtering, in one piece or in seven passes, and every byte of an image is said in terms of its samples.
* **JPEG entropy decoding** (`JpegCanonical`, `JpegHuffman`, `JpegReader`, `JpegStream`, `JpegAc`, `JpegCutShort`,
  `JpegDecoder`, `JpegZigzag`, `JpegBits`, `JpegEncoding`, `JpegBlocks`, `JpegFile`). The Huffman tables, the bit reader with stuffed bytes and markers and the bit string it stands for, and
  the fast AC table, which is proved to change nothing, but for one case that is stated exactly. Decoding a block
  inverts encoding, from the bytes of the file to the rows and columns of the matrix.
* **GIF** (`GifLzw`, `GifEncoding`, `GifPlacement`, `GifColors`, `Gif`, `GifSamples`). LZW against a dictionary of
  strings, the inverse of every encoding, where the pixels of plain and interlaced frames go, and their colours from the
  bytes of the file.
* **PSD** (`PsdRle`, `PsdChannels`). PackBits, and the four channels of an image.
* **World download** (`NetBuffer`, `WorldTransfer`, `DownloadSystem`, `DownloadAdmission`, `DownloadProtocol`,
  `DownloadRuns`, `DownloadOffTrack`, `DownloadExamples`). The receive buffer, both ends of the transfer, and a state machine of server,
  link and client: what all runs keep, when the client ends with the server's map, and when it still can.

Classes stand for the C and C++ structures that are updated in place; their methods are proved against functions on
values, and the lemmas are about those functions. Where the code and its intention differ, the model follows the code:

* Reading past the end of the compressed data yields zeros: whole bytes while the bit buffer is filled, and 16 bits once
  more in front of a symbol. So a stream that ends too early may be accepted or rejected. `ZSupply` says exactly which
  is the case, and `TruncatedAccepted` and `TruncatedRejected` show one of each. The test at
  the end of a block refuses only streams that have used the extra 16 bits; zero bytes fed before are not noticed.
* The JPEG fast table uses 255 for "no entry". A table of 256 symbols whose last code has at most 9 bits is accepted, and
  when that code comes next, with enough bits for it, another symbol is decoded. `LookupIsDecodeIff` states this exactly,
  and `ConfusedExample` shows an input. In that case the code's own assertion does not hold; the model goes on.
* Near a marker the fast AC path refuses an entry that is longer than the bits left. The slow path goes on there: the
  missing value bits are read as zeros, which are what the entry was found with, so it stores the value of the entry.
  `FastBlockIsSlowBlock` states that this is the only difference, and `CutShortExample` shows a block.
* `GetMessage` takes the newest message, so chunks that wait together are taken in the wrong order. `FinalTiles` says for
  every run what map results and when it equals the server's; `WaitingChunksAreSwapped` is a run that goes wrong.
* While a client waits for the announcement of the world it does not check the type of what arrives, and the server tells
  it about other clients at any time. `EqualMapsIffSizeRead` says when the maps are equal all the same,
  `CompletesIffOnTrack` when a download can still succeed, and `NoticeTakenForAnnouncement` is a run that goes wrong.
* The background of a first GIF frame is copied from the colour table as it stands there, blue first, while pixels are
  stored red first; `LoadFrame` states it that way.
* `Server::ClientNew` finds a status for a hello, but sends the answer only if it is 0, though its last comment counts on
  the client taking another one. `ClientNew` states that nothing is sent, and `IgnoredForEver` what follows. The runs
  also hold answers with other statuses, so `RefusedForGood` says what the client does with them.
* `Client::TickNetwork` compares the sender's address, but the result is assigned to an inner variable and not used; the
  model has one sender.

`dafny verify dfyconfig.toml` verifies the whole project.

## Model

Section, annex and appendix numbers refer to RFC 1951, RFC 2083, ITU-T T.81, GIF89a and TIFF 6.0.

| member | source | states |
|---|---|---|
| Bits.BitReverse16Correct | src/engine/external/stbi/stb_image.h:4107-4114 | the four masked swaps reverse the 16 low bits, for every input |
| Bits.BitReverseCorrect | src/engine/external/stbi/stb_image.h:4116-4122 | the result is the reversal of the low `bits` bits, for 0 to 16 bits |
| Bits.RevLowInverse | src/engine/external/stbi/stb_image.h:4156-4162 | two n-bit strings with the same reversal are the same: entering reversed codes loses nothing |
| Canonical.BaseStep | src/engine/external/stbi/stb_image.h:4143-4154 | the codes of each length fill an interval of 16-bit space that starts exactly where the previous length ends |
| Canonical.KraftIsBase | src/engine/external/stbi/stb_image.h:4143-4154 | where the codes of length 15 end is the Kraft sum of the list |
| Canonical.CodesOrdered | src/engine/external/stbi/stb_image.h:4155-4165 | codes are ordered by (length, symbol) and do not overlap |
| Canonical.PrefixFree | src/engine/external/stbi/stb_image.h:4155-4165 | no 16-bit window begins with the codes of two symbols |
| Canonical.CodeFits | src/engine/external/stbi/stb_image.h:4150-4152 | with a Kraft sum of at most 1 every code fits its length |
| Canonical.WindowHasSymbol | src/engine/external/stbi/stb_image.h:4224-4241 | a window in the interval of length s begins with the code of a symbol of length s |
| Canonical.DecodableWindows | src/engine/external/stbi/stb_image.h:4231-4234 | a window begins with some code if and only if it lies below the Kraft sum |
| Canonical.SlotBound | src/engine/external/stbi/stb_image.h:4236-4240 | the index of a symbol lies in the range of its length, so the index check of the slow path never fires |
| Canonical.SlotInjective | src/engine/external/stbi/stb_image.h:4155-4165 | different symbols have different indices in the sorted table |
| ZHuffman.Huffman.Build | src/engine/external/stbi/stb_image.h:4124-4169 | a list of lengths up to 15 is accepted if and only if its Kraft sum is at most 1, and then the fast table, the ranges and the sorted symbols are those of the canonical code |
| ZHuffman.FastHit | src/engine/external/stbi/stb_image.h:4263-4269 | a symbol in the 9-bit table has a code that begins the reversed window |
| ZHuffman.FastMiss | src/engine/external/stbi/stb_image.h:4224-4234 | an empty entry means that the window lies at or above the end of the 9-bit codes, where the slow path starts searching |
| ZHuffman.SlowHit | src/engine/external/stbi/stb_image.h:4231-4240 | in the interval of length s the index arithmetic of the slow path gives the slot of the symbol, inside the table |
| Rfc1951.SymbolIsUnique | src/engine/external/stbi/stb_image.h:4243-4271 | at most one symbol can be read at a position of the input |
| Rfc1951.CopyMatchIndex | src/engine/external/stbi/stb_image.h:4345-4354 | every byte of a match equals the byte `dist` places before it, also when source and destination overlap |
| Rfc1951.FixedLitComplete | src/engine/external/stbi/stb_image.h:4452-4479 | the fixed literal code of section 3.2.6 passes the Kraft test |
| Rfc1951.FixedDistComplete | src/engine/external/stbi/stb_image.h:4452-4479 | the fixed distance code passes the Kraft test |
| FixedCode.LiteralCode | src/engine/external/stbi/stb_image.h:4472-4475 | the fixed literal codes are, one by one, those of the table in section 3.2.6 |
| FixedCode.DistanceCode | src/engine/external/stbi/stb_image.h:4477-4478 | fixed distance symbols are their own five-bit codes |
| DeflateRanges.EveryLength | src/engine/external/stbi/stb_image.h:4295-4300 | every length from 3 to 258 has exactly one symbol from 257 to 284 and extra number; 257 is 3, 285 is 258, and extra bits never decrease |
| DeflateRanges.EveryDistance | src/engine/external/stbi/stb_image.h:4303-4307 | every distance from 1 to 32768 has exactly one symbol and extra number, the symbol is below 30; symbol 0 is 1, and extra bits never decrease |
| DeflateRanges.EveryRun | src/engine/external/stbi/stb_image.h:4386-4400 | symbol 16 repeats 3 to 6 times, 17 stands for 3 to 10 zeros and 18 for 11 to 138, each in one way |
| DeflateRanges.CodeLengthOrder | src/engine/external/stbi/stb_image.h:4361-4361 | the lengths of the code length code come in the order that section 3.2.7 lists |
| Rfc1951.LengthsAreSmall | src/engine/external/stbi/stb_image.h:4379-4402 | no run of section 3.2.7 yields a length above 15 |
| Rfc1951.NoBlockPastEnd | src/engine/external/stbi/stb_image.h:4489-4506 | the zeros behind the end of the input are never a block, so block parsing ends |
| ZBuf.Inflater.FillBits | src/engine/external/stbi/stb_image.h:4202-4212 | keeps 0 <= num_bits <= 32 and code_buffer equal to the next num_bits bits of the input followed by zeros, with at least 25 of them; the guard against stray bits never fires |
| ZBuf.Inflater.Zreceive | src/engine/external/stbi/stb_image.h:4214-4222 | returns exactly the next n bits, least significant first, and moves past them |
| ZBuf.Inflater.DecodeSlowPath | src/engine/external/stbi/stb_image.h:4224-4241 | after a fast-table miss: the unique symbol whose code comes next, or -1 if and only if there is none |
| ZBuf.Inflater.HuffmanDecode | src/engine/external/stbi/stb_image.h:4243-4271 | the unique symbol whose code comes next, or -1 for none; without looking it gives -1 exactly when the input is used up, its padding of 16 zero bits has been used before, and fewer than 16 bits are left |
| ZBuf.Inflater.Refill | src/engine/external/stbi/stb_image.h:4246-4262 | fails exactly in that case, and the position is then past the end of the input: bits that are present are never rejected |
| ZBuf.Inflater.Zexpand | src/engine/external/stbi/stb_image.h:4273-4293 | with a positive capacity doubling ends; succeeds if and only if room for n more bytes exists below the largest capacity, and keeps all earlier output |
| ZBuf.DoublingEnds | src/engine/external/stbi/stb_image.h:4280-4283 | the doubling loop ends if and only if it starts with a positive capacity or nothing is needed |
| ZBuf.MaxCapacityBound | src/engine/external/stbi/stb_image.h:4280-4283 | the largest capacity that doubling reaches |
| ZBuf.LengthTables | src/engine/external/stbi/stb_image.h:4295-4300 | the base and extra-bit tables for lengths are those of section 3.2.5: each range starts where the previous one ends, and 258 has its own symbol |
| ZBuf.DistTables | src/engine/external/stbi/stb_image.h:4302-4307 | the same for distances |
| ZBuf.Inflater.CopyBytes | src/engine/external/stbi/stb_image.h:4347-4354 | both loops, the one for distance 1 and the general one, append the match byte by byte as the format defines it |
| ZBuf.Inflater.PutMatch | src/engine/external/stbi/stb_image.h:4343-4354 | a match is appended after any growth of the buffer; it fails only if the output would exceed the largest capacity |
| ZBuf.Inflater.ParseItem | src/engine/external/stbi/stb_image.h:4313-4355 | one literal, match or end of block of the reference decoder; it fails only if that item is malformed, the supply of bits and padding runs out, the padding has been used up at the end of the block, or the output does not fit |
| ZBuf.Inflater.ParseHuffmanBlock | src/engine/external/stbi/stb_image.h:4309-4357 | a block succeeds if and only if all its items are those of the reference decoder, their bits can be supplied, and the output fits; then output, position and supply are those |
| ZBuf.Inflater.ReadRun | src/engine/external/stbi/stb_image.h:4381-4401 | one code length symbol appends exactly what section 3.2.7 says, runs may cross from literals to distances, and never more than hlit + hdist lengths |
| ZBuf.Inflater.ReadAllLengths | src/engine/external/stbi/stb_image.h:4379-4402 | succeeds if and only if the code length symbols expand to exactly hlit + hdist lengths and their bits can be supplied; the array is then that expansion |
| ZBuf.Inflater.ComputeHuffmanCodes | src/engine/external/stbi/stb_image.h:4359-4407 | succeeds if and only if there is a dynamic header whose bits can be supplied, with the two codes of that header |
| ZBuf.Inflater.DrainHeader | src/engine/external/stbi/stb_image.h:4416-4423 | draining the bit buffer yields at most 4 bytes, which are the next bytes of the input, and leaves the bit buffer empty |
| ZBuf.Inflater.ParseUncompressedBlock | src/engine/external/stbi/stb_image.h:4409-4436 | a stored block of section 3.2.4, or failure exactly when it is malformed, truncated or does not fit |
| ZBuf.Inflater.ParseZlibHeader | src/engine/external/stbi/stb_image.h:4438-4450 | accepts exactly the two-byte headers with method 8, a valid check and no preset dictionary that are followed by data |
| ZBuf.Inflater.ParseZlib | src/engine/external/stbi/stb_image.h:4481-4508 | succeeds if and only if the stream is accepted: header, blocks of the reference decoder, bits that can be supplied, output that fits; then output and position are those of the reference decoder |
| ZSupply.CodesSound | src/engine/external/stbi/stb_image.h:4309-4357 | an accepted block is a block of the reference decoder, whatever the supply |
| ZSupply.CodesComplete | src/engine/external/stbi/stb_image.h:4309-4357 | a block that the reference decoder reads from bits of the input alone is accepted if its output fits: the padding is never missed before the end |
| ZSupply.BlocksSound | src/engine/external/stbi/stb_image.h:4481-4508 | accepted data is the output of the reference decoder on the input followed by zeros, and no larger than allowed |
| ZSupply.BlocksComplete | src/engine/external/stbi/stb_image.h:4481-4508 | a stream that the reference decoder reads from bits of the input alone is accepted if its output fits |
| ZTruncation.OnlyTheEnd | src/engine/external/stbi/stb_image.h:4243-4262 | a block whose next item starts behind the end of the input can only end there |
| ZTruncation.CodesBound | src/engine/external/stbi/stb_image.h:4309-4357 | past the end of the input a block uses at most 62 bits, the rest of one item and an end-of-block code |
| ZTruncation.AcceptedBound | src/engine/external/stbi/stb_image.h:4481-4508 | an accepted stream uses at most 7200 bits past the end: the rest of one block, its header included |
| ZlibDecode.DecodeMalloc | src/engine/external/stbi/stb_image.h:4541-4555 | data is returned exactly for the accepted streams; it is then correct for the input followed by at most 7200 zeros; all data that fits in memory and needs only bits that are present is returned |
| ZlibDecode.DecodeBuffer | src/engine/external/stbi/stb_image.h:4557-4590 | the same for a caller's buffer of fixed size, never exceeding it |
| ZlibDecode.AcceptedSound | src/engine/external/stbi/stb_image.h:4481-4508 | what is accepted is the output of the reference decoder on the input followed by zeros, fits, and uses at most 7200 of them |
| ZlibDecode.AcceptedComplete | src/engine/external/stbi/stb_image.h:4481-4508 | what the reference decoder reads from the input alone is accepted if it fits |
| ZlibDecode.TruncatedAccepted | src/engine/external/stbi/stb_image.h:4202-4212 | a stream that ends too early can be accepted: the single byte 03 without header |
| ZlibDecode.TruncatedRejected | src/engine/external/stbi/stb_image.h:4246-4262 | and it can be rejected although only two zero bits are missing: the bytes 63 60 60 00 without header |
| DeflateSamples.CopiesInflate | src/engine/external/stbi/stb_image.h:4313-4355 | the bytes 4b 4c 4a 06 42 00 without header are "abcbcb": three literals and a match that overlaps itself |
| DeflateSamples.StoredInflates | src/engine/external/stbi/stb_image.h:4409-4436 | the bytes 01 02 00 fd ff 61 62 without header are "ab", stored |
| DeflateSamples.UsualHeaders | src/engine/external/stbi/stb_image.h:4438-4450 | the four usual zlib headers are accepted; other methods, preset dictionaries, wrong check bits and headers without data are not |
| DeflateSamples.CheckBits | src/engine/external/stbi/stb_image.h:4438-4450 | every window size and level has a header that is accepted |
| DeflateEncoding.SymbolDecodes | src/engine/external/stbi/stb_image.h:4243-4271 | a symbol written with its code, most significant bit first, is read back |
| DeflateEncoding.TokenDecodes | src/engine/external/stbi/stb_image.h:4313-4355 | every literal and match, with any choice of symbols and extra bits, is read back |
| DeflateEncoding.RunsDecode | src/engine/external/stbi/stb_image.h:4379-4402 | every way to write the code lengths with symbols 0 to 18 is read back |
| DeflateEncoding.HeaderDecodes | src/engine/external/stbi/stb_image.h:4359-4407 | every dynamic header is read back, including the permuted code length code |
| DeflateEncoding.StoredDecodes | src/engine/external/stbi/stb_image.h:4409-4436 | every stored block is read back, whatever pads it to a byte |
| DeflateEncoding.StreamDecodes | src/engine/external/stbi/stb_image.h:4481-4508 | every stream of stored, fixed and dynamic blocks decodes to the data it was made from |
| DeflateEncoding.InflateInvertsDeflate | src/engine/external/stbi/stb_image.h:4481-4508 | the same for the stream packed into bytes, with anything before and after it |
| ZlibDecode.DecodeInvertsEncode | src/engine/external/stbi/stb_image.h:4541-4590 | for every encoding of the data, the result that the entry points are bound to is the data |
| DeflateEncoding.StoreAllEncodes | src/engine/external/stbi/stb_image.h:4409-4436 | all data has such a stream, of stored blocks |
| DeflateEncoding.SmallHeaderOk | src/engine/external/stbi/stb_image.h:4359-4407 | dynamic headers as described exist |
| ZlibDecode.AllDataIsReached | src/engine/external/stbi/stb_image.h:4541-4590 | for all data there is a zlib input that inflates to it |
| PngFilter.PaethCorrect | src/engine/external/stbi/stb_image.h:4657-4668 | the rewritten predictor equals the one of section 6.6 of RFC 2083 for all bytes |
| PngFilter.ReconInvertsFilter | src/engine/external/stbi/stb_image.h:4754-4785 | reconstruction of a filtered scanline gives the scanline, for every filter type |
| PngFilter.UnfilterInvertsFilter | src/engine/external/stbi/stb_image.h:4737-4787 | the same for all scanlines of an image and every choice of filter type per line |
| PngUnfilter.Avg | src/engine/external/stbi/stb_image.h:4768-4773 | the averaging loop computes the reconstruction with the line above, and leaves that line alone |
| PngUnfilter.AvgFirst | src/engine/external/stbi/stb_image.h:4780-4784 | the filter used for averaging on the first line equals averaging with a line of zeros above |
| PngUnfilter.PaethRow | src/engine/external/stbi/stb_image.h:4774-4779 | the Paeth loop computes the reconstruction of section 6.6 |
| PngUnfilter.UnfilterRow | src/engine/external/stbi/stb_image.h:4751-4785 | every filter type, with the substitutions for the first line, is the reconstruction with the line above or zeros |
| PngImage.UnpackBits | src/engine/external/stbi/stb_image.h:4790-4817 | 1, 2 and 4 bit samples are taken from the high-order end of each byte, and scaled for grayscale |
| PngImage.AlphaExpand8 | src/engine/external/stbi/stb_image.h:4675-4693 | every pixel keeps its samples and gets an opaque alpha, also when done in place |
| PngImage.Write16 | src/engine/external/stbi/stb_image.h:4827-4852 | 16 bit samples are stored in the byte order of the platform with an opaque alpha of 65535 |
| PngImage.ExpandRow | src/engine/external/stbi/stb_image.h:4789-4852 | a line of the output is the pixels of the scanline, for every depth and channel count |
| PngImage.DecodeRows | src/engine/external/stbi/stb_image.h:4727-4853 | the row loop with two alternating line buffers decodes all scanlines, or fails exactly at a filter type above 4 |
| PngImage.CreateImageRaw | src/engine/external/stbi/stb_image.h:4696-4859 | succeeds exactly when all sizes are ints, there is enough data and no bad filter type, with the pixels of the image |
| PngImage.SizesFitIff | src/engine/external/stbi/stb_image.h:4712-4728 | the size checks hold exactly when the image, the bits of a scanline and the scanlines have sizes that are ints |
| PngImage.NothingWraps | src/engine/external/stbi/stb_image.h:4699-4720 | after the checks no 32-bit unsigned number of the function wraps around, though (width + 1) * y is never checked itself |
| PngPixels.DecodedPixel | src/engine/external/stbi/stb_image.h:4696-4859 | in every decoded image each pixel says the samples in its place in the scanlines: gray of 1, 2 and 4 bits is spread so that the largest sample is 255, other samples are themselves, 16-bit samples are two bytes in platform order, and an added alpha is opaque |
| PngPixels.ScaledSays | src/engine/external/stbi/stb_image.h:4790-4792 | the scale factor does that for every sample, depth and colour type |
| PngPixels.ImageSays | src/engine/external/stbi/stb_image.h:4788-4852 | the same for the image that an encoder's samples stand for, so also for what both round trips give |
| PngPixels.KnownPixel | src/engine/external/stbi/stb_image.h:4790-4817 | the bytes 00 80 as one pixel of one bit: 255 as gray, 1 as a palette index, with 255 as added alpha |
| PngPixels.FilterTypes | src/engine/external/stbi/stb_image.h:4754-4785 | the five filter types one by one, as section 6 of RFC 2083 defines them |
| PngPixels.PaethRule | src/engine/external/stbi/stb_image.h:4657-4668 | the predictor is the nearest neighbour of left + above - corner, with the order of preference of section 6.6 |
| PngPixels.KnownFilter | src/engine/external/stbi/stb_image.h:4754-4785 | two filtered bytes under two others, with each filter type |
| Sizes.Mul2SizesValidIff | src/engine/external/stbi/stb_image.h:1014-1021 | the division is true exactly when neither factor is negative and the product is an int |
| Sizes.Mad3SizesValidIff | src/engine/external/stbi/stb_image.h:1024-1035 | the same for a * b * c + add; also a * b must be an int, which matters when c is 0 |
| PngRoundTrip.PackedSamples | src/engine/external/stbi/stb_image.h:4790-4817 | a sample packed into a scanline is read back, for every depth |
| PngRoundTrip.ImageRoundTrip | src/engine/external/stbi/stb_image.h:4696-4859 | any image of samples, packed and filtered with any filter types, decodes to the pixels of those samples |
| Adam7.OnPattern | src/engine/external/stbi/stb_image.h:4873-4877 | each pass position carries the number of its pass in the 8 x 8 pattern of section 2.6 of RFC 2083 |
| Adam7.FirstPixels | src/engine/external/stbi/stb_image.h:4874-4877 | where each pass begins |
| Adam7.PosInjective | src/engine/external/stbi/stb_image.h:4890-4891 | a pass never writes a column or row twice |
| Adam7.Partition | src/engine/external/stbi/stb_image.h:4873-4895 | every pixel of the image belongs to exactly one pass and one position of it, inside that pass |
| PngInterlace.Scatter | src/engine/external/stbi/stb_image.h:4888-4895 | one pass lands on its own pixels, in bounds, and changes no other |
| PngInterlace.CreateImageInterlaced | src/engine/external/stbi/stb_image.h:4861-4904 | succeeds exactly when the size is an int and every pass that the image has can be decoded right behind the one before; then all seven are placed |
| PngInterlace.EveryPixel | src/engine/external/stbi/stb_image.h:4870-4904 | after success every pixel of the image is the one of the pass and position Adam7 assigns to it |
| PngPasses.MeantPixel | src/engine/external/stbi/stb_image.h:4788-4852 | the pixel in column px and row py of an image is made of the samples of that pixel alone |
| PngPasses.PassesStart | src/engine/external/stbi/stb_image.h:4878-4902 | each pass of an encoded image starts where the decoder looks for it, empty passes included |
| PngPasses.PassDecodes | src/engine/external/stbi/stb_image.h:4884-4887 | every pass of an encoded image decodes to its own pixels, with the other passes around it |
| PngPasses.PassesFitToo | src/engine/external/stbi/stb_image.h:4712-4728 | an image that passes the size checks as it is also passes them interlaced |
| PngPasses.InterlacedRoundTrip | src/engine/external/stbi/stb_image.h:4861-4904 | any image of samples, split into the seven passes, packed and filtered with any filter types, decodes to the pixels of the whole image |
| JpegCanonical.Contiguous | src/engine/external/stbi/stb_image.h:2014-2029 | the codes of annex C of ITU-T T.81 fill 16-bit space without a gap, in symbol order |
| JpegCanonical.BeginsUnique | src/engine/external/stbi/stb_image.h:2014-2029 | no window begins with two codes |
| JpegCanonical.FindSymbol | src/engine/external/stbi/stb_image.h:2123-2126 | every window below the end of the codes begins with one of them |
| JpegHuffman.JHuffman.Build | src/engine/external/stbi/stb_image.h:2003-2046 | accepts exactly the count lists with at most 256 symbols whose codes fit their sizes; the tables are then those of the code |
| JpegReader.AppendMeaning | src/engine/external/stbi/stb_image.h:2075-2092 | a byte is appended below the bits not yet used |
| JpegReader.GrowOk | src/engine/external/stbi/stb_image.h:2075-2092 | growing ends, with more than 24 bits or a marker |
| JpegReader.ConsumeMeaning | src/engine/external/stbi/stb_image.h:2143-2144 | taking n bits leaves the rest unchanged |
| JpegDecoder.Jpeg.GrowBufferUnsafe | src/engine/external/stbi/stb_image.h:2075-2092 | fills the buffer as the reader on values does, skipping stuffed zeros and stopping at a marker |
| JpegStream.GrowKeeps | src/engine/external/stbi/stb_image.h:2075-2092 | filling the buffer never changes the bits to come: the unused bits, the rest of the data up to the next marker without stuffed zeros, and zeros after that |
| JpegStream.ConsumeLeaves | src/engine/external/stbi/stb_image.h:2143-2144 | taking m bits removes the first m of the bits to come and no others |
| JpegStream.DecodeReads | src/engine/external/stbi/stb_image.h:2097-2146 | a symbol is decoded from the code that the next bits begin with and the bits behind it are left; there is none exactly if no code begins there or a marker cuts it short |
| JpegStream.ReceiveReads | src/engine/external/stbi/stb_image.h:2153-2166 | receive and extend takes the next k bits, or gives 0 and takes none if a marker cuts them short |
| JpegFile.DestuffInverts | src/engine/external/stbi/stb_image.h:2075-2092 | removing stuffed zeros gives all data back, whatever stands before and behind it |
| JpegFile.KnownMarkers | src/engine/external/stbi/stb_image.h:2079-2088 | fill bytes before a stuffed zero and before a marker |
| JpegBits.ReadSymbol | src/engine/external/stbi/stb_image.h:2097-2146 | a written code, in front of anything, is read as its symbol as long as the data holds it, and what follows is left |
| JpegBits.ReadValue | src/engine/external/stbi/stb_image.h:2153-2166 | the same for value bits |
| JpegDecoder.Jpeg.HuffDecode | src/engine/external/stbi/stb_image.h:2097-2146 | the value of the symbol that `Lookup` finds, and the reader behind it, or -1 |
| JpegReader.LookupIsDecodeIff | src/engine/external/stbi/stb_image.h:2097-2146 | what is found is the symbol whose code comes next, unless symbol index 255 comes next with a code of at most 9 bits and enough bits for it; exactly then it is wrong |
| JpegReader.LookupIsDecode | src/engine/external/stbi/stb_image.h:2097-2146 | it is right for every table without a symbol index 255 of at most 9 bits |
| JpegDecoder.ConfusedExample | src/engine/external/stbi/stb_image.h:2104-2115 | that case exists: for an accepted table the input FF 00 is decoded as index 254 with ten bits instead of index 255 with nine |
| JpegAc.NotConfused | src/engine/external/stbi/stb_image.h:2104-2115 | it never concerns a symbol index below 255 |
| JpegDecoder.AssertedCode | src/engine/external/stbi/stb_image.h:2136-2140 | the assertion of the slow path holds |
| JpegDecoder.Jpeg.ExtendReceive | src/engine/external/stbi/stb_image.h:2153-2166 | receives n bits and extends the sign as section F.2.2.1 of ITU-T T.81 does, without branches |
| JpegDecoder.Jpeg.BuildFastAc | src/engine/external/stbi/stb_image.h:2050-2073 | every entry that is made describes a code and its value bits within 9 bits, and every such combination that fits a byte has an entry |
| JpegAc.FacDecodes | src/engine/external/stbi/stb_image.h:2050-2073 | an entry stands for a Huffman symbol followed by receive and extend: same value, same bits used, same run |
| JpegAc.FastStepIsSlowStep | src/engine/external/stbi/stb_image.h:2235-2260 | with 16 bits buffered one fast step leaves the same coefficients, position and reader as Huffman decoding and receive-and-extend |
| JpegAc.StepsAgree | src/engine/external/stbi/stb_image.h:2235-2260 | at any step: with more bits in the entry than a marker has left over the fast path fails and the slow path stores the value of the entry; otherwise both give the same |
| JpegAc.FastBlockIsSlowBlock | src/engine/external/stbi/stb_image.h:2229-2262 | for every block: with and without the table the AC coefficients have the same status and values, except for blocks cut short by a marker in that way, and exactly these fail with the table |
| JpegAc.CutShortMeetsMarker | src/engine/external/stbi/stb_image.h:2229-2262 | only a marker that comes into view in the block cuts it short; blocks after a marker are never concerned |
| JpegAc.TableIsOptional | src/engine/external/stbi/stb_image.h:2210-2263 | the same for whole blocks with their DC coefficient, which also leave the same bits |
| JpegCutShort.CutShortExample | src/engine/external/stbi/stb_image.h:2239-2246 | a block that is rejected with the table and decoded without it |
| JpegDecoder.Jpeg.DecodeBlock | src/engine/external/stbi/stb_image.h:2210-2263 | decodes the block that `TableIsOptional` speaks of, for all accepted tables, or fails exactly when there is none |
| JpegZigzag.ZigzagOrder | src/engine/external/stbi/stb_image.h:2194-2207 | the table is a permutation that follows the path of figure 5 of ITU-T T.81 diagonal by diagonal, and gives the last place past the end |
| JpegZigzag.FigureRow | src/engine/external/stbi/stb_image.h:2194-2207 | it puts the coefficient that figure 5 has in row r and column c there |
| JpegZigzag.PathIsFigure | src/engine/external/stbi/stb_image.h:2194-2207 | the figure is filled along the path, direction by direction |
| JpegEncoding.SlowBlockReads | src/engine/external/stbi/stb_image.h:2229-2262 | AC coefficients written as runs and values, with any symbols of any code, are decoded to themselves, dequantized, in their places, and the bits behind them are left |
| JpegBlocks.DcReads | src/engine/external/stbi/stb_image.h:2213-2227 | the DC coefficient is the prediction plus the written difference, times its quantizer |
| JpegBlocks.NotCutShort | src/engine/external/stbi/stb_image.h:2238-2241 | the fast AC table never cuts a written block short |
| JpegBlocks.BlockReads | src/engine/external/stbi/stb_image.h:2210-2263 | decoding inverts encoding: what `DecodeBlock` leaves in row r and column c is the coefficient that figure 5 has there, dequantized, for every way to write the block, and the next block can follow |
| JpegFile.BlockInFile | src/engine/external/stbi/stb_image.h:2075-2263 | the same from the bytes of the file: packed, stuffed, and with anything around |
| JpegBlocks.EveryBlockHasTokens | src/engine/external/stbi/stb_image.h:2229-2262 | every block can be written with a code that has the needed symbols |
| JpegEncoding.ToInt16Means | src/engine/external/stbi/stb_image.h:2245-2245 | the conversion to short keeps what fits, and the low 16 bits otherwise |
| JpegAc.AddIntsValidMeans | src/engine/external/stbi/stb_image.h:1070-1075 | the test is true exactly when the sum is an int |
| JpegAc.Mul2ShortsValidIff | src/engine/external/stbi/stb_image.h:1078-1084 | true exactly when the product is a short, but for a second factor of -1 with a product that is not, and for two negative factors, where it is right only if both bounds agree |
| JpegAc.Mul2ShortsValidMeans | src/engine/external/stbi/stb_image.h:1078-1084 | so it is always right for a second factor of at least 0 |
| GifLzw.SkipBlock | src/engine/external/stbi/stb_image.h:6739-6743 | the end of the sub-blocks does not depend on their contents |
| GifLzw.StepOk | src/engine/external/stbi/stb_image.h:6729-6772 | every code keeps the dictionary well formed: no control code or stale entry is ever used, and codes never outgrow 12 bits |
| Gif.Gif.OutGifCode | src/engine/external/stbi/stb_image.h:6654-6689 | emits exactly the string of the code; prefixes are smaller codes, so the recursion ends |
| Gif.Gif.AddCode | src/engine/external/stbi/stb_image.h:6749-6759 | the new entry is the previous string with the first index of the current one, also for the code that is just being added |
| Gif.Gif.SingleIndices | src/engine/external/stbi/stb_image.h:6733-6738 | after a clear code the first entries are still those of the single indices |
| Gif.MaskTest | src/engine/external/stbi/stb_image.h:6763-6766 | the mask test is true exactly when the entries are a multiple of the code space and the width is below 12 |
| GifLzw.StepWidth | src/engine/external/stbi/stb_image.h:6763-6766 | for code sizes of 2 to 11 that keeps the code width at the least number of bits for the next entry, up to 12 |
| GifLzw.WidthIs | src/engine/external/stbi/stb_image.h:6763-6766 | and that width depends on the number of entries alone |
| Gif.Gif.ProcessCode | src/engine/external/stbi/stb_image.h:6729-6772 | one code does what the reference expansion of appendix F of GIF89a does, and fails exactly when it does |
| Gif.TakeCode | src/engine/external/stbi/stb_image.h:6729-6731 | a code is the next bits of the data, least significant first |
| Gif.Gif.ProcessGifRaster | src/engine/external/stbi/stb_image.h:6691-6774 | for every code size: succeeds exactly when it is at most 12 and the codes are correct, emits the indices they stand for, and leaves the input behind the last sub-block |
| GifEncoding.DecodeInvertsEncoding | src/engine/external/stbi/stb_image.h:6729-6772 | every LZW encoding, greedy or not and with clear codes anywhere, decodes to the data it was made from |
| GifEncoding.RunInvertsWriting | src/engine/external/stbi/stb_image.h:6713-6772 | codes written bit by bit with the width that grows and is reset are read back to the data |
| GifEncoding.DataOfBlocks | src/engine/external/stbi/stb_image.h:6713-6726 | sub-blocks, however the data is cut, give the data back and end at the empty one |
| GifEncoding.RasterRoundTrip | src/engine/external/stbi/stb_image.h:6691-6774 | the bytes of any encoding of the indices, in sub-blocks, behind the code size: what `ProcessGifRaster` emits is the indices, and it stops behind the last sub-block |
| GifEncoding.ImageRoundTrip | src/engine/external/stbi/stb_image.h:6729-6772 | the same on the level of codes |
| GifEncoding.AllDataHasEncoding | src/engine/external/stbi/stb_image.h:6729-6772 | all data of legal indices has such an encoding |
| GifPlacement.EachRowOnce | src/engine/external/stbi/stb_image.h:6679-6688 | the rows of an interlaced or plain frame arrive in the order of appendix E of GIF89a, each exactly once |
| GifPlacement.EachPixelOnce | src/engine/external/stbi/stb_image.h:6664-6688 | each pixel of the frame is visited exactly once, and no other pixel is |
| GifPlacement.VisitCount | src/engine/external/stbi/stb_image.h:6664-6688 | width times height indices fill the frame |
| GifPlacement.VisitNumber | src/engine/external/stbi/stb_image.h:6664-6688 | the n-th index belongs to the n-th pixel, counting row by row in arrival order |
| GifPlacement.VisitsDistinct | src/engine/external/stbi/stb_image.h:6664-6688 | visited pixels lie on the canvas and are never visited again |
| Gif.Gif.PutIndex | src/engine/external/stbi/stb_image.h:6664-6688 | one index colours and marks the pixel at the cursor and moves on; after the last pixel it does nothing |
| Gif.Gif.PaintFrame | src/engine/external/stbi/stb_image.h:6879-6892 | fails exactly for incorrect codes; otherwise the n-th index has coloured and marked the n-th pixel and nothing else has changed |
| GifColors.ParseColorTable | src/engine/external/stbi/stb_image.h:6597-6606 | reads the colours of a table, three bytes each, red first, with one transparent index; the others stay |
| Gif.Gif.LoadFrame | src/engine/external/stbi/stb_image.h:6845-6906 | fails exactly for a frame outside the canvas, a missing colour table or incorrect codes; otherwise the pixel of the n-th index has red, green and blue of the file in that order and is opaque, or is as it was for a transparent index; all other pixels are as they were, or have the background entry as it stands in the table |
| GifColors.PaintedIsShown | src/engine/external/stbi/stb_image.h:6669-6675 | painting with a table from the file gives each pixel the three bytes of its colour, or leaves it |
| Gif.Gif.ReadGlobalTable | src/engine/external/stbi/stb_image.h:6634-6635 | the global table is read without a transparent colour |
| Gif.Gif.SetGraphicControl | src/engine/external/stbi/stb_image.h:6912-6934 | the transparent index changes, and of the colours of the table exactly that one is transparent |
| Gif.Gif.FillBackground | src/engine/external/stbi/stb_image.h:6894-6903 | unmarked pixels get the background entry, made opaque |
| GifSamples.KnownRaster | src/engine/external/stbi/stb_image.h:6691-6774 | the bytes 02 02 8c 0b 00 are three indices 1: a clear code, the string just being added, an end code |
| GifSamples.KnownDescriptor | src/engine/external/stbi/stb_image.h:6849-6876 | an image descriptor, byte for byte, and the sizes of colour tables |
| GifSamples.WholeCanvas | src/engine/external/stbi/stb_image.h:6853-6854 | a frame may cover the whole canvas and no more |
| GifSamples.KnownOrder | src/engine/external/stbi/stb_image.h:6679-6688 | nine interlaced rows arrive as 0 8 4 2 6 1 3 5 7 |
| GifPlacement.Picture | src/engine/external/stbi/stb_image.h:6839-6891 | the whole canvas after a frame, pixel by pixel |
| PsdRle.UnpackInvertsPacking | src/engine/external/stbi/stb_image.h:6088-6124 | every PackBits encoding of section 9 of TIFF 6.0, with no-op bytes anywhere, is unpacked to its data |
| PsdRle.UnpackReadsPackets | src/engine/external/stbi/stb_image.h:6088-6124 | whatever is unpacked is the meaning of the packets that stand in the input, and reading stops right behind them |
| PsdRle.UnpackLength | src/engine/external/stbi/stb_image.h:6092-6121 | on success exactly the asked number of bytes results |
| PsdRle.DecodeRle | src/engine/external/stbi/stb_image.h:6088-6124 | ends on every input; fails exactly when a packet is too long; otherwise writes the unpacked bytes four apart and touches nothing else |
| PsdRle.LoadChannels | src/engine/external/stbi/stb_image.h:6226-6242 | all four channels hold their planes: stored ones in turn, missing ones 0, missing opacity 255 |
| PsdChannels.PlanesInvertPacking | src/engine/external/stbi/stb_image.h:6226-6242 | the packed channels of an image, one behind the other, are unpacked to their data; missing colours are 0 and a missing opacity is 255 |
| NetBuffer.NetMode.GetAllIncomingMessages | src/engine/net/net_core.cpp:29-120 | a datagram is buffered exactly if magic, size and type are right, with as many bytes as its size field says, whatever they are; the 65th message is lost with all but the oldest |
| NetBuffer.NetMode.GetMessage | src/engine/net/net_core.cpp:122-130 | takes the newest message |
| NetBuffer.OlderIsNotFirst | src/engine/net/net_core.cpp:122-130 | a message is never taken before a newer one that waits with it |
| NetBuffer.TooManyWait | src/engine/net/net_core.cpp:103-120 | when 65 messages arrive before one is taken, only the oldest is ever taken |
| NetBuffer.InOrderIffDrained | src/engine/net/net_core.cpp:29-130 | different messages are taken in arrival order, and all of them, if and only if each arrives at an empty buffer and the last one is taken |
| WorldTransfer.HeaderRoundTrip | src/engine/net/server/server_core.cpp:58-64 | the client reads the map size that the server has announced, behind a name of any length that fits |
| WorldTransfer.KnownHeader | src/engine/net/server/server_core.cpp:58-64 | an announcement, byte for byte |
| WorldTransfer.Server.ClientSendWorldChunk | src/engine/net/server/server_core.cpp:67-100 | sends the next 1400 bytes or the rest, and advances by as much |
| WorldTransfer.Server.TickDownloads | src/engine/net/server/server_core.cpp:158-169 | every downloading client gets its next chunk, the others nothing, and no other record changes |
| WorldTransfer.Client.ConnectDownloadWorldChunk | src/engine/net/client/client_auth.cpp:37-68 | a chunk is copied behind what has been received, and the last one ends the download; the flag is set exactly for a chunk that does not fit the map |
| WorldTransfer.Client.TickNetworkConnecting | src/engine/net/client/client_auth.cpp:71-152 | every phase does what the transition relation says, for every message, and sends what it says |
| WorldTransfer.Client.Tick | src/engine/net/client/client_core.cpp:64-107 | handles the newest message, or a shutdown, or nothing |
| WorldTransfer.Server.ClientNew | src/engine/net/server/server_auth.cpp:23-78 | a hello is answered, with status 0, exactly if the version is right, the client is new and there is room; then the client is entered; otherwise nothing is sent and nothing changes |
| DownloadSystem.StepLaw | src/engine/net/client/client_auth.cpp:71-152 | any step, in any order, keeps this: the client's map begins with the chunks it took, one behind the other, and has the size that was read |
| DownloadSystem.FinalTiles | src/engine/net/net_core.cpp:122-130 | over all runs, drained or not: a client that lets go has the chunks it took as its map, and so the server's map if and only if it has read the right size and these chunks make up the map |
| DownloadSystem.EachInItsPlace | src/engine/net/server/server_core.cpp:67-100 | full packets make up the map if and only if each of them is the chunk of the map in its place |
| DownloadAdmission.OnlyAdmittedClientsDownload | src/engine/net/client/client_auth.cpp:83-118 | over all runs, with answers of any status and in any order: a client past its hello has taken a SERVER_HELLO with status 0 |
| DownloadAdmission.OnlyRefusedClientsGiveUp | src/engine/net/client/client_auth.cpp:83-118 | over all runs, a client is UNCONNECTED exactly if it has taken a SERVER_HELLO with another status; no other message makes it give up |
| DownloadAdmission.RefusedForGood | src/engine/net/client/client_auth.cpp:102-116 | a client that takes another status while it waits is UNCONNECTED from then on, never asks for the world, and takes nothing of it |
| DownloadAdmission.ShutDownForGood | src/engine/net/client/client_core.cpp:79-90 | a client that takes the end of the server is DISCONNECTED from then on, and has sent its disconnect |
| DownloadAdmission.LeftForGood | src/engine/net/client/client_core.cpp:92-105 | a client that has left takes and sends nothing in any continuation |
| DownloadAdmission.IgnoredForEver | src/engine/net/server/server_auth.cpp:57-77 | a client whose hello is not answered waits for ever: no continuation lets it in or tells it anything |
| DownloadProtocol.PendingAccepted | src/engine/net/net_core.cpp:52-78 | every message of a download passes the checks of the receiving end |
| DownloadProtocol.ServerInv | src/engine/net/server/server_core.cpp:171-207 | a tick of the server keeps the protocol invariant |
| DownloadProtocol.ClientInv | src/engine/net/client/client_auth.cpp:71-152 | a tick of the client keeps the protocol invariant |
| DownloadProtocol.StepInv | src/engine/net/server/server_core.cpp:58-207 | every step of server, link or client keeps the protocol invariant, with notices at any time |
| DownloadProtocol.Conservation | src/engine/net/client/client_auth.cpp:37-68 | in every reachable state: the client has a prefix of the map, and its progress and the bytes on their way are the server's progress, at most the size of the world |
| DownloadProtocol.EqualMapsIffSizeRead | src/engine/net/client/client_auth.cpp:126-141 | over all drained runs: a client that lets go has the server's map if and only if the message it took for the announcement holds the size of the world; otherwise it has a part of the map |
| DownloadProtocol.OverrunOnlyIfSizeMisread | src/engine/net/client/client_auth.cpp:50-56 | a chunk runs past the end of the client's map only if the size was misread, and the misread size is 0 or no multiple of a packet |
| DownloadRuns.OneStepCloser | src/engine/net/server/server_core.cpp:67-100 | from every state on track some step brings the download closer to its end and stays on track |
| DownloadRuns.CanComplete | src/engine/net/client/client_auth.cpp:71-152 | so some steps lead to a connected client with the server's map |
| DownloadRuns.InRounds | src/engine/net/server/server_core.cpp:67-100 | with nothing on its way the rest takes as many rounds as there are packets left |
| DownloadRuns.PacketsRoundUp | src/engine/net/server/server_core.cpp:75-80 | the number of packets is the number of bytes divided by 1400, rounded up |
| DownloadOffTrack.StepOffTrack | src/engine/net/client/client_auth.cpp:126-141 | a state that is off track stays so: the client has read a wrong size, or cannot avoid to |
| DownloadOffTrack.CompletesIffOnTrack | src/engine/net/client/client_auth.cpp:71-152 | in every reachable state with a running server and an admitted client that has not left, some continuation completes the download if and only if the state is on track |
| DownloadExamples.EveryWorldCanBeDownloaded | src/engine/net/client/client_auth.cpp:71-152 | for every world some run leads from the first hello to a connected client with the server's map |
| DownloadExamples.NoticeTakenForAnnouncement | src/engine/net/client/client_auth.cpp:126-141 | for every world and every notice there is a run from the first hello, with a drained buffer, in which the client reads the size of its map from the notice |
| DownloadExamples.NoticeWithoutSize | src/engine/net/client/client_auth.cpp:126-141 | there are notices from which no world's size is read |
| DownloadExamples.WrongForGood | src/engine/net/client/client_auth.cpp:126-141 | once a wrong size has been read, no continuation ends with the server's map |
| DownloadExamples.WaitingChunksAreSwapped | src/engine/net/net_core.cpp:122-130 | for every world of two packets there is a run from the first hello in which two chunks wait together and end up exchanged |

## Left out

- ZBuf.Inflater.Zexpand: needs a positive capacity when the buffer may grow, because with a capacity of 0 the doubling of the original does not end (`ZBuf.DoublingEnds`). Failing allocations are not modelled, capacities up to 2^32 - 1 are.
- ZlibDecode.DecodeMalloc: needs a positive initial size for the same reason; the Adler-32 checksum is not read by the code and not modelled.
- PngImage.CreateImageRaw: the byte order of 16-bit samples is a parameter.
- GifEncoding.RasterRoundTrip: encodings are described for code sizes of 2 to 8, as the format has them; decoding is modelled for all.
- Gif.Gif.LoadFrame: positions count pixels instead of bytes and a pixel is a value of four bytes; disposal of earlier frames is not modelled.
- PsdRle.LoadChannels: starts behind the row lengths; 16-bit channels and the removal of white matte are not modelled.
- NetBuffer.NetMode.GetAllIncomingMessages: what stands in memory behind a datagram, which is read if its size field is too large, is a parameter.
- WorldTransfer.HeaderRoundTrip: the name ends within its field of 48 bytes; what stands behind a received message is read as zeros, and the product of a misread width and height is not cut to 32 bits.
- WorldTransfer.Server.ClientNew: the notices to other clients and the removal of clients are not modelled; a hello is a message without its version and name in the runs, which both are parameters here.
- WorldTransfer.Client.ConnectDownloadWorldChunk: says that a chunk does not fit, and nothing about the memory that is then overwritten.
- DownloadProtocol.StepInv: the link is lossless and keeps the order, and what the server sends because of other clients is present as notices of any contents.
- The long functions of the original are split into several methods, with early returns in place of leaving nested loops.
- PNG chunks, palettes, iPhone images, and the BMP, TGA, PIC, PNM and HDR formats: long lists of cases with shallow properties.
- JPEG progressive mode, IDCT, upsampling and colour conversion, and the SIMD kernels: finite or floating-point arithmetic per byte.
- Input through callbacks: all decoders read from memory.
- Windowing, rendering, input, audio, sockets, scripting, logging, files, world generation, commands and variables of the engine.
