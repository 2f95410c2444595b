/** The playlist (.mpls) decoder: big-endian field readers and `parseMPLS`,
    which checks the "MPLS" signature, searches for the "PITM" word that the
    code takes as the start of its play-item table, walks fixed-stride records
    and builds the segment list with cumulative chapter times.

    C++ unsigned arithmetic is written out: `uint32_t` sums, differences and
    products are taken modulo 2^32, `uint64_t` ones modulo 2^64. A byte the
    code would read from outside its buffer is undefined behaviour in C++;
    the model refuses the file instead, with the failure `UndefinedRead(offset)`
    naming where the offending field starts. */
module MplsParser {
  import opened Wrappers
  import opened Text
  import opened Fs

  /** The signature constant as the code writes it. Read big-endian, as the
      code reads it, it spells "PMLS", so a file starting with "MPLS" never
      matches it. */
  const MplsMagicAsWritten: nat := 0x504D4C53
  /** The big-endian value of the four bytes "MPLS" that start a playlist. */
  const MplsMagic: nat := 0x4D504C53
  const PlaylistMarkStart: nat := 0x4D4C504D  // "MLPM", declared by the code, never used
  const PlayItemStart: nat := 0x5049544D      // "PITM"

  const TwoTo32: nat := 0x1_0000_0000
  const TwoTo64: nat := 0x1_0000_0000_0000_0000

  /** One play item: the clip file and its in/out times in milliseconds. */
  datatype Segment = Segment(m2tsPath: string, startTime: nat, endTime: nat)

  /** The decoded playlist; `parseMPLS` fills a caller's value of this type. */
  datatype MplsInfo = MplsInfo(duration: nat, segments: seq<Segment>, chapterTimes: seq<nat>)

  /** Why `parseMPLS` returned false (each kind is one of its log messages),
      or where the code would read outside its buffer. */
  datatype ParseError =
    | ReadFailed                   // the file could not be opened or read
    | InvalidFile                  // shorter than 16 bytes, or wrong signature
    | NoPlayItems                  // no "PITM" word found, or an item count of 0
    | InvalidItemOffset(item: nat) // record `item` ends past the end of the buffer
    | ClipMissing(path: string)    // the clip file of a record does not exist
    | UndefinedRead(offset: nat)   // a field the code reads from `offset` on ends past the buffer

  // ---------------------------------------------------------------------------
  // Big-endian fields
  // ---------------------------------------------------------------------------

  function Pow256(n: nat): (p: nat)
    ensures p >= 1
  {
    if n == 0 then 1 else 256 * Pow256(n - 1)
  }

  /** The unsigned number whose big-endian encoding is `s`. */
  function BigEndian(s: seq<byte>): nat
  {
    if s == [] then 0 else BigEndian(s[..|s| - 1]) * 256 + s[|s| - 1]
  }

  /** The n-byte big-endian encoding of v (v taken modulo 256^n). */
  function ToBigEndian(v: nat, n: nat): (s: seq<byte>)
    ensures |s| == n
  {
    if n == 0 then [] else ToBigEndian(v / 256, n - 1) + [v % 256]
  }

  lemma {:induction false} BigEndianBound(s: seq<byte>)
    ensures BigEndian(s) < Pow256(|s|)
    decreases |s|
  {
    if s != [] {
      BigEndianBound(s[..|s| - 1]);
    }
  }

  /** Decoding an encoding gives the number back. */
  lemma {:induction false} BigEndianOfEncoding(v: nat, n: nat)
    requires v < Pow256(n)
    ensures BigEndian(ToBigEndian(v, n)) == v
    decreases n
  {
    if n > 0 {
      BigEndianOfEncoding(v / 256, n - 1);
      var s := ToBigEndian(v, n);
      assert s[..n - 1] == ToBigEndian(v / 256, n - 1);
    }
  }

  /** Encoding a decoded field gives the bytes back. */
  lemma {:induction false} EncodingOfBigEndian(s: seq<byte>)
    ensures ToBigEndian(BigEndian(s), |s|) == s
    decreases |s|
  {
    if s != [] {
      var init := s[..|s| - 1];
      EncodingOfBigEndian(init);
      assert (BigEndian(init) * 256 + s[|s| - 1]) / 256 == BigEndian(init);
      assert s == init + [s[|s| - 1]];
    }
  }

  /** The big-endian value of 4 or 8 bytes, weighted byte by byte. */
  lemma BigEndianUnfold(s: seq<byte>)
    requires |s| == 4 || |s| == 8
    ensures |s| == 4 ==> BigEndian(s) == s[0] as int * 0x100_0000 + s[1] as int * 0x1_0000
                                         + s[2] as int * 0x100 + s[3] as int
    ensures |s| == 8 ==> BigEndian(s) == s[0] as int * 0x100_0000_0000_0000 + s[1] as int * 0x1_0000_0000_0000
                                         + s[2] as int * 0x100_0000_0000 + s[3] as int * 0x1_0000_0000
                                         + s[4] as int * 0x100_0000 + s[5] as int * 0x1_0000
                                         + s[6] as int * 0x100 + s[7] as int
  {
    BigEndianPrefix4(s);
    if |s| == 8 {
      BigEndianStep(s, 5); BigEndianStep(s, 6); BigEndianStep(s, 7); BigEndianStep(s, 8);
      assert s[..8] == s;
    } else {
      assert s[..4] == s;
    }
  }

  lemma BigEndianPrefix4(s: seq<byte>)
    requires |s| >= 4
    ensures BigEndian(s[..4]) == s[0] as int * 0x100_0000 + s[1] as int * 0x1_0000
                                 + s[2] as int * 0x100 + s[3] as int
  {
    assert s[..0] == [];
    BigEndianStep(s, 1);
    BigEndianStep(s, 2);
    BigEndianStep(s, 3);
    BigEndianStep(s, 4);
  }

  lemma BigEndianStep(s: seq<byte>, k: nat)
    requires 1 <= k <= |s|
    ensures BigEndian(s[..k]) == BigEndian(s[..k - 1]) * 256 + s[k - 1]
  {
    assert s[..k][..k - 1] == s[..k - 1];
  }

  /** readBE32: the four bytes at `pos` as b0*2^24 + b1*2^16 + b2*2^8 + b3. */
  function ReadBE32(buf: seq<byte>, pos: nat): (v: nat)
    requires pos + 4 <= |buf|
    ensures v < TwoTo32
  {
    buf[pos] as int * 0x100_0000 + buf[pos + 1] as int * 0x1_0000
    + buf[pos + 2] as int * 0x100 + buf[pos + 3] as int
  }

  /** readBE64: the eight bytes at `pos` as b0*2^56 + ... + b7. */
  function ReadBE64(buf: seq<byte>, pos: nat): (v: nat)
    requires pos + 8 <= |buf|
    ensures v < TwoTo64
  {
    buf[pos] as int * 0x100_0000_0000_0000 + buf[pos + 1] as int * 0x1_0000_0000_0000
    + buf[pos + 2] as int * 0x100_0000_0000 + buf[pos + 3] as int * 0x1_0000_0000
    + buf[pos + 4] as int * 0x100_0000 + buf[pos + 5] as int * 0x1_0000
    + buf[pos + 6] as int * 0x100 + buf[pos + 7] as int
  }

  /** The two readers decode the big-endian field at `pos`. */
  lemma ReadersAreBigEndian(buf: seq<byte>, pos: nat)
    ensures pos + 4 <= |buf| ==> ReadBE32(buf, pos) == BigEndian(buf[pos..pos + 4])
    ensures pos + 8 <= |buf| ==> ReadBE64(buf, pos) == BigEndian(buf[pos..pos + 8])
  {
    if pos + 4 <= |buf| {
      BigEndianUnfold(buf[pos..pos + 4]);
    }
    if pos + 8 <= |buf| {
      BigEndianUnfold(buf[pos..pos + 8]);
    }
  }

  /** readBE32 and readBE64 invert the big-endian encodings of 32- and 64-bit values. */
  lemma ReadBigEndianRoundTrip(v32: nat, v64: nat)
    requires v32 < TwoTo32 && v64 < TwoTo64
    ensures ReadBE32(ToBigEndian(v32, 4), 0) == v32
    ensures ReadBE64(ToBigEndian(v64, 8), 0) == v64
  {
    assert Pow256(4) == TwoTo32 && Pow256(8) == TwoTo64;
    ReadersAreBigEndian(ToBigEndian(v32, 4), 0);
    ReadersAreBigEndian(ToBigEndian(v64, 8), 0);
    BigEndianOfEncoding(v32, 4);
    BigEndianOfEncoding(v64, 8);
    assert ToBigEndian(v32, 4)[0..4] == ToBigEndian(v32, 4);
    assert ToBigEndian(v64, 8)[0..8] == ToBigEndian(v64, 8);
  }

  // ---------------------------------------------------------------------------
  // The play-item table search
  // ---------------------------------------------------------------------------

  /** The search loop `for (i = from; i < size - 8; i += 4)`: the first
      offset whose big-endian word is "PITM", every other word skipped. */
  function FindPlayItemTable(buf: seq<byte>, from: nat): (r: Option<nat>)
    ensures r.Some? ==> from <= r.value && r.value + 8 < |buf|
    decreases |buf| - from
  {
    if from + 8 >= |buf| then None
    else if ReadBE32(buf, from) == PlayItemStart then Some(from)
    else FindPlayItemTable(buf, from + 4)
  }

  /** The search finds the FIRST "PITM" word on the 4-byte grid starting at
      `from`, and finds none only when there is none. */
  lemma {:induction false} FindPlayItemTableFirst(buf: seq<byte>, from: nat)
    ensures var r := FindPlayItemTable(buf, from);
      r.Some? ==> var i := r.value;
        && (i - from) % 4 == 0 && ReadBE32(buf, i) == PlayItemStart
        && forall j | from <= j < i && (j - from) % 4 == 0 :: ReadBE32(buf, j) != PlayItemStart
    ensures FindPlayItemTable(buf, from).None? ==>
      forall j | from <= j && j + 8 < |buf| && (j - from) % 4 == 0 :: ReadBE32(buf, j) != PlayItemStart
    decreases |buf| - from
  {
    if from + 8 < |buf| && ReadBE32(buf, from) != PlayItemStart {
      FindPlayItemTableFirst(buf, from + 4);
      var r := FindPlayItemTable(buf, from);
      assert r == FindPlayItemTable(buf, from + 4);
      forall j | from <= j && j + 8 < |buf| && (j - from) % 4 == 0 && (r.Some? ==> j < r.value)
        ensures ReadBE32(buf, j) != PlayItemStart
      {
        if j != from {
          GridStep(from, j);
        }
      }
      if r.Some? {
        GridStep(from, r.value);
      }
    }
  }

  /** On the 4-byte grid from `from`, the next point after `from` is `from + 4`. */
  lemma GridStep(from: nat, j: nat)
    requires from < j
    ensures (j - from) % 4 == 0 <==> from + 4 <= j && (j - (from + 4)) % 4 == 0
  {
  }

  // ---------------------------------------------------------------------------
  // Records
  // ---------------------------------------------------------------------------

  /** `chunkLength - 8` in uint32: a chunk length below 8 wraps to a huge stride. */
  function Stride(chunkLength: nat): nat
  {
    (chunkLength - 8) % TwoTo32
  }

  /** `playItemOffset + i * playItemLength` in uint32. */
  function ItemOffset(tableStart: nat, stride: nat, k: nat): nat
  {
    (tableStart + (k * stride) % TwoTo32) % TwoTo32
  }

  /** `(t * 1000) / 45000` in uint64: disc clock ticks (1/45000 s) to milliseconds. */
  function TicksToMs(t: nat): nat
  {
    (t * 1000) % TwoTo64 / 45000
  }

  /** Without overflow the conversion is t/45 rounded down. */
  lemma TicksToMsFloor(t: nat)
    requires t * 1000 < TwoTo64
    ensures TicksToMs(t) == t / 45
  {
    var q, r := t / 45, t % 45;
    assert t * 1000 == 45000 * q + 1000 * r;
    assert 1000 * r < 45000;
  }

  lemma TicksToMsExamples()
    ensures TicksToMs(45000) == 1000
    ensures TicksToMs(450000) == 10000
    ensures TicksToMs(44999) == 999
  {
    TicksToMsFloor(45000);
    TicksToMsFloor(450000);
    TicksToMsFloor(44999);
  }

  /** `streamDir + "/" + sprintf("%05d.m2ts", clipIndex)`. */
  function ClipPath(streamDir: string, clip: nat): string
  {
    streamDir + "/" + ZeroPad(clip, 5) + ".m2ts"
  }

  /** Every clip path is the stream directory, a slash, exactly five digits
      spelling the clip index, and ".m2ts". */
  lemma ClipPathShape(streamDir: string, clip: nat)
    requires clip < 0x1_0000
    ensures var p := ClipPath(streamDir, clip);
      && |p| == |streamDir| + 11
      && p[..|streamDir|] == streamDir && p[|streamDir|] == '/'
      && AllDigits(p[|streamDir| + 1..|streamDir| + 6])
      && DecimalValue(p[|streamDir| + 1..|streamDir| + 6]) == clip
      && p[|streamDir| + 6..] == ".m2ts"
  {
    ZeroPadFacts(clip, 5);
    assert Pow10(5) == 100000;
    var p := ClipPath(streamDir, clip);
    assert p[|streamDir| + 1..|streamDir| + 6] == ZeroPad(clip, 5);
  }

  /** Record k of the table as the item loop handles it: the record at
      `offset = tableStart + k * stride`, with 32-bit wrap-around. */
  function DecodeItem(fs: FileSystem, buf: seq<byte>, streamDir: string,
                      tableStart: nat, stride: nat, k: nat): Result<Segment, ParseError>
  {
    DecodeRecord(fs, buf, streamDir, ItemOffset(tableStart, stride, k), stride, k)
  }

  /** Record k at `off`: the bounds check against `off + stride`, the reads
      at +16/+17 (clip index), +20 (in time) and +28 (out time), and the clip
      file existence check. */
  function DecodeRecord(fs: FileSystem, buf: seq<byte>, streamDir: string,
                        off: nat, stride: nat, k: nat): Result<Segment, ParseError>
  {
    var p16, p17 := (off + 16) % TwoTo32, (off + 17) % TwoTo32;
    var p20, p28 := (off + 20) % TwoTo32, (off + 28) % TwoTo32;
    if (off + stride) % TwoTo32 > |buf| then Err(InvalidItemOffset(k))
    else if p16 >= |buf| then Err(UndefinedRead(p16))
    else if p17 >= |buf| then Err(UndefinedRead(p17))
    else if p20 + 8 > |buf| then Err(UndefinedRead(p20))
    else if p28 + 8 > |buf| then Err(UndefinedRead(p28))
    else
      var clip := buf[p16] as int * 256 + buf[p17] as int;
      var path := ClipPath(streamDir, clip);
      if !fs.Exists(path) then Err(ClipMissing(path))
      else Ok(Segment(path, TicksToMs(ReadBE64(buf, p20)), TicksToMs(ReadBE64(buf, p28))))
  }

  /** What the loop body promises about the outcome `item` of record k: an
      offset failure exactly when the record passes the end of the buffer,
      and on success `RecordFields`. */
  predicate ItemFields(fs: FileSystem, buf: seq<byte>, streamDir: string,
                       tableStart: nat, stride: nat, k: nat, item: Result<Segment, ParseError>)
  {
    var off := ItemOffset(tableStart, stride, k);
    && (item == Err(InvalidItemOffset(k)) <==> (off + stride) % TwoTo32 > |buf|)
    && (item.Ok? ==> RecordFields(fs, buf, streamDir, off, stride, item.value))
  }

  /** A segment decoded from the record at `off`: the record fits in the
      buffer, every field was read inside it, the clip path is streamDir,
      "/", five digits spelling the clip index formed from the bytes at +16
      (high) and +17 (low), ".m2ts", and exists, and the times are the
      big-endian 64-bit fields at +20 and +28 converted to ms. */
  predicate RecordFields(fs: FileSystem, buf: seq<byte>, streamDir: string,
                         off: nat, stride: nat, seg: Segment)
  {
    var p16, p17 := (off + 16) % TwoTo32, (off + 17) % TwoTo32;
    var p20, p28 := (off + 20) % TwoTo32, (off + 28) % TwoTo32;
    var path, d := seg.m2tsPath, |streamDir|;
    && (off + stride) % TwoTo32 <= |buf|
    && p16 < |buf| && p17 < |buf| && p20 + 8 <= |buf| && p28 + 8 <= |buf|
    && fs.Exists(path)
    && |path| == d + 11 && path[..d] == streamDir && path[d] == '/'
    && IsNumeral(path[d + 1..d + 6], buf[p16] as int * 256 + buf[p17] as int)
    && path[d + 6..] == ".m2ts"
    && seg.startTime == TicksToMs(BigEndian(buf[p20..p20 + 8]))
    && seg.endTime == TicksToMs(BigEndian(buf[p28..p28 + 8]))
  }

  /** The decoder meets `ItemFields` for every record. */
  lemma DecodeItemFields(fs: FileSystem, buf: seq<byte>, streamDir: string,
                         tableStart: nat, stride: nat, k: nat)
    ensures ItemFields(fs, buf, streamDir, tableStart, stride, k,
                       DecodeItem(fs, buf, streamDir, tableStart, stride, k))
  {
    var off := ItemOffset(tableStart, stride, k);
    if DecodeRecord(fs, buf, streamDir, off, stride, k).Ok? {
      DecodedItemOk(fs, buf, streamDir, off, stride, k);
    }
  }

  /** A decoded record meets `RecordFields`. */
  lemma DecodedItemOk(fs: FileSystem, buf: seq<byte>, streamDir: string,
                      off: nat, stride: nat, k: nat)
    requires DecodeRecord(fs, buf, streamDir, off, stride, k).Ok?
    ensures RecordFields(fs, buf, streamDir, off, stride,
                         DecodeRecord(fs, buf, streamDir, off, stride, k).value)
  {
    var p16, p17 := (off + 16) % TwoTo32, (off + 17) % TwoTo32;
    var p20, p28 := (off + 20) % TwoTo32, (off + 28) % TwoTo32;
    var clip := buf[p16] as int * 256 + buf[p17] as int;
    SegmentFields(fs, buf, streamDir, off, stride,
                  Segment(ClipPath(streamDir, clip), TicksToMs(ReadBE64(buf, p20)), TicksToMs(ReadBE64(buf, p28))));
  }

  /** The segment built from the fields of an in-bounds record whose clip
      exists meets `RecordFields`. */
  lemma SegmentFields(fs: FileSystem, buf: seq<byte>, streamDir: string,
                      off: nat, stride: nat, seg: Segment)
    requires (off + stride) % TwoTo32 <= |buf|
    requires (off + 16) % TwoTo32 < |buf| && (off + 17) % TwoTo32 < |buf|
    requires (off + 20) % TwoTo32 + 8 <= |buf| && (off + 28) % TwoTo32 + 8 <= |buf|
    requires var clip := buf[(off + 16) % TwoTo32] as int * 256 + buf[(off + 17) % TwoTo32] as int;
      && seg == Segment(ClipPath(streamDir, clip), TicksToMs(ReadBE64(buf, (off + 20) % TwoTo32)),
                        TicksToMs(ReadBE64(buf, (off + 28) % TwoTo32)))
      && fs.Exists(ClipPath(streamDir, clip))
    ensures RecordFields(fs, buf, streamDir, off, stride, seg)
  {
    ClipPathNumeral(streamDir, buf[(off + 16) % TwoTo32] as int * 256 + buf[(off + 17) % TwoTo32] as int);
    ReadersAreBigEndian(buf, (off + 20) % TwoTo32);
    ReadersAreBigEndian(buf, (off + 28) % TwoTo32);
  }

  /** `ClipPathShape` with the five digits as a numeral. */
  lemma ClipPathNumeral(streamDir: string, clip: nat)
    requires clip < 0x1_0000
    ensures var p, d := ClipPath(streamDir, clip), |streamDir|;
      && |p| == d + 11 && p[..d] == streamDir && p[d] == '/'
      && IsNumeral(p[d + 1..d + 6], clip) && p[d + 6..] == ".m2ts"
  {
    ClipPathShape(streamDir, clip);
  }

  /** The outcomes of records 0..n-1, each decoded on its own. */
  function Records(fs: FileSystem, buf: seq<byte>, streamDir: string,
                   tableStart: nat, stride: nat, n: nat): (rs: seq<Result<Segment, ParseError>>)
    ensures |rs| == n
  {
    seq(n, k requires 0 <= k < n => DecodeItem(fs, buf, streamDir, tableStart, stride, k))
  }

  /** Walks outcomes in order, stopping at the first failure: the segments
      before it and the failure, if any. */
  function Collect(rs: seq<Result<Segment, ParseError>>): (r: (seq<Segment>, Option<ParseError>))
    ensures |r.0| <= |rs|
    ensures r.1.None? ==> |r.0| == |rs|
  {
    if rs == [] then ([], None)
    else
      var (segs, err) := Collect(rs[..|rs| - 1]);
      if err.Some? then (segs, err)
      else match rs[|rs| - 1]
        case Err(e) => (segs, Some(e))
        case Ok(s) => (segs + [s], None)
  }

  /** The item loop over n records: the segments decoded before the first
      failing record, and that record's failure. */
  function DecodeItems(fs: FileSystem, buf: seq<byte>, streamDir: string,
                       tableStart: nat, stride: nat, n: nat): (seq<Segment>, Option<ParseError>)
  {
    Collect(Records(fs, buf, streamDir, tableStart, stride, n))
  }

  /** Each collected segment is the outcome at its position, and a failure is
      the outcome right after the last collected segment. */
  lemma {:induction false} CollectFacts(rs: seq<Result<Segment, ParseError>>)
    ensures forall k | 0 <= k < |Collect(rs).0| :: rs[k] == Ok(Collect(rs).0[k])
    ensures Collect(rs).1.Some? ==> |Collect(rs).0| < |rs| && rs[|Collect(rs).0|] == Err(Collect(rs).1.value)
    decreases |rs|
  {
    if rs != [] {
      var init := rs[..|rs| - 1];
      CollectFacts(init);
      var (segs, err) := Collect(init);
      if err.None? && rs[|rs| - 1].Ok? {
        var all := segs + [rs[|rs| - 1].value];
        forall k | 0 <= k < |all|
          ensures rs[k] == Ok(all[k])
        {
          if k < |segs| {
            assert rs[k] == init[k];
          }
        }
      }
    }
  }

  /** Collecting one more outcome after a prefix that had no failure. */
  lemma CollectPush(rs: seq<Result<Segment, ParseError>>, x: Result<Segment, ParseError>)
    requires Collect(rs).1.None?
    ensures Collect(rs + [x]) == if x.Ok? then (Collect(rs).0 + [x.value], None) else (Collect(rs).0, Some(x.error))
  {
    assert (rs + [x])[..|rs|] == rs;
  }

  /** Once an outcome fails, later outcomes are never looked at. */
  lemma {:induction false} CollectStops(rs: seq<Result<Segment, ParseError>>, k: nat)
    requires k < |rs|
    requires Collect(rs[..k]).1.None? && rs[k].Err?
    ensures Collect(rs) == (Collect(rs[..k]).0, Some(rs[k].error))
    decreases |rs|
  {
    if k + 1 < |rs| {
      var init := rs[..|rs| - 1];
      assert init[..k] == rs[..k];
      CollectStops(init, k);
    } else {
      CollectPush(rs[..k], rs[k]);
      assert rs[..k] + [rs[k]] == rs;
    }
  }

  lemma RecordsPrefix(fs: FileSystem, buf: seq<byte>, streamDir: string,
                      tableStart: nat, stride: nat, k: nat, n: nat)
    requires k <= n
    ensures Records(fs, buf, streamDir, tableStart, stride, n)[..k]
         == Records(fs, buf, streamDir, tableStart, stride, k)
  {
  }

  // ---------------------------------------------------------------------------
  // Durations and chapter times
  // ---------------------------------------------------------------------------

  /** `endTimeMs - startTimeMs` in uint64 (no check that the end is later). */
  function ItemDuration(s: Segment): nat
  {
    (s.endTime - s.startTime) % TwoTo64
  }

  /** The running uint64 total of the item durations. */
  function TotalDuration(segs: seq<Segment>): nat
  {
    if segs == [] then 0
    else (TotalDuration(segs[..|segs| - 1]) + ItemDuration(segs[|segs| - 1])) % TwoTo64
  }

  /** The exact (unbounded) sum of the item durations. */
  function SumDurations(segs: seq<Segment>): nat
  {
    if segs == [] then 0 else SumDurations(segs[..|segs| - 1]) + ItemDuration(segs[|segs| - 1])
  }

  /** The chapter time pushed before each item: the total so far. */
  function ChapterStarts(segs: seq<Segment>): (starts: seq<nat>)
    ensures |starts| == |segs|
  {
    if segs == [] then []
    else ChapterStarts(segs[..|segs| - 1]) + [TotalDuration(segs[..|segs| - 1])]
  }

  /** The value of `mplsInfo` once the segments `segs` have been pushed;
      `complete` adds the final chapter time pushed after the loop. */
  function InfoAfter(segs: seq<Segment>, complete: bool): MplsInfo
  {
    MplsInfo(TotalDuration(segs), segs,
             ChapterStarts(segs) + if complete then [TotalDuration(segs)] else [])
  }

  // ---------------------------------------------------------------------------
  // parseMPLS
  // ---------------------------------------------------------------------------

  /** The outcome of `parseMPLS`: its failure (None when it returns true)
      and the value the caller's `mplsInfo` holds afterwards. */
  datatype Parsed = Parsed(error: Option<ParseError>, info: MplsInfo)

  /** Reference definition of `parseMPLS(mplsPath, streamDir, info)`. */
  function ParseSpec(fs: FileSystem, mplsPath: string, streamDir: string, info: MplsInfo): Parsed
  {
    ParseWith(MplsMagic, fs, mplsPath, streamDir, info)
  }

  /** `parseMPLS` exactly as written, with its "PMLS" signature constant. */
  function ParseAsWritten(fs: FileSystem, mplsPath: string, streamDir: string, info: MplsInfo): Parsed
  {
    ParseWith(MplsMagicAsWritten, fs, mplsPath, streamDir, info)
  }

  /** The body of `parseMPLS`, for a given signature constant. */
  function ParseWith(magic: nat, fs: FileSystem, mplsPath: string, streamDir: string, info: MplsInfo): Parsed
  {
    match fs.ReadFile(mplsPath)
    case None => Parsed(Some(ReadFailed), info)
    case Some(buf) =>
      if |buf| < 16 || ReadBE32(buf, 0) != magic then Parsed(Some(InvalidFile), info)
      else match FindPlayItemTable(buf, 16)
        case None => Parsed(Some(NoPlayItems), MplsInfo(0, [], []))
        case Some(i) =>
          if i + 12 > |buf| then Parsed(Some(UndefinedRead(i + 8)), MplsInfo(0, [], []))
          else if ReadBE32(buf, i + 8) == 0 then Parsed(Some(NoPlayItems), MplsInfo(0, [], []))
          else ItemsParsed(fs, buf, streamDir, i + 12, Stride(ReadBE32(buf, i + 4)), ReadBE32(buf, i + 8))
  }

  /** The outcome of the item loop over `n` records from a cleared `mplsInfo`. */
  function ItemsParsed(fs: FileSystem, buf: seq<byte>, streamDir: string,
                       tableStart: nat, stride: nat, n: nat): Parsed
  {
    var (segs, err) := DecodeItems(fs, buf, streamDir, tableStart, stride, n);
    Parsed(err, InfoAfter(segs, err.None?))
  }

  /** parseMPLS: the header check, the table search loop, the read of the
      item count, then the item loop that pushes one segment and one chapter
      time per record and accumulates the duration in place. `info` is the
      caller's `mplsInfo` before the call, `info'` after it. */
  method ParseMpls(fs: FileSystem, mplsPath: string, streamDir: string, info: MplsInfo)
    returns (failure: Option<ParseError>, info': MplsInfo)
    ensures Parsed(failure, info') == ParseSpec(fs, mplsPath, streamDir, info)
    ensures fs.ReadFile(mplsPath).None? ==> failure == Some(ReadFailed) && info' == info
  {
    var file := fs.ReadFile(mplsPath);
    if file.None? {
      return Some(ReadFailed), info;
    }
    var buffer := file.value;
    var size := |buffer|;
    if size < 16 || ReadBE32(buffer, 0) != MplsMagic {
      return Some(InvalidFile), info;
    }

    info' := MplsInfo(0, [], []);

    var found, i := SearchPlayItemTable(buffer);
    if !found {
      return Some(NoPlayItems), info';
    }
    if i + 12 > size {
      return Some(UndefinedRead(i + 8)), info';
    }
    var chunkLength := ReadBE32(buffer, i + 4);
    var totalPlayItems := ReadBE32(buffer, i + 8);
    var playItemOffset := i + 12;
    var playItemLength := (chunkLength - 8) % TwoTo32;
    if totalPlayItems == 0 {
      return Some(NoPlayItems), info';
    }

    // Process each play item
    failure, info' := ReadPlayItems(fs, buffer, streamDir, playItemOffset, playItemLength, totalPlayItems);
  }

  /** The search loop of parseMPLS over `i = 16, 20, …` while `i < size - 8`,
      leaving at the first "PITM" word. */
  method SearchPlayItemTable(buffer: seq<byte>) returns (found: bool, i: nat)
    ensures found <==> FindPlayItemTable(buffer, 16).Some?
    ensures found ==> i == FindPlayItemTable(buffer, 16).value
  {
    found := false;
    i := 16;
    while i + 8 < |buffer|
      invariant FindPlayItemTable(buffer, i) == FindPlayItemTable(buffer, 16)
      decreases |buffer| - i
    {
      var chunkType := ReadBE32(buffer, i);
      if chunkType == PlayItemStart {
        found := true;
        return;
      }
      i := i + 4;
    }
  }

  /** The item loop of parseMPLS, from a cleared `mplsInfo`: one segment and
      one chapter time pushed per record, the duration accumulated in place,
      and the final chapter time pushed once every record is decoded. */
  method ReadPlayItems(fs: FileSystem, buffer: seq<byte>, streamDir: string,
                       playItemOffset: nat, playItemLength: nat, totalPlayItems: nat)
    returns (failure: Option<ParseError>, info': MplsInfo)
    ensures failure == DecodeItems(fs, buffer, streamDir, playItemOffset, playItemLength, totalPlayItems).1
    ensures info'.segments == DecodeItems(fs, buffer, streamDir, playItemOffset, playItemLength, totalPlayItems).0
    ensures info'.duration == TotalDuration(info'.segments)
    ensures failure.Some? ==> info'.chapterTimes == ChapterStarts(info'.segments)
    ensures failure.None? ==> info'.chapterTimes == ChapterStarts(info'.segments) + [info'.duration]
    ensures Parsed(failure, info') == ItemsParsed(fs, buffer, streamDir, playItemOffset, playItemLength, totalPlayItems)
  {
    info' := MplsInfo(0, [], []);
    var currentChapterTime := 0;
    var k := 0;
    while k < totalPlayItems
      invariant 0 <= k <= totalPlayItems
      invariant DecodeItems(fs, buffer, streamDir, playItemOffset, playItemLength, k) == (info'.segments, None)
      invariant info'.duration == TotalDuration(info'.segments)
      invariant info'.chapterTimes == ChapterStarts(info'.segments)
      invariant currentChapterTime == info'.duration
    {
      var item := ReadPlayItem(fs, buffer, streamDir, playItemOffset, playItemLength, k);
      if item.Err? {
        DecodeItemsStops(fs, buffer, streamDir, playItemOffset, playItemLength, k, totalPlayItems, item);
        return Some(item.error), info';
      }
      DecodeItemsPush(fs, buffer, streamDir, playItemOffset, playItemLength, k, item);
      info', currentChapterTime := PushSegment(info', currentChapterTime, item.value);
      k := k + 1;
    }

    // Final chapter time (end of the title)
    info' := info'.(chapterTimes := info'.chapterTimes + [currentChapterTime]);
    failure := None;
  }

  /** The end of the item loop body: push the segment and the current
      chapter time, then add the item's duration to the running chapter time
      and to the total, both in uint64. */
  method PushSegment(info: MplsInfo, currentChapterTime: nat, segment: Segment)
    returns (info': MplsInfo, chapterTime': nat)
    requires info.duration == TotalDuration(info.segments)
    requires info.chapterTimes == ChapterStarts(info.segments)
    requires currentChapterTime == info.duration
    ensures info'.segments == info.segments + [segment]
    ensures info'.duration == TotalDuration(info'.segments)
    ensures info'.chapterTimes == ChapterStarts(info'.segments)
    ensures chapterTime' == info'.duration
  {
    var durationMs := (segment.endTime - segment.startTime) % TwoTo64;
    InfoAfterPush(info.segments, segment);
    info' := info.(segments := info.segments + [segment]);
    info' := info'.(chapterTimes := info'.chapterTimes + [currentChapterTime]);
    chapterTime' := (currentChapterTime + durationMs) % TwoTo64;
    info' := info'.(duration := (info'.duration + durationMs) % TwoTo64);
  }

  /** One pass of the item loop body up to the push: the offset check, the
      field reads and the clip existence check for record k. A record that
      decodes fits its stride and every field was read inside the buffer; its
      clip path is streamDir, "/", five digits spelling the clip index read
      from bytes +16 and +17, ".m2ts", and exists; its times are the 64-bit big-endian fields
      at +20 and +28 converted to ms. */
  method ReadPlayItem(fs: FileSystem, buffer: seq<byte>, streamDir: string,
                      playItemOffset: nat, playItemLength: nat, k: nat)
    returns (item: Result<Segment, ParseError>)
    ensures item == DecodeItem(fs, buffer, streamDir, playItemOffset, playItemLength, k)
    ensures ItemFields(fs, buffer, streamDir, playItemOffset, playItemLength, k, item)
  {
    var size := |buffer|;
    var itemOffset := (playItemOffset + (k * playItemLength) % TwoTo32) % TwoTo32;
    assert DecodeItem(fs, buffer, streamDir, playItemOffset, playItemLength, k)
        == DecodeRecord(fs, buffer, streamDir, itemOffset, playItemLength, k);
    var p16, p17 := (itemOffset + 16) % TwoTo32, (itemOffset + 17) % TwoTo32;
    var p20, p28 := (itemOffset + 20) % TwoTo32, (itemOffset + 28) % TwoTo32;
    if (itemOffset + playItemLength) % TwoTo32 > size {
      item := Err(InvalidItemOffset(k));
    } else if p16 >= size {
      item := Err(UndefinedRead(p16));
    } else if p17 >= size {
      item := Err(UndefinedRead(p17));
    } else if p20 + 8 > size {
      item := Err(UndefinedRead(p20));
    } else if p28 + 8 > size {
      item := Err(UndefinedRead(p28));
    } else {
      var clipIndex := buffer[p16] as int * 256 + buffer[p17] as int;
      var inTime := ReadBE64(buffer, p20);
      var outTime := ReadBE64(buffer, p28);

      var startTimeMs := (inTime * 1000) % TwoTo64 / 45000;
      var endTimeMs := (outTime * 1000) % TwoTo64 / 45000;

      var m2tsPath := streamDir + "/" + ZeroPad(clipIndex, 5) + ".m2ts";
      if !fs.Exists(m2tsPath) {
        item := Err(ClipMissing(m2tsPath));
      } else {
        item := Ok(Segment(m2tsPath, startTimeMs, endTimeMs));
      }
    }
    DecodeItemFields(fs, buffer, streamDir, playItemOffset, playItemLength, k);
  }

  /** Pushing one segment: its chapter time is the total so far, and the
      duration grows by the item's duration, in uint64. */
  lemma InfoAfterPush(segs: seq<Segment>, s: Segment)
    ensures TotalDuration(segs + [s]) == (TotalDuration(segs) + ItemDuration(s)) % TwoTo64
    ensures ChapterStarts(segs + [s]) == ChapterStarts(segs) + [TotalDuration(segs)]
  {
    assert (segs + [s])[..|segs|] == segs;
  }

  /** A record that decodes extends the decoded prefix by one segment. */
  lemma DecodeItemsPush(fs: FileSystem, buf: seq<byte>, streamDir: string,
                        tableStart: nat, stride: nat, k: nat, item: Result<Segment, ParseError>)
    requires DecodeItems(fs, buf, streamDir, tableStart, stride, k).1.None?
    requires item == DecodeItem(fs, buf, streamDir, tableStart, stride, k) && item.Ok?
    ensures DecodeItems(fs, buf, streamDir, tableStart, stride, k + 1)
         == (DecodeItems(fs, buf, streamDir, tableStart, stride, k).0 + [item.value], None)
  {
    var rs := Records(fs, buf, streamDir, tableStart, stride, k);
    assert Records(fs, buf, streamDir, tableStart, stride, k + 1) == rs + [item];
    CollectPush(rs, item);
  }

  /** Once a record fails, later records are never looked at. */
  lemma DecodeItemsStops(fs: FileSystem, buf: seq<byte>, streamDir: string,
                         tableStart: nat, stride: nat, k: nat, n: nat, item: Result<Segment, ParseError>)
    requires k < n
    requires DecodeItems(fs, buf, streamDir, tableStart, stride, k).1.None?
    requires item == DecodeItem(fs, buf, streamDir, tableStart, stride, k) && item.Err?
    ensures DecodeItems(fs, buf, streamDir, tableStart, stride, n)
         == (DecodeItems(fs, buf, streamDir, tableStart, stride, k).0, Some(item.error))
  {
    var rs := Records(fs, buf, streamDir, tableStart, stride, n);
    RecordsPrefix(fs, buf, streamDir, tableStart, stride, k, n);
    CollectStops(rs, k);
  }


  // ---------------------------------------------------------------------------
  // Properties of the decoded playlist
  // ---------------------------------------------------------------------------

  /** Every pushed segment is the decoding of its record, and a failure is
      the failure of the first record that did not decode. */
  lemma DecodeItemsFacts(fs: FileSystem, buf: seq<byte>, streamDir: string,
                         tableStart: nat, stride: nat, n: nat)
    ensures var r := DecodeItems(fs, buf, streamDir, tableStart, stride, n);
      && (forall k | 0 <= k < |r.0| :: DecodeItem(fs, buf, streamDir, tableStart, stride, k) == Ok(r.0[k]))
      && (r.1.Some? ==> |r.0| < n && DecodeItem(fs, buf, streamDir, tableStart, stride, |r.0|) == Err(r.1.value))
  {
    CollectFacts(Records(fs, buf, streamDir, tableStart, stride, n));
  }

  /** A decoded record names a clip file that exists: the stream directory,
      a slash, five digits and ".m2ts". */
  lemma DecodedSegmentShape(fs: FileSystem, buf: seq<byte>, streamDir: string,
                            tableStart: nat, stride: nat, k: nat)
    requires DecodeItem(fs, buf, streamDir, tableStart, stride, k).Ok?
    ensures var p := DecodeItem(fs, buf, streamDir, tableStart, stride, k).value.m2tsPath;
      && fs.Exists(p)
      && |p| == |streamDir| + 11 && p[..|streamDir|] == streamDir && p[|streamDir|] == '/'
      && AllDigits(p[|streamDir| + 1..|streamDir| + 6]) && p[|streamDir| + 6..] == ".m2ts"
  {
    DecodeItemFields(fs, buf, streamDir, tableStart, stride, k);
  }

  /** The running total is the exact sum of the item durations, wrapped to uint64. */
  lemma {:induction false} TotalDurationIsSum(segs: seq<Segment>)
    ensures TotalDuration(segs) == SumDurations(segs) % TwoTo64
    decreases |segs|
  {
    if segs != [] {
      var init := segs[..|segs| - 1];
      TotalDurationIsSum(init);
      ModAddLeft(SumDurations(init), ItemDuration(segs[|segs| - 1]));
    }
  }

  lemma ModAddLeft(a: nat, x: nat)
    ensures (a % TwoTo64 + x) % TwoTo64 == (a + x) % TwoTo64
  {
    var q := a / TwoTo64;
    assert a + x == (a % TwoTo64 + x) + q * TwoTo64;
  }

  /** The chapter time pushed before item k is the total of items 0..k-1. */
  lemma {:induction false} ChapterStartsAreTotals(segs: seq<Segment>)
    ensures |ChapterStarts(segs)| == |segs|
    ensures forall k | 0 <= k < |segs| :: ChapterStarts(segs)[k] == TotalDuration(segs[..k])
    decreases |segs|
  {
    if segs != [] {
      var init := segs[..|segs| - 1];
      ChapterStartsAreTotals(init);
      forall k | 0 <= k < |segs|
        ensures ChapterStarts(segs)[k] == TotalDuration(segs[..k])
      {
        if k < |segs| - 1 {
          assert segs[..k] == init[..k];
        }
      }
    }
  }

  /** Chapter times of a complete parse: one more than the segments, the
      first 0, the last the total duration, which is the sum of the item
      durations wrapped to uint64. */
  lemma ChapterTimesEnds(segs: seq<Segment>)
    ensures var info := InfoAfter(segs, true);
      && |info.chapterTimes| == |segs| + 1
      && info.chapterTimes[0] == 0
      && info.chapterTimes[|segs|] == info.duration
      && info.duration == SumDurations(segs) % TwoTo64
  {
    TotalDurationIsSum(segs);
    ChapterTimeIsPrefixTotal(segs, 0);
    assert segs[..0] == [];
  }

  /** Each chapter time is the previous one plus the previous item's
      duration, in uint64. */
  lemma ChapterTimesStep(segs: seq<Segment>)
    ensures var info := InfoAfter(segs, true);
      forall k | 0 <= k < |segs| ::
        info.chapterTimes[k + 1] == (info.chapterTimes[k] + ItemDuration(segs[k])) % TwoTo64
  {
    var info := InfoAfter(segs, true);
    forall k | 0 <= k < |segs|
      ensures info.chapterTimes[k + 1] == (info.chapterTimes[k] + ItemDuration(segs[k])) % TwoTo64
    {
      ChapterTimeIsPrefixTotal(segs, k);
      ChapterTimeIsPrefixTotal(segs, k + 1);
      TotalDurationStep(segs, k);
    }
  }

  lemma TotalDurationStep(segs: seq<Segment>, k: nat)
    requires k < |segs|
    ensures TotalDuration(segs[..k + 1]) == (TotalDuration(segs[..k]) + ItemDuration(segs[k])) % TwoTo64
  {
    var p := segs[..k + 1];
    assert p[..|p| - 1] == segs[..k];
    assert p[|p| - 1] == segs[k];
  }

  /** Chapter time k of a complete parse is the total of the first k items. */
  lemma ChapterTimeIsPrefixTotal(segs: seq<Segment>, k: nat)
    requires k <= |segs|
    ensures InfoAfter(segs, true).chapterTimes[k] == TotalDuration(segs[..k])
  {
    ChapterStartsAreTotals(segs);
    if k == |segs| {
      assert segs[..k] == segs;
    }
  }

  /** When the total fits in 64 bits, chapter times never decrease and
      consecutive ones differ by exactly the item's duration. */
  lemma ChapterTimesMonotone(segs: seq<Segment>)
    requires SumDurations(segs) < TwoTo64
    ensures var info := InfoAfter(segs, true);
      forall k | 0 <= k < |segs| ::
        info.chapterTimes[k] <= info.chapterTimes[k + 1]
        && info.chapterTimes[k + 1] - info.chapterTimes[k] == ItemDuration(segs[k])
  {
    var info := InfoAfter(segs, true);
    forall k | 0 <= k < |segs|
      ensures info.chapterTimes[k + 1] == info.chapterTimes[k] + ItemDuration(segs[k])
    {
      ChapterTimeIsPrefixTotal(segs, k);
      ChapterTimeIsPrefixTotal(segs, k + 1);
      TotalDurationIsSum(segs[..k]);
      TotalDurationIsSum(segs[..k + 1]);
      SumPrefixBound(segs, k);
      SumPrefixBound(segs, k + 1);
      var a, b := SumDurations(segs[..k]), SumDurations(segs[..k + 1]);
      assert b == a + ItemDuration(segs[k]) && b < TwoTo64;
      SmallMod(a, TwoTo64);
      SmallMod(b, TwoTo64);
    }
  }

  lemma SmallMod(x: nat, m: nat)
    requires x < m
    ensures x % m == x
  {
  }

  /** A prefix sums to no more than the whole. */
  lemma {:induction false} SumPrefixBound(segs: seq<Segment>, n: nat)
    requires n <= |segs|
    ensures SumDurations(segs[..n]) <= SumDurations(segs)
    ensures 0 < n ==> SumDurations(segs[..n]) == SumDurations(segs[..n - 1]) + ItemDuration(segs[n - 1])
    decreases |segs|
  {
    if n > 0 {
      assert segs[..n][..n - 1] == segs[..n - 1];
    }
    if n < |segs| {
      SumPrefixBound(segs[..|segs| - 1], n);
      assert segs[..|segs| - 1][..n] == segs[..n];
    } else {
      assert segs[..n] == segs;
    }
  }

  /** A successful parse read a file with the signature, kept at least one
      segment, every one naming a clip file that exists, and completed the
      chapter list. */
  lemma ParseSucceeded(fs: FileSystem, mplsPath: string, streamDir: string, info: MplsInfo)
    requires ParseSpec(fs, mplsPath, streamDir, info).error.None?
    ensures fs.ReadFile(mplsPath).Some?
    ensures var buf := fs.ReadFile(mplsPath).value; |buf| >= 16 && ReadBE32(buf, 0) == MplsMagic
    ensures var r := ParseSpec(fs, mplsPath, streamDir, info).info;
      && |r.segments| >= 1
      && (forall k | 0 <= k < |r.segments| :: fs.Exists(r.segments[k].m2tsPath))
      && r == InfoAfter(r.segments, true)
  {
    var buf := fs.ReadFile(mplsPath).value;
    var i := FindPlayItemTable(buf, 16).value;
    var start, stride, n := i + 12, Stride(ReadBE32(buf, i + 4)), ReadBE32(buf, i + 8);
    DecodeItemsFacts(fs, buf, streamDir, start, stride, n);
    var segs := DecodeItems(fs, buf, streamDir, start, stride, n).0;
    forall k | 0 <= k < |segs|
      ensures fs.Exists(segs[k].m2tsPath)
    {
      DecodedSegmentShape(fs, buf, streamDir, start, stride, k);
    }
  }

  /** The failures a record can cause. */
  predicate IsItemError(e: ParseError) {
    e.InvalidItemOffset? || e.UndefinedRead? || e.ClipMissing?
  }

  /** The item loop only ever fails with a record failure. */
  lemma DecodeItemsError(fs: FileSystem, buf: seq<byte>, streamDir: string,
                         tableStart: nat, stride: nat, n: nat)
    ensures var r := DecodeItems(fs, buf, streamDir, tableStart, stride, n);
      r.1.Some? ==> IsItemError(r.1.value)
  {
    DecodeItemsFacts(fs, buf, streamDir, tableStart, stride, n);
  }

  /** The header failures (unreadable file, bad size or signature) leave the
      caller's value untouched. */
  lemma ParseHeaderFailure(fs: FileSystem, mplsPath: string, streamDir: string, info: MplsInfo)
    requires ParseSpec(fs, mplsPath, streamDir, info).error in {Some(ReadFailed), Some(InvalidFile)}
    ensures ParseSpec(fs, mplsPath, streamDir, info).info == info
  {
    if fs.ReadFile(mplsPath).Some? {
      var buf := fs.ReadFile(mplsPath).value;
      if |buf| >= 16 && ReadBE32(buf, 0) == MplsMagic && FindPlayItemTable(buf, 16).Some? {
        var i := FindPlayItemTable(buf, 16).value;
        if i + 12 <= |buf| {
          DecodeItemsError(fs, buf, streamDir, i + 12, Stride(ReadBE32(buf, i + 4)), ReadBE32(buf, i + 8));
        }
      }
    }
  }

  /** Any later failure leaves the caller's value holding the segments
      decoded so far, one chapter time per segment, and their total. */
  lemma ParseLateFailure(fs: FileSystem, mplsPath: string, streamDir: string, info: MplsInfo)
    requires ParseSpec(fs, mplsPath, streamDir, info).error.Some?
    requires ParseSpec(fs, mplsPath, streamDir, info).error !in {Some(ReadFailed), Some(InvalidFile)}
    ensures var r := ParseSpec(fs, mplsPath, streamDir, info).info;
      r == InfoAfter(r.segments, false) && |r.chapterTimes| == |r.segments|
  {
  }

  // ---------------------------------------------------------------------------
  // Reads past the end of the buffer
  // ---------------------------------------------------------------------------

  const Signature: seq<byte> := [0x4D, 0x50, 0x4C, 0x53]         // "MPLS"
  const AsWrittenSignature: seq<byte> := [0x50, 0x4D, 0x4C, 0x53]  // "PMLS"

  /** The four bytes "MPLS" read as MplsMagic, and only they do; the code's
      constant is what "PMLS" reads as. */
  lemma SignatureValues(buf: seq<byte>)
    requires |buf| >= 4
    ensures ReadBE32(buf, 0) == MplsMagic <==> buf[..4] == Signature
    ensures ReadBE32(buf, 0) == MplsMagicAsWritten <==> buf[..4] == AsWrittenSignature
  {
    if ReadBE32(buf, 0) == MplsMagic {
      assert buf[0] == 0x4D && buf[1] == 0x50 && buf[2] == 0x4C && buf[3] == 0x53;
    }
    if ReadBE32(buf, 0) == MplsMagicAsWritten {
      assert buf[0] == 0x50 && buf[1] == 0x4D && buf[2] == 0x4C && buf[3] == 0x53;
    }
  }

  /** As written, a file that starts with "MPLS" is always refused as
      invalid, and the caller's value is left as it was. */
  lemma GenuinePlaylistRejected(fs: FileSystem, mplsPath: string, streamDir: string, info: MplsInfo)
    requires fs.ReadFile(mplsPath).Some?
    requires |fs.ReadFile(mplsPath).value| >= 4 && fs.ReadFile(mplsPath).value[..4] == Signature
    ensures ParseAsWritten(fs, mplsPath, streamDir, info) == Parsed(Some(InvalidFile), info)
  {
    var buf := fs.ReadFile(mplsPath).value;
    SignatureValues(buf);
  }

  /** With the "MPLS" signature, the header check refuses exactly the files
      shorter than 16 bytes or not starting with "MPLS". */
  lemma SignatureChecked(fs: FileSystem, mplsPath: string, streamDir: string, info: MplsInfo)
    requires fs.ReadFile(mplsPath).Some?
    ensures var buf := fs.ReadFile(mplsPath).value;
      ParseSpec(fs, mplsPath, streamDir, info).error == Some(InvalidFile)
      <==> |buf| < 16 || buf[..4] != Signature
  {
    var buf := fs.ReadFile(mplsPath).value;
    if |buf| >= 16 {
      SignatureValues(buf);
      if ReadBE32(buf, 0) == MplsMagic && FindPlayItemTable(buf, 16).Some? {
        var i := FindPlayItemTable(buf, 16).value;
        if i + 12 <= |buf| {
          DecodeItemsFacts(fs, buf, streamDir, i + 12, Stride(ReadBE32(buf, i + 4)), ReadBE32(buf, i + 8));
        }
      }
    }
  }

  /** 25 bytes: "PMLS", 12 zero bytes, "PITM", 5 zero bytes. */
  const ShortCountFile: seq<byte> :=
    [0x50, 0x4D, 0x4C, 0x53, 0, 0, 0, 0, 0, 0, 0, 0, 0, 0, 0, 0,
     0x50, 0x49, 0x54, 0x4D, 0, 0, 0, 0, 0]

  /** 40 bytes: "PMLS", 12 zero bytes, "PITM", chunk length 20, item count 1,
      12 zero bytes. */
  const ShortRecordFile: seq<byte> :=
    [0x50, 0x4D, 0x4C, 0x53, 0, 0, 0, 0, 0, 0, 0, 0, 0, 0, 0, 0,
     0x50, 0x49, 0x54, 0x4D, 0, 0, 0, 20, 0, 0, 0, 1,
     0, 0, 0, 0, 0, 0, 0, 0, 0, 0, 0, 0]

  /** ShortCountFile passes the code's own signature check and has its
      "PITM" word at offset 16. */
  lemma ShortCountFileHeader()
    ensures |ShortCountFile| == 25
    ensures ReadBE32(ShortCountFile, 0) == MplsMagicAsWritten
    ensures FindPlayItemTable(ShortCountFile, 16) == Some(16)
  {
  }

  /** ShortRecordFile passes the code's own signature check, has its "PITM"
      word at offset 16, a chunk length of 20 and an item count of 1. */
  lemma ShortRecordFileHeader()
    ensures |ShortRecordFile| == 40
    ensures ReadBE32(ShortRecordFile, 0) == MplsMagicAsWritten
    ensures FindPlayItemTable(ShortRecordFile, 16) == Some(16)
    ensures ReadBE32(ShortRecordFile, 20) == 20 && ReadBE32(ShortRecordFile, 24) == 1
  {
  }

  /** ShortCountFile: the search loop's guard (16 < 25 - 8) accepts the
      "PITM" word at offset 16, and the code then reads the item count from
      bytes 24..27 of a 25-byte buffer. */
  lemma CountReadPastEnd(streamDir: string, info: MplsInfo)
    ensures var fs := FileSystem(map["00000.mpls" := File(ShortCountFile)]);
      && 16 < |ShortCountFile| - 8 && 16 + 12 > |ShortCountFile|
      && ParseAsWritten(fs, "00000.mpls", streamDir, info).error == Some(UndefinedRead(24))
  {
    ShortCountFileHeader();
    var fs := FileSystem(map["00000.mpls" := File(ShortCountFile)]);
    assert fs.ReadFile("00000.mpls") == Some(ShortCountFile);
  }

  /** ShortRecordFile: one record of stride 12 (chunk length 20) at offset
      28 passes the item check (28 + 12 <= 40), and the code then reads the
      clip index at offset 44. */
  lemma RecordFieldsPastEnd(streamDir: string, info: MplsInfo)
    ensures var fs := FileSystem(map["00000.mpls" := File(ShortRecordFile)]);
      && ReadBE32(ShortRecordFile, 24) == 1 && Stride(ReadBE32(ShortRecordFile, 20)) == 12
      && 28 + 12 <= |ShortRecordFile| < 28 + 16
      && ParseAsWritten(fs, "00000.mpls", streamDir, info).error == Some(UndefinedRead(44))
  {
    ShortRecordFileHeader();
    var buf := ShortRecordFile;
    var fs := FileSystem(map["00000.mpls" := File(buf)]);
    assert fs.ReadFile("00000.mpls") == Some(buf);
    assert Stride(20) == 12;
    FirstRecordPastEnd(fs, streamDir);
    assert ItemsParsed(fs, buf, streamDir, 28, 12, 1).error == Some(UndefinedRead(44));
  }

  lemma FirstRecordPastEnd(fs: FileSystem, streamDir: string)
    ensures DecodeItems(fs, ShortRecordFile, streamDir, 28, 12, 1) == ([], Some(UndefinedRead(44)))
  {
    assert ItemOffset(28, 12, 0) == 28;
    assert (28 + 12) % TwoTo32 == 40 && (28 + 16) % TwoTo32 == 44;
    assert DecodeItem(fs, ShortRecordFile, streamDir, 28, 12, 0) == Err(UndefinedRead(44));
    var rs := Records(fs, ShortRecordFile, streamDir, 28, 12, 1);
    assert rs == [Err(UndefinedRead(44))];
    assert rs[..0] == [];
    assert Collect(rs[..0]) == ([], None);
  }

  /** Every field the item loop reads from record k of the table whose
      "PITM" word is at `mark` lies inside the buffer. */
  predicate RecordReadable(buf: seq<byte>, mark: nat, k: nat)
    requires mark + 8 <= |buf|
  {
    var stride := Stride(ReadBE32(buf, mark + 4));
    var off := ItemOffset(mark + 12, stride, k);
    && (off + stride) % TwoTo32 <= |buf|
    && (off + 16) % TwoTo32 < |buf| && (off + 17) % TwoTo32 < |buf|
    && (off + 20) % TwoTo32 + 8 <= |buf| && (off + 28) % TwoTo32 + 8 <= |buf|
  }

  /** A record that decodes was read entirely from inside the buffer. */
  lemma DecodedRecordReadable(fs: FileSystem, buf: seq<byte>, streamDir: string, mark: nat, k: nat)
    requires mark + 8 <= |buf|
    requires DecodeItem(fs, buf, streamDir, mark + 12, Stride(ReadBE32(buf, mark + 4)), k).Ok?
    ensures RecordReadable(buf, mark, k)
  {
  }

  /** Whatever the file, a successful parse read the item count and every
      field of every record from inside the buffer. */
  lemma ParseReadsInBounds(fs: FileSystem, mplsPath: string, streamDir: string, info: MplsInfo)
    requires ParseSpec(fs, mplsPath, streamDir, info).error.None?
    ensures var buf := fs.ReadFile(mplsPath).value;
      var i := FindPlayItemTable(buf, 16).value;
      && i + 12 <= |buf|
      && forall k | 0 <= k < ReadBE32(buf, i + 8) :: RecordReadable(buf, i, k)
  {
    ParseSucceeded(fs, mplsPath, streamDir, info);
    var buf := fs.ReadFile(mplsPath).value;
    var i := FindPlayItemTable(buf, 16).value;
    var stride, n := Stride(ReadBE32(buf, i + 4)), ReadBE32(buf, i + 8);
    DecodeItemsFacts(fs, buf, streamDir, i + 12, stride, n);
    forall k | 0 <= k < n
      ensures RecordReadable(buf, i, k)
    {
      DecodedRecordReadable(fs, buf, streamDir, i, k);
    }
  }
}
