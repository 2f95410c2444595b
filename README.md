# Blu-ray remuxer core, modelled in Dafny

This project models the core of a Blu-ray remuxer. The C++ tool reads a
disc's BDMV folder and picks its main playlist. It decodes the playlist
(`.mpls`) into clip segments with chapter times. It then writes the FFmpeg
concat list and the chapter metadata used to remux the title into Matroska.
A Go rewrite adds more:

- tracker-site rules: BeyondHD file naming, track ordering and a site registry;
- a scan of the BDMV folder that picks the largest playlist;
- a lookup of the external tools (ffmpeg, mkvmerge, eac3to, dgdemux).

One Dafny module per core source file:

| module | file | models |
|---|---|---|
| `MplsParser` | mpls_parser.dfy | `readBE32`, `readBE64`, `parseMPLS` |
| `BdScanner` | bd_scanner.dfy | `scanBDStructure`, `findMainPlaylist`, `getPlaylistInfo` |
| `Utils` | utils.dfy | `splitString`, `msToTimeString` |
| `ChapterGenerator` | chapter_generator.dfy | `generateChapterMetadata` |
| `Remuxer` | remuxer.dfy | `generateConcatFileContent` |
| `Pt` | pt.dfy | `BasePTSite`, `BeyondHDSite`, `PTSiteRegistry` |
| `Media` | bdmv.dfy | `BDMV`: `NewBDMV`, `scanDirectory`, `GetMainPlaylist`, `ParsePlaylist` |
| `App` | app.dfy | `validateToolPaths`, `findToolPath`, `GetToolPath` |

Three support modules sit beside them. `Wrappers` holds `Option` and `Result`.
`Fs` is the file system as a value: a map from path to file bytes,
directory listing or other node, queried for existence, kind, contents and
size. `Text` holds decimal printing and zero padding.

Modelling conventions:

- The file system and the environment are parameters. The environment is
  the executable path, the working directory and the path separator.
- A C++ out-parameter (`MPLSInfo&`, `BDStructure&`, `PlaylistInfo&`,
  `std::string&`) is an in-out value. The method takes the caller's value and
  returns the value the caller holds afterwards. So "left untouched on an
  early failure" and "partly filled on a late failure" are both stated.
- A `false` return is an `Option` error whose kind names the log message.
- Unsigned C++ arithmetic is written out modulo 2^32 or 2^64.
- A read outside the buffer is undefined behaviour in C++. The model refuses
  the file with `UndefinedRead(offset)`.
- Each imperative function is a method with the source's loop. The method
  is proved equal to a reference function, and the properties are lemmas
  about that function.
- The Go objects whose fields are updated in place are classes:
  `PTSiteRegistry`, `BDMV`, and the tool paths of `App`.
- `SortTracks` copies into a new array and sorts it in place.

## Model

| member | source | states |
|---|---|---|
| MplsParser.ReadersAreBigEndian | src/mpls_parser.cpp:16-33 | readBE32 and readBE64 are the big-endian values of the 4 and 8 bytes at the position |
| MplsParser.BigEndianUnfold | src/mpls_parser.cpp:16-33 | the big-endian value of 4 bytes is b0·2^24+b1·2^16+b2·2^8+b3, and the 8-byte value is the analogous sum |
| MplsParser.BigEndianOfEncoding | src/mpls_parser.cpp:16-33 | decoding a big-endian encoding of v in n bytes gives back v, for every v < 256^n |
| MplsParser.EncodingOfBigEndian | src/mpls_parser.cpp:16-33 | encoding the value of any byte string in its own length gives back the bytes |
| MplsParser.BigEndianBound | src/mpls_parser.cpp:16-33 | the value of n bytes is below 256^n |
| MplsParser.ReadBigEndianRoundTrip | src/mpls_parser.cpp:16-33 | readBE32 and readBE64 invert the 4-byte and 8-byte big-endian encodings |
| MplsParser.SearchPlayItemTable | src/mpls_parser.cpp:66-76 | the search loop with its break finds a "PITM" word exactly when the reference search does, and at the same offset |
| MplsParser.FindPlayItemTableFirst | src/mpls_parser.cpp:66-76 | the found offset lies on the 4-byte grid from 16 and holds "PITM", and no earlier grid offset does; when none is found, no grid offset with i+8 < size holds it |
| MplsParser.TicksToMsFloor | src/mpls_parser.cpp:100-101 | without 64-bit overflow, t·1000/45000 is floor(t/45) |
| MplsParser.TicksToMsExamples | src/mpls_parser.cpp:100-101 | 45000 ticks are 1000 ms, 450000 are 10000 ms, and 44999 are 999 ms |
| MplsParser.ClipPathShape | src/mpls_parser.cpp:104-107 | a clip path is streamDir, "/", five decimal digits whose value is the clip index, then ".m2ts" |
| MplsParser.ReadPlayItem | src/mpls_parser.cpp:86-113 | one record decodes as the reference decoder says; it fails with an invalid-offset error exactly when the record runs past the buffer, and a decoded record lies inside the buffer, names an existing clip path of streamDir, "/", five digits spelling the index from bytes +16/+17, ".m2ts", and carries the big-endian 64-bit fields at +20 and +28 as ms |
| MplsParser.DecodeItemFields | src/mpls_parser.cpp:86-113 | the per-record facts above hold for every record the reference decoder handles |
| MplsParser.DecodedItemOk | src/mpls_parser.cpp:87-112 | a decoded record read all its fields inside the buffer, its clip exists, and its in and out times are the big-endian fields at +20 and +28 in ms |
| MplsParser.SegmentFields | src/mpls_parser.cpp:92-107 | the segment built from an in-bounds record whose clip exists has the clip path layout and the big-endian times that `RecordFields` describes |
| MplsParser.ClipPathNumeral | src/mpls_parser.cpp:104-107 | the five digits of a clip path are a numeral for the clip index |
| MplsParser.PushSegment | src/mpls_parser.cpp:116-127 | pushing a segment appends it, adds its duration to the total modulo 2^64, and appends the old total as its chapter start |
| MplsParser.ReadPlayItems | src/mpls_parser.cpp:84-131 | the item loop yields the decoded records up to the first failing one and that failure; the duration is their total and the chapter times their starts, plus the end time when all succeed |
| MplsParser.ParseMpls | src/mpls_parser.cpp:35-131 | parseMPLS equals the reference parse, with the signature "MPLS" (see Findings); an unreadable file fails with the caller's value untouched |
| MplsParser.DecodeItemsFacts | src/mpls_parser.cpp:85-113 | every returned segment is its record decoded in record order, and a failure is that of the first record that fails, with no record skipped |
| MplsParser.DecodeItemsError | src/mpls_parser.cpp:86-113 | the item loop fails only by a bad offset, a read past the end or a missing clip |
| MplsParser.DecodedSegmentShape | src/mpls_parser.cpp:105-113 | every decoded segment names an existing file of the form streamDir/ddddd.m2ts |
| MplsParser.TotalDurationIsSum | src/mpls_parser.cpp:124-127 | the accumulated duration is the sum of the item durations modulo 2^64 |
| MplsParser.ChapterStartsAreTotals | src/mpls_parser.cpp:122-124 | chapter k starts at the total duration of the first k items |
| MplsParser.ChapterTimesEnds | src/mpls_parser.cpp:116-131 | after a full parse there are N+1 chapter times; the first is 0 and the last equals the duration |
| MplsParser.ChapterTimesStep | src/mpls_parser.cpp:122-131 | each chapter time is the previous one plus that item's duration, modulo 2^64 |
| MplsParser.ChapterTimeIsPrefixTotal | src/mpls_parser.cpp:122-131 | chapter time k is the total duration of the first k segments |
| MplsParser.ChapterTimesMonotone | src/mpls_parser.cpp:100-124 | without 64-bit overflow, chapter times never decrease and consecutive ones differ by the item's duration |
| MplsParser.SumPrefixBound | src/mpls_parser.cpp:124-127 | the durations of a prefix sum to no more than those of the whole list |
| MplsParser.ParseSucceeded | src/mpls_parser.cpp:52-131 | a successful parse read a file of at least 16 bytes with the signature; it has at least one segment, every clip exists, and the info is the full accumulation of its segments |
| MplsParser.ParseHeaderFailure | src/mpls_parser.cpp:36-59 | a read failure or a bad header leaves the caller's value untouched |
| MplsParser.ParseLateFailure | src/mpls_parser.cpp:57-113 | a failure after the header leaves the cleared value holding the segments decoded so far and only their chapter starts |
| MplsParser.SignatureValues | src/mpls_parser.cpp:52-55 | the first word equals 0x4D504C53 exactly when the file starts "MPLS", and equals the written constant exactly when it starts "PMLS" |
| MplsParser.GenuinePlaylistRejected | src/mpls_parser.cpp:52-55 | with the constant as written, every file starting "MPLS" is rejected as invalid |
| MplsParser.SignatureChecked | src/mpls_parser.cpp:52-55 | a readable file is rejected as invalid exactly when it is shorter than 16 bytes or does not start "MPLS" |
| MplsParser.CountReadPastEnd | src/mpls_parser.cpp:66-71 | a 25-byte file passes the loop bound at offset 16 but its item count at 24..27 lies past the end |
| MplsParser.RecordFieldsPastEnd | src/mpls_parser.cpp:86-97 | a record of stride 12 passes the offset check, yet its clip index at +16 lies past the end |
| MplsParser.FirstRecordPastEnd | src/mpls_parser.cpp:86-97 | the 40-byte file's only record fails with a read at offset 44 |
| MplsParser.ParseReadsInBounds | src/mpls_parser.cpp:66-97 | after a successful parse, the count word and all fields of every record lie inside the buffer |
| BdScanner.ScanBdStructure | src/bd_scanner.cpp:10-62 | scanBDStructure equals the reference scan, both its failure and the caller's structure afterwards |
| BdScanner.ScanRootFailure | src/bd_scanner.cpp:13-16 | the scan fails with "root not found" exactly when the root is not a directory, and then nothing is written |
| BdScanner.ScanSetsDirectories | src/bd_scanner.cpp:19-22 | past the root check, the root and the PLAYLIST, STREAM and CLIPINF paths are set, whatever fails later |
| BdScanner.ScanCheckOrder | src/bd_scanner.cpp:25-57 | each failure names exactly the first missing entry, in the order PLAYLIST, STREAM, CLIPINF, index.bdmv: e.g. STREAM fails iff the root and PLAYLIST are directories and STREAM is not; "no playlist files" occurs iff all checks pass and no listed entry is a regular ".mpls" file; the directory failures leave the file list as it was |
| BdScanner.ScanSucceeded | src/bd_scanner.cpp:25-57 | after a successful scan the three subdirectories and index.bdmv exist, and the list holds exactly the listed regular ".mpls" entries; the list is not empty |
| BdScanner.MplsExtension | src/bd_scanner.cpp:47-52 | the extension is ".mpls" exactly when the name is longer than 5 characters and ends in ".mpls", case-sensitively |
| BdScanner.PlaylistEntriesMembers | src/bd_scanner.cpp:47-52 | an entry is kept exactly when it is listed, is a regular file and has the ".mpls" extension |
| BdScanner.StreamDirOfListedPlaylist | src/bd_scanner.cpp:111-112 | a playlist root/PLAYLIST/name gets root/STREAM as its clip directory |
| BdScanner.GetPlaylistInfo | src/bd_scanner.cpp:107-124 | getPlaylistInfo succeeds exactly when the parse does; it fills path, duration and segment count, and leaves the caller's value untouched on failure |
| BdScanner.PlaylistInfoFacts | src/bd_scanner.cpp:111-121 | the info holds the playlist's own path, its segment count (at least 1) and its total duration |
| BdScanner.MaxElement | src/bd_scanner.cpp:82-90 | max_element with the two-key comparator returns the first greatest element |
| BdScanner.FirstMaxKeys | src/bd_scanner.cpp:82-90 | the chosen playlist has the largest duration, the most segments among equal durations, every earlier one is strictly smaller, and the choice is unique |
| BdScanner.SelectionExample | src/bd_scanner.cpp:82-90 | of durations 10000, 50000, 50000 with 5, 1 and 3 segments, the third is chosen |
| BdScanner.ParsedPlaylistsMembers | src/bd_scanner.cpp:68-74 | the candidates are exactly the playlists that parse; the others are dropped |
| BdScanner.FindMainPlaylist | src/bd_scanner.cpp:64-105 | fails exactly when no playlist parses, leaving the path untouched; otherwise it returns the first maximum's path and flags a segment count of at most 1 |
| BdScanner.MainPlaylistIsListed | src/bd_scanner.cpp:68-98 | the chosen path is the playlist directory joined with a listed file name, and its info is that file's parse |
| Utils.SplitString | src/utils.cpp:10-20 | the getline loop yields the tokens of the reference split |
| Utils.SplitNoDelimiter | src/utils.cpp:15-17 | no token contains the delimiter, and the empty string yields no tokens |
| Utils.SplitJoinRoundTrip | src/utils.cpp:15-17 | joining the tokens with the delimiter gives back any non-empty input that does not end in the delimiter; a trailing delimiter is the only thing lost |
| Utils.SplitExamples | src/utils.cpp:15-17 | "a,,b" splits into "a", "" and "b"; "a,b," into "a" and "b"; "," into one empty token |
| Utils.MsToTimeString | src/utils.cpp:61-76 | the output is hh:mm:ss.fff; its fields read back give the input in ms, minutes and seconds below 60 and millis below 1000; its length is 10 plus the printed width of the hours, two below 100 hours and the full digit count from 100 hours on (no truncation, no extra zeros) |
| Utils.TimeStringFields | src/utils.cpp:70-73 | the formatted time string reads back to its four fields, with hours never truncated; its length is 10 plus the hours' width max(2, digits) |
| Utils.HoursWidth | src/utils.cpp:70 | hours take at least two digits, and exactly two when below 100 |
| Text.ZeroPadFacts | src/utils.cpp:70-73 | zero padding to a minimum width yields digits of the same value whose length is exactly max(width, digit count): the width when the number fits, the plain digits when it does not |
| Text.DecimalRoundTrip | src/chapter_generator.cpp:83 | unpadded decimal printing reads back to the number |
| Text.DecimalIsPlain | internal/pt/beyondhd.go:35 | unpadded decimal printing gives digits of the number with no leading zero (except "0") |
| Text.PlainNumeralIsDecimal | internal/pt/beyondhd.go:35 | that form is unique: any digit string without a leading zero that reads back to n is the printed n |
| ChapterGenerator.GenerateChapterMetadata | src/chapter_generator.cpp:75-88 | the loop's text equals the reference chapter text of the chapter times |
| ChapterGenerator.ChapterTextLines | src/chapter_generator.cpp:78-85 | n chapter times give exactly 2·(n−1) lines: CHAPTERi=start, then CHAPTERiNAME=Chapter i |
| ChapterGenerator.ChapterLinesAt | src/chapter_generator.cpp:83-84 | line 2i is the start line of chapter i and line 2i+1 its name line |
| ChapterGenerator.StartLineTime | src/chapter_generator.cpp:83 | a start line is "CHAPTER", the number, "=", then digits whose value is the start time |
| ChapterGenerator.LastTimeNotEmitted | src/chapter_generator.cpp:78-83 | the last chapter time never affects the output |
| ChapterGenerator.SingleTimeEmpty | src/chapter_generator.cpp:78 | a single chapter time gives no text |
| ChapterGenerator.ChapterTextOfParse | src/chapter_generator.cpp:78-84 | for the chapter times of a parse with N segments, the text has 2·N lines, and the first is CHAPTER1=0 |
| Remuxer.GenerateConcatFileContent | src/remuxer.cpp:12-20 | the loop's text is the in-order join of one "file '<path>'" line per segment |
| Remuxer.EmptyConcatFile | src/remuxer.cpp:12-19 | no segments give the empty string |
| Remuxer.ConcatFileLines | src/remuxer.cpp:15-17 | when no path contains a newline, the text has exactly one line per segment, naming its path |
| Remuxer.ConcatLinePath | src/remuxer.cpp:16 | the path sits verbatim between the quotes, with no escaping |
| Remuxer.OnlyPathsUsed | src/remuxer.cpp:16 | segments with the same paths give the same text, whatever their times |
| Pt.SiteRules | internal/pt/base.go:29-52 | the base site is named "base" and BeyondHD "beyondhd"; base names an episode "base" and otherwise uses the title; base passes tracks and metadata through unchanged |
| Pt.EpisodeFileName | internal/pt/beyondhd.go:29-36 | for any positive season and episode, the name is title, " S", a numeral for the season of width max(2, its digits), "E", a numeral for the episode of the same kind of width; both are two digits below 100 |
| Pt.EpisodeLayout | internal/pt/beyondhd.go:29-36 | title + " S" + season digits + "E" + episode digits splits back into the title and the two numerals |
| Pt.LongSeasonNumber | internal/pt/beyondhd.go:29-36 | a three-digit season is printed in full, because the padding is a minimum width |
| Pt.FilmFileName | internal/pt/beyondhd.go:29-36 | without a positive season and episode, the name is title, " (", the year as %d prints it, then ")": for a non-negative year its digits with no leading zero; for a negative year '-' and then those digits of its magnitude |
| Pt.TrackLessIsKeyOrder | internal/pt/beyondhd.go:70-117 | the comparator is the lexicographic order of a per-track key list: type priority, then the per-type keys, then the ID |
| Pt.VideoKeyOrder | internal/pt/beyondhd.go:77-83 | video tracks compare by codec priority, then by resolution descending |
| Pt.AudioKeyOrder | internal/pt/beyondhd.go:86-97 | audio tracks compare by language priority, then more channels first, then codec ascending |
| Pt.SubtitleKeyOrder | internal/pt/beyondhd.go:100-114 | subtitles compare by language priority, then forced first, then default first, then codec ascending |
| Pt.TrackLessAsymmetric | internal/pt/beyondhd.go:70-117 | the comparator is irreflexive and asymmetric |
| Pt.TrackNotLessTrans | internal/pt/beyondhd.go:70-117 | "not less" is transitive, so incomparability is an equivalence |
| Pt.TrackLessStrictWeakOrder | internal/pt/beyondhd.go:70-117 | the comparator is a strict weak order, which the sort needs |
| Pt.BeyondHdSortTracks | internal/pt/beyondhd.go:39-120 | returns a fresh array of equal length that permutes the input and is sorted by the comparator; the input array is unchanged |
| Pt.SortInPlace | internal/pt/beyondhd.go:70 | sorting in place permutes the array into comparator order |
| Pt.TypeOrder | internal/pt/beyondhd.go:72-74 | a lower type priority sorts first (unknown 0, video 1, audio 2, subtitle 3) |
| Pt.VideoResolutionDescending | internal/pt/beyondhd.go:77-83 | among video tracks of equal codec priority, the larger resolution string comes first |
| Pt.AudioChannelsFirst | internal/pt/beyondhd.go:86-97 | among audio tracks of equal language priority, more channels come first |
| Pt.SubtitleFlagsFirst | internal/pt/beyondhd.go:100-114 | among subtitles of equal language priority, forced come first, then default |
| Pt.PtSiteRegistry.constructor | internal/pt/base.go:61-74 | the new registry holds BeyondHD under "beyondhd", then the other sites registered in order |
| Pt.PtSiteRegistry.RegisterSite | internal/pt/base.go:77-80 | the site is stored under its name, replacing any earlier one; other entries are unchanged |
| Pt.PtSiteRegistry.GetSite | internal/pt/base.go:83-86 | returns the site and true exactly when the name is registered; otherwise nothing and false |
| Pt.PtSiteRegistry.GetDefaultSite | internal/pt/base.go:89-100 | returns the "beyondhd" entry when present, else some registered site, else a base site |
| Pt.RegisterAllFacts | internal/pt/base.go:61-80 | after registering a list, a name is present exactly when it was before or some site has it; the last site with that name wins |
| Pt.DefaultIsBeyondHd | internal/pt/base.go:61-93 | when no other site is named "beyondhd", the new registry's default is BeyondHD |
| Media.Bdmv.constructor | internal/media/bdmv.go:28-31 | a new BDMV holds its root path and three empty lists |
| Media.NewBdmv | internal/media/bdmv.go:21-39 | fails with "not exist" when root/BDMV is missing; otherwise it succeeds exactly when all three filtered directory scans succeed, the lists are those scans, and a failure is the first failing scan's error (playlists, then streams, then clip infos) |
| Media.Bdmv.ScanDirectory | internal/media/bdmv.go:42-94 | appends the three filtered lists in order; the first failing directory stops the scan, keeping the lists appended before it |
| Media.ScanOne | internal/media/bdmv.go:46-58 | scanning one directory returns the reference filtered list or its error |
| Media.MatchingMembers | internal/media/bdmv.go:53-57 | a path is kept exactly when it is dir joined with a listed non-directory name carrying the suffix |
| Media.ScanListOutcomes | internal/media/bdmv.go:47-51 | a missing directory gives an empty list, and an error arises exactly when the path exists and is not a listable directory; every directory of the file-system value is listable, so in the model that means exactly when it exists and is not a directory |
| Media.Bdmv.GetMainPlaylist | internal/media/bdmv.go:97-121 | returns the first strictly largest playlist; when nothing qualifies it returns "" and "not exist" |
| Media.FirstLargestUnique | internal/media/bdmv.go:100-112 | at most one playlist is the first one of the largest size |
| Media.ParsePlaylist | internal/media/bdmv.go:149-162 | always succeeds with duration 0 and no tracks or stream files |
| App.FindToolPath | internal/app/app.go:86-151 | the candidate loop returns what the reference search returns |
| App.FindToolPathFirstMatch | internal/app/app.go:133-150 | the first existing candidate is returned; when none exists, the result is Abs of the name, with ".exe" added on Windows |
| App.SharedCandidates | internal/app/app.go:114-130 | candidates 5 to 12 do not depend on the tool name |
| App.MkvmergeFindsFfmpeg | internal/app/app.go:114-140 | the code's behaviour as written, which looks unintended: the shared special-case candidates apply to every tool, so when only tools/ffmpeg/ffmpeg exists under the application root, the lookup for mkvmerge returns the ffmpeg binary, and validation would store that path |
| App.AppRootOfInstall | internal/app/app.go:89-100 | the application root is the directory three levels above the executable |
| App.FindToolPathErrors | internal/app/app.go:89-100 | the lookup fails only when the working directory is unknown, and does fail when neither it nor the executable is known |
| App.PlatformDirWindows | internal/app/app.go:103-111 | the platform directory is "Windows" exactly when the separator is a backslash, otherwise "Linux" |
| App.FoundPathNotEmpty | internal/app/app.go:142-150 | a successful lookup of a non-empty name never returns an empty path |
| App.GetToolPath | internal/app/app.go:154-167 | any name other than the four tools is returned as it is |
| App.SetToolPath | internal/app/app.go:57-62 | writing through one tool's pointer changes that tool's path only |
| App.Application.constructor | internal/app/app.go:40-43 | the application holds the loaded configuration's tool paths |
| App.Application.ValidateToolPaths | internal/app/app.go:55-83 | always returns nil, and the new tool paths are the validated ones |
| App.ValidatedPaths | internal/app/app.go:64-80 | each tool's path after validation is its own update, independent of the visiting order |
| App.ValidateOnlyFillsEmpty | internal/app/app.go:64-80 | a non-empty path is never changed; a changed path was empty and is the search result; a failed search leaves the path empty |
| App.ValidateIdempotent | internal/app/app.go:64-80 | validating twice is validating once |

## Left out

- Logging: every log call is omitted. The `segmentCount <= 1` warning is the `lowSegmentCount` result of `FindMainPlaylist`.
- Real I/O: file reads, stats and directory listings are queries on a file-system value. The executable path and the working directory are parameters.
- Unreadable directories: the file-system value cannot represent a directory that exists but cannot be listed (permission denied, I/O error). So two failure paths are not modelled. First, `os.ReadDir` failing on such a directory in `scanDirectory` (internal/media/bdmv.go:48-51, 63-66, 78-81): there the model's `ScanList` succeeds. Second, the `std::filesystem_error` that `fs::exists`, `fs::is_directory` and `fs::directory_iterator` throw in `scanBDStructure` (src/bd_scanner.cpp:13, 25-48); nothing catches it, so the call ends with an exception instead of returning false.
- Files of 4 GiB or more: `Fs.Bytes` is below 2^32 bytes, so the `uint32` scan index cannot wrap.
- `std::ifstream` reading: a file that cannot be opened and one that cannot be read give the same `ReadFailed`.
- `PLAYLIST_MARK_START` ("MLPM") is declared in src/mpls_parser.cpp but never used.
- `MplsParser.TicksToMsFloor`: stated only where `t·1000` does not overflow 64 bits. Above that, the model keeps the wrapped product that the code computes.
- `MplsParser.ChapterTimesMonotone`: stated only when the sum of durations stays below 2^64. The accumulation itself wraps as the code does. An item whose out-time is below its in-time is not rejected; the code has no such check, and its unsigned difference wraps.
- `filepath.Join`, `filepath.Dir` and `filepath.Abs`: modelled without `Clean`, without volume names and without resolving symlinks. `Abs` of a relative name is the working directory joined with it. Only the platform separator counts as a separator, although on Windows Go's `os.IsPathSeparator` also accepts '/'. A path counts as absolute when it starts with the separator, although on Windows `filepath.IsAbs` needs a volume or UNC prefix (so "\\x" is not absolute there) and `Abs` goes through `syscall.FullPath`. Neither difference affects the four tool names that reach `Abs`.
- `os.ReadDir` ordering and `fs::directory_iterator` order: the listing is taken in the order the file-system value gives it.
- `Pt.BeyondHdSortTracks`: Go's `sort.Slice` is replaced by an insertion sort. The proved contract (a permutation, sorted by the comparator) is all `sort.Slice` promises. The relative order of equal tracks, which `sort.Slice` leaves unspecified, is not modelled.
- `Track.FrameRate`: a float that the comparator never reads; it is left out of `Track`.
- Metadata values: `map[string]interface{}` is reduced to a map of strings, since both sites return it unchanged.
- Go interface values: `PTSite` is a datatype of the base site, BeyondHD and other named sites. A nil `PTSite` from `GetSite` is `None`.
- `Pt.PtSiteRegistry.constructor`: sites other than BeyondHD are defined outside these files, so they arrive as a parameter.
- `App.Application.constructor`: loading the configuration (internal/app/config.go) and setting the log level are not part of this model. The loaded tool paths are a parameter, and the validation step is the `ValidateToolPaths` method.
- `App.Application.ValidateToolPaths`: the `os.Stat` check on a configured path only logs a warning, so it is omitted.
- `ChapterGenerator.GenerateChapterMetadata`: requires at least one chapter time. With none, the code's `size() - 1` wraps and the loop indexes out of bounds.
- `addChaptersToOutput`, `remuxToMKV` and the FFmpeg calls: foreign library calls whose behaviour is not visible.
- `fileExists`, `createDirectory` and `generateTempFilePath` in src/utils.cpp: file-system effects, randomness and the clock.
- Command-line parsing, process execution, the GUI and the `main` entry points are not part of this model.
- Playlist validation: items whose end precedes their start are not rejected, because the code has no such check.

## Findings

| source | as written | input that shows it | evidently intended | confidence | as-written member | corrected member |
|---|---|---|---|---|---|---|
| src/mpls_parser.cpp:11 | the signature constant 0x504D4C53, compared with the first big-endian word, spells "PMLS" | any playlist starting with the bytes "MPLS" is rejected as invalid | accept files starting "MPLS" (0x4D504C53 read big-endian) | high, not executed | MplsParser.GenuinePlaylistRejected | MplsParser.SignatureChecked |
| src/mpls_parser.cpp:66-71 | the search loop runs while i < size-8, but the item count is read at i+8..i+11 | MplsParser.ShortCountFile (25 bytes, "PITM" at 16): the count is read from bytes 24..27 of a 25-byte buffer | read the count only when i+12 <= size | high, not executed | MplsParser.CountReadPastEnd | MplsParser.ParseReadsInBounds |
| src/mpls_parser.cpp:86-97 | each record is checked against the stride, but its fields are read at +16..+35 | MplsParser.ShortRecordFile (40 bytes, chunk length 20, so stride 12): the clip index is read at byte 44 | reject records shorter than the 36 bytes the fields need | high, not executed | MplsParser.RecordFieldsPastEnd | MplsParser.ParseReadsInBounds |

The rest of the model uses the corrected parse. `MplsParser.ParseSpec`
checks the signature "MPLS", and `MplsParser.ParseAsWritten` keeps the
written constant. In both, a read past the buffer is the failure
`UndefinedRead` instead of undefined behaviour.
