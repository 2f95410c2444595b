/** The disc scanner: `scanBDStructure` derives the PLAYLIST, STREAM and
    CLIPINF directories of a BDMV root, checks them and `index.bdmv` in a
    fixed order and lists the `.mpls` playlists; `getPlaylistInfo` parses one
    playlist; `findMainPlaylist` keeps the playlists that parse and picks the
    greatest by (duration, segment count) as `std::max_element` does.

    `BDStructure&`, `PlaylistInfo&` and `std::string&` out-parameters are
    in-out values: each method takes the caller's value and returns the value
    the caller holds afterwards. Path decomposition follows the generic
    `std::filesystem::path` rules for paths without a root name. */
module BdScanner {
  import opened Wrappers
  import opened Fs
  import MplsParser

  /** The paths of a Blu-ray BDMV directory and its playlist file names. */
  datatype BdStructure = BdStructure(
    rootDir: string,
    playlistDir: string,
    streamDir: string,
    clipInfoDir: string,
    playlistFiles: seq<string>)

  /** What `findMainPlaylist` knows of one playlist. */
  datatype PlaylistInfo = PlaylistInfo(path: string, duration: nat, segmentCount: nat)

  /** Why `scanBDStructure` returned false (one kind per log message). */
  datatype ScanError =
    | RootNotFound
    | PlaylistDirNotFound
    | StreamDirNotFound
    | ClipInfoDirNotFound
    | IndexNotFound
    | NoPlaylistFiles

  // ---------------------------------------------------------------------------
  // std::filesystem path pieces
  // ---------------------------------------------------------------------------

  /** The position of the last `c` in `s`. */
  function LastIndexOf(s: string, c: char): (r: Option<nat>)
    ensures r.Some? ==> r.value < |s| && s[r.value] == c
    ensures r.Some? ==> forall j | r.value < j < |s| :: s[j] != c
    ensures r.None? ==> forall j | 0 <= j < |s| :: s[j] != c
  {
    if s == [] then None
    else if s[|s| - 1] == c then Some(|s| - 1)
    else LastIndexOf(s[..|s| - 1], c)
  }

  /** `path(name).extension()` of a bare file name: from the last dot on,
      except that ".", ".." and a name whose only dot is its first character
      have no extension. */
  function Extension(name: string): string
  {
    if name == "." || name == ".." then ""
    else match LastIndexOf(name, '.')
      case None => ""
      case Some(i) => if i == 0 then "" else name[i..]
  }

  /** The extension is ".mpls" exactly when the name ends in ".mpls" after at
      least one other character; the comparison is case-sensitive. */
  lemma MplsExtension(name: string)
    ensures Extension(name) == ".mpls" <==> |name| >= 6 && name[|name| - 5..] == ".mpls"
  {
    var n := |name|;
    if |name| >= 6 && name[n - 5..] == ".mpls" {
      assert name[n - 5] == '.' && name[n - 4] == 'm' && name[n - 3] == 'p';
      assert name[n - 2] == 'l' && name[n - 1] == 's';
      var r := LastIndexOf(name, '.');
      assert r.Some? && r.value == n - 5;
      assert name != "." && name != "..";
    }
    if Extension(name) == ".mpls" {
      assert name != "." && name != "..";
      var i := LastIndexOf(name, '.').value;
      assert i > 0 && name[i..] == ".mpls";
    }
  }

  /** `s` without its trailing separators. */
  function TrimSeparators(s: string): (r: string)
    ensures |r| <= |s| && r == s[..|r|]
    ensures r == [] || r[|r| - 1] != '/'
  {
    if s != [] && s[|s| - 1] == '/' then TrimSeparators(s[..|s| - 1]) else s
  }

  /** `path(p).parent_path()`: everything before the last component, without
      the separators that end it; "/" for a component directly under the
      root, "" for a single relative component. */
  function ParentPath(p: string): string
  {
    match LastIndexOf(p, '/')
    case None => ""
    case Some(i) =>
      var head := TrimSeparators(p[..i]);
      if head == "" then "/" else head
  }

  /** The parent of `dir + "/" + name` is `dir`, for a directory path that is
      not empty and does not end in a separator, and a bare name. */
  lemma ParentOfChild(dir: string, name: string)
    requires dir != [] && dir[|dir| - 1] != '/'
    requires forall j | 0 <= j < |name| :: name[j] != '/'
    ensures ParentPath(dir + "/" + name) == dir
  {
    var p := dir + "/" + name;
    var r := LastIndexOf(p, '/');
    assert p[|dir|] == '/';
    assert forall j | |dir| < j < |p| :: p[j] == name[j - |dir| - 1];
    assert r.Some? && r.value == |dir|;
    assert p[..|dir|] == dir;
  }

  /** The STREAM directory `getPlaylistInfo` derives from a playlist path. */
  function StreamDirOf(playlistPath: string): string
  {
    ParentPath(ParentPath(playlistPath)) + "/STREAM"
  }

  /** For a playlist listed by the scan, the derived STREAM directory is the
      one the scan recorded, provided the root is written without a trailing
      separator. */
  lemma StreamDirOfListedPlaylist(root: string, name: string)
    requires root != [] && root[|root| - 1] != '/'
    requires forall j | 0 <= j < |name| :: name[j] != '/'
    ensures StreamDirOf(root + "/PLAYLIST" + "/" + name) == root + "/STREAM"
  {
    ParentOfChild(root + "/PLAYLIST", name);
    assert root + "/PLAYLIST" == root + "/" + "PLAYLIST";
    ParentOfChild(root, "PLAYLIST");
  }

  // ---------------------------------------------------------------------------
  // scanBDStructure
  // ---------------------------------------------------------------------------

  /** A directory entry the scan keeps: a regular file with extension ".mpls". */
  predicate IsPlaylistEntry(fs: FileSystem, dir: string, name: string) {
    fs.IsRegularFile(dir + "/" + name) && Extension(name) == ".mpls"
  }

  /** The entries kept, in enumeration order. */
  function PlaylistEntries(fs: FileSystem, dir: string, names: seq<string>): seq<string>
  {
    if names == [] then []
    else PlaylistEntries(fs, dir, names[..|names| - 1])
         + if IsPlaylistEntry(fs, dir, names[|names| - 1]) then [names[|names| - 1]] else []
  }

  /** The entries kept are exactly the regular ".mpls" files of the listing,
      and they keep the listing's order: each kept entry is a listing entry
      after the one kept before it. */
  lemma {:induction false} PlaylistEntriesMembers(fs: FileSystem, dir: string, names: seq<string>)
    ensures forall x :: x in PlaylistEntries(fs, dir, names) <==> x in names && IsPlaylistEntry(fs, dir, x)
    ensures |PlaylistEntries(fs, dir, names)| <= |names|
  {
    if names != [] {
      var init := names[..|names| - 1];
      PlaylistEntriesMembers(fs, dir, init);
      assert names == init + [names[|names| - 1]];
    }
  }

  /** The outcome of `scanBDStructure`: its failure (None when it returns
      true) and the caller's `bdStruct` afterwards. */
  datatype Scanned = Scanned(error: Option<ScanError>, bd: BdStructure)

  predicate IsDirectory(fs: FileSystem, p: string) {
    fs.Exists(p) && fs.IsDir(p)
  }

  /** Reference definition of `scanBDStructure(root, bd)`. */
  function ScanSpec(fs: FileSystem, root: string, bd: BdStructure): Scanned
  {
    if !IsDirectory(fs, root) then Scanned(Some(RootNotFound), bd)
    else
      var dirs := bd.(rootDir := root, playlistDir := root + "/PLAYLIST",
                      streamDir := root + "/STREAM", clipInfoDir := root + "/CLIPINF");
      if !IsDirectory(fs, dirs.playlistDir) then Scanned(Some(PlaylistDirNotFound), dirs)
      else if !IsDirectory(fs, dirs.streamDir) then Scanned(Some(StreamDirNotFound), dirs)
      else if !IsDirectory(fs, dirs.clipInfoDir) then Scanned(Some(ClipInfoDirNotFound), dirs)
      else if !fs.Exists(root + "/index.bdmv") then Scanned(Some(IndexNotFound), dirs)
      else
        var files := PlaylistEntries(fs, dirs.playlistDir, fs.ReadDir(dirs.playlistDir).value);
        Scanned(if files == [] then Some(NoPlaylistFiles) else None, dirs.(playlistFiles := files))
  }

  /** scanBDStructure: the checks in source order, then the listing loop
      that appends each kept entry to the cleared `playlistFiles`. */
  method ScanBdStructure(fs: FileSystem, bdmvRoot: string, bdStruct: BdStructure)
    returns (failure: Option<ScanError>, bdStruct': BdStructure)
    ensures failure == ScanSpec(fs, bdmvRoot, bdStruct).error
    ensures bdStruct' == ScanSpec(fs, bdmvRoot, bdStruct).bd
  {
    if !fs.Exists(bdmvRoot) || !fs.IsDir(bdmvRoot) {
      return Some(RootNotFound), bdStruct;
    }

    bdStruct' := bdStruct.(rootDir := bdmvRoot);
    bdStruct' := bdStruct'.(playlistDir := bdmvRoot + "/PLAYLIST");
    bdStruct' := bdStruct'.(streamDir := bdmvRoot + "/STREAM");
    bdStruct' := bdStruct'.(clipInfoDir := bdmvRoot + "/CLIPINF");

    if !fs.Exists(bdStruct'.playlistDir) || !fs.IsDir(bdStruct'.playlistDir) {
      return Some(PlaylistDirNotFound), bdStruct';
    }
    if !fs.Exists(bdStruct'.streamDir) || !fs.IsDir(bdStruct'.streamDir) {
      return Some(StreamDirNotFound), bdStruct';
    }
    if !fs.Exists(bdStruct'.clipInfoDir) || !fs.IsDir(bdStruct'.clipInfoDir) {
      return Some(ClipInfoDirNotFound), bdStruct';
    }
    if !fs.Exists(bdmvRoot + "/index.bdmv") {
      return Some(IndexNotFound), bdStruct';
    }

    ghost var dirs := bdStruct';
    bdStruct' := bdStruct'.(playlistFiles := []);
    var entries := fs.ReadDir(bdStruct'.playlistDir).value;
    for k := 0 to |entries|
      invariant bdStruct' == dirs.(playlistFiles := PlaylistEntries(fs, dirs.playlistDir, entries[..k]))
    {
      assert entries[..k + 1][..k] == entries[..k];
      var name := entries[k];
      if fs.IsRegularFile(bdStruct'.playlistDir + "/" + name) && Extension(name) == ".mpls" {
        bdStruct' := bdStruct'.(playlistFiles := bdStruct'.playlistFiles + [name]);
      }
    }
    assert entries[..|entries|] == entries;

    if |bdStruct'.playlistFiles| == 0 {
      return Some(NoPlaylistFiles), bdStruct';
    }
    failure := None;
  }

  /** A root that is not an existing directory fails first, and the caller's
      value is untouched. */
  lemma ScanRootFailure(fs: FileSystem, root: string, bd: BdStructure)
    ensures ScanSpec(fs, root, bd).error == Some(RootNotFound) <==> !fs.IsDir(root)
    ensures !fs.IsDir(root) ==> ScanSpec(fs, root, bd).bd == bd
  {
  }

  /** Past the root check the three directory paths are set, whatever
      happens next, and the root path is recorded. */
  lemma ScanSetsDirectories(fs: FileSystem, root: string, bd: BdStructure)
    requires fs.IsDir(root)
    ensures var r := ScanSpec(fs, root, bd).bd;
      && r.rootDir == root
      && r.playlistDir == root + "/PLAYLIST"
      && r.streamDir == root + "/STREAM"
      && r.clipInfoDir == root + "/CLIPINF"
  {
  }

  /** The checks run in the order PLAYLIST, STREAM, CLIPINF, index.bdmv,
      listing: each failure names exactly the first entry that is missing
      (or, for the listing, that no regular ".mpls" file is listed), and the
      earlier failures keep the caller's playlist list. */
  lemma ScanCheckOrder(fs: FileSystem, root: string, bd: BdStructure)
    ensures var s, pl, st, ci := ScanSpec(fs, root, bd), root + "/PLAYLIST", root + "/STREAM", root + "/CLIPINF";
      && (s.error == Some(PlaylistDirNotFound) <==> fs.IsDir(root) && !fs.IsDir(pl))
      && (s.error == Some(StreamDirNotFound) <==> fs.IsDir(root) && fs.IsDir(pl) && !fs.IsDir(st))
      && (s.error == Some(ClipInfoDirNotFound) <==>
            fs.IsDir(root) && fs.IsDir(pl) && fs.IsDir(st) && !fs.IsDir(ci))
      && (s.error == Some(IndexNotFound) <==>
            fs.IsDir(root) && fs.IsDir(pl) && fs.IsDir(st) && fs.IsDir(ci) && !fs.Exists(root + "/index.bdmv"))
      && ((s.error.Some? && s.error.value in {PlaylistDirNotFound, StreamDirNotFound, ClipInfoDirNotFound, IndexNotFound})
            ==> s.bd.playlistFiles == bd.playlistFiles)
    ensures ScanSpec(fs, root, bd).error == Some(NoPlaylistFiles) <==>
      var pl := root + "/PLAYLIST";
      && fs.IsDir(root) && fs.IsDir(pl) && fs.IsDir(root + "/STREAM") && fs.IsDir(root + "/CLIPINF")
      && fs.Exists(root + "/index.bdmv")
      && forall x | x in fs.ReadDir(pl).value ::
           !(fs.IsRegularFile(pl + "/" + x) && |x| >= 6 && x[|x| - 5..] == ".mpls")
  {
    var pl := root + "/PLAYLIST";
    if fs.IsDir(root) && fs.IsDir(pl) {
      var names := fs.ReadDir(pl).value;
      PlaylistEntriesMembers(fs, pl, names);
      forall x | x in names
        ensures IsPlaylistEntry(fs, pl, x) <==>
                fs.IsRegularFile(pl + "/" + x) && |x| >= 6 && x[|x| - 5..] == ".mpls"
      {
        MplsExtension(x);
      }
      var files := PlaylistEntries(fs, pl, names);
      if files != [] {
        assert files[0] in files;
      }
    }
  }

  /** A successful scan found every directory and `index.bdmv`, and
      `playlistFiles` is non-empty and holds exactly the names of the
      regular ".mpls" files of the PLAYLIST directory. */
  lemma ScanSucceeded(fs: FileSystem, root: string, bd: BdStructure)
    requires ScanSpec(fs, root, bd).error.None?
    ensures fs.IsDir(root + "/PLAYLIST") && fs.IsDir(root + "/STREAM") && fs.IsDir(root + "/CLIPINF")
    ensures fs.Exists(root + "/index.bdmv")
    ensures var files := ScanSpec(fs, root, bd).bd.playlistFiles;
      && |files| >= 1
      && forall x :: x in files <==> x in fs.ReadDir(root + "/PLAYLIST").value
                                     && fs.IsRegularFile(root + "/PLAYLIST" + "/" + x)
                                     && |x| >= 6 && x[|x| - 5..] == ".mpls"
  {
    var dir := root + "/PLAYLIST";
    var names := fs.ReadDir(dir).value;
    PlaylistEntriesMembers(fs, dir, names);
    forall x
      ensures x in PlaylistEntries(fs, dir, names) <==>
              x in names && fs.IsRegularFile(dir + "/" + x) && |x| >= 6 && x[|x| - 5..] == ".mpls"
    {
      MplsExtension(x);
    }
  }

  // ---------------------------------------------------------------------------
  // getPlaylistInfo
  // ---------------------------------------------------------------------------

  /** What `getPlaylistInfo(path)` fills in, or None when the parse fails. */
  function PlaylistInfoOf(fs: FileSystem, playlistPath: string): Option<PlaylistInfo>
  {
    var p := MplsParser.ParseSpec(fs, playlistPath, StreamDirOf(playlistPath), MplsParser.MplsInfo(0, [], []));
    if p.error.None? then Some(PlaylistInfo(playlistPath, p.info.duration, |p.info.segments|)) else None
  }

  /** getPlaylistInfo: parse the playlist against the STREAM directory next
      to its PLAYLIST directory; on success copy the path, the duration and
      the segment count, on failure leave `info` untouched. */
  method GetPlaylistInfo(fs: FileSystem, playlistPath: string, info: PlaylistInfo)
    returns (failure: Option<MplsParser.ParseError>, info': PlaylistInfo)
    ensures failure.None? ==> PlaylistInfoOf(fs, playlistPath) == Some(info')
    ensures failure.Some? ==> PlaylistInfoOf(fs, playlistPath) == None && info' == info
  {
    var mplsInfo := MplsParser.MplsInfo(0, [], []);
    var streamDir := ParentPath(ParentPath(playlistPath)) + "/STREAM";
    var parsed;
    failure, parsed := MplsParser.ParseMpls(fs, playlistPath, streamDir, mplsInfo);
    if failure.Some? {
      return failure, info;
    }
    info' := info.(path := playlistPath);
    info' := info'.(duration := parsed.duration);
    info' := info'.(segmentCount := |parsed.segments|);
  }

  /** A playlist that parses has the path it was asked for, at least one
      segment, and as duration the 64-bit wrapped sum of its segments'
      durations. */
  lemma PlaylistInfoFacts(fs: FileSystem, playlistPath: string)
    requires PlaylistInfoOf(fs, playlistPath).Some?
    ensures var i := PlaylistInfoOf(fs, playlistPath).value;
      var p := MplsParser.ParseSpec(fs, playlistPath, StreamDirOf(playlistPath), MplsParser.MplsInfo(0, [], []));
      && i.path == playlistPath
      && i.segmentCount == |p.info.segments| >= 1
      && i.duration == MplsParser.SumDurations(p.info.segments) % MplsParser.TwoTo64
  {
    var p := MplsParser.ParseSpec(fs, playlistPath, StreamDirOf(playlistPath), MplsParser.MplsInfo(0, [], []));
    MplsParser.ParseSucceeded(fs, playlistPath, StreamDirOf(playlistPath), MplsParser.MplsInfo(0, [], []));
    MplsParser.TotalDurationIsSum(p.info.segments);
  }

  // ---------------------------------------------------------------------------
  // findMainPlaylist
  // ---------------------------------------------------------------------------

  /** The comparator handed to `std::max_element`: by duration, then by
      segment count. */
  predicate Less(a: PlaylistInfo, b: PlaylistInfo) {
    if a.duration != b.duration then a.duration < b.duration else a.segmentCount < b.segmentCount
  }

  /** `m` is where `std::max_element` stops: no element is greater than
      `xs[m]`, and every element before it is smaller. */
  predicate IsFirstMax(xs: seq<PlaylistInfo>, m: nat) {
    && m < |xs|
    && (forall j | 0 <= j < |xs| :: !Less(xs[m], xs[j]))
    && (forall j | 0 <= j < m :: Less(xs[j], xs[m]))
  }

  /** std::max_element with `Less`: keep the current largest and move only
      to a strictly greater element. */
  method MaxElement(xs: seq<PlaylistInfo>) returns (m: nat)
    requires |xs| > 0
    ensures IsFirstMax(xs, m)
  {
    m := 0;
    for k := 1 to |xs|
      invariant m < k
      invariant forall j | 0 <= j < k :: !Less(xs[m], xs[j])
      invariant forall j | 0 <= j < m :: Less(xs[j], xs[m])
    {
      if Less(xs[m], xs[k]) {
        m := k;
      }
    }
  }

  /** In terms of the two keys: the selected playlist has the longest
      duration, the most segments among the longest, and comes first among
      full ties. There is exactly one such position. */
  lemma FirstMaxKeys(xs: seq<PlaylistInfo>, m: nat)
    requires IsFirstMax(xs, m)
    ensures forall j | 0 <= j < |xs| :: xs[j].duration <= xs[m].duration
    ensures forall j | 0 <= j < |xs| && xs[j].duration == xs[m].duration :: xs[j].segmentCount <= xs[m].segmentCount
    ensures forall j | 0 <= j < m :: xs[j].duration < xs[m].duration
                                    || (xs[j].duration == xs[m].duration && xs[j].segmentCount < xs[m].segmentCount)
    ensures forall m': nat | m' < |xs| && m' != m :: !IsFirstMax(xs, m')
  {
    forall j | 0 <= j < |xs|
      ensures xs[j].duration <= xs[m].duration
    {
      assert !Less(xs[m], xs[j]);
    }
    forall m': nat | m' < |xs| && m' != m
      ensures !IsFirstMax(xs, m')
    {
      if m' < m {
        assert Less(xs[m'], xs[m]);
      } else {
        assert !Less(xs[m], xs[m']);
      }
    }
  }

  /** What `getPlaylistInfo` yields for each of `files` (under `dir`), in
      list order. */
  function Outcomes(fs: FileSystem, dir: string, files: seq<string>): (os: seq<Option<PlaylistInfo>>)
    ensures |os| == |files|
  {
    seq(|files|, k requires 0 <= k < |files| => PlaylistInfoOf(fs, dir + "/" + files[k]))
  }

  /** The present values of `os`, in order. */
  function Somes(os: seq<Option<PlaylistInfo>>): seq<PlaylistInfo>
  {
    if os == [] then []
    else Somes(os[..|os| - 1]) + if os[|os| - 1].Some? then [os[|os| - 1].value] else []
  }

  /** The playlists of `files` (under `dir`) that parse, in list order. */
  function ParsedPlaylists(fs: FileSystem, dir: string, files: seq<string>): seq<PlaylistInfo>
  {
    Somes(Outcomes(fs, dir, files))
  }

  lemma {:induction false} SomesMembers(os: seq<Option<PlaylistInfo>>)
    ensures forall i :: i in Somes(os) <==> Some(i) in os
  {
    if os != [] {
      SomesMembers(os[..|os| - 1]);
      assert os == os[..|os| - 1] + [os[|os| - 1]];
    }
  }

  /** A playlist that fails to parse is dropped without failing the search;
      every kept one comes from a listed file that parses, and every listed
      file that parses is kept. */
  lemma ParsedPlaylistsMembers(fs: FileSystem, dir: string, files: seq<string>)
    ensures forall i :: i in ParsedPlaylists(fs, dir, files) <==>
                        exists k :: 0 <= k < |files| && PlaylistInfoOf(fs, dir + "/" + files[k]) == Some(i)
  {
    var os := Outcomes(fs, dir, files);
    SomesMembers(os);
    assert forall k | 0 <= k < |files| :: os[k] == PlaylistInfoOf(fs, dir + "/" + files[k]);
  }

  /** Why `findMainPlaylist` returned false. */
  datatype FindError = NoValidPlaylist

  /** findMainPlaylist: collect the playlists that parse, fail when there is
      none, otherwise select with `MaxElement` and report the selected path;
      `lowSegmentCount` is the warning logged when the selected playlist has
      at most one segment, which does not stop the selection. */
  method FindMainPlaylist(fs: FileSystem, bdStruct: BdStructure, playlistPath: string)
    returns (failure: Option<FindError>, playlistPath': string, lowSegmentCount: bool)
    ensures var infos := ParsedPlaylists(fs, bdStruct.playlistDir, bdStruct.playlistFiles);
      && (failure.None? <==> |infos| > 0)
      && (failure.Some? ==> failure == Some(NoValidPlaylist) && playlistPath' == playlistPath && !lowSegmentCount)
      && (failure.None? ==> exists m: nat :: IsFirstMax(infos, m)
                                        && playlistPath' == infos[m].path
                                        && lowSegmentCount == (infos[m].segmentCount <= 1))
  {
    var playlistInfos: seq<PlaylistInfo> := [];
    var files := bdStruct.playlistFiles;
    ghost var os := Outcomes(fs, bdStruct.playlistDir, files);
    for k := 0 to |files|
      invariant playlistInfos == Somes(os[..k])
    {
      assert os[..k + 1] == os[..k] + [os[k]];
      var fullPath := bdStruct.playlistDir + "/" + files[k];
      var failed, info := GetPlaylistInfo(fs, fullPath, PlaylistInfo("", 0, 0));
      if failed.None? {
        playlistInfos := playlistInfos + [info];
      }
    }
    assert os[..|files|] == os;

    if |playlistInfos| == 0 {
      return Some(NoValidPlaylist), playlistPath, false;
    }

    var mainPlaylist := MaxElement(playlistInfos);
    lowSegmentCount := playlistInfos[mainPlaylist].segmentCount <= 1;
    playlistPath' := playlistInfos[mainPlaylist].path;
    failure := None;
  }

  /** Three playlists of 10 s, 50 s and 50 s with 5, 1 and 3 segments: the
      longest are tied, and the one with more segments, the third, wins. */
  lemma SelectionExample(p0: string, p1: string, p2: string)
    ensures IsFirstMax([PlaylistInfo(p0, 10000, 5), PlaylistInfo(p1, 50000, 1), PlaylistInfo(p2, 50000, 3)], 2)
  {
  }

  /** The selected path is one of the scanned playlist files, under the
      PLAYLIST directory, and it parses. */
  lemma MainPlaylistIsListed(fs: FileSystem, bd: BdStructure, m: nat)
    requires IsFirstMax(ParsedPlaylists(fs, bd.playlistDir, bd.playlistFiles), m)
    ensures var i := ParsedPlaylists(fs, bd.playlistDir, bd.playlistFiles)[m];
      exists k :: 0 <= k < |bd.playlistFiles| && i.path == bd.playlistDir + "/" + bd.playlistFiles[k]
                  && PlaylistInfoOf(fs, i.path) == Some(i)
  {
    var infos := ParsedPlaylists(fs, bd.playlistDir, bd.playlistFiles);
    ParsedPlaylistsMembers(fs, bd.playlistDir, bd.playlistFiles);
    var i := infos[m];
    assert i in infos;
    var k :| 0 <= k < |bd.playlistFiles| && PlaylistInfoOf(fs, bd.playlistDir + "/" + bd.playlistFiles[k]) == Some(i);
    assert i.path == bd.playlistDir + "/" + bd.playlistFiles[k];
  }
}
