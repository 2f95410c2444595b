/** The Go side's disc model (package media): a `BDMV` value that lists the
    playlist, stream and clip-information files of a disc by suffix, picks
    the largest playlist file as the main one, and a playlist parser that is
    still a stub. Also the `Track` record the site rules sort.

    `filepath.Join(dir, name)` is modelled as `dir + "/" + name` (no
    cleaning). `os.ReadDir` sorts its listing by name; the model does not:
    it keeps whatever order the filesystem value lists, so among equally
    large playlists the one picked is the first in that order, not
    necessarily the first by name. */
module Media {
  import opened Wrappers
  import opened Fs

  /** One audio, video or subtitle track. `FrameRate` (a float the code
      never reads) is not part of the model. */
  datatype Track = Track(
    id: int,
    kind: string,        // "video", "audio", "subtitle" or anything else
    codec: string,
    language: string,
    title: string,
    resolution: string,
    bitRate: int,
    channels: int,
    sampleRate: int,
    isDefault: bool,
    isForced: bool,
    isExternal: bool,
    filePath: string)

  /** What `ParsePlaylist` reports about a playlist. */
  datatype PlaylistInfo = PlaylistInfo(duration: int, tracks: seq<Track>, streamFiles: seq<string>)

  /** The errors the Go code passes on: `os.ErrNotExist` (from `Stat` or
      from `GetMainPlaylist`) and a failed `os.ReadDir`. */
  datatype BdmvError = NotExist | ReadDirFailed(path: string)

  function JoinPath(dir: string, name: string): string
  {
    dir + "/" + name
  }

  /** `strings.HasSuffix(s, suffix)`. */
  predicate HasSuffix(s: string, suffix: string)
  {
    |suffix| <= |s| && s[|s| - |suffix|..] == suffix
  }

  // ---------------------------------------------------------------------------
  // scanDirectory
  // ---------------------------------------------------------------------------

  /** A listing entry a scan keeps: not a directory, and named with the suffix. */
  predicate Keeps(fs: FileSystem, dir: string, name: string, suffix: string)
  {
    !fs.IsDir(JoinPath(dir, name)) && HasSuffix(name, suffix)
  }

  /** The kept entries of a listing, joined to their directory, in listing order. */
  function Matching(fs: FileSystem, dir: string, names: seq<string>, suffix: string): seq<string>
  {
    if names == [] then []
    else Matching(fs, dir, names[..|names| - 1], suffix)
         + if Keeps(fs, dir, names[|names| - 1], suffix) then [JoinPath(dir, names[|names| - 1])] else []
  }

  /** What scanning one subdirectory appends: nothing when `Stat` fails
      (the directory is missing), an error when it cannot be listed, else
      the kept entries. */
  function ScanList(fs: FileSystem, dir: string, suffix: string): Result<seq<string>, BdmvError>
  {
    if fs.Stat(dir).None? then Ok([])
    else match fs.ReadDir(dir)
      case None => Err(ReadDirFailed(dir))
      case Some(names) => Ok(Matching(fs, dir, names, suffix))
  }

  /** A scanned list holds exactly the joined paths of the listing's
      non-directory entries named with the suffix. */
  lemma {:induction false} MatchingMembers(fs: FileSystem, dir: string, names: seq<string>, suffix: string)
    ensures forall p :: p in Matching(fs, dir, names, suffix) <==>
                        exists k :: 0 <= k < |names| && p == JoinPath(dir, names[k]) && Keeps(fs, dir, names[k], suffix)
  {
    if names != [] {
      var init, last := names[..|names| - 1], names[|names| - 1];
      MatchingMembers(fs, dir, init, suffix);
      forall p | exists k :: 0 <= k < |names| && p == JoinPath(dir, names[k]) && Keeps(fs, dir, names[k], suffix)
        ensures p in Matching(fs, dir, names, suffix)
      {
        var k :| 0 <= k < |names| && p == JoinPath(dir, names[k]) && Keeps(fs, dir, names[k], suffix);
        if k < |init| {
          assert init[k] == names[k];
        }
      }
      forall p | p in Matching(fs, dir, init, suffix)
        ensures exists k :: 0 <= k < |names| && p == JoinPath(dir, names[k]) && Keeps(fs, dir, names[k], suffix)
      {
        var k :| 0 <= k < |init| && p == JoinPath(dir, init[k]) && Keeps(fs, dir, init[k], suffix);
        assert names[k] == init[k];
      }
    }
  }

  /** A subdirectory that does not exist is skipped without error; a path
      that exists and is not a directory fails the scan. (Every directory of
      the file-system value can be listed.) */
  lemma ScanListOutcomes(fs: FileSystem, dir: string, suffix: string)
    ensures fs.Stat(dir).None? ==> ScanList(fs, dir, suffix) == Ok([])
    ensures ScanList(fs, dir, suffix).Err? <==> fs.Exists(dir) && !fs.IsDir(dir)
  {
  }

  function PlaylistDir(root: string): string { JoinPath(JoinPath(root, "BDMV"), "PLAYLIST") }
  function StreamDir(root: string): string { JoinPath(JoinPath(root, "BDMV"), "STREAM") }
  function ClipInfoDir(root: string): string { JoinPath(JoinPath(root, "BDMV"), "CLIPINF") }

  /** The BDMV directory of a disc. */
  class Bdmv {
    var rootPath: string
    var playlistFiles: seq<string>
    var streamFiles: seq<string>
    var clipInfoFiles: seq<string>

    constructor (rootPath: string)
      ensures this.rootPath == rootPath
      ensures playlistFiles == [] && streamFiles == [] && clipInfoFiles == []
    {
      this.rootPath := rootPath;
      playlistFiles := [];
      streamFiles := [];
      clipInfoFiles := [];
    }

    /** scanDirectory: PLAYLIST, STREAM, CLIPINF in turn, each appending its
        kept entries; the first listing failure returns at once, leaving the
        later lists as they were. */
    method ScanDirectory(fs: FileSystem) returns (err: Option<BdmvError>)
      modifies this
      ensures rootPath == old(rootPath)
      ensures var pl, st, ci := ScanList(fs, PlaylistDir(rootPath), ".mpls"),
                                ScanList(fs, StreamDir(rootPath), ".m2ts"),
                                ScanList(fs, ClipInfoDir(rootPath), ".clpi");
        if pl.Err? then
          err == Some(pl.error) && playlistFiles == old(playlistFiles)
          && streamFiles == old(streamFiles) && clipInfoFiles == old(clipInfoFiles)
        else if st.Err? then
          err == Some(st.error) && playlistFiles == old(playlistFiles) + pl.value
          && streamFiles == old(streamFiles) && clipInfoFiles == old(clipInfoFiles)
        else if ci.Err? then
          err == Some(ci.error) && playlistFiles == old(playlistFiles) + pl.value
          && streamFiles == old(streamFiles) + st.value && clipInfoFiles == old(clipInfoFiles)
        else
          err == None && playlistFiles == old(playlistFiles) + pl.value
          && streamFiles == old(streamFiles) + st.value && clipInfoFiles == old(clipInfoFiles) + ci.value
    {
      var playlistPath := PlaylistDir(rootPath);
      var files;
      err, files := ScanOne(fs, playlistPath, ".mpls");
      if err.Some? {
        return;
      }
      playlistFiles := playlistFiles + files;

      var streamPath := StreamDir(rootPath);
      err, files := ScanOne(fs, streamPath, ".m2ts");
      if err.Some? {
        return;
      }
      streamFiles := streamFiles + files;

      var clipInfoPath := ClipInfoDir(rootPath);
      err, files := ScanOne(fs, clipInfoPath, ".clpi");
      if err.Some? {
        return;
      }
      clipInfoFiles := clipInfoFiles + files;
    }

    /** getMainPlaylist: the loop keeping the first playlist of strictly
        largest size; a playlist whose `Stat` fails is skipped, and none is
        chosen unless its size exceeds 0. */
    method GetMainPlaylist(fs: FileSystem) returns (path: string, err: Option<BdmvError>)
      ensures err.None? <==> path != ""
      ensures err.Some? ==> err == Some(NotExist)
      ensures path != "" ==> exists m :: IsFirstLargest(fs, playlistFiles, m) && path == playlistFiles[m]
      ensures path == "" ==>
        (forall j | 0 <= j < |playlistFiles| :: SizeOf(fs, playlistFiles[j]) == 0)
        || (exists m :: IsFirstLargest(fs, playlistFiles, m) && playlistFiles[m] == "")
    {
      var files := playlistFiles;
      var mainPlaylist := "";
      var maxSize := 0;
      ghost var chosen: int := -1;
      for k := 0 to |files|
        invariant chosen == -1 ==> mainPlaylist == "" && maxSize == 0
        invariant chosen == -1 ==> forall j | 0 <= j < k :: SizeOf(fs, files[j]) == 0
        invariant chosen != -1 ==> 0 <= chosen < k && mainPlaylist == files[chosen]
        invariant chosen != -1 ==> maxSize == SizeOf(fs, files[chosen]) > 0
        invariant chosen != -1 ==> forall j | 0 <= j < k :: SizeOf(fs, files[j]) <= maxSize
        invariant chosen != -1 ==> forall j | 0 <= j < chosen :: SizeOf(fs, files[j]) < maxSize
      {
        var info := fs.Stat(files[k]);
        if info.None? {
          continue;
        }
        if info.value > maxSize {
          maxSize := info.value;
          mainPlaylist := files[k];
          chosen := k;
        }
      }
      if chosen != -1 {
        assert IsFirstLargest(fs, files, chosen);
      }
      if mainPlaylist == "" {
        return "", Some(NotExist);
      }
      return mainPlaylist, None;
    }
  }

  /** One subdirectory's scan: `Stat`, then `ReadDir`, then the loop over
      the entries. */
  method ScanOne(fs: FileSystem, dir: string, suffix: string) returns (err: Option<BdmvError>, files: seq<string>)
    ensures ScanList(fs, dir, suffix).Err? ==> err == Some(ScanList(fs, dir, suffix).error)
    ensures ScanList(fs, dir, suffix).Ok? ==> err == None && files == ScanList(fs, dir, suffix).value
  {
    files := [];
    if fs.Stat(dir).Some? {
      var entries := fs.ReadDir(dir);
      if entries.None? {
        return Some(ReadDirFailed(dir)), [];
      }
      var names := entries.value;
      for k := 0 to |names|
        invariant files == Matching(fs, dir, names[..k], suffix)
      {
        assert names[..k + 1][..k] == names[..k];
        if !fs.IsDir(JoinPath(dir, names[k])) && HasSuffix(names[k], suffix) {
          files := files + [JoinPath(dir, names[k])];
        }
      }
      assert names[..|names|] == names;
    }
    err := None;
  }

  /** NewBDMV: fails with `ErrNotExist` when `root/BDMV` cannot be found,
      otherwise scans and returns the new value, or the scan's error. */
  method NewBdmv(fs: FileSystem, rootPath: string) returns (b: Bdmv?, err: Option<BdmvError>)
    ensures fs.Stat(JoinPath(rootPath, "BDMV")).None? ==> b == null && err == Some(NotExist)
    ensures err.None? <==> b != null
    ensures b != null ==> fresh(b) && b.rootPath == rootPath
    ensures fs.Stat(JoinPath(rootPath, "BDMV")).Some? ==>
      var pl, st, ci := ScanList(fs, PlaylistDir(rootPath), ".mpls"),
                        ScanList(fs, StreamDir(rootPath), ".m2ts"),
                        ScanList(fs, ClipInfoDir(rootPath), ".clpi");
      err == if pl.Err? then Some(pl.error) else if st.Err? then Some(st.error)
             else if ci.Err? then Some(ci.error) else None
    ensures b != null ==>
      && ScanList(fs, PlaylistDir(rootPath), ".mpls") == Ok(b.playlistFiles)
      && ScanList(fs, StreamDir(rootPath), ".m2ts") == Ok(b.streamFiles)
      && ScanList(fs, ClipInfoDir(rootPath), ".clpi") == Ok(b.clipInfoFiles)
  {
    var bdmvPath := JoinPath(rootPath, "BDMV");
    if fs.Stat(bdmvPath).None? {
      return null, Some(NotExist);
    }
    var bdmv := new Bdmv(rootPath);
    err := bdmv.ScanDirectory(fs);
    if err.Some? {
      return null, err;
    }
    ghost var pl, st, ci := ScanList(fs, PlaylistDir(rootPath), ".mpls"),
                            ScanList(fs, StreamDir(rootPath), ".m2ts"),
                            ScanList(fs, ClipInfoDir(rootPath), ".clpi");
    assert [] + pl.value == pl.value && [] + st.value == st.value && [] + ci.value == ci.value;
    b := bdmv;
  }

  // ---------------------------------------------------------------------------
  // GetMainPlaylist
  // ---------------------------------------------------------------------------

  /** The size the selection sees: the `Stat` size, or 0 when `Stat` fails
      (such a file can never beat the initial maximum of 0). */
  function SizeOf(fs: FileSystem, p: string): nat
  {
    match fs.Stat(p)
    case None => 0
    case Some(n) => n
  }

  /** `files[m]` is the first file of the largest size, and that size is not 0. */
  predicate IsFirstLargest(fs: FileSystem, files: seq<string>, m: int)
  {
    && 0 <= m < |files|
    && SizeOf(fs, files[m]) > 0
    && (forall j | 0 <= j < |files| :: SizeOf(fs, files[j]) <= SizeOf(fs, files[m]))
    && (forall j | 0 <= j < m :: SizeOf(fs, files[j]) < SizeOf(fs, files[m]))
  }

  /** At most one position is the first largest one. */
  lemma FirstLargestUnique(fs: FileSystem, files: seq<string>, m: int, m': int)
    requires IsFirstLargest(fs, files, m) && IsFirstLargest(fs, files, m')
    ensures m == m'
  {
    assert !(m < m') && !(m' < m);
  }

  // ---------------------------------------------------------------------------
  // ParsePlaylist
  // ---------------------------------------------------------------------------

  /** ParsePlaylist is a stub: whatever the path, it succeeds with an empty
      description. */
  function ParsePlaylist(playlistPath: string): (r: Result<PlaylistInfo, BdmvError>)
    ensures r.Ok? && r.value.duration == 0 && |r.value.tracks| == 0 && |r.value.streamFiles| == 0
  {
    Ok(PlaylistInfo(0, [], []))
  }
}
