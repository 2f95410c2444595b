/** The private-tracker site rules (package pt): the site interface with its
    base implementation and the BeyondHD site (file naming and track order),
    and the registry of sites by name. */
module Pt {
  import opened Wrappers
  import opened Text
  import opened Media

  // ---------------------------------------------------------------------------
  // Sites
  // ---------------------------------------------------------------------------

  /** The `PTSite` implementations: the base site, BeyondHD, and the sites
      defined outside package pt's two files, known here only by name. */
  datatype Site = BaseSite | BeyondHdSite | OtherSite(siteName: string)
  {
    /** `Name()`: "base", "beyondhd", or the other site's own name. */
    function Name(): string
    {
      match this
      case BaseSite => "base"
      case BeyondHdSite => "beyondhd"
      case OtherSite(n) => n
    }
  }

  /** The metadata maps sites pass through (`map[string]interface{}`), with
      values reduced to strings. */
  type Metadata = map<string, string>

  /** `BasePTSite.GenerateFileName`: "base" for an episode (season and
      episode both positive), the bare title otherwise. */
  function BaseFileName(title: string, year: int, seasonNumber: int, episodeNumber: int): string
  {
    if seasonNumber > 0 && episodeNumber > 0 then "base" else title
  }

  /** `BasePTSite.SortTracks` and `FormatMetadata`, and BeyondHD's
      `FormatMetadata`: the argument is returned as it is. */
  function BaseSortTracks(tracks: seq<Track>): seq<Track> { tracks }
  function FormatMetadata(metadata: Metadata): Metadata { metadata }

  /** The base site's rules: a constant name for episodes, the title for
      films, tracks and metadata passed through unchanged. */
  lemma SiteRules(title: string, year: int, s: int, e: int, tracks: seq<Track>, metadata: Metadata)
    ensures BaseSite.Name() == "base" && BeyondHdSite.Name() == "beyondhd"
    ensures s > 0 && e > 0 ==> BaseFileName(title, year, s, e) == "base"
    ensures !(s > 0 && e > 0) ==> BaseFileName(title, year, s, e) == title
    ensures BaseSortTracks(tracks) == tracks && FormatMetadata(metadata) == metadata
  {
  }

  // ---------------------------------------------------------------------------
  // BeyondHD file names
  // ---------------------------------------------------------------------------

  /** BeyondHD's `GenerateFileName`: `"%s S%02dE%02d"` for an episode,
      `"%s (%d)"` otherwise. `%02d` pads to a MINIMUM of two digits. */
  function BeyondHdFileName(title: string, year: int, seasonNumber: int, episodeNumber: int): string
  {
    if seasonNumber > 0 && episodeNumber > 0 then
      title + " S" + ZeroPad(seasonNumber, 2) + "E" + ZeroPad(episodeNumber, 2)
    else
      title + " (" + SignedDecimal(year) + ")"
  }

  /** `name` is the title, " S", the season's digits, "E" and the episode's
      digits, each number taking `NumeralWidth(n, 2)` characters. */
  predicate IsEpisodeName(name: string, title: string, s: nat, e: nat)
  {
    var t, ws := |title|, NumeralWidth(s, 2);
    && |name| == t + 3 + ws + NumeralWidth(e, 2)
    && name[..t] == title && name[t..t + 2] == " S" && name[t + 2 + ws] == 'E'
    && IsNumeral(name[t + 2..t + 2 + ws], s) && IsNumeral(name[t + 3 + ws..], e)
  }

  /** For a positive season and episode the name has the episode layout: each
      number is padded to two digits and a longer one keeps all its digits,
      and both numbers read back. */
  lemma EpisodeFileName(title: string, year: int, s: int, e: int)
    requires s > 0 && e > 0
    ensures IsEpisodeName(BeyondHdFileName(title, year, s, e), title, s, e)
    ensures s < 100 && e < 100 ==> NumeralWidth(s, 2) == 2 && NumeralWidth(e, 2) == 2
  {
    ZeroPadFacts(s, 2);
    ZeroPadFacts(e, 2);
    EpisodeLayout(title, ZeroPad(s, 2), ZeroPad(e, 2), s, e);
    assert Pow10(2) == 100;
  }

  lemma EpisodeLayout(title: string, ss: string, ee: string, s: nat, e: nat)
    requires IsNumeral(ss, s) && IsNumeral(ee, e)
    requires |ss| == NumeralWidth(s, 2) && |ee| == NumeralWidth(e, 2)
    ensures IsEpisodeName(title + " S" + ss + "E" + ee, title, s, e)
  {
    var name := title + " S" + ss + "E" + ee;
    var t := |title|;
    assert name[t + 2..t + 2 + |ss|] == ss && name[t + 3 + |ss|..] == ee;
  }

  /** `%02d` is a minimum width: a season of 100 keeps its three digits. */
  lemma LongSeasonNumber()
    ensures BeyondHdFileName("Show", 2020, 100, 7) == "Show S100E07"
  {
    assert Decimal(100) == "100" by {
      assert Decimal(10) == "10";
    }
    assert Decimal(7) == "7";
    assert Repeat('0', 1) == "0";
  }

  /** Anything but a positive season AND a positive episode gives the film
      form: the title, " (", the year as `%d` prints it (a '-' and the plain
      digits of its magnitude when negative), and ")". */
  lemma FilmFileName(title: string, year: int, s: int, e: int)
    requires s <= 0 || e <= 0
    ensures var name := BeyondHdFileName(title, year, s, e);
      var mid := name[|title| + 2..|name| - 1];
      && name[..|title|] == title
      && name[|title|..|title| + 2] == " ("
      && name[|name| - 1] == ')'
      && (year >= 0 ==> IsPlainNumeral(mid, year))
      && (year < 0 ==> |mid| >= 2 && mid[0] == '-' && IsPlainNumeral(mid[1..], -year))
  {
    var name := BeyondHdFileName(title, year, s, e);
    var y := if year < 0 then -year else year;
    DecimalIsPlain(y);
    assert name[|title| + 2..|name| - 1] == SignedDecimal(year);
    if year < 0 {
      assert SignedDecimal(year)[1..] == Decimal(y);
    }
  }

  // ---------------------------------------------------------------------------
  // BeyondHD track order
  // ---------------------------------------------------------------------------

  /** The priority tables of `SortTracks`; a missing key reads as 0. */
  function LanguagePriority(language: string): int
  {
    if language == "eng" then 1 else if language == "jpn" then 2 else if language == "fra" then 3
    else if language == "deu" then 4 else if language == "spa" then 5 else if language == "ita" then 6
    else if language == "por" then 7 else if language == "rus" then 8 else 0
  }

  function CodecPriority(codec: string): int
  {
    if codec == "h264" then 1 else if codec == "h265" then 2 else if codec == "mpeg2" then 3
    else if codec == "vc1" then 4 else 0
  }

  function TypePriority(kind: string): int
  {
    if kind == "video" then 1 else if kind == "audio" then 2 else if kind == "subtitle" then 3 else 0
  }

  /** Go's `<` on strings: byte-wise lexicographic, a proper prefix first. */
  predicate StrLess(a: string, b: string)
  {
    if a == [] then b != []
    else if b == [] then false
    else if a[0] != b[0] then a[0] < b[0]
    else StrLess(a[1..], b[1..])
  }

  /** The `sort.Slice` comparator of BeyondHD's `SortTracks`. */
  predicate TrackLess(a: Track, b: Track)
  {
    if TypePriority(a.kind) != TypePriority(b.kind) then TypePriority(a.kind) < TypePriority(b.kind)
    else if a.kind == "video" then
      if CodecPriority(a.codec) != CodecPriority(b.codec) then CodecPriority(a.codec) < CodecPriority(b.codec)
      else StrLess(b.resolution, a.resolution)
    else if a.kind == "audio" then
      if LanguagePriority(a.language) != LanguagePriority(b.language) then
        LanguagePriority(a.language) < LanguagePriority(b.language)
      else if a.channels != b.channels then a.channels > b.channels
      else StrLess(a.codec, b.codec)
    else if a.kind == "subtitle" then
      if LanguagePriority(a.language) != LanguagePriority(b.language) then
        LanguagePriority(a.language) < LanguagePriority(b.language)
      else if a.isForced != b.isForced then a.isForced
      else if a.isDefault != b.isDefault then a.isDefault
      else StrLess(a.codec, b.codec)
    else a.id < b.id
  }

  /** One component of a track's sort key. */
  datatype KeyPart = Num(n: int) | Str(s: string) | RevStr(r: string)

  /** The key the comparator orders by, component by component: the type
      priority, then per type the codec priority and the resolution
      (descending); or the language priority, the channel count (descending)
      and the codec; or the language priority, forced first, default first
      and the codec; for any other type the ID. */
  function SortKey(t: Track): seq<KeyPart>
  {
    var tp := Num(TypePriority(t.kind));
    if t.kind == "video" then [tp, Num(CodecPriority(t.codec)), RevStr(t.resolution)]
    else if t.kind == "audio" then [tp, Num(LanguagePriority(t.language)), Num(-t.channels), Str(t.codec)]
    else if t.kind == "subtitle" then
      [tp, Num(LanguagePriority(t.language)), Num(if t.isForced then 0 else 1),
       Num(if t.isDefault then 0 else 1), Str(t.codec)]
    else [tp, Num(t.id)]
  }

  function Rank(p: KeyPart): nat
  {
    match p
    case Num(_) => 0
    case Str(_) => 1
    case RevStr(_) => 2
  }

  predicate PartLess(a: KeyPart, b: KeyPart)
  {
    match (a, b)
    case (Num(x), Num(y)) => x < y
    case (Str(x), Str(y)) => StrLess(x, y)
    case (RevStr(x), RevStr(y)) => StrLess(y, x)
    case _ => Rank(a) < Rank(b)
  }

  /** Lexicographic order of keys. */
  predicate KeyLess(x: seq<KeyPart>, y: seq<KeyPart>)
  {
    if x == [] then y != []
    else if y == [] then false
    else if x[0] != y[0] then PartLess(x[0], y[0])
    else KeyLess(x[1..], y[1..])
  }

  /** The comparator is exactly the lexicographic order of the keys. */
  lemma TrackLessIsKeyOrder(a: Track, b: Track)
    ensures TrackLess(a, b) == KeyLess(SortKey(a), SortKey(b))
  {
    if TypePriority(a.kind) != TypePriority(b.kind) {
      assert SortKey(a)[0] != SortKey(b)[0];
    } else if a.kind == "video" {
      VideoKeyOrder(a, b);
    } else if a.kind == "audio" {
      AudioKeyOrder(a, b);
    } else if a.kind == "subtitle" {
      SubtitleKeyOrder(a, b);
    } else {
      var ka, kb := SortKey(a), SortKey(b);
      assert ka == [Num(0), Num(a.id)] && kb == [Num(0), Num(b.id)];
      KeyLessTail(ka, kb);
      assert ka[1..] == [Num(a.id)] && kb[1..] == [Num(b.id)];
      if a.id == b.id {
        KeyLessTail(ka[1..], kb[1..]);
      }
    }
  }

  lemma VideoKeyOrder(a: Track, b: Track)
    requires a.kind == "video" && b.kind == "video"
    ensures TrackLess(a, b) == KeyLess(SortKey(a), SortKey(b))
  {
    var ka, kb := SortKey(a), SortKey(b);
    StrLessTotal(a.resolution, b.resolution);
    KeyLessTail(ka, kb);
    var ka1, kb1 := ka[1..], kb[1..];
    assert ka1 == [Num(CodecPriority(a.codec)), RevStr(a.resolution)];
    assert kb1 == [Num(CodecPriority(b.codec)), RevStr(b.resolution)];
    if ka1[0] == kb1[0] {
      KeyLessTail(ka1, kb1);
      assert ka1[1..] == [RevStr(a.resolution)] && kb1[1..] == [RevStr(b.resolution)];
      if a.resolution == b.resolution {
        KeyLessTail(ka1[1..], kb1[1..]);
      }
    }
  }

  lemma AudioKeyOrder(a: Track, b: Track)
    requires a.kind == "audio" && b.kind == "audio"
    ensures TrackLess(a, b) == KeyLess(SortKey(a), SortKey(b))
  {
    var ka, kb := SortKey(a), SortKey(b);
    StrLessTotal(a.codec, b.codec);
    KeyLessTail(ka, kb);
    var ka1, kb1 := ka[1..], kb[1..];
    assert ka1 == [Num(LanguagePriority(a.language)), Num(-a.channels), Str(a.codec)];
    assert kb1 == [Num(LanguagePriority(b.language)), Num(-b.channels), Str(b.codec)];
    if ka1[0] == kb1[0] {
      KeyLessTail(ka1, kb1);
      var ka2, kb2 := ka1[1..], kb1[1..];
      assert ka2 == [Num(-a.channels), Str(a.codec)] && kb2 == [Num(-b.channels), Str(b.codec)];
      if ka2[0] == kb2[0] {
        KeyLessTail(ka2, kb2);
        assert ka2[1..] == [Str(a.codec)] && kb2[1..] == [Str(b.codec)];
        if a.codec == b.codec {
          KeyLessTail(ka2[1..], kb2[1..]);
        }
      }
    }
  }

  lemma SubtitleKeyOrder(a: Track, b: Track)
    requires a.kind == "subtitle" && b.kind == "subtitle"
    ensures TrackLess(a, b) == KeyLess(SortKey(a), SortKey(b))
  {
    var ka, kb := SortKey(a), SortKey(b);
    StrLessTotal(a.codec, b.codec);
    KeyLessTail(ka, kb);
    var fa, fb := if a.isForced then 0 else 1, if b.isForced then 0 else 1;
    var da, db := if a.isDefault then 0 else 1, if b.isDefault then 0 else 1;
    var ka1, kb1 := ka[1..], kb[1..];
    assert ka1 == [Num(LanguagePriority(a.language)), Num(fa), Num(da), Str(a.codec)];
    assert kb1 == [Num(LanguagePriority(b.language)), Num(fb), Num(db), Str(b.codec)];
    if ka1[0] == kb1[0] {
      KeyLessTail(ka1, kb1);
      var ka2, kb2 := ka1[1..], kb1[1..];
      assert ka2 == [Num(fa), Num(da), Str(a.codec)] && kb2 == [Num(fb), Num(db), Str(b.codec)];
      if ka2[0] == kb2[0] {
        KeyLessTail(ka2, kb2);
        var ka3, kb3 := ka2[1..], kb2[1..];
        assert ka3 == [Num(da), Str(a.codec)] && kb3 == [Num(db), Str(b.codec)];
        if ka3[0] == kb3[0] {
          KeyLessTail(ka3, kb3);
          assert ka3[1..] == [Str(a.codec)] && kb3[1..] == [Str(b.codec)];
          if a.codec == b.codec {
            KeyLessTail(ka3[1..], kb3[1..]);
          }
        }
      }
    }
  }

  /** Equal first components: the rest decides. */
  lemma KeyLessTail(x: seq<KeyPart>, y: seq<KeyPart>)
    requires x != [] && y != [] && x[0] == y[0]
    ensures KeyLess(x, y) == KeyLess(x[1..], y[1..])
  {
  }

  lemma {:induction false} StrLessTotal(a: string, b: string)
    ensures StrLess(a, b) ==> !StrLess(b, a)
    ensures a != b ==> StrLess(a, b) || StrLess(b, a)
    decreases |a|
  {
    if a != [] && b != [] && a[0] == b[0] {
      StrLessTotal(a[1..], b[1..]);
      if a != b {
        assert a == [a[0]] + a[1..] && b == [b[0]] + b[1..];
      }
    }
  }

  lemma {:induction false} StrLessTrans(a: string, b: string, c: string)
    requires StrLess(a, b) && StrLess(b, c)
    ensures StrLess(a, c)
    decreases |a|
  {
    if a != [] && a[0] == b[0] && b[0] == c[0] {
      StrLessTrans(a[1..], b[1..], c[1..]);
    }
  }

  lemma PartLessTotal(a: KeyPart, b: KeyPart)
    ensures PartLess(a, b) ==> !PartLess(b, a)
    ensures a != b ==> PartLess(a, b) || PartLess(b, a)
  {
    match (a, b)
    case (Str(x), Str(y)) => StrLessTotal(x, y);
    case (RevStr(x), RevStr(y)) => StrLessTotal(x, y);
    case _ =>
  }

  lemma PartLessTrans(a: KeyPart, b: KeyPart, c: KeyPart)
    requires PartLess(a, b) && PartLess(b, c)
    ensures PartLess(a, c)
  {
    match (a, b, c)
    case (Str(x), Str(y), Str(z)) => StrLessTrans(x, y, z);
    case (RevStr(x), RevStr(y), RevStr(z)) => StrLessTrans(z, y, x);
    case _ =>
  }

  lemma {:induction false} KeyLessTotal(x: seq<KeyPart>, y: seq<KeyPart>)
    ensures KeyLess(x, y) ==> !KeyLess(y, x)
    ensures x != y ==> KeyLess(x, y) || KeyLess(y, x)
    decreases |x|
  {
    if x != [] && y != [] {
      if x[0] == y[0] {
        KeyLessTotal(x[1..], y[1..]);
        if x != y {
          assert x == [x[0]] + x[1..] && y == [y[0]] + y[1..];
        }
      } else {
        PartLessTotal(x[0], y[0]);
      }
    }
  }

  lemma {:induction false} KeyLessTrans(x: seq<KeyPart>, y: seq<KeyPart>, z: seq<KeyPart>)
    requires KeyLess(x, y) && KeyLess(y, z)
    ensures KeyLess(x, z)
    decreases |x|
  {
    if x != [] {
      if x[0] == y[0] && y[0] == z[0] {
        KeyLessTrans(x[1..], y[1..], z[1..]);
      } else if x[0] != y[0] && y[0] != z[0] {
        PartLessTrans(x[0], y[0], z[0]);
        PartLessTotal(x[0], z[0]);
      }
    }
  }

  /** The comparator is a strict weak order, as `sort.Slice` requires:
      never both ways, and "not less" is transitive. */
  lemma TrackLessAsymmetric(a: Track, b: Track)
    ensures TrackLess(a, b) ==> !TrackLess(b, a)
    ensures !TrackLess(a, a)
  {
    TrackLessIsKeyOrder(a, b);
    TrackLessIsKeyOrder(b, a);
    TrackLessIsKeyOrder(a, a);
    KeyLessTotal(SortKey(a), SortKey(b));
    KeyLessTotal(SortKey(a), SortKey(a));
  }

  lemma TrackNotLessTrans(a: Track, b: Track, c: Track)
    requires !TrackLess(b, a) && !TrackLess(c, b)
    ensures !TrackLess(c, a)
  {
    TrackLessIsKeyOrder(b, a);
    TrackLessIsKeyOrder(c, b);
    TrackLessIsKeyOrder(c, a);
    var ka, kb, kc := SortKey(a), SortKey(b), SortKey(c);
    KeyLessTotal(ka, kb);
    KeyLessTotal(kb, kc);
    KeyLessTotal(ka, kc);
    if KeyLess(ka, kb) && KeyLess(kb, kc) {
      KeyLessTrans(ka, kb, kc);
    }
  }

  /** What `sort.Slice` requires of its comparator: a strict weak order. */
  ghost predicate StrictWeakOrder<T(!new)>(less: (T, T) -> bool)
  {
    && (forall a, b :: less(a, b) ==> !less(b, a))
    && (forall a, b, c :: !less(b, a) && !less(c, b) ==> !less(c, a))
  }

  lemma TrackLessStrictWeakOrder()
    ensures StrictWeakOrder(TrackLess)
  {
    forall a, b
      ensures TrackLess(a, b) ==> !TrackLess(b, a)
    {
      TrackLessAsymmetric(a, b);
    }
    forall a, b, c
      ensures !TrackLess(b, a) && !TrackLess(c, b) ==> !TrackLess(c, a)
    {
      if !TrackLess(b, a) && !TrackLess(c, b) {
        TrackNotLessTrans(a, b, c);
      }
    }
  }

  /** Ordered by `less`: no element is less than one before it. */
  predicate SortedBy<T>(s: seq<T>, less: (T, T) -> bool)
  {
    forall i, j | 0 <= i < j < |s| :: !less(s[j], s[i])
  }

  /** BeyondHD's `SortTracks`: copy the tracks into a new array and sort
      the copy in place; the caller's array is left as it was. */
  method BeyondHdSortTracks(tracks: array<Track>) returns (sortedTracks: array<Track>)
    ensures fresh(sortedTracks) && tracks[..] == old(tracks[..])
    ensures sortedTracks.Length == tracks.Length
    ensures multiset(sortedTracks[..]) == multiset(tracks[..])
    ensures SortedBy(sortedTracks[..], TrackLess)
  {
    sortedTracks := new Track[tracks.Length](k requires 0 <= k < tracks.Length reads tracks => tracks[k]);
    assert sortedTracks[..] == tracks[..];
    TrackLessStrictWeakOrder();
    SortInPlace(sortedTracks, TrackLess);
  }

  /** Sort an array in place by insertion: each element in turn is swapped
      back past the elements it is less than. */
  method SortInPlace<T(!new)>(a: array<T>, less: (T, T) -> bool)
    requires StrictWeakOrder(less)
    modifies a
    ensures multiset(a[..]) == multiset(old(a[..]))
    ensures SortedBy(a[..], less)
  {
    for i := 0 to a.Length
      invariant multiset(a[..]) == multiset(old(a[..]))
      invariant SortedRange(a, 0, i, less)
    {
      SinkLast(a, i, less);
    }
  }

  /** No element of a[lo..hi] is less than one before it. */
  predicate SortedRange<T>(a: array<T>, lo: int, hi: int, less: (T, T) -> bool)
    reads a
  {
    forall p, q | lo <= p < q < hi && 0 <= p && q < a.Length :: !less(a[q], a[p])
  }

  /** Given a[..i] sorted, swap a[i] back until a[..i + 1] is sorted. */
  method SinkLast<T(!new)>(a: array<T>, i: nat, less: (T, T) -> bool)
    requires StrictWeakOrder(less) && i < a.Length && SortedRange(a, 0, i, less)
    modifies a
    ensures multiset(a[..]) == multiset(old(a[..]))
    ensures SortedRange(a, 0, i + 1, less)
  {
    var j := i;
    while j > 0 && less(a[j], a[j - 1])
      invariant 0 <= j <= i
      invariant multiset(a[..]) == multiset(old(a[..]))
      invariant SortedRange(a, 0, j, less) && SortedRange(a, j + 1, i + 1, less)
      invariant forall p, q | 0 <= p < j < q <= i :: !less(a[q], a[p])
      invariant forall q | j < q <= i :: less(a[j], a[q])
    {
      SwapStep(a, j, i, less);
      j := j - 1;
    }
    SinkDone(a, j, i, less);
  }

  /** Once the sinking element at j is not less than its left neighbour,
      a[..i + 1] is sorted. */
  lemma SinkDone<T(!new)>(a: array<T>, j: nat, i: nat, less: (T, T) -> bool)
    requires StrictWeakOrder(less) && j <= i < a.Length
    requires j == 0 || !less(a[j], a[j - 1])
    requires SortedRange(a, 0, j, less) && SortedRange(a, j + 1, i + 1, less)
    requires forall p, q | 0 <= p < j < q <= i :: !less(a[q], a[p])
    requires forall q | j < q <= i :: less(a[j], a[q])
    ensures SortedRange(a, 0, i + 1, less)
  {
    forall p | 0 <= p < j
      ensures !less(a[j], a[p])
    {
      NotLessTrans(less, a[p], a[j - 1], a[j]);
    }
    forall q | j < q <= i
      ensures !less(a[q], a[j])
    {
      NotLessBoth(less, a[j], a[q]);
    }
  }

  /** One swap of the sinking element with its left neighbour keeps the
      invariants of `SinkLast` one position further left. */
  method SwapStep<T(!new)>(a: array<T>, j: nat, i: nat, less: (T, T) -> bool)
    requires 0 < j <= i < a.Length && less(a[j], a[j - 1])
    requires SortedRange(a, 0, j, less) && SortedRange(a, j + 1, i + 1, less)
    requires forall p, q | 0 <= p < j < q <= i :: !less(a[q], a[p])
    requires forall q | j < q <= i :: less(a[j], a[q])
    modifies a
    ensures multiset(a[..]) == multiset(old(a[..]))
    ensures SortedRange(a, 0, j - 1, less) && SortedRange(a, j, i + 1, less)
    ensures forall p, q | 0 <= p < j - 1 < q <= i :: !less(a[q], a[p])
    ensures forall q | j - 1 < q <= i :: less(a[j - 1], a[q])
  {
    ghost var s := a[..];
    Swap(a, j - 1, j);
    assert a[j - 1] == s[j] && a[j] == s[j - 1];
    assert forall k | 0 <= k < a.Length && k != j - 1 && k != j :: a[k] == s[k];
    forall p, q | j <= p < q <= i
      ensures !less(a[q], a[p])
    {
      if p == j {
        assert !less(s[q], s[j - 1]);
      } else {
        assert !less(s[q], s[p]);
      }
    }
    forall p, q | 0 <= p < j - 1 < q <= i
      ensures !less(a[q], a[p])
    {
      if q == j {
        assert !less(s[j - 1], s[p]);
      } else {
        assert !less(s[q], s[p]);
      }
    }
  }

  /** Exchange a[x] and a[y]; the array keeps its elements. */
  method Swap<T>(a: array<T>, x: nat, y: nat)
    requires x < a.Length && y < a.Length
    modifies a
    ensures a[..] == old(a[..])[x := old(a[y])][y := old(a[x])]
    ensures multiset(a[..]) == multiset(old(a[..]))
  {
    a[x], a[y] := a[y], a[x];
  }

  lemma NotLessTrans<T(!new)>(less: (T, T) -> bool, a: T, b: T, c: T)
    requires StrictWeakOrder(less) && !less(b, a) && !less(c, b)
    ensures !less(c, a)
  {
  }

  lemma NotLessBoth<T(!new)>(less: (T, T) -> bool, a: T, b: T)
    requires StrictWeakOrder(less) && less(a, b)
    ensures !less(b, a)
  {
  }

  /** The type order: video before audio before subtitles, other types
      (priority 0) before all three. */
  lemma TypeOrder(a: Track, b: Track)
    requires TypePriority(a.kind) < TypePriority(b.kind)
    ensures TrackLess(a, b) && !TrackLess(b, a)
  {
  }

  /** Among audio tracks of equal language priority, more channels first. */
  lemma AudioChannelsFirst(a: Track, b: Track)
    requires a.kind == "audio" && b.kind == "audio"
    requires LanguagePriority(a.language) == LanguagePriority(b.language) && a.channels > b.channels
    ensures TrackLess(a, b) && !TrackLess(b, a)
  {
  }

  /** Among subtitles of equal language priority, a forced one first, then
      a default one. */
  lemma SubtitleFlagsFirst(a: Track, b: Track)
    requires a.kind == "subtitle" && b.kind == "subtitle"
    requires LanguagePriority(a.language) == LanguagePriority(b.language)
    requires (a.isForced && !b.isForced) || (a.isForced == b.isForced && a.isDefault && !b.isDefault)
    ensures TrackLess(a, b) && !TrackLess(b, a)
  {
  }

  /** Among video tracks of equal codec priority, the resolution string
      that is greater first. */
  lemma VideoResolutionDescending(a: Track, b: Track)
    requires a.kind == "video" && b.kind == "video"
    requires CodecPriority(a.codec) == CodecPriority(b.codec) && StrLess(b.resolution, a.resolution)
    ensures TrackLess(a, b) && !TrackLess(b, a)
  {
    StrLessTotal(b.resolution, a.resolution);
  }

  // ---------------------------------------------------------------------------
  // The registry
  // ---------------------------------------------------------------------------

  /** The table after registering `sites` in order, each under its name. */
  function RegisterAll(table: map<string, Site>, sites: seq<Site>): map<string, Site>
    decreases |sites|
  {
    if sites == [] then table
    else RegisterAll(table[sites[0].Name() := sites[0]], sites[1..])
  }

  /** The table of sites by name (`PTSiteRegistry.Sites`). */
  class PtSiteRegistry {
    var sites: map<string, Site>

    /** NewPTSiteRegistry: BeyondHD, then the other default sites in order.
        Those other sites are defined outside package pt's two files and
        arrive here as values. */
    constructor (otherSites: seq<Site>)
      ensures sites == RegisterAll(map["beyondhd" := BeyondHdSite], otherSites)
    {
      sites := map[];
      new;
      RegisterSite(BeyondHdSite);
      for k := 0 to |otherSites|
        invariant sites == RegisterAll(map["beyondhd" := BeyondHdSite], otherSites[..k])
      {
        RegisterAllStep(map["beyondhd" := BeyondHdSite], otherSites, k);
        RegisterSite(otherSites[k]);
      }
      assert otherSites[..|otherSites|] == otherSites;
    }

    /** RegisterSite: store the site under its name, replacing any earlier
        site of that name. */
    method RegisterSite(site: Site)
      modifies this
      ensures sites == old(sites)[site.Name() := site]
    {
      sites := sites[site.Name() := site];
    }

    /** GetSite: the site of that name (nil, here None, when there is none)
        and whether there is one. */
    function GetSite(name: string): (r: (Option<Site>, bool))
      reads this
      ensures r.1 <==> name in sites
      ensures r.0 == if name in sites then Some(sites[name]) else None
    {
      if name in sites then (Some(sites[name]), true) else (None, false)
    }

    /** GetDefaultSite: BeyondHD when registered; otherwise some registered
        site (Go's map iteration order is unspecified); a new base site when
        there is none. */
    method GetDefaultSite() returns (site: Site)
      ensures "beyondhd" in sites ==> site == sites["beyondhd"]
      ensures "beyondhd" !in sites && |sites| > 0 ==> site in sites.Values
      ensures |sites| == 0 ==> site == BaseSite
    {
      if "beyondhd" in sites {
        return sites["beyondhd"];
      }
      if |sites| > 0 {
        var name :| name in sites;
        return sites[name];
      }
      return BaseSite;
    }
  }

  /** Registering one more site is one more update of the table. */
  lemma RegisterAllStep(table: map<string, Site>, sites: seq<Site>, k: nat)
    requires k < |sites|
    ensures RegisterAll(table, sites[..k + 1]) == RegisterAll(table, sites[..k])[sites[k].Name() := sites[k]]
    decreases k
  {
    if k == 0 {
      assert sites[..1] == [sites[0]];
      assert sites[..1][1..] == [];
    } else {
      RegisterAllStep(table[sites[0].Name() := sites[0]], sites[1..], k - 1);
      assert sites[..k + 1][1..] == sites[1..][..k];
      assert sites[..k][1..] == sites[1..][..k - 1];
    }
  }

  /** Every site registered is found under its name, the LAST of a name
      winning, and nothing else is in the table but the starting entries. */
  lemma {:induction false} RegisterAllFacts(table: map<string, Site>, sites: seq<Site>, name: string)
    ensures name in RegisterAll(table, sites) <==>
      name in table || exists k | 0 <= k < |sites| :: sites[k].Name() == name
    ensures forall k | 0 <= k < |sites| && sites[k].Name() == name && (forall j | k < j < |sites| :: sites[j].Name() != name) ::
      RegisterAll(table, sites)[name] == sites[k]
    ensures (forall k | 0 <= k < |sites| :: sites[k].Name() != name) && name in table ==>
      RegisterAll(table, sites)[name] == table[name]
    decreases |sites|
  {
    if sites != [] {
      var t' := table[sites[0].Name() := sites[0]];
      RegisterAllFacts(t', sites[1..], name);
      if name in t' && name !in table {
        assert sites[0].Name() == name;
      }
      if exists k | 0 <= k < |sites[1..]| :: sites[1..][k].Name() == name {
        var k :| 0 <= k < |sites[1..]| && sites[1..][k].Name() == name;
        assert sites[k + 1].Name() == name;
      }
      forall k | 0 <= k < |sites| && sites[k].Name() == name && (forall j | k < j < |sites| :: sites[j].Name() != name)
        ensures RegisterAll(table, sites)[name] == sites[k]
      {
        if k > 0 {
          assert sites[1..][k - 1] == sites[k];
        }
      }
    }
  }

  /** The registry as built: BeyondHD is the default unless a later site
      takes the name "beyondhd". */
  lemma DefaultIsBeyondHd(otherSites: seq<Site>)
    requires forall k | 0 <= k < |otherSites| :: otherSites[k].Name() != "beyondhd"
    ensures var table := RegisterAll(map["beyondhd" := BeyondHdSite], otherSites);
      "beyondhd" in table && table["beyondhd"] == BeyondHdSite
  {
    RegisterAllFacts(map["beyondhd" := BeyondHdSite], otherSites, "beyondhd");
  }
}
