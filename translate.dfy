/**
  `swingRecordTranslate`: the public swing representation built from a stored
  record, with the video URL made absolute and the thumbnail URL derived from
  the video path by extension substitution.
 */
module Translate {
  import opened Wrappers
  import opened Strings
  import opened Swings

  /** The media origin prepended to relative video paths. */
  const SwingStorePrefix := "https://v1sports.com/SwingStore/"

  /** The extensions the thumbnail derivation replaces, in replacement order. */
  const Mp4 := ".mp4"
  const Webm := ".webm"
  const Bin := ".bin"
  const Mov := ".mov"
  const Jpg := ".jpg"

  /** The public swing representation (the fields of the `swing` schema). */
  datatype SwingView = SwingView(
    id: int,
    kind: string,
    accountId: int,
    title: Option<string>,
    videoUrl: string,
    thumbUrl: string,
    vimeoId: string,
    statusId: int,
    dateUploaded: Timestamp)

  /**
    A stored path as a URL: the empty path and a path already starting with
    "http" are kept, anything else gets the media origin in front.
   */
  function AbsoluteUrl(p: string): (u: string)
    ensures u == p || u == SwingStorePrefix + p
    ensures u == p <==> p == "" || StartsWith(p, "http")
    ensures p != "" ==> StartsWith(u, "http")
  {
    if !StartsWith(p, "http") && p != "" then SwingStorePrefix + p else p
  }

  /** Making a URL absolute twice changes nothing more. */
  lemma AbsoluteUrlIdempotent(p: string)
    ensures AbsoluteUrl(AbsoluteUrl(p)) == AbsoluteUrl(p)
  {
  }

  /** `str_replace(['.mp4', '.webm', '.bin', '.mov'], '.jpg', $path)`: one pass per search string, in order. */
  function ThumbPath(p: string): string
  {
    ReplaceAll(ReplaceAll(ReplaceAll(ReplaceAll(p, Mp4, Jpg), Webm, Jpg), Bin, Jpg), Mov, Jpg)
  }

  /** The path contains none of the four video extensions. */
  predicate NoVideoExtension(p: string)
  {
    !Contains(p, Mp4) && !Contains(p, Webm) && !Contains(p, Bin) && !Contains(p, Mov)
  }

  predicate IsVideoExtension(e: string)
  {
    e == Mp4 || e == Webm || e == Bin || e == Mov
  }

  /** The five extensions each start with their only dot. */
  lemma ExtensionsDotLed()
    ensures DotLed(Mp4) && DotLed(Webm) && DotLed(Bin) && DotLed(Mov) && DotLed(Jpg)
  {
    assert Mp4[1..] == "mp4" && Webm[1..] == "webm" && Bin[1..] == "bin" && Mov[1..] == "mov" && Jpg[1..] == "jpg";
  }

  /** No video extension, and not ".jpg", starts with a different video extension. */
  lemma ExtensionNotAtStart(t: string, q: string)
    requires IsVideoExtension(t) || t == Jpg
    requires IsVideoExtension(q) && t != q
    ensures !OccursAt(t, q, 0)
  {
    if |q| <= |t| {
      assert t[..|q|][1] == t[1] && t[..|q|][2] == t[2];
      assert t[1] != q[1] || t[2] != q[2];
    }
  }

  /** The thumbnail path equals the video path exactly when no video extension occurs in it. */
  lemma ThumbUnchangedIff(p: string)
    ensures ThumbPath(p) == p <==> NoVideoExtension(p)
  {
    var p1 := ReplaceAll(p, Mp4, Jpg);
    var p2 := ReplaceAll(p1, Webm, Jpg);
    var p3 := ReplaceAll(p2, Bin, Jpg);
    ReplaceCount(p, Mp4, Jpg, 'j');
    ReplaceCount(p1, Webm, Jpg, 'j');
    ReplaceCount(p2, Bin, Jpg, 'j');
    ReplaceCount(p3, Mov, Jpg, 'j');
    if !Contains(p, Mp4) {
      ReplaceAbsent(p, Mp4, Jpg);
      if !Contains(p1, Webm) {
        ReplaceAbsent(p1, Webm, Jpg);
        if !Contains(p2, Bin) {
          ReplaceAbsent(p2, Bin, Jpg);
          if !Contains(p3, Mov) {
            ReplaceAbsent(p3, Mov, Jpg);
          }
        }
      }
    }
  }

  /** The thumbnail path contains none of the four video extensions: every occurrence is replaced. */
  lemma ThumbRemovesExtensions(p: string)
    ensures NoVideoExtension(ThumbPath(p))
  {
    ExtensionsDotLed();
    var p1 := ReplaceAll(p, Mp4, Jpg);
    var p2 := ReplaceAll(p1, Webm, Jpg);
    var p3 := ReplaceAll(p2, Bin, Jpg);
    ReplaceRemoves(p, Mp4, Jpg, Mp4);
    ReplaceRemoves(p1, Webm, Jpg, Mp4);
    ReplaceRemoves(p1, Webm, Jpg, Webm);
    ReplaceRemoves(p2, Bin, Jpg, Mp4);
    ReplaceRemoves(p2, Bin, Jpg, Webm);
    ReplaceRemoves(p2, Bin, Jpg, Bin);
    ReplaceRemoves(p3, Mov, Jpg, Mp4);
    ReplaceRemoves(p3, Mov, Jpg, Webm);
    ReplaceRemoves(p3, Mov, Jpg, Bin);
    ReplaceRemoves(p3, Mov, Jpg, Mov);
  }

  /** One replacement pass over `stem + t`, where `stem` does not contain the search string. */
  lemma ReplaceAfterStem(stem: string, t: string, q: string)
    requires DotLed(t) && DotLed(q) && !Contains(stem, q)
    requires t == q || !OccursAt(t, q, 0)
    ensures ReplaceAll(stem + t, q, Jpg) == if t == q then stem + Jpg else stem + t
  {
    if t == q {
      ReplaceAppended(stem, q, Jpg);
    } else {
      forall i: nat | i <= |t| ensures !OccursAt(t, q, i) {
        DotLedOccurrence(t, q, i);
      }
      NoOccurrenceConcat(stem, t, q);
      ReplaceAbsent(stem + t, q, Jpg);
    }
  }

  /**
    A path made of an extension-free stem and one video extension has the
    thumbnail path `stem + ".jpg"`.
   */
  lemma ThumbOfExtension(stem: string, e: string)
    requires NoVideoExtension(stem) && IsVideoExtension(e)
    ensures ThumbPath(stem + e) == stem + Jpg
  {
    ExtensionsDotLed();
    var t1 := if e == Mp4 then Jpg else e;
    if e != Mp4 { ExtensionNotAtStart(e, Mp4); }
    ReplaceAfterStem(stem, e, Mp4);
    var t2 := if t1 == Webm then Jpg else t1;
    if t1 != Webm { ExtensionNotAtStart(t1, Webm); }
    ReplaceAfterStem(stem, t1, Webm);
    var t3 := if t2 == Bin then Jpg else t2;
    if t2 != Bin { ExtensionNotAtStart(t2, Bin); }
    ReplaceAfterStem(stem, t2, Bin);
    if t3 != Mov { ExtensionNotAtStart(t3, Mov); }
    ReplaceAfterStem(stem, t3, Mov);
  }

  /** A path without any dot contains no video extension. */
  lemma NoDotNoVideoExtension(p: string)
    requires '.' !in p
    ensures NoVideoExtension(p)
  {
    NoDotNoOccurrence(p, Mp4);
    NoDotNoOccurrence(p, Webm);
    NoDotNoOccurrence(p, Bin);
    NoDotNoOccurrence(p, Mov);
  }

  /** A dot-led segment contains no dot-led pattern that differs from it in the second character. */
  lemma DotSegmentAvoids(t: string, q: string)
    requires DotLed(t) && DotLed(q) && |t| > 1 && |q| > 1 && t[1] != q[1]
    ensures !Contains(t, q)
  {
    forall i: nat | i <= |t| ensures !OccursAt(t, q, i) {
      DotLedOccurrence(t, q, i);
      if i == 0 && |q| <= |t| {
        assert t[..|q|][1] == t[1];
      }
    }
  }

  /** A dot-led segment whose second character is not 'm', 'w' or 'b' contains no video extension. */
  lemma DotSegmentNoVideoExtension(t: string)
    requires DotLed(t) && |t| > 1 && t[1] !in "mwb"
    ensures NoVideoExtension(t)
  {
    ExtensionsDotLed();
    DotSegmentAvoids(t, Mp4);
    DotSegmentAvoids(t, Webm);
    DotSegmentAvoids(t, Bin);
    DotSegmentAvoids(t, Mov);
  }

  /**
    Joining two extension-free strings creates no extension when the second
    starts with a character that no extension has after its dot.
   */
  lemma NoVideoExtensionConcat(a: string, b: string)
    requires NoVideoExtension(a) && NoVideoExtension(b)
    requires |b| > 0 && b[0] !in "mp4webmbinmov"
    ensures NoVideoExtension(a + b)
  {
    assert Mp4[1..] == "mp4" && Webm[1..] == "webm" && Bin[1..] == "bin" && Mov[1..] == "mov";
    NoOccurrenceConcat(a, b, Mp4);
    NoOccurrenceConcat(a, b, Webm);
    NoOccurrenceConcat(a, b, Bin);
    NoOccurrenceConcat(a, b, Mov);
  }

  /** Thumbnail derivation keeps a path non-empty and keeps a leading "http". */
  lemma ThumbKeepsShape(p: string)
    ensures p != "" ==> ThumbPath(p) != ""
    ensures StartsWith(p, "http") ==> StartsWith(ThumbPath(p), "http")
  {
    var p1 := ReplaceAll(p, Mp4, Jpg);
    var p2 := ReplaceAll(p1, Webm, Jpg);
    var p3 := ReplaceAll(p2, Bin, Jpg);
    if p != "" {
      ReplaceNonEmpty(p, Mp4, Jpg);
      ReplaceNonEmpty(p1, Webm, Jpg);
      ReplaceNonEmpty(p2, Bin, Jpg);
      ReplaceNonEmpty(p3, Mov, Jpg);
    }
    if StartsWith(p, "http") {
      ReplaceKeepsPrefix(p, Mp4, Jpg, 4);
      ReplaceKeepsPrefix(p1, Webm, Jpg, 4);
      ReplaceKeepsPrefix(p2, Bin, Jpg, 4);
      ReplaceKeepsPrefix(p3, Mov, Jpg, 4);
    }
  }

  /** `swingRecordTranslate`: the representation of one stored record. */
  function SwingRecordTranslate(s: Swing): (v: SwingView)
    ensures v.id == s.SwingID && v.kind == "video"
    ensures v.accountId == s.AccountID && v.title == s.Description
    ensures v.vimeoId == s.VimeoID && v.statusId == s.SwingStatusID
    ensures v.dateUploaded == s.DateUploaded
    ensures v.videoUrl == AbsoluteUrl(s.VideoPath)
    ensures v.thumbUrl == AbsoluteUrl(ThumbPath(s.VideoPath))
  {
    SwingView(
      s.SwingID, "video", s.AccountID, s.Description,
      AbsoluteUrl(s.VideoPath), AbsoluteUrl(ThumbPath(s.VideoPath)),
      s.VimeoID, s.SwingStatusID, s.DateUploaded)
  }

  /** Both URLs are empty for a record without video, and absolute otherwise. */
  lemma TranslateUrlsAbsolute(s: Swing)
    ensures s.VideoPath == "" ==> SwingRecordTranslate(s).videoUrl == "" && SwingRecordTranslate(s).thumbUrl == ""
    ensures s.VideoPath != "" ==>
      StartsWith(SwingRecordTranslate(s).videoUrl, "http") && StartsWith(SwingRecordTranslate(s).thumbUrl, "http")
  {
    ThumbKeepsShape(s.VideoPath);
  }

  /** A video path without a video extension yields a thumbnail URL equal to the video URL. */
  lemma TranslateThumbWithoutExtension(s: Swing)
    requires NoVideoExtension(s.VideoPath)
    ensures SwingRecordTranslate(s).thumbUrl == SwingRecordTranslate(s).videoUrl
  {
    ThumbUnchangedIff(s.VideoPath);
  }

  /** A relative path `stem + ext` is shown with the media origin and a ".jpg" thumbnail beside it. */
  lemma TranslateRelativeVideo(s: Swing, stem: string, e: string)
    requires s.VideoPath == stem + e && stem != "" && !StartsWith(stem, "http")
    requires NoVideoExtension(stem) && IsVideoExtension(e)
    ensures SwingRecordTranslate(s).videoUrl == SwingStorePrefix + stem + e
    ensures SwingRecordTranslate(s).thumbUrl == SwingStorePrefix + stem + Jpg
  {
    ThumbOfExtension(stem, e);
    ExtensionsDotLed();
    StartsWithOfExtended(stem, e);
    StartsWithOfExtended(stem, Jpg);
  }

  /** A dot-led suffix cannot make a dot-free prefix "http" appear. */
  lemma StartsWithOfExtended(stem: string, e: string)
    requires stem != "" && !StartsWith(stem, "http") && DotLed(e)
    ensures !StartsWith(stem + e, "http")
  {
    if |stem| >= 4 {
      assert (stem + e)[..4] == stem[..4];
    } else if |stem + e| >= 4 {
      assert (stem + e)[..4][|stem|] == '.';
    }
  }
}
