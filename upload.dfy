/**
  `upload`: the request checks it runs in order, the storage key it derives
  from the clock, the environment and the content type, and the chunked copy
  loop of `copyInputStreamToS3`.
 */
module Upload {
  import opened Wrappers
  import opened Strings
  import opened Swings
  import opened Translate

  const AllowedContentTypes: seq<string> := ["video/mp4", "video/webm", "video/quicktime", "application/octet-stream"]

  const MessageIdMissing := "id query parameter missing or invalid"
  const MessageLengthMissing := "Content-Length header must be specified"
  const MessageTypeInvalid := "Content-Type header must be specified.  Acceptable values: video/mp4, video/webm, video/quicktime"

  /** Environments whose objects are kept under a separate prefix. */
  const TestEnvironments: seq<string> := ["testing", "local"]

  /** Bytes moved per `stream_copy_to_stream` call. */
  const ChunkSize := 8192 * 24

  /**
    The request as the controller reads it: `intval` of the `id` query value
    (0 when absent or not a number), the `(int)` cast of Content-Length (0
    when absent) and the Content-Type header ("" when absent).
   */
  datatype UploadRequest = UploadRequest(id: int, contentLength: int, contentType: string)

  /** The local civil time that `date(...)` formats. */
  datatype Clock = Clock(year: nat, month: nat, day: nat, hour: nat, minute: nat, second: nat)

  predicate ValidClock(t: Clock)
  {
    t.year < 10000 && 1 <= t.month <= 12 && 1 <= t.day <= 31 && t.hour < 24 && t.minute < 60 && t.second < 60
  }

  /** What a successful upload acts on: the owned record and the object key. */
  datatype UploadPlan = UploadPlan(item: Swing, key: string)

  /** The `switch` on the content type: three video types, anything else is binary. */
  function ExtensionFor(contentType: string): (e: string)
    ensures IsVideoExtension(e)
    ensures contentType == "application/octet-stream" ==> e == Bin
    ensures e == Mp4 <==> contentType == "video/mp4"
    ensures e == Webm <==> contentType == "video/webm"
    ensures e == Mov <==> contentType == "video/quicktime"
  {
    if contentType == "video/mp4" then Mp4
    else if contentType == "video/webm" then Webm
    else if contentType == "video/quicktime" then Mov
    else Bin
  }

  function EnvPrefix(env: string): string
  {
    if env in TestEnvironments then "test/" else ""
  }

  /** PHP `date('h')`: the hour on a 12-hour clock, 1 to 12. */
  function Hour12(hour: nat): (h: nat)
    ensures 1 <= h <= 12
  {
    if hour % 12 == 0 then 12 else hour % 12
  }

  /** The month to second fields of `date('Ymd?is')`, for a given rendering of the hour. */
  function TimeFields(t: Clock, hourField: string): string
  {
    Digits(t.month, 2) + (Digits(t.day, 2) + (hourField + (Digits(t.minute, 2) + Digits(t.second, 2))))
  }

  /** The key without extension, for a given rendering of the hour field. */
  function KeyStemWith(env: string, t: Clock, hourField: string): string
  {
    EnvPrefix(env) + ("swings/" + (Digits(t.year, 4) + ("/" + (Digits(t.year, 4) + TimeFields(t, hourField)))))
  }

  /** The object key: the stem for a rendering of the hour, then the extension of the content type. */
  function KeyWith(env: string, t: Clock, hourField: string, contentType: string): string
  {
    KeyStemWith(env, t, hourField) + ExtensionFor(contentType)
  }

  /** `'swings/'.date('Y').'/'.date('Ymdhis')` plus the extension, as written: the hour is on a 12-hour clock. */
  function DestinationKeyAsWritten(env: string, t: Clock, contentType: string): string
  {
    KeyWith(env, t, Digits(Hour12(t.hour), 2), contentType)
  }

  /** Upload times twelve hours apart on the same day get the same key as written. */
  lemma TwelveHourKeysCollide()
    ensures ValidClock(Clock(2024, 5, 1, 1, 0, 0)) && ValidClock(Clock(2024, 5, 1, 13, 0, 0))
    ensures DestinationKeyAsWritten("production", Clock(2024, 5, 1, 1, 0, 0), "video/mp4")
         == DestinationKeyAsWritten("production", Clock(2024, 5, 1, 13, 0, 0), "video/mp4")
  {
  }

  /** The corrected key stem `swings/<Y>/<YmdHis>`, with the 24-hour `H`. */
  function KeyStem(env: string, t: Clock): string
  {
    KeyStemWith(env, t, Digits(t.hour, 2))
  }

  /** The corrected destination key of an upload. */
  function DestinationKey(env: string, t: Clock, contentType: string): string
  {
    KeyWith(env, t, Digits(t.hour, 2), contentType)
  }

  /** The key as written is the corrected key of the clock read on a 12-hour dial. */
  lemma KeyAsWrittenIsTwelveHourReading(env: string, t: Clock, contentType: string)
    ensures ValidClock(t) ==> ValidClock(t.(hour := Hour12(t.hour)))
    ensures DestinationKeyAsWritten(env, t, contentType) == DestinationKey(env, t.(hour := Hour12(t.hour)), contentType)
  {
  }

  /**
    Whatever the hour field, the key is namespaced under "test/" exactly in the
    testing and local environments, followed by "swings/".
   */
  lemma DestinationKeyPrefix(env: string, t: Clock, hourField: string, contentType: string)
    ensures env in TestEnvironments ==> StartsWith(KeyWith(env, t, hourField, contentType), "test/swings/")
    ensures env !in TestEnvironments ==> StartsWith(KeyWith(env, t, hourField, contentType), "swings/")
    ensures StartsWith(KeyWith(env, t, hourField, contentType), "test/") <==> env in TestEnvironments
  {
    var y := Digits(t.year, 4);
    var rest := "swings/" + (y + ("/" + (y + TimeFields(t, hourField))));
    var key := KeyWith(env, t, hourField, contentType);
    assert key == EnvPrefix(env) + rest + ExtensionFor(contentType);
    assert rest[..7] == "swings/";
    assert key[|EnvPrefix(env)|..][..7] == rest[..7];
    if env in TestEnvironments {
      assert key[..12] == "test/" + rest[..7];
    } else {
      assert key[..7] == "swings/";
      assert key[0] == 's';
    }
  }

  /**
    For any all-digit hour field the key stem holds no dot, so the extension is
    the only one in the key; it is relative and starts with 't' or 's'.
   */
  lemma KeyStemHasNoDot(env: string, t: Clock, hourField: string)
    requires AllDigits(hourField)
    ensures '.' !in KeyStemWith(env, t, hourField)
    ensures KeyStemWith(env, t, hourField) != "" && !StartsWith(KeyStemWith(env, t, hourField), "http")
    ensures KeyStemWith(env, t, hourField)[0] == if env in TestEnvironments then 't' else 's'
  {
    var digits := [Digits(t.year, 4), Digits(t.month, 2), Digits(t.day, 2), hourField, Digits(t.minute, 2), Digits(t.second, 2)];
    forall d | d in digits ensures '.' !in d {
      assert AllDigits(d);
      assert forall i :: 0 <= i < |d| ==> d[i] != '.';
    }
    var y := Digits(t.year, 4);
    var rest := "swings/" + (y + ("/" + (y + TimeFields(t, hourField))));
    var stem := KeyStemWith(env, t, hourField);
    assert stem == EnvPrefix(env) + rest;
    assert stem[0] == 's' || stem[0] == 't';
    assert stem[..4][0] == stem[0];
  }

  /** Equal stems have equal year and time fields. */
  lemma KeyStemCancel(env: string, t1: Clock, t2: Clock, h1: string, h2: string)
    requires KeyStemWith(env, t1, h1) == KeyStemWith(env, t2, h2)
    ensures Digits(t1.year, 4) == Digits(t2.year, 4) && TimeFields(t1, h1) == TimeFields(t2, h2)
  {
    var y1, y2 := Digits(t1.year, 4), Digits(t2.year, 4);
    var f1, f2 := TimeFields(t1, h1), TimeFields(t2, h2);
    ConcatCancel(EnvPrefix(env), "swings/" + (y1 + ("/" + (y1 + f1))), EnvPrefix(env), "swings/" + (y2 + ("/" + (y2 + f2))));
    ConcatCancel("swings/", y1 + ("/" + (y1 + f1)), "swings/", y2 + ("/" + (y2 + f2)));
    ConcatCancel(y1, "/" + (y1 + f1), y2, "/" + (y2 + f2));
    ConcatCancel("/", y1 + f1, "/", y2 + f2);
    ConcatCancel(y1, f1, y2, f2);
  }

  /** Keys of two valid clocks agree only when the clocks do (same environment and type). */
  lemma DestinationKeyInjective(env: string, t1: Clock, t2: Clock, contentType: string)
    requires ValidClock(t1) && ValidClock(t2)
    requires DestinationKey(env, t1, contentType) == DestinationKey(env, t2, contentType)
    ensures t1 == t2
  {
    var e := ExtensionFor(contentType);
    var s1 := KeyStem(env, t1);
    var s2 := KeyStem(env, t2);
    assert |s1| == |s2|;
    ConcatCancel(s1, e, s2, e);
    KeyStemCancel(env, t1, t2, Digits(t1.hour, 2), Digits(t2.hour, 2));
    FieldsCancel(t1, t2);
    DigitsInjective(t1.year, t2.year, 4);
  }

  /** The month-to-second fields agree when their renderings do. */
  lemma FieldsCancel(t1: Clock, t2: Clock)
    requires ValidClock(t1) && ValidClock(t2)
    requires TimeFields(t1, Digits(t1.hour, 2)) == TimeFields(t2, Digits(t2.hour, 2))
    ensures t1.month == t2.month && t1.day == t2.day && t1.hour == t2.hour
    ensures t1.minute == t2.minute && t1.second == t2.second
  {
    var mo1, mo2 := Digits(t1.month, 2), Digits(t2.month, 2);
    var d1, d2 := Digits(t1.day, 2), Digits(t2.day, 2);
    var h1, h2 := Digits(t1.hour, 2), Digits(t2.hour, 2);
    var mi1, mi2 := Digits(t1.minute, 2), Digits(t2.minute, 2);
    var s1, s2 := Digits(t1.second, 2), Digits(t2.second, 2);
    ConcatCancel(mo1, d1 + (h1 + (mi1 + s1)), mo2, d2 + (h2 + (mi2 + s2)));
    ConcatCancel(d1, h1 + (mi1 + s1), d2, h2 + (mi2 + s2));
    ConcatCancel(h1, mi1 + s1, h2, mi2 + s2);
    ConcatCancel(mi1, s1, mi2, s2);
    DigitsInjective(t1.month, t2.month, 2);
    DigitsInjective(t1.day, t2.day, 2);
    DigitsInjective(t1.hour, t2.hour, 2);
    DigitsInjective(t1.minute, t2.minute, 2);
    DigitsInjective(t1.second, t2.second, 2);
  }

  /** Where line 595 of the controller, commented out, would store an uploaded video. */
  const MediaOrigin := MediaHost + MediaRegion + MediaDomain + MediaTld

  const MediaHost := "https://vos-media"
  const MediaRegion := ".nyc3"
  const MediaDomain := ".digitaloceanspaces"
  const MediaTld := ".com/"

  /** No segment of the media origin holds a video extension. */
  lemma MediaOriginSegments()
    ensures NoVideoExtension(MediaHost) && NoVideoExtension(MediaRegion)
    ensures NoVideoExtension(MediaDomain) && NoVideoExtension(MediaTld)
  {
    NoDotNoVideoExtension(MediaHost);
    DotSegmentNoVideoExtension(MediaRegion);
    DotSegmentNoVideoExtension(MediaDomain);
    DotSegmentNoVideoExtension(MediaTld);
  }

  /** The media origin followed by a key stem contains no video extension. */
  lemma MediaOriginNoVideoExtension(stem: string)
    requires NoVideoExtension(stem) && |stem| > 0 && stem[0] !in "mp4webmbinmov"
    ensures NoVideoExtension(MediaOrigin + stem)
  {
    MediaOriginSegments();
    SegmentsNoVideoExtension(MediaHost, MediaRegion, MediaDomain, MediaTld, stem);
    assert MediaOrigin + stem == MediaHost + (MediaRegion + (MediaDomain + (MediaTld + stem)));
  }

  /** Chaining `NoVideoExtensionConcat` over the segments of a URL. */
  lemma SegmentsNoVideoExtension(host: string, p1: string, p2: string, p3: string, stem: string)
    requires NoVideoExtension(host) && NoVideoExtension(p1) && NoVideoExtension(p2) && NoVideoExtension(p3)
    requires |p1| > 0 && |p2| > 0 && |p3| > 0 && p1[0] == p2[0] == p3[0] == '.'
    requires NoVideoExtension(stem) && |stem| > 0 && stem[0] !in "mp4webmbinmov"
    ensures NoVideoExtension(host + (p1 + (p2 + (p3 + stem))))
  {
    NoVideoExtensionConcat(p3, stem);
    NoVideoExtensionConcat(p2, p3 + stem);
    NoVideoExtensionConcat(p1, p2 + (p3 + stem));
    NoVideoExtensionConcat(host, p1 + (p2 + (p3 + stem)));
  }

  /**
    A record stored under the media origin and an upload key, as line 595
    would store it, is shown with that URL unchanged as video URL and the same
    URL with ".jpg" in place of the extension as thumbnail URL.
   */
  lemma TranslateUploadedKey(env: string, t: Clock, hourField: string, contentType: string, s: Swing)
    requires AllDigits(hourField)
    requires s.VideoPath == MediaOrigin + KeyWith(env, t, hourField, contentType)
    ensures SwingRecordTranslate(s).videoUrl == s.VideoPath
    ensures SwingRecordTranslate(s).thumbUrl == MediaOrigin + KeyStemWith(env, t, hourField) + Jpg
  {
    var stem := KeyStemWith(env, t, hourField);
    var e := ExtensionFor(contentType);
    KeyStemHasNoDot(env, t, hourField);
    NoDotNoVideoExtension(stem);
    MediaOriginNoVideoExtension(stem);
    assert s.VideoPath == (MediaOrigin + stem) + e;
    ThumbOfExtension(MediaOrigin + stem, e);
    assert ((MediaOrigin + stem) + Jpg)[..4] == MediaOrigin[..4];
    assert MediaOrigin[..4] == "http";
    assert s.VideoPath[..4] == MediaOrigin[..4];
  }

  /** The checks of `upload`, in the order the controller runs them. */
  function CheckUpload(records: seq<Swing>, actor: Actor, req: UploadRequest, env: string, t: Clock): Result<UploadPlan, Error>
  {
    if req.id == 0 then Err(InvalidArgument(MessageIdMissing))
    else if req.contentLength == 0 then Err(InvalidArgument(MessageLengthMissing))
    else if req.contentType !in AllowedContentTypes then Err(InvalidArgument(MessageTypeInvalid))
    else match Find(records, req.id)
      case None => Err(NotFound)
      case Some(item) =>
        if item.AccountID != actor.AccountID then Err(Unauthorized)
        else Ok(UploadPlan(item, DestinationKeyAsWritten(env, t, req.contentType)))
  }

  /**
    Which check rejects a request: the id, then the length, then the type,
    then the record's existence and owner; a request passing all of them is
    accepted with the owned record and the key of line 570 as written.
   */
  lemma CheckUploadOutcomes(records: seq<Swing>, actor: Actor, req: UploadRequest, env: string, t: Clock)
    ensures var r := CheckUpload(records, actor, req, env, t);
      && (req.id == 0 ==> r == Err(InvalidArgument(MessageIdMissing)))
      && (req.id != 0 && req.contentLength == 0 ==> r == Err(InvalidArgument(MessageLengthMissing)))
      && (req.id != 0 && req.contentLength != 0 && req.contentType !in AllowedContentTypes ==>
            r == Err(InvalidArgument(MessageTypeInvalid)))
      && (&& req.id != 0 && req.contentLength != 0 && req.contentType in AllowedContentTypes
          && (forall s :: s in records ==> s.SwingID != req.id)
          ==> r == Err(NotFound))
      && (&& req.id != 0 && req.contentLength != 0 && req.contentType in AllowedContentTypes
          && Find(records, req.id).Some? && Find(records, req.id).value.AccountID != actor.AccountID
          ==> r == Err(Unauthorized))
      && (r.Ok? <==>
            && req.id != 0 && req.contentLength != 0 && req.contentType in AllowedContentTypes
            && exists s :: s in records && s.SwingID == req.id && s.AccountID == actor.AccountID && Find(records, req.id) == Some(s))
      && (r.Ok? ==>
            && r.value.item in records && r.value.item.SwingID == req.id
            && r.value.item.AccountID == actor.AccountID
            && r.value.key == DestinationKeyAsWritten(env, t, req.contentType))
  {
  }

  /**
    `copyInputStreamToS3`: copies the input in chunks and counts the bytes.
    The declared limit is compared but, as in the source, nothing happens
    when it is exceeded: the whole input is copied.
   */
  method CopyInputStream(input: seq<bv8>, byteLimit: int) returns (output: seq<bv8>, bytes: nat)
    ensures output == input
    ensures bytes == |input|
  {
    output := [];
    bytes := 0;
    var pos := 0;
    while pos < |input|
      invariant 0 <= pos <= |input|
      invariant output == input[..pos]
      invariant bytes == pos
    {
      var n := if |input| - pos < ChunkSize then |input| - pos else ChunkSize;
      output := output + input[pos..pos + n];
      bytes := bytes + n;
      pos := pos + n;
      if byteLimit != 0 && bytes > byteLimit {
        // left empty in the source: the declared length is not enforced
      }
    }
  }
}
