/**
 * The `POST /api/download-video` handler as a total function from the request and
 * the extractor to the HTTP response. The extractor (the external metadata tool) is
 * a parameter: an arbitrary function from the URL it is given to what it produced.
 */
module Handler {
  import opened Wrappers
  import opened Text
  import opened Formats
  import opened Errors

  /** The JSON request body; `url` is `None` when the property is absent. */
  datatype Request = Request(url: Option<string>)

  /** The extractor's structured description of the page; `formats` may be absent. */
  datatype VideoInfo = VideoInfo(title: string, formats: Option<seq<RawFormat>>)

  /** What one run of the extractor produced: a description, or a failure with optional diagnostic text. */
  datatype Outcome = Extracted(info: VideoInfo) | Failed(stderr: Option<string>)

  /** An error thrown inside the `try` block, as the `catch` block sees it. */
  datatype Thrown = Thrown(stderr: Option<string>)

  datatype Body = MessageBody(message: string) | VideoBody(title: string, formats: seq<Format>)

  datatype Response = Response(status: int, body: Body)

  const UrlRequiredMessage: string := "URL is required"

  /**
   * The `try` block: run the extractor on `url`, normalise its formats and reject an
   * empty result. Reading the formats of a description without any is a `TypeError`,
   * and the "no downloadable formats" error is a plain `Error`: neither has diagnostic text.
   */
  function Attempt(url: string, extract: string -> Outcome): (r: Result<(string, seq<Format>), Thrown>)
    ensures r.Success? ==> extract(url).Extracted? && r.value.0 == extract(url).info.title
    ensures r.Success? ==> r.value.1 != [] && forall g :: g in r.value.1 ==> TruthyString(g.url)
    ensures r.Failure? && !extract(url).Failed? ==> r.error.stderr == None
  {
    match extract(url)
    case Failed(stderr) => Failure(Thrown(stderr))
    case Extracted(info) =>
      if info.formats.None? then Failure(Thrown(None))
      else
        var formats := NormalizeAll(info.formats.value);
        if |formats| == 0 then Failure(Thrown(None))
        else Success((info.title, formats))
  }

  /** The `catch` block: status 500 with one of the four fixed messages and nothing else. */
  function Catch(e: Thrown): (r: Response)
    ensures r.status == 500 && r.body.MessageBody?
    ensures r.body.message in {GenericMessage, PrivateMessage, GeoMessage, UnsupportedMessage}
  {
    Response(500, MessageBody(ErrorMessage(e.stderr)))
  }

  /**
   * The whole handler. A 400 answers exactly the requests without a truthy `url`;
   * a 200 always carries a non-empty list of formats, each with a direct URL.
   */
  function Handle(req: Request, extract: string -> Outcome): (r: Response)
    ensures r.status == 400 <==> !TruthyString(req.url)
    ensures r.status in {200, 400, 500}
    ensures r.status == 200 ==> r.body.VideoBody? && r.body.formats != []
                                && forall g :: g in r.body.formats ==> TruthyString(g.url)
  {
    if !TruthyString(req.url) then Response(400, MessageBody(UrlRequiredMessage))
    else
      match Attempt(req.url.value, extract)
      case Success((title, formats)) => Response(200, VideoBody(title, formats))
      case Failure(e) => Catch(e)
  }

  // ---------------------------------------------------------------------------
  // Properties of the handler
  // ---------------------------------------------------------------------------

  /**
   * A missing or empty `url` is answered with status 400 and `URL is required`,
   * whatever the extractor would have done: it is never consulted.
   */
  lemma MissingUrlRejected(req: Request, extract: string -> Outcome, other: string -> Outcome)
    requires !TruthyString(req.url)
    ensures Handle(req, extract) == Response(400, MessageBody(UrlRequiredMessage))
    ensures Handle(req, extract) == Handle(req, other)
  {
  }

  /** With a truthy `url`, the response depends only on what the extractor did with that very URL. */
  lemma ExtractorSeesOnlyTheUrl(req: Request, extract: string -> Outcome, other: string -> Outcome)
    requires TruthyString(req.url) && extract(req.url.value) == other(req.url.value)
    ensures Handle(req, extract) == Handle(req, other)
    ensures Handle(req, extract).status != 400
  {
  }

  /**
   * Success is status 200 with exactly the title and the normalised formats; it happens
   * exactly when the URL is truthy, the extractor produced formats, and at least one
   * of them has a truthy direct URL. Every format returned then has a truthy direct URL.
   */
  lemma {:induction false} SuccessIff(req: Request, extract: string -> Outcome)
    ensures var r := Handle(req, extract);
      && (r.status == 200 <==>
            && TruthyString(req.url)
            && extract(req.url.value).Extracted?
            && extract(req.url.value).info.formats.Some?
            && exists i :: 0 <= i < |extract(req.url.value).info.formats.value|
                           && TruthyString(extract(req.url.value).info.formats.value[i].url))
      && (r.status == 200 ==>
            var info := extract(req.url.value).info;
            && r.body == VideoBody(info.title, NormalizeAll(info.formats.value))
            && r.body.formats != []
            && forall g :: g in r.body.formats ==> TruthyString(g.url))
  {
    if TruthyString(req.url) {
      var o := extract(req.url.value);
      if o.Extracted? && o.info.formats.Some? {
        NormalizeAllEmptyIff(o.info.formats.value);
        NormalizeAllSpec(o.info.formats.value);
      }
    }
  }

  /**
   * When no raw format has a truthy direct URL the request fails with status 500 and
   * the generic message; it is never a 200 with an empty list.
   */
  lemma {:induction false} NoFormatsIsFailure(req: Request, extract: string -> Outcome)
    requires TruthyString(req.url)
    requires extract(req.url.value).Extracted?
    requires var fs := extract(req.url.value).info.formats;
      fs.Some? ==> forall i :: 0 <= i < |fs.value| ==> !TruthyString(fs.value[i].url)
    ensures Handle(req, extract) == Response(500, MessageBody(GenericMessage))
  {
    var fs := extract(req.url.value).info.formats;
    if fs.Some? {
      NormalizeAllEmptyIff(fs.value);
    }
  }

  /** An extractor failure is status 500 with the message classified from its diagnostic text. */
  lemma ExtractorFailureClassified(req: Request, extract: string -> Outcome)
    requires TruthyString(req.url) && extract(req.url.value).Failed?
    ensures Handle(req, extract) == Response(500, MessageBody(ErrorMessage(extract(req.url.value).stderr)))
  {
  }

  /**
   * Every response has one of three shapes: 200 with a video body, 400 with the
   * missing-URL message, or 500 with one of the four fixed failure messages.
   * No failure body carries anything but its message.
   */
  lemma {:induction false} ResponseShapes(req: Request, extract: string -> Outcome)
    ensures var r := Handle(req, extract);
      && (r.status == 200 <==> r.body.VideoBody?)
      && (r.status == 400 <==> r.body == MessageBody(UrlRequiredMessage))
      && (r.status == 500 <==>
            r.body.MessageBody? &&
            r.body.message in {GenericMessage, PrivateMessage, GeoMessage, UnsupportedMessage})
      && r.status in {200, 400, 500}
  {
  }

  /**
   * Two raw formats, one with a direct URL and resolution `720p` and one without any URL:
   * the response is 200 with exactly one descriptor, whose resolution is `720p`.
   */
  lemma {:induction false} OneUsableFormat(req: Request, extract: string -> Outcome, title: string, link: string)
    requires TruthyString(req.url) && link != ""
    requires extract(req.url.value) == Extracted(VideoInfo(title, Some([
      RawFormat(Some("22"), Some("mp4"), Some(1000), None, Some("720p"), None, Some("hd"), Some(link)),
      RawFormat(Some("140"), Some("m4a"), None, Some(500), None, Some(128.0), None, None)])))
    ensures var r := Handle(req, extract);
      r.status == 200 && r.body.VideoBody? && |r.body.formats| == 1
      && r.body.formats[0].resolution == "720p" && r.body.formats[0].url == Some(link)
  {
    var raws := extract(req.url.value).info.formats.value;
    assert KeepWithUrl(NormalizeEach(raws)) == [Normalize(raws[0])] by {
      assert NormalizeEach(raws)[..1] == [Normalize(raws[0])];
    }
  }
}
