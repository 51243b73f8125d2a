/** `DALLEPlugin.GenerateImages`: announce the job, request the images one at a
    time, send them to the user as one adaptive card, and tell the planner how
    many were made. */
module Dalle {
  import opened Wrappers
  import opened Strings
  import opened Exceptions
  import opened Channel

  /** C#'s `int`, the type of the requested image count. */
  newtype int32 = x: int | -0x8000_0000 <= x < 0x8000_0000

  /** `ImageGenerationOptions` as sent to the image service. */
  datatype ImageRequest = ImageRequest(prompt: string, size: string, imageCount: nat, deploymentName: string)

  /** What one request to the image service comes back with. */
  datatype ImageResponse =
    | Generated(urls: seq<string>)   // the absolute URI of each image returned
    | ServiceFailed(message: string) // the client threw

  /** The image service, as an oracle: its response to the `i`-th request made
      by one call of `GenerateImages`. */
  type ImageService = (nat, ImageRequest) -> ImageResponse

  /** What one call does: the messages it sends, the requests it makes, and
      the string it returns or the exception it lets escape. */
  datatype ImageRun = ImageRun(sent: seq<Message>, requests: seq<ImageRequest>, result: Result<string, Exception>)

  const Header := TextBlock("Here are the generated images.", "large")

  /** Lines 32-35: a count that is not positive becomes 1. */
  function EffectiveCount(n: int32): (count: nat)
    ensures count >= 1
    ensures n > 0 ==> count == n as nat
    ensures n <= 0 ==> count == 1
  {
    if n <= 0 then 1 else n as nat
  }

  /** Every request asks for a single 1024x1024 image of the prompt. */
  function RequestFor(prompt: string): ImageRequest
  {
    ImageRequest(prompt, "1024x1024", 1, "Dalle3")
  }

  function ProgressText(count: nat, prompt: string): string
  {
    "Generating " + NatToString(count) + " images with the description \"" + prompt + "\"..."
  }

  function Summary(count: nat): string
  {
    NatToString(count) + " images were generated successfully and already sent to user."
  }

  function ResponseUrls(response: ImageResponse): seq<string>
  {
    if response.Generated? then response.urls else []
  }

  /** The URLs returned by the first `i` requests, in request order. */
  function UrlsOf(service: ImageService, prompt: string, i: nat): seq<string>
  {
    if i == 0 then [] else UrlsOf(service, prompt, i - 1) + ResponseUrls(service(i - 1, RequestFor(prompt)))
  }

  /** The first `i` requests all succeed. */
  ghost predicate AllGenerated(service: ImageService, prompt: string, i: nat)
  {
    forall k :: 0 <= k < i ==> service(k, RequestFor(prompt)).Generated?
  }

  function ImageElements(urls: seq<string>): (elements: seq<CardElement>)
    ensures |elements| == |urls|
  {
    seq(|urls|, j requires 0 <= j < |urls| => Image(urls[j]))
  }

  lemma ImageElementsAppend(a: seq<string>, b: seq<string>)
    ensures ImageElements(a + b) == ImageElements(a) + ImageElements(b)
  {
  }

  /** The card sent for the given URLs. */
  function CardFor(urls: seq<string>): AdaptiveCard
  {
    AdaptiveCard("AdaptiveCard", "1.0", [Header] + ImageElements(urls))
  }

  /** Lines 54-57: one image element per URL, appended in order. */
  method AddImages(images: seq<CardElement>, urls: seq<string>) returns (result: seq<CardElement>)
    ensures result == images + ImageElements(urls)
  {
    result := images;
    var j := 0;
    while j < |urls|
      invariant 0 <= j <= |urls|
      invariant result == images + ImageElements(urls[..j])
    {
      ImageElementsAppend(urls[..j], [urls[j]]);
      assert urls[..j + 1] == urls[..j] + [urls[j]];
      result := result + [Image(urls[j])];
      j := j + 1;
    }
    assert urls[..j] == urls;
  }

  /** The requests made by the first `i` iterations: all the same. */
  function Requests(prompt: string, i: nat): (requests: seq<ImageRequest>)
    ensures |requests| == i
    ensures forall q :: q in requests ==> q == RequestFor(prompt)
  {
    if i == 0 then [] else Requests(prompt, i - 1) + [RequestFor(prompt)]
  }

  /** The first request among `i`, ..., `count - 1` that fails, with the
      message it fails with; `None` when they all succeed. */
  function FirstFailure(service: ImageService, prompt: string, count: nat, i: nat): (failure: Option<(nat, string)>)
    decreases count - i
  {
    if i >= count then None
    else match service(i, RequestFor(prompt))
      case ServiceFailed(m) => Some((i, m))
      case Generated(_) => FirstFailure(service, prompt, count, i + 1)
  }

  /** The run lines 27-75 describe, stated as a whole: the progress message;
      then either one request per image up to the first that fails, whose
      exception escapes, or all of them, the card of every URL and the
      summary. */
  function ImageRunFor(prompt: string, n: int32, service: ImageService): (run: ImageRun)
  {
    var count := EffectiveCount(n);
    var progress := TextMessage(ProgressText(count, prompt));
    match FirstFailure(service, prompt, count, 0)
    case Some((k, m)) =>
      ImageRun([progress], Requests(prompt, k + 1), Failure(ServiceFault(m)))
    case None =>
      ImageRun([progress, AttachmentMessage(AdaptiveCardContentType, CardFor(UrlsOf(service, prompt, count)))],
               Requests(prompt, count), Success(Summary(count)))
  }

  /** Lines 38-59: one request per image, each response's images appended to
      the card body in order, stopping at the first request that fails. */
  method RequestImages(prompt: string, count: nat, service: ImageService)
    returns (images: seq<CardElement>, requests: seq<ImageRequest>, failure: Option<(nat, string)>)
    ensures failure == FirstFailure(service, prompt, count, 0)
    ensures failure.Some? ==> requests == Requests(prompt, failure.value.0 + 1)
    ensures failure.None? ==>
      && requests == Requests(prompt, count)
      && images == [Header] + ImageElements(UrlsOf(service, prompt, count))
  {
    images := [Header];
    requests := [];
    var i := 0;
    while i < count
      invariant 0 <= i <= count
      invariant requests == Requests(prompt, i)
      invariant FirstFailure(service, prompt, count, i) == FirstFailure(service, prompt, count, 0)
      invariant images == [Header] + ImageElements(UrlsOf(service, prompt, i))
    {
      var request := RequestFor(prompt);
      requests := requests + [request];
      match service(i, request)
      case ServiceFailed(m) =>
        assert FirstFailure(service, prompt, count, i) == Some((i, m));
        failure := Some((i, m));
        return;
      case Generated(urls) =>
        assert FirstFailure(service, prompt, count, i) == FirstFailure(service, prompt, count, i + 1);
        assert UrlsOf(service, prompt, i + 1) == UrlsOf(service, prompt, i) + urls;
        images := AddImages(images, urls);
        ImageElementsAppend(UrlsOf(service, prompt, i), urls);
      i := i + 1;
    }
    assert FirstFailure(service, prompt, count, count) == None;
    failure := None;
  }

  /** Lines 27-75: the progress message, the request loop, and then either
      the escaping exception or the card and the summary; the run is exactly
      the one `ImageRunFor` describes. */
  method GenerateImages(prompt: string, n: int32, service: ImageService) returns (run: ImageRun)
    ensures run == ImageRunFor(prompt, n, service)
  {
    var count: int := n as int;
    if count <= 0 {
      count := 1;
    }
    assert count == EffectiveCount(n);
    var progress := TextMessage(ProgressText(count, prompt));
    var images, requests, failure := RequestImages(prompt, count, service);
    match failure
    case Some((_, m)) =>
      run := ImageRun([progress], requests, Failure(ServiceFault(m)));
    case None =>
      var card := AdaptiveCard("AdaptiveCard", "1.0", images);
      run := ImageRun([progress, AttachmentMessage(AdaptiveCardContentType, card)], requests, Success(Summary(count)));
  }

  /** `FirstFailure` finds the earliest failing request: none exactly when
      every request from `i` on succeeds, otherwise one that failed with the
      reported message after only successes. */
  lemma {:induction false} FirstFailureIsEarliest(service: ImageService, prompt: string, count: nat, i: nat)
    requires i <= count
    ensures FirstFailure(service, prompt, count, i).None?
      <==> forall k :: i <= k < count ==> service(k, RequestFor(prompt)).Generated?
    ensures FirstFailure(service, prompt, count, i).Some? ==>
      var (k, m) := FirstFailure(service, prompt, count, i).value;
      && i <= k < count
      && (forall j :: i <= j < k ==> service(j, RequestFor(prompt)).Generated?)
      && service(k, RequestFor(prompt)) == ServiceFailed(m)
    decreases count - i
  {
    if i < count && service(i, RequestFor(prompt)).Generated? {
      FirstFailureIsEarliest(service, prompt, count, i + 1);
    }
  }

  /** The progress message naming the effective count and the prompt is
      always sent first, every request asks for one image of the prompt, and
      the run succeeds exactly when every request does. */
  lemma RunAnnouncesFirst(prompt: string, n: int32, service: ImageService)
    ensures var run := ImageRunFor(prompt, n, service);
      && |run.sent| >= 1 && run.sent[0] == TextMessage(ProgressText(EffectiveCount(n), prompt))
      && (forall q :: q in run.requests ==> q == RequestFor(prompt))
      && (run.result.Success? <==> AllGenerated(service, prompt, EffectiveCount(n)))
  {
    FirstFailureIsEarliest(service, prompt, EffectiveCount(n), 0);
  }

  /** A successful run makes exactly the effective number of requests, sends
      the card of all returned URLs in request order as its second and last
      message, and returns the summary. */
  lemma RunSucceeds(prompt: string, n: int32, service: ImageService)
    requires AllGenerated(service, prompt, EffectiveCount(n))
    ensures var run := ImageRunFor(prompt, n, service);
      && run.result == Success(Summary(EffectiveCount(n)))
      && |run.requests| == EffectiveCount(n)
      && run.sent == [run.sent[0], AttachmentMessage(AdaptiveCardContentType, CardFor(UrlsOf(service, prompt, EffectiveCount(n))))]
  {
    FirstFailureIsEarliest(service, prompt, EffectiveCount(n), 0);
  }

  /** A failing request ends the run: its exception escapes after the
      progress message alone, no later request is made, and every earlier
      one succeeded. */
  lemma RunFails(prompt: string, n: int32, service: ImageService)
    requires ImageRunFor(prompt, n, service).result.Failure?
    ensures var run := ImageRunFor(prompt, n, service);
      && |run.sent| == 1
      && 1 <= |run.requests| <= EffectiveCount(n)
      && AllGenerated(service, prompt, |run.requests| - 1)
      && run.result.error.ServiceFault?
      && service(|run.requests| - 1, RequestFor(prompt)) == ServiceFailed(run.result.error.message)
  {
    FirstFailureIsEarliest(service, prompt, EffectiveCount(n), 0);
  }

  /** The card body is the header followed by one element per URL: its length
      is one more than the number of URLs, whatever the service returned. */
  lemma CardShape(urls: seq<string>)
    ensures |CardFor(urls).body| == 1 + |urls|
    ensures CardFor(urls).body[0] == Header
    ensures forall j :: 0 <= j < |urls| ==> CardFor(urls).body[j + 1] == Image(urls[j])
  {
  }

  /** The count in the progress message and in the summary is the effective
      one, written in decimal and read back unchanged. */
  lemma SummaryCount(n: int32)
    ensures var digits := NatToString(EffectiveCount(n));
      Summary(EffectiveCount(n)) == digits + " images were generated successfully and already sent to user."
      && ParseNat(digits) == EffectiveCount(n) >= 1
  {
    ParseNatToString(EffectiveCount(n));
  }
}
