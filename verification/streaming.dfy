/**
 * The application's generation handler (`handleGenerate` in `App.tsx`): the
 * empty-topic guard, the reset at the start of a session, the append-only
 * accumulator with its 50 ms publish throttle, the final flush and the error
 * path. Time is an explicit input: each delivered chunk carries the clock
 * reading taken when it is handled.
 */
module Streaming {
  import opened Wrappers
  import opened Text
  import opened Request
  import opened GeminiService

  /** The three pieces of application state the handler sets. */
  datatype View = View(content: string, generating: bool, error: Option<string>)

  /** A running session: the handler's two locals and the state it last set. */
  datatype Session = Session(accumulated: string, lastUpdate: int, view: View)

  const ThrottleMs: int := 50
  const EmptyTopicMessage: string := "Vui lòng nhập chủ đề hoặc tên bài học."
  const FallbackErrorMessage: string := "Đã xảy ra lỗi không xác định. Vui lòng thử lại."

  predicate IsPrefix(a: string, b: string) {
    |a| <= |b| && b[..|a|] == a
  }

  lemma PrefixTransitive(a: string, b: string, c: string)
    requires IsPrefix(a, b) && IsPrefix(b, c)
    ensures IsPrefix(a, c)
  {
    assert c[..|a|] == c[..|b|][..|a|];
  }

  /** The published content never runs ahead of the accumulated text. */
  predicate Consistent(s: Session) {
    IsPrefix(s.view.content, s.accumulated)
  }

  /** The start of a session: generating, content cleared, error cleared. */
  function Begin(): (s: Session)
    ensures s.view == View("", true, None)
    ensures s.accumulated == "" && s.lastUpdate == 0
  {
    Session("", 0, View("", true, None))
  }

  /** The `onChunk` callback: append, then publish if more than 50 ms have passed
      since the last publish. */
  function OnChunk(s: Session, d: Delivery): (s': Session)
    ensures s'.accumulated == s.accumulated + d.text
    ensures d.receivedAt - s.lastUpdate > ThrottleMs ==>
              s'.view == s.view.(content := s'.accumulated) && s'.lastUpdate == d.receivedAt
    ensures d.receivedAt - s.lastUpdate <= ThrottleMs ==>
              s'.view == s.view && s'.lastUpdate == s.lastUpdate
    ensures Consistent(s) ==> Consistent(s')
    ensures Consistent(s) ==> IsPrefix(s.view.content, s'.view.content)
  {
    var text := s.accumulated + d.text;
    assert IsPrefix(s.accumulated, text);
    assert Consistent(s) ==> text[..|s.view.content|] == s.accumulated[..|s.view.content|];
    if d.receivedAt - s.lastUpdate > ThrottleMs then
      Session(text, d.receivedAt, s.view.(content := text))
    else
      Session(text, s.lastUpdate, s.view)
  }

  /** The session after handling the deliveries in order: the accumulated text
      is extended by their concatenation, and the flags stay as they were. */
  function Feed(s: Session, ds: seq<Delivery>): (r: Session)
    ensures r.accumulated == s.accumulated + DeliveredText(ds)
    ensures r.view.generating == s.view.generating && r.view.error == s.view.error
    decreases |ds|
  {
    if |ds| == 0 then s else Feed(OnChunk(s, ds[0]), ds[1..])
  }

  /** Streaming keeps the session generating with no error, keeps the published
      content a prefix of the accumulated text, and only ever extends it. */
  lemma {:induction false} FeedKeepsInvariants(s: Session, ds: seq<Delivery>)
    requires Consistent(s)
    ensures Consistent(Feed(s, ds))
    ensures IsPrefix(s.view.content, Feed(s, ds).view.content)
    ensures Feed(s, ds).view.generating == s.view.generating
    ensures Feed(s, ds).view.error == s.view.error
    decreases |ds|
  {
    if |ds| > 0 {
      var s1 := OnChunk(s, ds[0]);
      FeedKeepsInvariants(s1, ds[1..]);
      PrefixTransitive(s.view.content, s1.view.content, Feed(s, ds).view.content);
    }
  }

  lemma {:induction false} FeedAppend(s: Session, a: seq<Delivery>, b: seq<Delivery>)
    ensures Feed(s, a + b) == Feed(Feed(s, a), b)
    decreases |a|
  {
    if |a| == 0 {
      assert a + b == b;
    } else {
      assert (a + b)[1..] == a[1..] + b;
      FeedAppend(OnChunk(s, a[0]), a[1..], b);
    }
  }

  /** Readers never observe a shorter buffer within a session: the content
      published after `i` chunks is a prefix of the content after `j >= i`. */
  lemma PublishedMonotone(ds: seq<Delivery>, i: nat, j: nat)
    requires i <= j <= |ds|
    ensures IsPrefix(Feed(Begin(), ds[..i]).view.content, Feed(Begin(), ds[..j]).view.content)
  {
    assert ds[..j] == ds[..i] + ds[i..j];
    FeedAppend(Begin(), ds[..i], ds[i..j]);
    FeedKeepsInvariants(Begin(), ds[..i]);
    FeedKeepsInvariants(Feed(Begin(), ds[..i]), ds[i..j]);
  }

  /** A first chunk stamped later than 50 ms is published at once, since the
      last publish time starts at 0, and stays at the head of the content. */
  lemma FirstChunkPublished(ds: seq<Delivery>)
    requires |ds| > 0 && ds[0].receivedAt > ThrottleMs
    ensures OnChunk(Begin(), ds[0]).view.content == ds[0].text
    ensures IsPrefix(ds[0].text, Feed(Begin(), ds).view.content)
  {
    var s1 := OnChunk(Begin(), ds[0]);
    assert "" + ds[0].text == ds[0].text;
    FeedKeepsInvariants(s1, ds[1..]);
  }

  /** `err.message || fallback`. */
  function ErrorText(e: Thrown): (m: string)
    ensures e.message.Some? && e.message.value != "" ==> m == e.message.value
    ensures e.message.None? || e.message.value == "" ==> m == FallbackErrorMessage
  {
    if e.message.Some? && e.message.value != "" then e.message.value else FallbackErrorMessage
  }

  /** `handleGenerate`: the state after one click, given the configured key and
      what the generation service would stream. */
  function HandleGenerate(v: View, r: ExamRequest, configuredKey: Option<string>, stream: ResponseStream): (v': View)
    ensures Trim(r.topic) == "" ==> v' == v.(error := Some(EmptyTopicMessage))
    ensures Trim(r.topic) != "" ==> !v'.generating
  {
    if Trim(r.topic) == "" then v.(error := Some(EmptyTopicMessage))
    else
      var g := GenerateExamStream(configuredKey, r, stream);
      var s := Feed(Begin(), g.delivered);
      match g.failure
      case None => View(s.accumulated, false, s.view.error)
      case Some(e) => View(s.view.content, false, Some(ErrorText(e)))
  }

  /** On success the final content is the whole streamed text, whatever the timing. */
  lemma SuccessPublishesEverything(v: View, r: ExamRequest, key: Option<string>, stream: ResponseStream)
    requires Trim(r.topic) != ""
    requires GetApiKey(key).Success? && stream.end.Completed?
    ensures HandleGenerate(v, r, key, stream) == View(StreamText(stream.chunks), false, None)
  {
    var g := GenerateExamStream(key, r, stream);
    ForwardKeepsText(stream.chunks);
    FeedKeepsInvariants(Begin(), g.delivered);
  }

  /** The content published before a failure is a prefix of the streamed text. */
  lemma SnapshotIsPrefix(chunks: seq<StreamChunk>)
    ensures IsPrefix(Feed(Begin(), Forward(chunks)).view.content, StreamText(chunks))
  {
    var ds := Forward(chunks);
    ForwardKeepsText(chunks);
    FeedKeepsInvariants(Begin(), ds);
    assert "" + DeliveredText(ds) == StreamText(chunks);
  }

  lemma FailureView(v: View, r: ExamRequest, key: Option<string>, stream: ResponseStream)
    requires Trim(r.topic) != ""
    requires GetApiKey(key).Success? && stream.end.Broke?
    ensures HandleGenerate(v, r, key, stream)
            == View(Feed(Begin(), Forward(stream.chunks)).view.content, false, Some(ErrorText(Classify(stream.end.error))))
  {
    var g := GenerateExamStream(key, r, stream);
    assert g.delivered == Forward(stream.chunks);
    assert g.failure == Some(Classify(stream.end.error));
  }

  /** On failure the error is the classified message (or the fallback) and the
      last published snapshot stays: a prefix of the text received so far. */
  lemma FailureKeepsSnapshot(v: View, r: ExamRequest, key: Option<string>, stream: ResponseStream)
    requires Trim(r.topic) != ""
    requires GetApiKey(key).Success? && stream.end.Broke?
    ensures var v' := HandleGenerate(v, r, key, stream);
            && v'.content == Feed(Begin(), Forward(stream.chunks)).view.content
            && IsPrefix(v'.content, StreamText(stream.chunks))
            && v'.error == Some(ErrorText(Classify(stream.end.error)))
            && !v'.generating
  {
    FailureView(v, r, key, stream);
    SnapshotIsPrefix(stream.chunks);
  }

  /** A missing key fails before any chunk: the content is left cleared. */
  lemma MissingKeyClearsContent(v: View, r: ExamRequest, key: Option<string>, stream: ResponseStream)
    requires Trim(r.topic) != ""
    requires GetApiKey(key).Failure?
    ensures HandleGenerate(v, r, key, stream) == View("", false, Some(MissingKeyMessage))
  {
  }
}
