/** What `IdempotencyMiddleware` keeps of a response and how it plays one back:
    the `send_wrapper` closure, the stored record and `_replay`. */
module Responses {

  import opened Text
  import opened Wrappers

  type Byte = b: int | 0 <= b < 256
  type Bytes = seq<Byte>

  datatype Header = Header(name: string, value: string)

  /** One ASGI message a handler sends. */
  datatype Message =
    | Start(status: int, headers: seq<Header>)
    | Body(chunk: Bytes)
    | Other

  datatype Response = Response(status: int, headers: seq<Header>, body: Bytes)

  // -- What the handler sent, read off the messages alone ------------------------------

  function SentStatus(ms: seq<Message>): int {
    if ms == [] then 0
    else if ms[|ms| - 1].Start? then ms[|ms| - 1].status
    else SentStatus(ms[..|ms| - 1])
  }

  function SentHeaders(ms: seq<Message>): seq<Header> {
    if ms == [] then []
    else if ms[|ms| - 1].Start? then ms[|ms| - 1].headers
    else SentHeaders(ms[..|ms| - 1])
  }

  function SentBody(ms: seq<Message>): Bytes {
    if ms == [] then []
    else if ms[|ms| - 1].Body? then SentBody(ms[..|ms| - 1]) + ms[|ms| - 1].chunk
    else SentBody(ms[..|ms| - 1])
  }

  function Sent(ms: seq<Message>): Response { Response(SentStatus(ms), SentHeaders(ms), SentBody(ms)) }

  // -- What the middleware keeps of it ------------------------------------------------

  function Joined(chunks: seq<Bytes>): Bytes {
    if chunks == [] then [] else Joined(chunks[..|chunks| - 1]) + chunks[|chunks| - 1]
  }

  function TotalLength(chunks: seq<Bytes>): nat {
    if chunks == [] then 0 else TotalLength(chunks[..|chunks| - 1]) + |chunks[|chunks| - 1]|
  }

  /** The four locals that `send_wrapper` rebinds. */
  datatype Recording = Recording(status: int, headers: seq<Header>, chunks: seq<Bytes>, tooLarge: bool)

  const NOTHING_RECORDED := Recording(0, [], [], false)

  function Observe(r: Recording, m: Message, maxStored: nat): Recording {
    match m
    case Start(status, headers) => r.(status := status, headers := headers)
    case Body(chunk) =>
      if TotalLength(r.chunks) + |chunk| > maxStored then r.(tooLarge := true)
      else r.(chunks := r.chunks + [chunk])
    case Other => r
  }

  function Recorded(ms: seq<Message>, maxStored: nat): Recording {
    if ms == [] then NOTHING_RECORDED
    else Observe(Recorded(ms[..|ms| - 1], maxStored), ms[|ms| - 1], maxStored)
  }

  lemma {:induction false} JoinedLength(chunks: seq<Bytes>)
    ensures |Joined(chunks)| == TotalLength(chunks)
  {
    if chunks != [] { JoinedLength(chunks[..|chunks| - 1]); }
  }

  lemma JoinedAppend(chunks: seq<Bytes>, chunk: Bytes)
    ensures Joined(chunks + [chunk]) == Joined(chunks) + chunk
    ensures TotalLength(chunks + [chunk]) == TotalLength(chunks) + |chunk|
  {
    assert (chunks + [chunk])[..|chunks|] == chunks;
  }

  /** A recording says `too_large` exactly when the whole body is over the limit, and otherwise holds
      the whole body: a chunk dropped in the middle can never be stored as a short response. */
  lemma {:induction false} RecordedIsSent(ms: seq<Message>, maxStored: nat)
    ensures var r := Recorded(ms, maxStored);
            && r.status == SentStatus(ms)
            && r.headers == SentHeaders(ms)
            && (r.tooLarge <==> |SentBody(ms)| > maxStored)
            && (!r.tooLarge ==> Joined(r.chunks) == SentBody(ms))
            && |Joined(r.chunks)| <= |SentBody(ms)|
  {
    if ms != [] {
      var before := Recorded(ms[..|ms| - 1], maxStored);
      RecordedIsSent(ms[..|ms| - 1], maxStored);
      JoinedLength(before.chunks);
      match ms[|ms| - 1]
      case Body(chunk) => JoinedAppend(before.chunks, chunk);
      case _ =>
    }
  }

  /** The closure's nonlocal variables as an object: `Send` is one call of `send_wrapper`. */
  class ResponseRecorder {
    const maxStored: nat
    var status: int
    var headers: seq<Header>
    var chunks: seq<Bytes>
    var tooLarge: bool

    ghost function Contents(): Recording
      reads this
    {
      Recording(status, headers, chunks, tooLarge)
    }

    constructor (maxStored: nat)
      ensures this.maxStored == maxStored && Contents() == NOTHING_RECORDED
    {
      this.maxStored := maxStored;
      status, headers, chunks, tooLarge := 0, [], [], false;
    }

    method Send(m: Message)
      modifies this
      ensures Contents() == Observe(old(Contents()), m, maxStored)
    {
      if m.Start? {
        status := m.status;
        headers := m.headers;
      } else if m.Body? {
        var total := 0;
        for i := 0 to |chunks|
          invariant total == TotalLength(chunks[..i])
        {
          total := total + |chunks[i]|;
          assert chunks[..i + 1][..i] == chunks[..i];
        }
        assert chunks[..|chunks|] == chunks;
        if total + |m.chunk| > maxStored {
          tooLarge := true;
        } else {
          chunks := chunks + [m.chunk];
        }
      }
    }

    /** A whole response passing through the wrapper. */
    method SendAll(ms: seq<Message>)
      requires Contents() == NOTHING_RECORDED
      modifies this
      ensures status == SentStatus(ms) && headers == SentHeaders(ms)
      ensures tooLarge <==> |SentBody(ms)| > maxStored
      ensures !tooLarge ==> Joined(chunks) == SentBody(ms)
    {
      for i := 0 to |ms|
        invariant Contents() == Recorded(ms[..i], maxStored)
      {
        Send(ms[i]);
        assert ms[..i + 1][..i] == ms[..i];
      }
      assert ms[..|ms|] == ms;
      RecordedIsSent(ms, maxStored);
    }
  }

  // -- Storing a body as text and getting it back ---------------------------------------

  /** `bytes.decode("latin-1")`. */
  function Latin1Decode(bs: Bytes): string {
    seq(|bs|, i requires 0 <= i < |bs| => bs[i] as char)
  }

  /** `str.encode("latin-1")`; the code point of every character must fit a byte. */
  function Latin1Encode(s: string): Option<Bytes> {
    if forall i | 0 <= i < |s| :: s[i] as int < 256
    then Some(seq(|s|, i requires 0 <= i < |s| && s[i] as int < 256 => s[i] as int as Byte))
    else None
  }

  lemma Latin1RoundTrip(bs: Bytes)
    ensures Latin1Encode(Latin1Decode(bs)) == Some(bs)
  {
    var s := Latin1Decode(bs);
    assert forall i | 0 <= i < |s| :: s[i] as int < 256;
    assert Latin1Encode(s).value == bs;
  }

  // -- Playing a stored response back -----------------------------------------------------

  const RECOMPUTED: set<string> := {"content-length", "date", "server"}
  const CONTENT_LENGTH := "content-length"
  const REPLAY_HEADER := "Idempotent-Replay"

  predicate IsRecomputed(h: Header) { Lower(h.name) in RECOMPUTED }

  function Kept(hs: seq<Header>): seq<Header> {
    if hs == [] then []
    else if IsRecomputed(hs[|hs| - 1]) then Kept(hs[..|hs| - 1])
    else Kept(hs[..|hs| - 1]) + [hs[|hs| - 1]]
  }

  /** `_replay`, from the stored status, headers and body text. */
  function Replay(status: int, headers: seq<Header>, body: Bytes): Response {
    Response(status,
             Kept(headers) + [Header(CONTENT_LENGTH, Decimal(|body|)), Header(REPLAY_HEADER, "true")],
             body)
  }

  lemma {:induction false} KeptExactly(hs: seq<Header>, h: Header)
    ensures multiset(Kept(hs))[h] == if IsRecomputed(h) then 0 else multiset(hs)[h]
  {
    if hs != [] {
      KeptExactly(hs[..|hs| - 1], h);
      assert hs == hs[..|hs| - 1] + [hs[|hs| - 1]];
    }
  }

  lemma {:induction false} KeptInOrder(a: seq<Header>, b: seq<Header>)
    ensures Kept(a + b) == Kept(a) + Kept(b)
  {
    if b == [] {
      assert a + b == a;
    } else {
      KeptInOrder(a, b[..|b| - 1]);
      assert (a + b)[..|a + b| - 1] == a + b[..|b| - 1];
    }
  }

  /** A replay carries the status and body unchanged, every stored header outside the recomputed ones
      as often as it was stored, no stale copy of those, a `content-length` that reads back as the
      length of the body sent, and the marker header. */
  lemma ReplayFaithful(status: int, headers: seq<Header>, body: Bytes)
    ensures var r := Replay(status, headers, body);
            && r.status == status && r.body == body
            && (forall h: Header | !IsRecomputed(h) && h.name != REPLAY_HEADER ::
                  multiset(r.headers)[h] == multiset(headers)[h])
            && (forall h: Header | IsRecomputed(h) ::
                  multiset(r.headers)[h] == if h == Header(CONTENT_LENGTH, Decimal(|body|)) then 1 else 0)
            && Header(REPLAY_HEADER, "true") in r.headers
            && ParseInt(Decimal(|body|)) == Some(|body| as int)
  {
    var added := [Header(CONTENT_LENGTH, Decimal(|body|)), Header(REPLAY_HEADER, "true")];
    DecimalRoundTrip(|body|);
    var r := Replay(status, headers, body);
    AddedNames();
    assert added[1] == Header(REPLAY_HEADER, "true");
    assert r.headers[|r.headers| - 1] == added[1];
    forall h: Header
      ensures multiset(r.headers)[h] == (if IsRecomputed(h) then 0 else multiset(headers)[h]) + multiset(added)[h]
    {
      KeptExactly(headers, h);
    }
  }

  lemma AddedNames()
    ensures Lower(CONTENT_LENGTH) in RECOMPUTED && Lower(REPLAY_HEADER) !in RECOMPUTED
  {
    assert Lower(CONTENT_LENGTH) == "content-length";
    assert Lower(REPLAY_HEADER) == "idempotent-replay";
  }

  // -- Reading the request body once and handing it over again ------------------------------

  datatype Received =
    | Chunk(body: Bytes, more: bool)
    | NotRequest                     // http.disconnect and the like

  /** The body an application reads off a stream: chunks until one says there are no more, or until
      something that is not a request message. */
  function ReadBody(stream: seq<Received>): Bytes
    decreases |stream|
  {
    if stream == [] || stream[0].NotRequest? then []
    else if stream[0].more then stream[0].body + ReadBody(stream[1..])
    else stream[0].body
  }

  /** `_buffer_body`: the joined body, and how many messages it took off the stream. */
  method BufferBody(stream: seq<Received>) returns (body: Bytes, taken: nat)
    ensures taken <= |stream|
    ensures body == ReadBody(stream)
    ensures ReadBody([Chunk(body, false)] + stream[taken..]) == ReadBody(stream)
  {
    body, taken := [], 0;
    var more := true;
    while more && taken < |stream|
      invariant taken <= |stream|
      invariant ReadBody(stream) == body + if more then ReadBody(stream[taken..]) else []
      decreases |stream| - taken
    {
      var message := stream[taken];
      ReadMore(body, stream, taken);
      taken := taken + 1;
      if message.NotRequest? {
        more := false;
      } else {
        body := body + message.body;
        more := message.more;
      }
    }
  }

  lemma ReadMore(body: Bytes, stream: seq<Received>, taken: nat)
    requires taken < |stream|
    ensures body + ReadBody(stream[taken..])
         == if stream[taken].NotRequest? then body
            else if stream[taken].more then (body + stream[taken].body) + ReadBody(stream[taken + 1..])
            else body + stream[taken].body
  {
    var rest := stream[taken..];
    assert rest[0] == stream[taken] && rest[1..] == stream[taken + 1..];
    if !rest[0].NotRequest? && rest[0].more {
      assert body + (rest[0].body + ReadBody(rest[1..])) == (body + rest[0].body) + ReadBody(rest[1..]);
    }
  }
}
