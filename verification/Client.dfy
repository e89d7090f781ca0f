/** The gateway's client: receiving a decoupled stream. */
module Client {
  import opened Nets
  import opened Decoding
  import opened Planner
  import opened Chunked
  import opened Backend
  import opened Options
  import opened Protocol
  import opened TtsStream

  // `index` and `isFinal` keep their zero values when the response lacks them.
  datatype AudioPiece = AudioPiece(pcm: seq<int>, index: int, isFinal: bool)

  datatype End = Eof | Broken

  function Piece(m: Message): AudioPiece
    requires m.Audio?
  {
    AudioPiece(m.pcm, if m.index.Some? then m.index.value else 0, m.isFinal == Some(true))
  }

  datatype Received = Received(delivered: seq<AudioPiece>, ok: bool)

  /** The chunks handed over, `n` of them before these messages; `None` is a response without a
      payload, and `takes(n)` says whether the consumer takes the n-th chunk. */
  function Receive(incoming: seq<Option<Message>>, end: End, takes: nat -> bool, n: nat): Received {
    if incoming == [] then Received([], end == Eof)
    else match incoming[0]
      case None => Receive(incoming[1..], end, takes, n)
      case Some(Failure) => Received([], false)
      case Some(Audio(pcm, index, isFinal)) =>
        var piece := Piece(incoming[0].value);
        if !takes(n) then Received([], false)
        else if piece.isFinal then Received([piece], true)
        else
          var rest := Receive(incoming[1..], end, takes, n + 1);
          Received([piece] + rest.delivered, rest.ok)
  }

  /** What the next response does, `n` chunks having been handed over before. */
  lemma ReceiveNext(incoming: seq<Option<Message>>, k: nat, end: End, takes: nat -> bool, n: nat)
    requires k < |incoming|
    ensures var r := Receive(incoming[k..], end, takes, n);
      match incoming[k]
      case None => r == Receive(incoming[k + 1..], end, takes, n)
      case Some(Failure) => r == Received([], false)
      case Some(Audio(_, _, _)) =>
        var piece, rest := Piece(incoming[k].value), Receive(incoming[k + 1..], end, takes, n + 1);
        if !takes(n) then r == Received([], false)
        else if piece.isFinal then r == Received([piece], true)
        else r == Received([piece] + rest.delivered, rest.ok)
  {
    assert incoming[k..][0] == incoming[k] && incoming[k..][1..] == incoming[k + 1..];
  }

  /** `rest` is what is still to come of `all` after the chunks handed over. */
  ghost predicate Leads(all: Received, delivered: seq<AudioPiece>, rest: Received) {
    all == Received(delivered + rest.delivered, rest.ok)
  }

  lemma LeadsNext(all: Received, delivered: seq<AudioPiece>, piece: AudioPiece, rest: Received)
    requires Leads(all, delivered, Received([piece] + rest.delivered, rest.ok))
    ensures Leads(all, delivered + [piece], rest)
  {
    assert delivered + ([piece] + rest.delivered) == (delivered + [piece]) + rest.delivered;
  }

  lemma LeadsEnd(all: Received, delivered: seq<AudioPiece>, ok: bool)
    requires Leads(all, delivered, Received([], ok))
    ensures all == Received(delivered, ok)
  {
    assert delivered + [] == delivered;
  }

  method StreamAudio(connected: bool, incoming: seq<Option<Message>>, end: End, takes: nat -> bool)
    returns (delivered: seq<AudioPiece>, ok: bool)
    ensures Received(delivered, ok) == if connected then Receive(incoming, end, takes, 0) else Received([], false)
  {
    delivered := [];
    if !connected {
      return delivered, false;
    }
    ghost var all := Receive(incoming, end, takes, 0);
    assert incoming[0..] == incoming && [] + all.delivered == all.delivered;
    var k := 0;
    while k < |incoming|
      invariant 0 <= k <= |incoming|
      invariant Leads(all, delivered, Receive(incoming[k..], end, takes, |delivered|))
    {
      ReceiveNext(incoming, k, end, takes, |delivered|);
      if incoming[k].Some? {
        var message := incoming[k].value;
        if message.Failure? {
          LeadsEnd(all, delivered, false);
          return delivered, false;
        }
        var piece := Piece(message);
        if !takes(|delivered|) {
          LeadsEnd(all, delivered, false);
          return delivered, false;
        }
        if piece.isFinal {
          return delivered + [piece], true;
        }
        LeadsNext(all, delivered, piece, Receive(incoming[k + 1..], end, takes, |delivered| + 1));
        delivered := delivered + [piece];
      }
      k := k + 1;
    }
    LeadsEnd(all, delivered, end == Eof);
    return delivered, end == Eof;
  }

  // ---------------------------------------------------------------- against the backend

  function Payloads(messages: seq<Message>): seq<Option<Message>> {
    seq(|messages|, i requires 0 <= i < |messages| => Some(messages[i]))
  }

  function PcmOf(pieces: seq<AudioPiece>): seq<seq<int>> {
    seq(|pieces|, i requires 0 <= i < |pieces| => pieces[i].pcm)
  }

  // ---------------------------------------------------------------- one response at a time

  function Present(incoming: seq<Option<Message>>): seq<Message> {
    if incoming == [] then []
    else if incoming[0].None? then Present(incoming[1..])
    else [incoming[0].value] + Present(incoming[1..])
  }

  /** Responses without a payload change nothing. */
  lemma {:induction false} EmptyResponsesAreSkipped(incoming: seq<Option<Message>>, end: End, takes: nat -> bool,
      n: nat)
    ensures Receive(incoming, end, takes, n) == Receive(Payloads(Present(incoming)), end, takes, n)
    decreases |incoming|
  {
    if incoming != [] {
      var rest := incoming[1..];
      EmptyResponsesAreSkipped(rest, end, takes, n);
      EmptyResponsesAreSkipped(rest, end, takes, n + 1);
      if incoming[0].Some? {
        PayloadsAfter(incoming[0].value, Present(rest));
      }
    }
  }

  lemma PayloadsAfter(m: Message, messages: seq<Message>)
    ensures var all := Payloads([m] + messages); all != [] && all[0] == Some(m) && all[1..] == Payloads(messages)
  {
  }

  /** A consumer that refuses chunk `k` has been handed exactly the chunks before it, and the call
      fails, whatever would have come after. */
  lemma {:induction false} RefusedChunkEndsIt(messages: seq<Message>, tail: seq<Option<Message>>, end: End,
      takes: nat -> bool, n: nat)
    requires messages != [] && forall i :: 0 <= i < |messages| ==> messages[i].Audio?
    requires forall i :: 0 <= i < |messages| - 1 ==> messages[i].isFinal != Some(true)
    requires (forall k: nat :: n <= k < n + |messages| - 1 ==> takes(k)) && !takes(n + |messages| - 1)
    ensures var r := Receive(Payloads(messages) + tail, end, takes, n);
      !r.ok && r.delivered == Pieces(messages[..|messages| - 1])
    decreases |messages|
  {
    var incoming := Payloads(messages) + tail;
    assert incoming[0] == Some(messages[0]);
    if |messages| > 1 {
      var rest := messages[1..];
      assert incoming[1..] == Payloads(rest) + tail;
      assert forall i :: 0 <= i < |rest| ==> rest[i] == messages[i + 1];
      RefusedChunkEndsIt(rest, tail, end, takes, n + 1);
      assert Pieces(messages[..|messages| - 1]) == [Piece(messages[0])] + Pieces(rest[..|rest| - 1]);
    } else {
      assert Pieces(messages[..0]) == [];
    }
  }

  function Pieces(messages: seq<Message>): (pieces: seq<AudioPiece>)
    requires forall i :: 0 <= i < |messages| ==> messages[i].Audio?
    ensures |pieces| == |messages|
  {
    seq(|messages|, i requires 0 <= i < |messages| => Piece(messages[i]))
  }

  /** What is handed over for chunk `i` is its audio, its own index where that was attached and zero
      where not, and the mark only for the last chunk. */
  lemma PieceIsOwn(m: Message, pcm: seq<int>, i: nat, last: bool)
    requires IsMessage(m, pcm, i, last)
    ensures Piece(m).pcm == pcm
    ensures m.index.Some? ==> Piece(m).index == i
    ensures m.index.None? ==> Piece(m).index == 0
    ensures Piece(m).isFinal <==> m.isFinal.Some? && last
  {
  }

  // ---------------------------------------------------------------- what is delivered

  /** The chunks' audio at these places. */
  function Select(pcms: seq<seq<int>>, places: seq<nat>): (chosen: seq<seq<int>>)
    requires forall j :: 0 <= j < |places| ==> places[j] < |pcms|
    ensures |chosen| == |places|
  {
    seq(|places|, j requires 0 <= j < |places| => pcms[places[j]])
  }

  /** The messages are those of the chunks at these places, in order. */
  ghost predicate InOrder(messages: seq<Message>, places: seq<nat>, pcms: seq<seq<int>>) {
    && |messages| == |places|
    && (forall i, j :: 0 <= i < j < |places| ==> places[i] < places[j])
    && (forall j :: 0 <= j < |places| ==>
      places[j] < |pcms| && IsMessage(messages[j], pcms[places[j]], places[j], places[j] + 1 == |pcms|))
  }

  /** The last of the messages is still to come and carries the final mark. */
  ghost predicate MarkAhead(messages: seq<Message>, n: nat) {
    n < |messages| && messages[|messages| - 1].Audio? && messages[|messages| - 1].isFinal == Some(true)
  }

  lemma {:induction false} ReceiveInOrder(messages: seq<Message>, places: seq<nat>, tail: seq<Message>,
      pcms: seq<seq<int>>, n: nat, end: End, takes: nat -> bool)
    requires InOrder(messages, places, pcms) && n <= |messages| && (forall i :: takes(i))
    requires tail == [] || (tail == [Failure] && !MarkAhead(messages, 0))
    ensures var r := Receive(Payloads(messages[n..] + tail), end, takes, n);
      && |r.delivered| == |messages| - n
      && (forall j :: n <= j < |messages| ==> r.delivered[j - n] == Piece(messages[j]))
      && (r.ok <==> tail == [] && (end == Eof || MarkAhead(messages, n)))
    decreases |messages| - n
  {
    var incoming := Payloads(messages[n..] + tail);
    if n == |messages| {
      if tail == [] { assert incoming == []; } else { assert incoming == [Some(Failure)]; }
    } else {
      assert IsMessage(messages[n], pcms[places[n]], places[n], places[n] + 1 == |pcms|);
      NextPayload(messages, tail, n);
      if n + 1 < |messages| {
        OnlyTheLastIsMarked(messages, places, pcms, n);
      }
      if messages[n].isFinal != Some(true) {
        ReceiveInOrder(messages, places, tail, pcms, n + 1, end, takes);
      }
    }
  }

  lemma NextPayload(messages: seq<Message>, tail: seq<Message>, n: nat)
    requires n < |messages|
    ensures var incoming := Payloads(messages[n..] + tail);
      incoming != [] && incoming[0] == Some(messages[n]) && incoming[1..] == Payloads(messages[n + 1..] + tail)
  {
  }

  lemma OnlyTheLastIsMarked(messages: seq<Message>, places: seq<nat>, pcms: seq<seq<int>>, n: nat)
    requires InOrder(messages, places, pcms) && n + 1 < |messages|
    ensures messages[n].Audio? && messages[n].isFinal != Some(true)
  {
    assert places[n] < places[n + 1] < |pcms|;
    assert IsMessage(messages[n], pcms[places[n]], places[n], places[n] + 1 == |pcms|);
  }

  /** The last chunk of the stream got through with its final mark. */
  ghost predicate MarkHeard(posts: seq<Post>, pcms: seq<seq<int>>)
    requires Script(posts, pcms)
  {
    var last := |posts| - 1;
    0 < |posts| == |pcms| && posts[last].arrives && posts[last].message.isFinal == Some(true)
  }

  lemma HeardInOrder(posts: seq<Post>, pcms: seq<seq<int>>)
    requires Script(posts, pcms)
    ensures InOrder(MessagesAt(posts, HeardAt(posts)), HeardAt(posts), pcms)
  {
    HeardAtIs(posts);
  }

  lemma MarkIsHeard(posts: seq<Post>, pcms: seq<seq<int>>)
    requires Script(posts, pcms)
    ensures MarkAhead(MessagesAt(posts, HeardAt(posts)), 0) <==> MarkHeard(posts, pcms)
  {
    var places := HeardAt(posts);
    HeardAtIs(posts);
    if MarkHeard(posts, pcms) {
      var j :| 0 <= j < |places| && places[j] == |posts| - 1;
      assert j == |places| - 1;
    } else if places != [] {
      var k := places[|places| - 1];
      assert k in places && IsMessage(posts[k].message, pcms[k], k, k + 1 == |pcms|);
    }
  }

  /** Backend and client together, whichever calls fail and however the stream ends: the client is
      handed exactly the chunks whose send succeeded, in plan order; it reports success unless the
      error got through or the stream broke before the final mark was heard. */
  lemma DeliveredIsHeard(posts: seq<Post>, pcms: seq<seq<int>>, e: Ending, end: End, takes: nat -> bool)
    requires Possible(posts, pcms, e) && forall i :: takes(i)
    ensures var r := Receive(Payloads(Wire(Log(posts, |pcms|, e))), end, takes, 0);
      && PcmOf(r.delivered) == Select(pcms, HeardAt(posts))
      && (forall j :: 0 <= j < |r.delivered| ==> IsPieceOf(r.delivered[j], posts[HeardAt(posts)[j]].message))
      && (r.ok <==> ErrorHeard(e) == [] && (end == Eof || MarkHeard(posts, pcms)))
  {
    var messages, places := MessagesAt(posts, HeardAt(posts)), HeardAt(posts);
    LogOnWire(posts, |pcms|, e);
    HeardInOrder(posts, pcms);
    MarkIsHeard(posts, pcms);
    ReceiveAll(messages, places, ErrorHeard(e), pcms, end, takes);
  }

  ghost predicate IsPieceOf(piece: AudioPiece, m: Message) {
    m.Audio? && piece == Piece(m)
  }

  lemma ReceiveAll(messages: seq<Message>, places: seq<nat>, tail: seq<Message>, pcms: seq<seq<int>>, end: End,
      takes: nat -> bool)
    requires InOrder(messages, places, pcms) && (forall i :: takes(i))
    requires tail == [] || (tail == [Failure] && !MarkAhead(messages, 0))
    ensures var r := Receive(Payloads(messages + tail), end, takes, 0);
      && PcmOf(r.delivered) == Select(pcms, places)
      && (forall j :: 0 <= j < |messages| ==> IsPieceOf(r.delivered[j], messages[j]))
      && (r.ok <==> tail == [] && (end == Eof || MarkAhead(messages, 0)))
  {
    ReceiveFromStart(messages, places, tail, pcms, end, takes);
    PcmInOrder(messages, places, pcms, Receive(Payloads(messages + tail), end, takes, 0).delivered);
  }

  lemma ReceiveFromStart(messages: seq<Message>, places: seq<nat>, tail: seq<Message>, pcms: seq<seq<int>>, end: End,
      takes: nat -> bool)
    requires InOrder(messages, places, pcms) && (forall i :: takes(i))
    requires tail == [] || (tail == [Failure] && !MarkAhead(messages, 0))
    ensures var r := Receive(Payloads(messages + tail), end, takes, 0);
      && |r.delivered| == |messages|
      && (forall j :: 0 <= j < |messages| ==> IsPieceOf(r.delivered[j], messages[j]))
      && (r.ok <==> tail == [] && (end == Eof || MarkAhead(messages, 0)))
  {
    ReceiveInOrder(messages, places, tail, pcms, 0, end, takes);
    assert messages[0..] == messages;
  }

  lemma PcmInOrder(messages: seq<Message>, places: seq<nat>, pcms: seq<seq<int>>, pieces: seq<AudioPiece>)
    requires InOrder(messages, places, pcms) && |pieces| == |messages|
    requires forall j :: 0 <= j < |messages| ==> IsPieceOf(pieces[j], messages[j])
    ensures PcmOf(pieces) == Select(pcms, places)
  {
    forall j | 0 <= j < |places| ensures PcmOf(pieces)[j] == pcms[places[j]] {
      assert IsMessage(messages[j], pcms[places[j]], places[j], places[j] + 1 == |pcms|);
    }
  }

  /** Everything before a chunk that gets through gets through as well. */
  ghost predicate NoGap(posts: seq<Post>) {
    forall i, j :: 0 <= i < j < |posts| && posts[j].arrives ==> posts[i].arrives
  }

  /** What is delivered is a chunk-aligned prefix if and only if no send before a chunk that is
      delivered failed. */
  lemma {:induction false} PrefixIffNoGap(posts: seq<Post>)
    ensures (forall j :: 0 <= j < |HeardAt(posts)| ==> HeardAt(posts)[j] == j) <==> NoGap(posts)
  {
    if NoGap(posts) {
      forall j | 0 <= j < |HeardAt(posts)| ensures HeardAt(posts)[j] == j {
        NoGapAt(posts, j);
      }
    } else {
      var i, j :| 0 <= i < j < |posts| && posts[j].arrives && !posts[i].arrives;
      GapShows(posts, i, j);
    }
  }

  lemma GapShows(posts: seq<Post>, i: nat, j: nat)
    requires i < j < |posts| && posts[j].arrives && !posts[i].arrives
    ensures exists m :: 0 <= m < |HeardAt(posts)| && HeardAt(posts)[m] != m
  {
    var places := HeardAt(posts);
    HeardAtIs(posts);
    assert j in places && i !in places;
    var m :| 0 <= m < |places| && places[m] == j;
    if m == j {
      assert places[i] in places && places[i] != i;
    }
  }

  lemma {:induction false} NoGapAt(posts: seq<Post>, j: nat)
    requires NoGap(posts) && j < |HeardAt(posts)|
    ensures HeardAt(posts)[j] == j
  {
    var places, k := HeardAt(posts), HeardAt(posts)[j];
    HeardAtIs(posts);
    Climbs(places, j);
    if k > j {
      assert k in places && posts[j].arrives;
      var m :| 0 <= m < |places| && places[m] == j;
      Climbs(places, m);
      if j > 0 { NoGapAt(posts, j - 1); }
      assert false;
    }
  }

  lemma {:induction false} Climbs(places: seq<nat>, j: nat)
    requires (forall i, k :: 0 <= i < k < |places| ==> places[i] < places[k]) && j < |places|
    ensures places[j] >= j
  {
    if j > 0 {
      Climbs(places, j - 1);
    }
  }

  lemma SelectPrefix(pcms: seq<seq<int>>, places: seq<nat>)
    requires |places| <= |pcms| && forall j :: 0 <= j < |places| ==> places[j] == j
    ensures Select(pcms, places) == pcms[..|places|]
  {
  }

  ghost predicate AllArrive(posts: seq<Post>) {
    forall i :: 0 <= i < |posts| ==> posts[i].arrives
  }

  lemma {:induction false} HeardCount(posts: seq<Post>)
    ensures |HeardAt(posts)| == |posts| <==> AllArrive(posts)
  {
    if posts != [] {
      var front := posts[..|posts| - 1];
      HeardCount(front);
      assert AllArrive(posts) <==> AllArrive(front) && posts[|posts| - 1].arrives;
    }
  }

  /** The whole audio is delivered if and only if the request completes and every send succeeds. */
  lemma AllDeliveredIff(posts: seq<Post>, pcms: seq<seq<int>>, e: Ending)
    requires Possible(posts, pcms, e) && pcms != []
    ensures Select(pcms, HeardAt(posts)) == pcms <==> e == Complete && AllArrive(posts)
  {
    HeardCount(posts);
    PrefixIffNoGap(posts);
    if AllArrive(posts) && e == Complete {
      SelectPrefix(pcms, HeardAt(posts));
    }
  }

  /** Success does not by itself mean all audio: over a stream that ends normally, the client
      reports success on a truncated reply exactly when the backend never started, or aborted and
      could not get its error across, or completed although a send had failed. */
  lemma TruncatedSuccess(posts: seq<Post>, pcms: seq<seq<int>>, e: Ending, takes: nat -> bool)
    requires Possible(posts, pcms, e) && pcms != [] && forall i :: takes(i)
    ensures var r := Receive(Payloads(Wire(Log(posts, |pcms|, e))), Eof, takes, 0);
      r.ok && PcmOf(r.delivered) != pcms
      <==> e == NoFactory || (e.Aborted? && e.report != Arrived) || (e == Complete && !AllArrive(posts))
  {
    DeliveredIsHeard(posts, pcms, e, Eof, takes);
    AllDeliveredIff(posts, pcms, e);
  }

  // ---------------------------------------------------------------- each way of losing audio happens

  /** What the client makes of a request whose first call is number `n`. */
  function Heard(api: Api, n: nat, acceptable: bool, pcms: seq<seq<int>>, end: End, takes: nat -> bool): Received {
    var run := Serve(api, n, acceptable, pcms);
    Receive(Payloads(Wire(Log(run.posts, |pcms|, run.ending))), end, takes, 0)
  }

  /** For every pattern of failing calls: what the client takes for a complete reply is truncated
      exactly when the run the calls decide was aborted unheard or lost a chunk. */
  lemma TruncatedSuccessOfCalls(api: Api, n: nat, pcms: seq<seq<int>>, takes: nat -> bool)
    requires pcms != [] && forall i :: takes(i)
    ensures var run, r := Serve(api, n, true, pcms), Heard(api, n, true, pcms, Eof, takes);
      r.ok && PcmOf(r.delivered) != pcms
      <==> ErrorHeard(run.ending) == [] && !(run.ending == Complete && AllArrive(run.posts))
  {
    var run := Serve(api, n, true, pcms);
    ServeIsPossible(api, n, true, pcms);
    TruncatedSuccess(run.posts, pcms, run.ending, takes);
  }

  /** For every `k` some calls fail so that the client is handed exactly the first `k` chunks and
      told that this was all. */
  lemma AnyPrefixCanPassForAll(n: nat, pcms: seq<seq<int>>, k: nat, takes: nat -> bool) returns (api: Api)
    requires k < |pcms| && forall i :: takes(i)
    ensures var r := Heard(api, n, true, pcms, Eof, takes); r.ok && PcmOf(r.delivered) == pcms[..k]
  {
    var at := n + 4 + 9 * k;
    api := m => m < at;
    SilentAbort(api, n, pcms, k, at);
    ShortIsNotNoticed(pcms, k, takes);
  }

  lemma ShortIsNotNoticed(pcms: seq<seq<int>>, k: nat, takes: nat -> bool)
    requires k < |pcms| && forall i :: takes(i)
    ensures var log := Log(Wholes(pcms, 0, k), |pcms|, Aborted(false, NoResponse));
      var r := Receive(Payloads(Wire(log)), Eof, takes, 0);
      r.ok && PcmOf(r.delivered) == pcms[..k]
  {
    var posts := Wholes(pcms, 0, k);
    DeliveredIsHeard(posts, pcms, Aborted(false, NoResponse), Eof, takes);
    AllHeard(posts);
    SelectPrefix(pcms, HeardAt(posts));
  }

  lemma AllHeard(posts: seq<Post>)
    requires AllArrive(posts)
    ensures |HeardAt(posts)| == |posts| && forall j :: 0 <= j < |posts| ==> HeardAt(posts)[j] == j
  {
    HeardCount(posts);
    PrefixIffNoGap(posts);
  }

  /** For every `k` a single failing call makes chunk `k` go missing without a word: what follows is
      still delivered, and success reported. */
  lemma AnyChunkCanGoMissing(n: nat, pcms: seq<seq<int>>, k: nat, takes: nat -> bool) returns (api: Api)
    requires k < |pcms| && forall i :: takes(i)
    ensures exists send :: !api(send) && forall m :: m != send ==> api(m)
    ensures var r := Heard(api, n, true, pcms, Eof, takes); r.ok && PcmOf(r.delivered) == pcms[..k] + pcms[k + 1..]
  {
    var send := n + 12 + 9 * k;
    api := m => m != send;
    assert !api(send) && forall m :: m != send ==> api(m);
    LostChunk(api, n, pcms, k, send, n + 4 + 9 * |pcms|);
    LostIsNotNoticed(pcms, k, takes);
  }

  lemma LostIsNotNoticed(pcms: seq<seq<int>>, k: nat, takes: nat -> bool)
    requires k < |pcms| && forall i :: takes(i)
    ensures var r := Receive(Payloads(Wire(Log(AllBut(pcms, k), |pcms|, Complete))), Eof, takes, 0);
      r.ok && PcmOf(r.delivered) == pcms[..k] + pcms[k + 1..]
  {
    var posts := AllBut(pcms, k);
    DeliveredIsHeard(posts, pcms, Complete, Eof, takes);
    HeardAllBut(posts, k, |pcms|);
    assert posts[..|pcms|] == posts;
    SelectAllBut(pcms, k);
  }

  // ---------------------------------------------------------------- every call that can fail

  /** An aborted request delivers the chunks before, and fails unless its error is not received and
      the stream ends normally. */
  lemma HeardAborted(pcms: seq<seq<int>>, k: nat, e: Ending, end: End, takes: nat -> bool)
    requires e.Aborted? && (k < |pcms| || k == 0) && k <= |pcms| && forall i :: takes(i)
    ensures var r := Receive(Payloads(Wire(Log(Wholes(pcms, 0, k), |pcms|, e))), end, takes, 0);
      PcmOf(r.delivered) == pcms[..k] && (r.ok <==> e.report != Arrived && end == Eof)
  {
    var posts := Wholes(pcms, 0, k);
    DeliveredIsHeard(posts, pcms, e, end, takes);
    AllHeard(posts);
    SelectPrefix(pcms, HeardAt(posts));
  }

  /** A call that breaks chunk `k` off: the client has the chunks before it, and is told of the
      failure if the two calls after it succeed; if one of them fails too and the stream ends
      normally, it reports success. */
  lemma BrokenChunkIsReported(api: Api, n: nat, pcms: seq<seq<int>>, k: nat, j: nat, m: nat, end: End,
      takes: nat -> bool)
    requires k < |pcms| && j < 4 && m == n + 4 + 9 * k + j && Succeed(api, n, m) && !api(m) && forall i :: takes(i)
    ensures var r := Heard(api, n, true, pcms, end, takes);
      PcmOf(r.delivered) == pcms[..k] && (r.ok <==> !(api(m + 1) && api(m + 2)) && end == Eof)
  {
    BreakAt(api, n, pcms, k, j, m);
    HeardAborted(pcms, k, Serve(api, n, true, pcms).ending, end, takes);
  }

  /** The same for a request given up before its stream, a refused tensor for one: nothing is
      delivered. */
  lemma RefusalIsReported(api: Api, n: nat, acceptable: bool, pcms: seq<seq<int>>, m: nat, end: End, takes: nat -> bool)
    requires GivenUpAt(api, n, acceptable, m) && forall i :: takes(i)
    ensures var r := Heard(api, n, acceptable, pcms, end, takes);
      r.delivered == [] && (r.ok <==> !(api(m + 1) && api(m + 2)) && end == Eof)
  {
    BreakEarly(api, n, acceptable, pcms, m);
    var run := Serve(api, n, acceptable, pcms);
    assert Wholes(pcms, 0, 0) == [];
    HeardAborted(pcms, 0, run.ending, end, takes);
    assert |PcmOf(Heard(api, n, acceptable, pcms, end, takes).delivered)| == 0;
  }

  /** No factory: nothing at all is heard. */
  lemma NoFactoryIsSilent(api: Api, n: nat, acceptable: bool, pcms: seq<seq<int>>, end: End, takes: nat -> bool)
    requires !api(n)
    ensures Heard(api, n, acceptable, pcms, end, takes) == Received([], end == Eof)
  {
    WireOne(Release);
  }

  /** A scalar that cannot be attached costs no audio.  Only without the last chunk's mark does
      success depend on how the stream ends. */
  lemma BareChunkIsHeard(api: Api, n: nat, pcms: seq<seq<int>>, k: nat, j: nat, m: nat, end: End, takes: nat -> bool)
    requires k < |pcms| && 4 <= j < 8 && m == n + 4 + 9 * k + j && forall i :: takes(i)
    requires Succeed(api, n, m) && !api(m) && Succeed(api, m + 1, n + 4 + 9 * |pcms|)
    ensures var r := Heard(api, n, true, pcms, end, takes);
      PcmOf(r.delivered) == pcms && (r.ok <==> end == Eof || k + 1 < |pcms| || j < 6)
  {
    BareChunk(api, n, pcms, k, j, m - j, m);
    BareIsHeard(pcms, k, j, end, takes);
  }

  lemma BareIsHeard(pcms: seq<seq<int>>, k: nat, j: nat, end: End, takes: nat -> bool)
    requires k < |pcms| && 4 <= j < 8 && forall i :: takes(i)
    ensures var posts := Wholes(pcms, 0, |pcms|)[k := Bare(pcms, k, j)];
      var r := Receive(Payloads(Wire(Log(posts, |pcms|, Complete))), end, takes, 0);
      PcmOf(r.delivered) == pcms && (r.ok <==> end == Eof || k + 1 < |pcms| || j < 6)
  {
    var posts := Wholes(pcms, 0, |pcms|)[k := Bare(pcms, k, j)];
    DeliveredIsHeard(posts, pcms, Complete, end, takes);
    AllHeard(posts);
    SelectPrefix(pcms, HeardAt(posts));
    assert posts[|pcms| - 1] == if k == |pcms| - 1 then Bare(pcms, k, j) else Whole(pcms, |pcms| - 1);
  }

  function Upto(from: nat, to: nat): (places: seq<nat>)
    requires from <= to
  {
    seq(to - from, j requires 0 <= j => from + j)
  }

  /** Before the lost chunk all places are heard. */
  lemma {:induction false} HeardBefore(posts: seq<Post>, k: nat, n: nat)
    requires n <= k <= |posts| && forall i :: 0 <= i < k ==> posts[i].arrives
    ensures HeardAt(posts[..n]) == Upto(0, n)
  {
    if n > 0 {
      HeardBefore(posts, k, n - 1);
      ArriveSnoc(posts, n - 1);
      UptoSnoc(0, n - 1);
    }
  }

  /** After it, all places but one. */
  lemma {:induction false} HeardAllBut(posts: seq<Post>, k: nat, n: nat)
    requires k < n <= |posts| && forall i :: 0 <= i < |posts| ==> (posts[i].arrives <==> i != k)
    ensures HeardAt(posts[..n]) == Upto(0, k) + Upto(k + 1, n)
  {
    ArriveSnoc(posts, n - 1);
    if n == k + 1 {
      HeardBefore(posts, k, k);
      assert Upto(0, k) + Upto(k + 1, k + 1) == Upto(0, k);
    } else {
      HeardAllBut(posts, k, n - 1);
      UptoSnoc(k + 1, n - 1);
      Append(Upto(0, k), Upto(k + 1, n - 1), n - 1);
    }
  }

  lemma Append(a: seq<nat>, b: seq<nat>, x: nat)
    ensures (a + b) + [x] == a + (b + [x])
  {
  }

  lemma UptoSnoc(from: nat, to: nat)
    requires from <= to
    ensures Upto(from, to + 1) == Upto(from, to) + [to]
  {
  }

  lemma SelectAllBut(pcms: seq<seq<int>>, k: nat)
    requires k < |pcms|
    ensures var places := Upto(0, k) + Upto(k + 1, |pcms|);
      (forall j :: 0 <= j < |places| ==> places[j] < |pcms|) && Select(pcms, places) == pcms[..k] + pcms[k + 1..]
  {
  }

  // ---------------------------------------------------------------- end to end

  function Flatten(pcms: seq<seq<int>>): seq<int> {
    if pcms == [] then [] else Flatten(pcms[..|pcms| - 1]) + pcms[|pcms| - 1]
  }

  /** The audio of the chunks that get through, among the first `n`. */
  function HeardAudio(posts: seq<Post>, pcms: seq<seq<int>>, n: nat): seq<int>
    requires n <= |posts| == |pcms|
  {
    if n == 0 then []
    else if posts[n - 1].arrives then HeardAudio(posts, pcms, n - 1) + pcms[n - 1]
    else HeardAudio(posts, pcms, n - 1)
  }

  lemma {:induction false} HeardAudioIs(posts: seq<Post>, pcms: seq<seq<int>>, n: nat)
    requires n <= |posts| == |pcms|
    ensures Flatten(Select(pcms, HeardAt(posts[..n]))) == HeardAudio(posts, pcms, n)
  {
    if n > 0 {
      HeardAudioIs(posts, pcms, n - 1);
      ArriveSnoc(posts, n - 1);
      if posts[n - 1].arrives {
        SelectSnoc(pcms, HeardAt(posts[..n - 1]), n - 1);
      }
    }
  }

  /** Leaving out a nonempty chunk makes the audio shorter. */
  lemma {:induction false} LostAudioIsMissed(posts: seq<Post>, pcms: seq<seq<int>>, n: nat)
    requires n <= |posts| == |pcms| && forall i :: 0 <= i < |pcms| ==> pcms[i] != []
    ensures |HeardAudio(posts, pcms, n)| <= |Flatten(pcms[..n])|
    ensures |HeardAudio(posts, pcms, n)| == |Flatten(pcms[..n])| <==> AllArrive(posts[..n])
  {
    if n > 0 {
      LostAudioIsMissed(posts, pcms, n - 1);
      ArriveSnoc(posts, n - 1);
      FlattenSnoc(pcms, n - 1);
      assert |pcms[n - 1]| > 0;
    }
  }

  lemma ArriveSnoc(posts: seq<Post>, k: nat)
    requires k < |posts|
    ensures HeardAt(posts[..k + 1]) == if posts[k].arrives then HeardAt(posts[..k]) + [k] else HeardAt(posts[..k])
    ensures AllArrive(posts[..k + 1]) <==> AllArrive(posts[..k]) && posts[k].arrives
  {
    assert posts[..k + 1][..k] == posts[..k];
  }

  lemma FlattenSnoc(pcms: seq<seq<int>>, k: nat)
    requires k < |pcms|
    ensures Flatten(pcms[..k + 1]) == Flatten(pcms[..k]) + pcms[k]
  {
    assert pcms[..k + 1][..k] == pcms[..k];
  }

  lemma SelectSnoc(pcms: seq<seq<int>>, places: seq<nat>, k: nat)
    requires k < |pcms| && forall j :: 0 <= j < |places| ==> places[j] < |pcms|
    ensures Flatten(Select(pcms, places + [k])) == Flatten(Select(pcms, places)) + pcms[k]
  {
    assert Select(pcms, places + [k])[..|places|] == Select(pcms, places);
  }

  lemma FlattenIffAllArrive(posts: seq<Post>, pcms: seq<seq<int>>)
    requires |posts| == |pcms| && forall i :: 0 <= i < |pcms| ==> pcms[i] != []
    ensures Flatten(Select(pcms, HeardAt(posts))) == Flatten(pcms) <==> AllArrive(posts)
  {
    HeardAudioIs(posts, pcms, |posts|);
    LostAudioIsMissed(posts, pcms, |posts|);
    assert posts[..|posts|] == posts && pcms[..|pcms|] == pcms;
    if AllArrive(posts) {
      AllHeard(posts);
      SelectPrefix(pcms, HeardAt(posts));
    }
  }

  /** End to end: what a completed request delivers is the quantised single-pass decode of its
      latents (for utterances under the engine's minimum, its samples of the zero-extended decode)
      if and only if every send succeeds. */
  lemma CompleteReplyIsSinglePass(D: Decoder, cfg: Config, R: nat, z: Signal, posts: seq<Post>, end: End,
      takes: nat -> bool)
    requires Usable(cfg) && Rate(D, cfg.hop) && SliceLocal(D, cfg.hop, R)
    requires R <= cfg.overlap && cfg.minWindow <= cfg.overlap + 1
    requires Possible(posts, PlannedPcms(D, cfg, z), Complete) && forall i :: takes(i)
    ensures |z| * cfg.hop <= |D(Effective(cfg, z))| && (|z| >= cfg.minWindow ==> Effective(cfg, z) == z)
    ensures var r := Receive(Payloads(Wire(Log(posts, |PlannedPcms(D, cfg, z)|, Complete))), end, takes, 0);
      Flatten(PcmOf(r.delivered)) == ToPcm(D(Effective(cfg, z)))[..|z| * cfg.hop] <==> AllArrive(posts)
  {
    var pcms := PlannedPcms(D, cfg, z);
    DeliveredIsHeard(posts, pcms, Complete, end, takes);
    forall i | 0 <= i < |pcms| ensures pcms[i] != [] {
      PlannedIsAudible(D, cfg, z, i);
    }
    FlattenIffAllArrive(posts, pcms);
    AudioAskedFor(D, cfg, R, z);
  }

  lemma PlannedIsAudible(D: Decoder, cfg: Config, z: Signal, i: nat)
    requires Usable(cfg) && Rate(D, cfg.hop) && i < |PlannedPcms(D, cfg, z)|
    ensures PlannedPcms(D, cfg, z)[i] != []
  {
    PlannedCount(D, cfg, z);
    PlannedChunk(D, cfg, z, i);
    ChunkPcmLength(D, cfg, z, Chunks(cfg, |z|)[i]);
  }

  lemma AudioAskedFor(D: Decoder, cfg: Config, R: nat, z: Signal)
    requires Usable(cfg) && Rate(D, cfg.hop) && SliceLocal(D, cfg.hop, R)
    requires R <= cfg.overlap && cfg.minWindow <= cfg.overlap + 1
    ensures |z| * cfg.hop <= |D(Effective(cfg, z))| && (|z| >= cfg.minWindow ==> Effective(cfg, z) == z)
    ensures Flatten(PlannedPcms(D, cfg, z)) == ToPcm(D(Effective(cfg, z)))[..|z| * cfg.hop]
  {
    var pcms := PlannedPcms(D, cfg, z);
    PlannedCount(D, cfg, z);
    SentIsSinglePass(D, cfg, R, z);
    FlattenPlanned(D, cfg, z, |pcms|);
    assert pcms[..|pcms|] == pcms;
  }

  lemma {:induction false} FlattenPlanned(D: Decoder, cfg: Config, z: Signal, n: nat)
    requires Usable(cfg) && Chain(Chunks(cfg, |z|), |z|) && n <= |Chunks(cfg, |z|)|
    ensures Flatten(PlannedPcms(D, cfg, z)[..n]) == SentPcm(D, cfg, z, Chunks(cfg, |z|), n)
  {
    if n > 0 {
      FlattenPlanned(D, cfg, z, n - 1);
      var pcms := PlannedPcms(D, cfg, z);
      PlannedChunk(D, cfg, z, n - 1);
      assert pcms[..n][..n - 1] == pcms[..n - 1];
    }
  }
}
