/** The calls one request makes, the events it leaves behind, and what they promise whichever of
    the calls fail. */
module Protocol {
  import opened Options

  datatype Message =
    | Audio(pcm: seq<int>, index: Option<int>, isFinal: Option<bool>)
    | Failure

  // A send that returns an error delivers nothing; the source does not look at its result.
  datatype Event =
    | FactoryNew
    | FactoryDelete
    | Release
    | ResponseNew
    | Send(message: Message, complete: bool, arrives: bool)

  /** A message handed to the server, and whether it gets through. */
  datatype Post = Post(message: Message, arrives: bool)

  /** What becomes of the error response: not made, lost on sending, or received. */
  datatype Report = NoResponse | Lost | Arrived

  /** How a request ends.  An aborted request may leave behind a response object that was made
      but never sent. */
  datatype Ending = NoFactory | Complete | Aborted(orphan: bool, report: Report)

  // ---------------------------------------------------------------- the calls

  /** Whether the n-th call into the server or the GPU runtime succeeds. */
  type Api = nat -> bool

  /** The posts of a request, how it ends, and the number of the next call. */
  datatype Run = Run(posts: seq<Post>, ending: Ending, next: nat)

  /** A scalar output takes two calls, the second one only after the first. */
  function Attached(api: Api, n: nat): bool {
    api(n) && api(n + 1)
  }

  function AttachEnd(api: Api, n: nat): nat {
    if api(n) then n + 2 else n + 1
  }

  /** Decoding, response, audio output and its buffer: without them a chunk is not sent. */
  function Ready(api: Api, n: nat): bool {
    api(n) && api(n + 1) && api(n + 2) && api(n + 3)
  }

  /** After the first of these calls that failed. */
  function BreakEnd(api: Api, n: nat): nat {
    if !api(n) then n + 1 else if !api(n + 1) then n + 2 else if !api(n + 2) then n + 3 else n + 4
  }

  /** The call that sends the chunk whose first call is `n`. */
  function SendCall(api: Api, n: nat): (k: nat)
    ensures n + 6 <= k <= n + 8
  {
    AttachEnd(api, AttachEnd(api, n + 4))
  }

  function ChunkMessage(api: Api, n: nat, pcm: seq<int>, i: nat, last: bool): Message {
    Audio(pcm, if Attached(api, n + 4) then Some(i) else None,
          if Attached(api, AttachEnd(api, n + 4)) then Some(last) else None)
  }

  function ReportOf(api: Api, n: nat): Report {
    if !api(n) then NoResponse else if api(n + 1) then Arrived else Lost
  }

  function Abort(api: Api, n: nat, orphan: bool): Run {
    Run([], Aborted(orphan, ReportOf(api, n)), if api(n) then n + 2 else n + 1)
  }

  /** The chunks from `i` on, the next call being `n`. */
  function Stream(api: Api, n: nat, pcms: seq<seq<int>>, i: nat): Run
    requires i <= |pcms|
    decreases |pcms| - i
  {
    if i == |pcms| then Run([], Complete, n)
    else if !Ready(api, n) then Abort(api, BreakEnd(api, n), api(n) && api(n + 1))
    else
      var k := SendCall(api, n);
      var rest := Stream(api, k + 1, pcms, i + 1);
      Run([PostOf(api, n, pcms, i)] + rest.posts, rest.ending, rest.next)
  }

  /** A whole request, the next call being `n`. */
  function Serve(api: Api, n: nat, acceptable: bool, pcms: seq<seq<int>>): Run {
    if !api(n) then Run([], NoFactory, n + 1)
    else if !InputOk(api, n + 1, acceptable) then Abort(api, InputEnd(api, n + 1, acceptable), false)
    else Stream(api, n + 4, pcms, 0)
  }

  /** The input is there, has properties that are accepted, and has a buffer. */
  predicate InputOk(api: Api, n: nat, acceptable: bool) {
    api(n) && api(n + 1) && acceptable && api(n + 2)
  }

  function InputEnd(api: Api, n: nat, acceptable: bool): nat {
    if !api(n) then n + 1 else if !api(n + 1) || !acceptable then n + 2 else n + 3
  }

  /** The post of chunk `i`, whose first call is `n`. */
  function PostOf(api: Api, n: nat, pcms: seq<seq<int>>, i: nat): Post
    requires i < |pcms|
  {
    Post(ChunkMessage(api, n, pcms[i], i, i + 1 == |pcms|), api(SendCall(api, n)))
  }

  // ---------------------------------------------------------------- the events

  /** The sends of the first messages of a stream of `total` chunks. */
  function Sends(posts: seq<Post>, total: nat): seq<Event> {
    if posts == [] then []
    else
      var i := |posts| - 1;
      Sends(posts[..i], total) + [ResponseNew, Send(posts[i].message, i + 1 == total, posts[i].arrives)]
  }

  function Reporting(r: Report): seq<Event> {
    if r == NoResponse then [] else [ResponseNew, Send(Failure, true, r == Arrived)]
  }

  function Closing(e: Ending): seq<Event>
    requires !e.NoFactory?
  {
    (if e.Aborted? && e.orphan then [ResponseNew] else [])
    + (if e.Aborted? then Reporting(e.report) else [])
    + [FactoryDelete, Release]
  }

  function Log(posts: seq<Post>, total: nat, e: Ending): seq<Event> {
    if e.NoFactory? then [Release]
    else [FactoryNew] + Sends(posts, total) + Closing(e)
  }

  /** The messages carry the chunks' audio in plan order; index and finality are the chunk's own
      whenever they were attached. */
  ghost predicate Script(posts: seq<Post>, pcms: seq<seq<int>>) {
    && |posts| <= |pcms|
    && forall i :: 0 <= i < |posts| ==> IsMessage(posts[i].message, pcms[i], i, i + 1 == |pcms|)
  }

  ghost predicate IsMessage(m: Message, pcm: seq<int>, i: nat, last: bool) {
    && m.Audio? && m.pcm == pcm
    && (m.index == None || m.index == Some(i))
    && (m.isFinal == None || m.isFinal == Some(last))
  }

  /** What every request keeps to: it is complete when all its chunks were handed over, and
      aborted before the last one. */
  ghost predicate Possible(posts: seq<Post>, pcms: seq<seq<int>>, e: Ending) {
    && Script(posts, pcms)
    && (e == NoFactory ==> posts == [])
    && (e == Complete ==> |posts| == |pcms|)
    && (e.Aborted? ==> posts == [] || |posts| < |pcms|)
  }

  /** The chunks from `i` on make a script of their own. */
  lemma {:induction false} StreamIsScript(api: Api, n: nat, pcms: seq<seq<int>>, i: nat)
    requires i <= |pcms|
    ensures var run := Stream(api, n, pcms, i);
      && run.ending != NoFactory && |run.posts| <= |pcms| - i
      && (run.ending == Complete <==> |run.posts| == |pcms| - i)
      && n <= run.next
      && forall j :: 0 <= j < |run.posts| ==>
           IsMessage(run.posts[j].message, pcms[i + j], i + j, i + j + 1 == |pcms|)
    decreases |pcms| - i
  {
    if i < |pcms| && Ready(api, n) {
      StreamIsScript(api, SendCall(api, n) + 1, pcms, i + 1);
    }
  }

  /** Whichever calls fail, a request hands over its chunks in plan order and ends one of the
      possible ways. */
  lemma ServeIsPossible(api: Api, n: nat, acceptable: bool, pcms: seq<seq<int>>)
    ensures var run := Serve(api, n, acceptable, pcms); Possible(run.posts, pcms, run.ending) && n < run.next
  {
    StreamIsScript(api, n + 4, pcms, 0);
  }

  // ---------------------------------------------------------------- one chunk at a time

  /** The log once every chunk has been handed over. */
  lemma CompleteLog(posts: seq<Post>, total: nat)
    ensures [FactoryNew] + Sends(posts, total) + [FactoryDelete, Release] == Log(posts, total, Complete)
  {
    assert Closing(Complete) == [FactoryDelete, Release];
  }

  /** The response made for a chunk that was never sent, if any. */
  function OrphanOf(api: Api, n: nat): seq<Event> {
    if api(n) && api(n + 1) then [ResponseNew] else []
  }

  /** The log when a chunk fails, with or without its response made. */
  lemma AbortedLog(posts: seq<Post>, total: nat, events: seq<Event>, report: Report)
    requires events == [] || events == [ResponseNew]
    ensures var e := Aborted(events == [ResponseNew], report);
      [FactoryNew] + Sends(posts, total) + (events + Closing(Aborted(false, report))) == Log(posts, total, e)
  {
    var e := Aborted(events == [ResponseNew], report);
    assert events + Closing(Aborted(false, report)) == Closing(e);
  }

  function SendOf(post: Post, last: bool): seq<Event> {
    [ResponseNew, Send(post.message, last, post.arrives)]
  }

  lemma SendsSnoc(posts: seq<Post>, p: Post, total: nat)
    ensures Sends(posts + [p], total) == Sends(posts, total) + SendOf(p, |posts| + 1 == total)
  {
    assert (posts + [p])[..|posts|] == posts;
  }

  function StreamLog(api: Api, start: nat, pcms: seq<seq<int>>): seq<Event> {
    var run := Stream(api, start, pcms, 0);
    Log(run.posts, |pcms|, run.ending)
  }

  /** The stream that began at call `start` has left `log` and `posts`; the next call is `n`. */
  ghost predicate Underway(api: Api, start: nat, pcms: seq<seq<int>>, log: seq<Event>, posts: seq<Post>, n: nat) {
    && |posts| <= |pcms| && log == [FactoryNew] + Sends(posts, |pcms|)
    && Continues(Stream(api, start, pcms, 0), posts, Stream(api, n, pcms, |posts|))
  }

  /** `rest` is what is still to come of `run` after `posts`. */
  ghost predicate Continues(run: Run, posts: seq<Post>, rest: Run) {
    run == Run(posts + rest.posts, rest.ending, rest.next)
  }

  lemma NothingMore(run: Run, posts: seq<Post>, rest: Run)
    requires Continues(run, posts, rest) && rest.posts == []
    ensures run == Run(posts, rest.ending, rest.next)
  {
    assert posts + [] == posts;
  }

  lemma OneMorePost(run: Run, posts: seq<Post>, post: Post, rest: Run, before: Run)
    requires Continues(run, posts, before) && before == Run([post] + rest.posts, rest.ending, rest.next)
    ensures Continues(run, posts + [post], rest)
  {
    assert posts + ([post] + rest.posts) == (posts + [post]) + rest.posts;
  }

  lemma UnderwayNext(api: Api, start: nat, pcms: seq<seq<int>>, log: seq<Event>, posts: seq<Post>, n: nat, post: Post,
      events: seq<Event>, next: nat)
    requires Underway(api, start, pcms, log, posts, n) && |posts| < |pcms| && Ready(api, n)
    requires post == PostOf(api, n, pcms, |posts|) && next == SendCall(api, n) + 1
    requires events == SendOf(post, |posts| + 1 == |pcms|)
    ensures Underway(api, start, pcms, log + events, posts + [post], next)
  {
    OneMorePost(Stream(api, start, pcms, 0), posts, post,
                Stream(api, next, pcms, |posts| + 1), Stream(api, n, pcms, |posts|));
    SendsSnoc(posts, post, |pcms|);
  }

  lemma UnderwayBroken(api: Api, start: nat, pcms: seq<seq<int>>, log: seq<Event>, posts: seq<Post>, n: nat)
    requires Underway(api, start, pcms, log, posts, n) && |posts| < |pcms| && !Ready(api, n)
    ensures var m := BreakEnd(api, n);
      && log + (OrphanOf(api, n) + Closing(Aborted(false, ReportOf(api, m)))) == StreamLog(api, start, pcms)
      && Stream(api, start, pcms, 0).next == Abort(api, m, true).next
  {
    NothingMore(Stream(api, start, pcms, 0), posts, Stream(api, n, pcms, |posts|));
    AbortedLog(posts, |pcms|, OrphanOf(api, n), ReportOf(api, BreakEnd(api, n)));
  }

  lemma UnderwayDone(api: Api, start: nat, pcms: seq<seq<int>>, log: seq<Event>, posts: seq<Post>, n: nat)
    requires Underway(api, start, pcms, log, posts, n) && |posts| == |pcms|
    ensures log + [FactoryDelete, Release] == StreamLog(api, start, pcms)
    ensures Stream(api, start, pcms, 0).next == n
  {
    NothingMore(Stream(api, start, pcms, 0), posts, Stream(api, n, pcms, |posts|));
    CompleteLog(posts, |pcms|);
  }

  /** The log when the request is given up before its stream, the next call being `m`. */
  lemma EarlyAbort(api: Api, n: nat, acceptable: bool, pcms: seq<seq<int>>, m: nat)
    requires api(n) && !InputOk(api, n + 1, acceptable) && m == InputEnd(api, n + 1, acceptable)
    ensures var run := Serve(api, n, acceptable, pcms);
      && run.next == Abort(api, m, false).next
      && Log(run.posts, |pcms|, run.ending) == [FactoryNew] + Closing(Aborted(false, ReportOf(api, m)))
  {
    assert [FactoryNew] + Sends([], |pcms|) == [FactoryNew];
  }

  // ---------------------------------------------------------------- what is on the wire

  /** The messages that get through. */
  function Wire(log: seq<Event>): seq<Message> {
    if log == [] then []
    else Wire(log[..|log| - 1]) + OnWire(log[|log| - 1])
  }

  function OnWire(e: Event): seq<Message> {
    if e.Send? && e.arrives then [e.message] else []
  }

  lemma {:induction false} WireConcat(a: seq<Event>, b: seq<Event>)
    ensures Wire(a + b) == Wire(a) + Wire(b)
  {
    if b == [] {
      assert a + b == a;
    } else {
      var front, last := b[..|b| - 1], b[|b| - 1];
      WireConcat(a, front);
      assert (a + b)[..|a + b| - 1] == a + front;
      Regroup(Wire(a), Wire(front), OnWire(last));
    }
  }

  lemma Regroup(a: seq<Message>, b: seq<Message>, c: seq<Message>)
    ensures (a + b) + c == a + (b + c)
  {
  }

  lemma WireOne(a: Event)
    ensures Wire([a]) == OnWire(a)
  {
    assert [a][..0] == [];
  }

  lemma WirePair(a: Event, b: Event)
    requires !a.Send?
    ensures Wire([a, b]) == OnWire(b)
  {
    WireOne(a);
    assert [a, b][..1] == [a];
  }

  /** The places of the chunks that get through. */
  function HeardAt(posts: seq<Post>): (places: seq<nat>)
    ensures |places| <= |posts| && forall j :: 0 <= j < |places| ==> places[j] < |posts|
  {
    if posts == [] then []
    else HeardAt(posts[..|posts| - 1]) + if posts[|posts| - 1].arrives then [|posts| - 1] else []
  }

  /** The places are those of the posts that arrive, in order. */
  lemma {:induction false} HeardAtIs(posts: seq<Post>)
    ensures forall i :: 0 <= i < |posts| ==> (posts[i].arrives <==> i in HeardAt(posts))
    ensures forall i, j :: 0 <= i < j < |HeardAt(posts)| ==> HeardAt(posts)[i] < HeardAt(posts)[j]
  {
    if posts != [] {
      var front := posts[..|posts| - 1];
      HeardAtIs(front);
      assert forall i :: 0 <= i < |front| ==> front[i] == posts[i];
    }
  }

  /** The messages at these places. */
  function MessagesAt(posts: seq<Post>, places: seq<nat>): (messages: seq<Message>)
    requires forall j :: 0 <= j < |places| ==> places[j] < |posts|
    ensures |messages| == |places|
  {
    seq(|places|, j requires 0 <= j < |places| => posts[places[j]].message)
  }

  lemma {:induction false} SendsOnWire(posts: seq<Post>, total: nat)
    ensures Wire(Sends(posts, total)) == MessagesAt(posts, HeardAt(posts))
  {
    if posts != [] {
      var i := |posts| - 1;
      var send := Send(posts[i].message, i + 1 == total, posts[i].arrives);
      SendsOnWire(posts[..i], total);
      WireConcat(Sends(posts[..i], total), [ResponseNew, send]);
      WirePair(ResponseNew, send);
      MessagesSnoc(posts, posts[..i]);
    }
  }

  lemma MessagesSnoc(posts: seq<Post>, front: seq<Post>)
    requires posts != [] && front == posts[..|posts| - 1]
    ensures var last := posts[|posts| - 1];
      MessagesAt(posts, HeardAt(posts))
      == MessagesAt(front, HeardAt(front)) + if last.arrives then [last.message] else []
  {
    MessagesOfFront(posts, front, HeardAt(front));
    if posts[|posts| - 1].arrives {
      MessagesAppend(posts, HeardAt(front), |posts| - 1);
    }
  }

  lemma MessagesOfFront(posts: seq<Post>, front: seq<Post>, places: seq<nat>)
    requires |front| <= |posts| && front == posts[..|front|]
    requires forall j :: 0 <= j < |places| ==> places[j] < |front|
    ensures MessagesAt(posts, places) == MessagesAt(front, places) == MessagesAt(front, places) + []
  {
  }

  lemma MessagesAppend(posts: seq<Post>, places: seq<nat>, k: nat)
    requires k < |posts| && forall j :: 0 <= j < |places| ==> places[j] < |posts|
    ensures MessagesAt(posts, places + [k]) == MessagesAt(posts, places) + [posts[k].message]
  {
  }

  function ErrorHeard(e: Ending): seq<Message> {
    if e.Aborted? && e.report == Arrived then [Failure] else []
  }

  lemma ReportingOnWire(r: Report)
    ensures Wire(Reporting(r)) == if r == Arrived then [Failure] else []
  {
    WirePair(ResponseNew, Send(Failure, true, r == Arrived));
  }

  lemma ClosingOnWire(e: Ending)
    requires !e.NoFactory?
    ensures Wire(Closing(e)) == ErrorHeard(e)
  {
    var orphan := if e.Aborted? && e.orphan then [ResponseNew] else [];
    var report := if e.Aborted? then Reporting(e.report) else [];
    WireThree(orphan, report, [FactoryDelete, Release]);
    if e.Aborted? { ReportingOnWire(e.report); }
    WirePair(FactoryDelete, Release);
    WireOne(ResponseNew);
  }

  /** What reaches the client: the chunks whose send succeeded, then at most one failure. */
  lemma LogOnWire(posts: seq<Post>, total: nat, e: Ending)
    requires e == NoFactory ==> posts == []
    ensures Wire(Log(posts, total, e)) == MessagesAt(posts, HeardAt(posts)) + ErrorHeard(e)
  {
    if e == NoFactory {
      WireOne(Release);
    } else {
      WireParts(posts, total, e);
      SendsOnWire(posts, total);
      ClosingOnWire(e);
    }
  }

  lemma WireParts(posts: seq<Post>, total: nat, e: Ending)
    requires !e.NoFactory?
    ensures Wire(Log(posts, total, e)) == Wire(Sends(posts, total)) + Wire(Closing(e))
  {
    var sends := Sends(posts, total);
    WireThree([FactoryNew], sends, Closing(e));
    WireOne(FactoryNew);
    assert [] + Wire(sends) == Wire(sends);
  }

  lemma WireThree(a: seq<Event>, b: seq<Event>, c: seq<Event>)
    ensures Wire(a + b + c) == Wire(a) + Wire(b) + Wire(c)
  {
    WireConcat(a, b);
    WireConcat(a + b, c);
  }

  // ---------------------------------------------------------------- exactly once

  function Count(log: seq<Event>, e: Event): nat {
    multiset(log)[e]
  }

  lemma {:induction false} SendsCounts(posts: seq<Post>, total: nat)
    ensures Count(Sends(posts, total), Release) == 0
    ensures Count(Sends(posts, total), FactoryNew) == Count(Sends(posts, total), FactoryDelete) == 0
    ensures Count(Sends(posts, total), ResponseNew) == |posts|
  {
    if posts != [] {
      SendsCounts(posts[..|posts| - 1], total);
    }
  }

  function SendCalls(log: seq<Event>): nat {
    if log == [] then 0 else SendCalls(log[..|log| - 1]) + if log[|log| - 1].Send? then 1 else 0
  }

  lemma {:induction false} SendCallsConcat(a: seq<Event>, b: seq<Event>)
    ensures SendCalls(a + b) == SendCalls(a) + SendCalls(b)
  {
    if b == [] {
      assert a + b == a;
    } else {
      SendCallsConcat(a, b[..|b| - 1]);
      assert (a + b)[..|a + b| - 1] == a + b[..|b| - 1];
    }
  }

  lemma SendCallsPair(a: Event, b: Event)
    ensures SendCalls([a]) == if a.Send? then 1 else 0
    ensures SendCalls([a, b]) == (if a.Send? then 1 else 0) + (if b.Send? then 1 else 0)
  {
    assert [a][..0] == [] && [a, b][..1] == [a];
  }

  lemma {:induction false} SendCallsOfSends(posts: seq<Post>, total: nat)
    ensures SendCalls(Sends(posts, total)) == |posts|
  {
    if posts != [] {
      var i := |posts| - 1;
      var send := Send(posts[i].message, i + 1 == total, posts[i].arrives);
      SendCallsOfSends(posts[..i], total);
      SendCallsConcat(Sends(posts[..i], total), [ResponseNew, send]);
      SendCallsPair(ResponseNew, send);
    }
  }

  lemma SendCallsOfReport(r: Report)
    ensures SendCalls(Reporting(r)) == Reported(r)
  {
    SendCallsPair(ResponseNew, Send(Failure, true, r == Arrived));
  }

  function Reported(r: Report): nat { if r == NoResponse then 0 else 1 }

  lemma SendCallsOfClosing(e: Ending)
    requires !e.NoFactory?
    ensures SendCalls(Closing(e)) == if e.Aborted? then Reported(e.report) else 0
  {
    var orphan := if e.Aborted? && e.orphan then [ResponseNew] else [];
    var report := if e.Aborted? then Reporting(e.report) else [];
    SendCallsConcat(orphan, report);
    SendCallsConcat(orphan + report, [FactoryDelete, Release]);
    if e.Aborted? { SendCallsOfReport(e.report); }
    SendCallsPair(FactoryDelete, Release);
    SendCallsPair(ResponseNew, Release);
  }

  lemma SendCallsOfLog(posts: seq<Post>, total: nat, e: Ending)
    requires e == NoFactory ==> posts == []
    ensures SendCalls(Log(posts, total, e)) == |posts| + if e.Aborted? then Reported(e.report) else 0
  {
    if e == NoFactory {
      SendCallsPair(Release, Release);
    } else {
      SendCallsConcat([FactoryNew], Sends(posts, total));
      SendCallsConcat([FactoryNew] + Sends(posts, total), Closing(e));
      SendCallsOfSends(posts, total);
      SendCallsOfClosing(e);
      SendCallsPair(FactoryNew, Release);
    }
  }

  /** Whatever fails: the request is released exactly once and last, every factory that was made
      is deleted exactly once, and every response object that was made is handed to exactly one
      send, except the orphan of an aborted chunk. */
  lemma ReleasedExactlyOnce(posts: seq<Post>, total: nat, e: Ending)
    requires e == NoFactory ==> posts == []
    ensures Count(Log(posts, total, e), Release) == 1 && Log(posts, total, e)[|Log(posts, total, e)| - 1] == Release
    ensures Count(Log(posts, total, e), FactoryNew) == Count(Log(posts, total, e), FactoryDelete)
      == if e == NoFactory then 0 else 1
    ensures Count(Log(posts, total, e), ResponseNew)
      == SendCalls(Log(posts, total, e)) + if e.Aborted? && e.orphan then 1 else 0
  {
    SendCallsOfLog(posts, total, e);
    if e != NoFactory {
      LastIsRelease(posts, total, e);
      CountedOnce(posts, total, e, Release);
      CountedOnce(posts, total, e, FactoryNew);
      CountedOnce(posts, total, e, FactoryDelete);
      ResponseCounts(posts, total, e);
    }
  }

  lemma LastIsRelease(posts: seq<Post>, total: nat, e: Ending)
    requires e != NoFactory
    ensures Log(posts, total, e)[|Log(posts, total, e)| - 1] == Release
  {
    LastOfConcat([FactoryNew] + Sends(posts, total), Closing(e));
  }

  lemma LastOfConcat(a: seq<Event>, b: seq<Event>)
    requires b != []
    ensures (a + b)[|a + b| - 1] == b[|b| - 1]
  {
  }

  lemma CountedOnce(posts: seq<Post>, total: nat, e: Ending, x: Event)
    requires e != NoFactory && (x == Release || x == FactoryNew || x == FactoryDelete)
    ensures Count(Log(posts, total, e), x) == 1
  {
    SendsCounts(posts, total);
    ClosingCounts(e);
    LogCount(posts, total, e, x);
  }

  lemma ResponseCounts(posts: seq<Post>, total: nat, e: Ending)
    requires e != NoFactory
    ensures Count(Log(posts, total, e), ResponseNew)
      == |posts| + (if e.Aborted? && e.orphan then 1 else 0) + (if e.Aborted? then Reported(e.report) else 0)
  {
    SendsCounts(posts, total);
    ClosingCounts(e);
    LogCount(posts, total, e, ResponseNew);
  }

  lemma LogCount(posts: seq<Post>, total: nat, e: Ending, x: Event)
    requires e != NoFactory
    ensures Count(Log(posts, total, e), x)
      == (if x == FactoryNew then 1 else 0) + Count(Sends(posts, total), x) + Count(Closing(e), x)
  {
    CountThree([FactoryNew], Sends(posts, total), Closing(e), x);
  }

  lemma CountThree(a: seq<Event>, b: seq<Event>, c: seq<Event>, x: Event)
    ensures Count(a + b + c, x) == Count(a, x) + Count(b, x) + Count(c, x)
  {
  }

  lemma ClosingCounts(e: Ending)
    requires !e.NoFactory?
    ensures Count(Closing(e), Release) == Count(Closing(e), FactoryDelete) == 1 && Count(Closing(e), FactoryNew) == 0
    ensures Count(Closing(e), ResponseNew)
      == (if e.Aborted? && e.orphan then 1 else 0) + (if e.Aborted? then Reported(e.report) else 0)
  {
  }

  // ---------------------------------------------------------------- ordered finality

  /** The sends flagged final. */
  function FinalCalls(log: seq<Event>): nat {
    if log == [] then 0 else FinalCalls(log[..|log| - 1]) + IsFinalCall(log[|log| - 1])
  }

  function IsFinalCall(e: Event): nat {
    if e.Send? && e.complete then 1 else 0
  }

  lemma {:induction false} FinalCallsConcat(a: seq<Event>, b: seq<Event>)
    ensures FinalCalls(a + b) == FinalCalls(a) + FinalCalls(b)
  {
    if b == [] {
      assert a + b == a;
    } else {
      FinalCallsConcat(a, b[..|b| - 1]);
      assert (a + b)[..|a + b| - 1] == a + b[..|b| - 1];
    }
  }

  lemma FinalCallsPair(a: Event, b: Event)
    ensures FinalCalls([a]) == IsFinalCall(a) && FinalCalls([a, b]) == IsFinalCall(a) + IsFinalCall(b)
  {
    assert [a][..0] == [] && [a, b][..1] == [a];
  }

  lemma {:induction false} FinalCallsOfSends(posts: seq<Post>, total: nat)
    requires |posts| <= total
    ensures FinalCalls(Sends(posts, total)) == if posts != [] && |posts| == total then 1 else 0
  {
    if posts != [] {
      var i := |posts| - 1;
      var send := Send(posts[i].message, i + 1 == total, posts[i].arrives);
      FinalCallsOfSends(posts[..i], total);
      FinalCallsConcat(Sends(posts[..i], total), [ResponseNew, send]);
      FinalCallsPair(ResponseNew, send);
    }
  }

  lemma FinalCallsOfClosing(e: Ending)
    requires !e.NoFactory?
    ensures FinalCalls(Closing(e)) == if e.Aborted? then Reported(e.report) else 0
  {
    var orphan := if e.Aborted? && e.orphan then [ResponseNew] else [];
    var report := if e.Aborted? then Reporting(e.report) else [];
    FinalCallsConcat(orphan, report);
    FinalCallsConcat(orphan + report, [FactoryDelete, Release]);
    FinalCallsPair(ResponseNew, Send(Failure, true, e.Aborted? && e.report == Arrived));
    FinalCallsPair(FactoryDelete, Release);
  }

  /** Exactly one send is flagged final, the last chunk's or the error's, unless the request never
      started or its error response could not be made; then none is. */
  lemma OneFinalCall(posts: seq<Post>, pcms: seq<seq<int>>, e: Ending)
    requires Possible(posts, pcms, e) && pcms != []
    ensures FinalCalls(Log(posts, |pcms|, e))
      == if e == Complete || (e.Aborted? && e.report != NoResponse) then 1 else 0
  {
    if e == NoFactory {
      FinalCallsPair(Release, Release);
    } else {
      FinalCallsConcat([FactoryNew], Sends(posts, |pcms|));
      FinalCallsConcat([FactoryNew] + Sends(posts, |pcms|), Closing(e));
      FinalCallsOfSends(posts, |pcms|);
      FinalCallsOfClosing(e);
      FinalCallsPair(FactoryNew, Release);
    }
  }

  ghost predicate FinalIsLast(log: seq<Event>) {
    forall i, j :: 0 <= i < j < |log| && log[i].Send? && log[i].complete ==> !log[j].Send?
  }

  ghost predicate NoneFinal(log: seq<Event>) {
    forall i :: 0 <= i < |log| && log[i].Send? ==> !log[i].complete
  }

  lemma {:induction false} SendsFinal(posts: seq<Post>, total: nat)
    ensures |posts| < total || posts == [] ==> NoneFinal(Sends(posts, total))
    ensures |posts| <= total ==> FinalIsLast(Sends(posts, total))
  {
    if posts != [] {
      SendsFinal(posts[..|posts| - 1], total);
    }
  }

  /** Nothing is sent after a message flagged final, so at most one is; the chunks' own flag is
      set on the last chunk only. */
  lemma FinalityIsOrdered(posts: seq<Post>, pcms: seq<seq<int>>, e: Ending)
    requires Possible(posts, pcms, e)
    ensures FinalIsLast(Log(posts, |pcms|, e))
  {
    if e != NoFactory {
      var total := |pcms|;
      SendsFinal(posts, total);
      FactoryFirst(Sends(posts, total));
      if e == Complete {
        SilentEnd([FactoryNew] + Sends(posts, total), Closing(e));
      } else {
        FailureEnds([FactoryNew] + Sends(posts, total), e);
      }
    }
  }

  lemma FactoryFirst(sends: seq<Event>)
    ensures FinalIsLast(sends) ==> FinalIsLast([FactoryNew] + sends)
    ensures NoneFinal(sends) ==> NoneFinal([FactoryNew] + sends)
  {
    var all := [FactoryNew] + sends;
    assert forall i :: 0 < i < |all| ==> all[i] == sends[i - 1];
  }

  lemma SilentEnd(a: seq<Event>, b: seq<Event>)
    requires FinalIsLast(a) && forall i :: 0 <= i < |b| ==> !b[i].Send?
    ensures FinalIsLast(a + b)
  {
    assert forall i :: |a| <= i < |a + b| ==> (a + b)[i] == b[i - |a|];
  }

  lemma FailureEnds(a: seq<Event>, e: Ending)
    requires NoneFinal(a) && e.Aborted?
    ensures FinalIsLast(a + Closing(e))
  {
    var b := Closing(e);
    assert forall i :: |a| <= i < |a + b| ==> (a + b)[i] == b[i - |a|];
    ClosingFinal(e);
  }

  lemma ClosingFinal(e: Ending)
    requires e.Aborted?
    ensures FinalIsLast(Closing(e))
  {
  }

  // ---------------------------------------------------------------- which calls decide what

  /** A chunk that lost nothing on the way. */
  function Whole(pcms: seq<seq<int>>, i: nat): Post
    requires i < |pcms|
  {
    Post(Audio(pcms[i], Some(i), Some(i + 1 == |pcms|)), true)
  }

  function Wholes(pcms: seq<seq<int>>, from: nat, to: nat): (posts: seq<Post>)
    requires from <= to <= |pcms|
    ensures |posts| == to - from
  {
    seq(to - from, j requires 0 <= j < to - from => Whole(pcms, from + j))
  }

  ghost predicate Succeed(api: Api, from: nat, to: nat) {
    forall k: nat :: from <= k < to ==> api(k)
  }

  /** Nine successful calls send one chunk. */
  lemma {:induction false} StreamRuns(api: Api, n: nat, pcms: seq<seq<int>>, i: nat, m: nat, end: nat)
    requires i <= m <= |pcms| && end == n + 9 * (m - i) && Succeed(api, n, end)
    ensures var rest := Stream(api, end, pcms, m);
      Stream(api, n, pcms, i) == Run(Wholes(pcms, i, m) + rest.posts, rest.ending, rest.next)
    decreases m - i
  {
    if i == m {
      WholesNone(pcms, i, Stream(api, n, pcms, m).posts);
    } else {
      OneChunk(api, n, pcms, i);
      assert api(n + 8);
      StreamRuns(api, n + 9, pcms, i + 1, m, end);
      WholesStep(pcms, i, m, Stream(api, end, pcms, m).posts);
    }
  }

  /** Eight successful calls make a whole message, and the ninth decides whether it arrives. */
  lemma OneChunk(api: Api, n: nat, pcms: seq<seq<int>>, i: nat)
    requires i < |pcms| && Succeed(api, n, n + 8)
    ensures var rest := Stream(api, n + 9, pcms, i + 1);
      Stream(api, n, pcms, i) == Run([Whole(pcms, i).(arrives := api(n + 8))] + rest.posts, rest.ending, rest.next)
  {
    assert api(n) && api(n + 1) && api(n + 2) && api(n + 3);
    assert api(n + 4) && api(n + 5) && api(n + 6) && api(n + 7);
  }

  lemma WholesNone(pcms: seq<seq<int>>, i: nat, rest: seq<Post>)
    requires i <= |pcms|
    ensures Wholes(pcms, i, i) + rest == rest
  {
  }

  lemma WholesStep(pcms: seq<seq<int>>, i: nat, m: nat, rest: seq<Post>)
    requires i < m <= |pcms|
    ensures [Whole(pcms, i)] + (Wholes(pcms, i + 1, m) + rest) == Wholes(pcms, i, m) + rest
  {
    assert [Whole(pcms, i)] + Wholes(pcms, i + 1, m) == Wholes(pcms, i, m);
  }

  ghost predicate IsWhole(run: Run, pcms: seq<seq<int>>, i: nat)
    requires i <= |pcms|
  {
    run.ending == Complete && run.posts == Wholes(pcms, i, |pcms|)
  }

  lemma {:induction false} StreamWhole(api: Api, n: nat, pcms: seq<seq<int>>, i: nat, end: nat)
    requires i <= |pcms| && end == n + 9 * (|pcms| - i) && IsWhole(Stream(api, n, pcms, i), pcms, i)
    ensures Succeed(api, n, end)
    decreases |pcms| - i
  {
    if i < |pcms| {
      WholeChunk(api, n, pcms, i);
      StreamWhole(api, n + 9, pcms, i + 1, end);
    }
  }

  lemma WholeChunk(api: Api, n: nat, pcms: seq<seq<int>>, i: nat)
    requires i < |pcms| && IsWhole(Stream(api, n, pcms, i), pcms, i)
    ensures Succeed(api, n, n + 9) && IsWhole(Stream(api, n + 9, pcms, i + 1), pcms, i + 1)
  {
    WholesStep(pcms, i, |pcms|, []);
    SameHead(PostOf(api, n, pcms, i), Stream(api, SendCall(api, n) + 1, pcms, i + 1).posts,
             Whole(pcms, i), Wholes(pcms, i + 1, |pcms|), Wholes(pcms, i, |pcms|));
    WholeMessage(api, n, pcms, i);
  }

  lemma SameHead(p: Post, ps: seq<Post>, q: Post, qs: seq<Post>, all: seq<Post>)
    requires [p] + ps == all && all + [] == [q] + (qs + [])
    ensures p == q && ps == qs
  {
    assert all + [] == all && qs + [] == qs;
    assert all[0] == p && all[1..] == ps && ([q] + qs)[1..] == qs;
  }

  lemma WholeMessage(api: Api, n: nat, pcms: seq<seq<int>>, i: nat)
    requires i < |pcms| && Ready(api, n) && api(SendCall(api, n))
    requires ChunkMessage(api, n, pcms[i], i, i + 1 == |pcms|) == Whole(pcms, i).message
    ensures Succeed(api, n, n + 9) && SendCall(api, n) == n + 8
  {
    assert Attached(api, n + 4) && Attached(api, n + 6);
  }

  lemma ServeStarts(api: Api, n: nat, pcms: seq<seq<int>>)
    requires Succeed(api, n, n + 4)
    ensures Serve(api, n, true, pcms) == Stream(api, n + 4, pcms, 0)
  {
    assert api(n) && api(n + 1) && api(n + 2) && api(n + 3);
  }

  lemma WholesAll(posts: seq<Post>)
    ensures posts + [] == posts
  {
  }

  /** A request leaves all its chunks whole and on the wire if and only if it is acceptable and
      none of its calls fails: four before the stream and nine for every chunk. */
  lemma WholeIffAllSucceed(api: Api, n: nat, acceptable: bool, pcms: seq<seq<int>>)
    ensures Serve(api, n, acceptable, pcms).ending == Complete
         && Serve(api, n, acceptable, pcms).posts == Wholes(pcms, 0, |pcms|)
      <==> acceptable && Succeed(api, n, n + 4 + 9 * |pcms|)
  {
    if acceptable && Succeed(api, n, n + 4 + 9 * |pcms|) {
      AllSucceed(api, n, pcms, n + 4 + 9 * |pcms|);
    }
    if Serve(api, n, acceptable, pcms).ending == Complete
      && Serve(api, n, acceptable, pcms).posts == Wholes(pcms, 0, |pcms|) {
      AllSucceeded(api, n, acceptable, pcms, n + 4 + 9 * |pcms|);
    }
  }

  lemma AllSucceed(api: Api, n: nat, pcms: seq<seq<int>>, end: nat)
    requires end == n + 4 + 9 * |pcms| && Succeed(api, n, end)
    ensures Serve(api, n, true, pcms) == Run(Wholes(pcms, 0, |pcms|), Complete, end)
  {
    ServeStarts(api, n, pcms);
    StreamRuns(api, n + 4, pcms, 0, |pcms|, end);
    WholesAll(Wholes(pcms, 0, |pcms|));
  }

  lemma AllSucceeded(api: Api, n: nat, acceptable: bool, pcms: seq<seq<int>>, end: nat)
    requires end == n + 4 + 9 * |pcms| && Serve(api, n, acceptable, pcms).ending == Complete
    requires Serve(api, n, acceptable, pcms).posts == Wholes(pcms, 0, |pcms|)
    ensures acceptable && Succeed(api, n, end)
  {
    StartedWhole(api, n, acceptable, pcms);
    StreamWhole(api, n + 4, pcms, 0, end);
  }

  lemma StartedWhole(api: Api, n: nat, acceptable: bool, pcms: seq<seq<int>>)
    requires Serve(api, n, acceptable, pcms).ending == Complete
    ensures acceptable && Succeed(api, n, n + 4) && Serve(api, n, acceptable, pcms) == Stream(api, n + 4, pcms, 0)
  {
  }

  /** The first `k` chunks go out whole, then decoding fails and so does making the error response:
      the request is given back with nothing more said. */
  lemma SilentAbort(api: Api, n: nat, pcms: seq<seq<int>>, k: nat, at: nat)
    requires k < |pcms| && at == n + 4 + 9 * k && Succeed(api, n, at) && !api(at) && !api(at + 1)
    ensures Serve(api, n, true, pcms).posts == Wholes(pcms, 0, k)
    ensures Serve(api, n, true, pcms).ending == Aborted(false, NoResponse)
  {
    ServeStarts(api, n, pcms);
    StreamRuns(api, n + 4, pcms, 0, k, at);
    WholesAll(Wholes(pcms, 0, k));
  }

  /** All chunks whole, chunk `k` lost on the way. */
  function AllBut(pcms: seq<seq<int>>, k: nat): (posts: seq<Post>)
    requires k < |pcms|
    ensures |posts| == |pcms|
  {
    Wholes(pcms, 0, |pcms|)[k := Whole(pcms, k).(arrives := false)]
  }

  /** Of all the calls only the one that sends chunk `k` fails: the request completes all the
      same. */
  lemma LostChunk(api: Api, n: nat, pcms: seq<seq<int>>, k: nat, send: nat, end: nat)
    requires k < |pcms| && send == n + 12 + 9 * k && end == n + 4 + 9 * |pcms|
    requires Succeed(api, n, send) && !api(send) && Succeed(api, send + 1, end)
    ensures Serve(api, n, true, pcms) == Run(AllBut(pcms, k), Complete, end)
  {
    ServeStarts(api, n, pcms);
    StreamLost(api, n + 4, pcms, k, send - 8, end);
  }

  lemma StreamLost(api: Api, n: nat, pcms: seq<seq<int>>, k: nat, at: nat, end: nat)
    requires k < |pcms| && at == n + 9 * k && end == n + 9 * |pcms|
    requires Succeed(api, n, at + 8) && !api(at + 8) && Succeed(api, at + 9, end)
    ensures Stream(api, n, pcms, 0) == Run(AllBut(pcms, k), Complete, end)
  {
    StreamRuns(api, n, pcms, 0, k, at);
    LostThere(api, pcms, k, at, end);
    LostJoin(pcms, k, Stream(api, n, pcms, 0), Stream(api, at, pcms, k), end);
  }

  lemma LostJoin(pcms: seq<seq<int>>, k: nat, run: Run, rest: Run, end: nat)
    requires k < |pcms| && run == Run(Wholes(pcms, 0, k) + rest.posts, rest.ending, rest.next)
    requires rest == Run([Whole(pcms, k).(arrives := false)] + Wholes(pcms, k + 1, |pcms|), Complete, end)
    ensures run == Run(AllBut(pcms, k), Complete, end)
  {
    AllButParts(pcms, k);
  }

  lemma LostThere(api: Api, pcms: seq<seq<int>>, k: nat, at: nat, end: nat)
    requires k < |pcms| && end == at + 9 * (|pcms| - k)
    requires Succeed(api, at, at + 8) && !api(at + 8) && Succeed(api, at + 9, end)
    ensures Stream(api, at, pcms, k)
         == Run([Whole(pcms, k).(arrives := false)] + Wholes(pcms, k + 1, |pcms|), Complete, end)
  {
    OneChunk(api, at, pcms, k);
    StreamRuns(api, at + 9, pcms, k + 1, |pcms|, end);
    WholesAll(Wholes(pcms, k + 1, |pcms|));
  }

  lemma AllButParts(pcms: seq<seq<int>>, k: nat)
    requires k < |pcms|
    ensures Wholes(pcms, 0, k) + ([Whole(pcms, k).(arrives := false)] + Wholes(pcms, k + 1, |pcms|)) == AllBut(pcms, k)
  {
  }

  // ---------------------------------------------------------------- a call that ends the request

  /** After call `m` failed: the error response is made by the next call and received if the one
      after succeeds, and these are the last calls. */
  ghost predicate Reports(run: Run, api: Api, m: nat) {
    && run.ending.Aborted?
    && (run.ending.report == Arrived <==> api(m + 1) && api(m + 2))
    && (run.ending.report == NoResponse <==> !api(m + 1))
    && run.next == if api(m + 1) then m + 3 else m + 2
  }

  /** Call `m` of the four that make chunk `k` ready is the first to fail: the chunks before it are
      out, the error is reported, and a response made for the chunk is left behind. */
  lemma BreakAt(api: Api, n: nat, pcms: seq<seq<int>>, k: nat, j: nat, m: nat)
    requires k < |pcms| && j < 4 && m == n + 4 + 9 * k + j && Succeed(api, n, m) && !api(m)
    ensures var run := Serve(api, n, true, pcms);
      run.posts == Wholes(pcms, 0, k) && Reports(run, api, m) && run.ending.orphan == (j >= 2)
  {
    ServeStarts(api, n, pcms);
    StreamBreaks(api, n + 4, pcms, k, j, m - j, m);
  }

  lemma StreamBreaks(api: Api, n: nat, pcms: seq<seq<int>>, k: nat, j: nat, at: nat, m: nat)
    requires k < |pcms| && j < 4 && at == n + 9 * k && m == at + j && Succeed(api, n, m) && !api(m)
    ensures var run := Stream(api, n, pcms, 0);
      run.posts == Wholes(pcms, 0, k) && Reports(run, api, m) && run.ending.orphan == (j >= 2)
  {
    StreamRuns(api, n, pcms, 0, k, at);
    BreakThere(api, at, pcms, k, j, m);
    WholesAll(Wholes(pcms, 0, k));
  }

  lemma BreakThere(api: Api, at: nat, pcms: seq<seq<int>>, k: nat, j: nat, m: nat)
    requires k < |pcms| && j < 4 && m == at + j && Succeed(api, at, m) && !api(m)
    ensures var run := Stream(api, at, pcms, k);
      run.posts == [] && Reports(run, api, m) && run.ending.orphan == (j >= 2)
  {
    assert j > 0 ==> api(at);
    assert j > 1 ==> api(at + 1);
    assert j > 2 ==> api(at + 2);
  }

  /** The request is given up by call `m`: the input, its properties or its buffer cannot be had, or
      the properties are refused although that call succeeds. */
  ghost predicate GivenUpAt(api: Api, n: nat, acceptable: bool, m: nat) {
    && n < m < n + 4 && Succeed(api, n, m)
    && if m == n + 2 then !(api(m) && acceptable) else !api(m) && (m == n + 3 ==> acceptable)
  }

  lemma BreakEarly(api: Api, n: nat, acceptable: bool, pcms: seq<seq<int>>, m: nat)
    requires GivenUpAt(api, n, acceptable, m)
    ensures var run := Serve(api, n, acceptable, pcms); run.posts == [] && Reports(run, api, m) && !run.ending.orphan
  {
    assert api(n);
    assert m > n + 1 ==> api(n + 1);
    assert m > n + 2 ==> api(n + 2);
  }

  /** A refused tensor, no call failing: one error response, flagged final, and nothing else. */
  lemma RefusedTensorLog(api: Api, n: nat, pcms: seq<seq<int>>)
    requires Succeed(api, n, n + 5)
    ensures var run := Serve(api, n, false, pcms);
      Log(run.posts, |pcms|, run.ending)
      == [FactoryNew, ResponseNew, Send(Failure, true, true), FactoryDelete, Release]
  {
    assert api(n) && api(n + 1) && api(n + 2) && api(n + 3) && api(n + 4);
  }

  // ---------------------------------------------------------------- a scalar output that fails

  /** Chunk `k` without its index or without its mark, as call `j` of the chunk fails. */
  function Bare(pcms: seq<seq<int>>, k: nat, j: nat): Post
    requires k < |pcms|
  {
    Post(Audio(pcms[k], if j < 6 then None else Some(k), if j < 6 then Some(k + 1 == |pcms|) else None), true)
  }

  /** Of the calls that attach the index (4, 5) and the mark (6, 7) to chunk `k` one fails: the
      request completes, and that chunk lacks just that. */
  lemma BareChunk(api: Api, n: nat, pcms: seq<seq<int>>, k: nat, j: nat, at: nat, m: nat)
    requires k < |pcms| && 4 <= j < 8 && at == n + 4 + 9 * k && m == at + j
    requires Succeed(api, n, m) && !api(m) && Succeed(api, m + 1, n + 4 + 9 * |pcms|)
    ensures Serve(api, n, true, pcms).posts == Wholes(pcms, 0, |pcms|)[k := Bare(pcms, k, j)]
    ensures Serve(api, n, true, pcms).ending == Complete
  {
    var next, end := AfterBare(n + 4, |pcms|, k, j, at);
    ServeStarts(api, n, pcms);
    StreamBare(api, n + 4, pcms, k, j, at, m, next, end);
  }

  /** Without one scalar's second call the chunks after it start one call earlier. */
  lemma AfterBare(n: nat, total: nat, k: nat, j: nat, at: nat) returns (next: nat, end: nat)
    requires k < total && at == n + 9 * k
    ensures next == (if j % 2 == 0 then at + 8 else at + 9) && end == next + 9 * (total - k - 1)
    ensures at + 9 <= n + 9 * total && end <= n + 9 * total
  {
    next := if j % 2 == 0 then at + 8 else at + 9;
    end := next + 9 * (total - k - 1);
  }

  lemma StreamBare(api: Api, n: nat, pcms: seq<seq<int>>, k: nat, j: nat, at: nat, m: nat, next: nat, end: nat)
    requires k < |pcms| && 4 <= j < 8 && at == n + 9 * k && m == at + j
    requires next == (if j % 2 == 0 then at + 8 else at + 9) && end == next + 9 * (|pcms| - k - 1)
    requires Succeed(api, n, m) && !api(m) && Succeed(api, m + 1, end) && Succeed(api, m + 1, at + 9)
    ensures var run := Stream(api, n, pcms, 0);
      run.posts == Wholes(pcms, 0, |pcms|)[k := Bare(pcms, k, j)] && run.ending == Complete
  {
    StreamRuns(api, n, pcms, 0, k, at);
    BareThere(api, at, pcms, k, j, m, next);
    StreamRuns(api, next, pcms, k + 1, |pcms|, end);
    BareJoin(pcms, k, j, Stream(api, n, pcms, 0), Stream(api, next, pcms, k + 1));
  }

  lemma BareThere(api: Api, at: nat, pcms: seq<seq<int>>, k: nat, j: nat, m: nat, next: nat)
    requires k < |pcms| && 4 <= j < 8 && m == at + j && next == (if j % 2 == 0 then at + 8 else at + 9)
    requires Succeed(api, at, m) && !api(m) && Succeed(api, m + 1, at + 9)
    ensures var rest := Stream(api, next, pcms, k + 1);
      Stream(api, at, pcms, k) == Run([Bare(pcms, k, j)] + rest.posts, rest.ending, rest.next)
  {
    assert api(at) && api(at + 1) && api(at + 2) && api(at + 3);
    assert forall x :: at <= x < at + 9 && x != m ==> api(x);
    assert PostOf(api, at, pcms, k) == Bare(pcms, k, j) && SendCall(api, at) + 1 == next by {
      assert api(at + 4) == (j != 4) && api(at + 5) == (j != 5) && api(at + 6) == (j != 6) && api(at + 7) == (j != 7);
      assert api(at + 8);
    }
  }

  lemma BareJoin(pcms: seq<seq<int>>, k: nat, j: nat, run: Run, rest: Run)
    requires k < |pcms| && rest.posts == Wholes(pcms, k + 1, |pcms|) + []
    requires run == Run(Wholes(pcms, 0, k) + ([Bare(pcms, k, j)] + rest.posts), rest.ending, rest.next)
    ensures run.posts == Wholes(pcms, 0, |pcms|)[k := Bare(pcms, k, j)]
  {
    WholesAll(Wholes(pcms, k + 1, |pcms|));
  }
}
