/**
  Draining the upload queue (monitor-v2/remote_probe/delivery.py): classification
  of answers, one delivery pass over the spool, and whole histories of the spool
  with power losses anywhere. The server's answers are left open.
  */
module Delivery {
  import opened Prelude
  import opened SpoolChain
  import opened SpoolState
  import opened SpoolScan
  import opened Spool

  const UNKNOWN_RESPONSE_MAX_ATTEMPTS := 5

  /**
    What the poster returns: an exception, or a status (a number or not) with a body that is or is
    not the success schema.
    */
  datatype Answer = TransportError | NoNumber | Status(code: int, success: bool)

  datatype Token = Malformed2xx | Redirect | ClientError | Oversize | UnknownResponse
  datatype Disposition = Ack | Retry | Permanent(token: Token)

  /** `classify_response`. */
  function ClassifyResponse(code: int, success: bool): Disposition {
    if 200 <= code < 300 then
      if success then Ack else Permanent(Malformed2xx)
    else if 300 <= code < 400 then Permanent(Redirect)
    else if code == 408 || code == 429 then Retry
    else if code == 413 then Permanent(Oversize)
    else if 400 <= code < 500 then Permanent(ClientError)
    else if 500 <= code < 600 then Retry
    else Permanent(UnknownResponse)
  }

  datatype Verdict = Acknowledged | Quarantined(token: Token) | KeptUnknown | KeptRetryable | KeptFailed

  /** What one answer at one attempt does to the record. */
  function Judge(answer: Answer, attempt: nat): Verdict {
    match answer
    case TransportError => KeptFailed
    case NoNumber => Bounded(UnknownResponse, attempt)
    case Status(code, success) =>
      match ClassifyResponse(code, success)
      case Ack => Acknowledged
      case Retry => KeptRetryable
      case Permanent(token) => Bounded(token, attempt)
  }

  function Bounded(token: Token, attempt: nat): Verdict {
    if token == UnknownResponse && attempt < UNKNOWN_RESPONSE_MAX_ATTEMPTS then KeptUnknown else Quarantined(token)
  }

  // The fate of a record by the number its post was answered with.

  /** The receiver has it. */
  predicate Delivered(a: Answer) {
    a.Status? && 200 <= a.code <= 299 && a.success
  }

  /** It will never be taken: an answer that is no success, a redirect, or a client error that does not pass. */
  predicate Rejected(a: Answer) {
    && a.Status?
    && ((200 <= a.code <= 299 && !a.success) || (300 <= a.code <= 499 && a.code != 408 && a.code != 429))
  }

  /** It may be taken later: no answer, a timeout, too many requests, or a server error. */
  predicate Retryable(a: Answer) {
    a.TransportError? || (a.Status? && (a.code == 408 || a.code == 429 || 500 <= a.code <= 599))
  }

  /** No known class of answer. */
  predicate OfUnknownClass(a: Answer) {
    a.NoNumber? || (a.Status? && (a.code < 200 || 600 <= a.code))
  }

  /** A post after which the record stays in the queue. */
  predicate IsKept(s: Sent) {
    Retryable(s.answer) || (OfUnknownClass(s.answer) && s.attempt < 5)
  }

  /** Every answer is of exactly one class, and its class and the attempt decide what becomes of the record. */
  lemma FateByNumber(s: Sent)
    ensures var (a, v) := (s.answer, Judge(s.answer, s.attempt));
      && (v == Acknowledged <==> Delivered(a))
      && (v == Quarantined(Malformed2xx) <==> a.Status? && 200 <= a.code <= 299 && !a.success)
      && (v == Quarantined(Redirect) <==> a.Status? && 300 <= a.code <= 399)
      && (v == Quarantined(Oversize) <==> a.Status? && a.code == 413)
      && (v == Quarantined(ClientError) <==> a.Status? && 400 <= a.code <= 499 && a.code !in {408, 413, 429})
      && (v == Quarantined(UnknownResponse) <==> OfUnknownClass(a) && 5 <= s.attempt)
      && (v == KeptUnknown <==> OfUnknownClass(a) && s.attempt < 5)
      && (v == KeptFailed <==> a.TransportError?)
      && (v == KeptRetryable <==> a.Status? && Retryable(a))
    ensures Terminal(s) <==> !IsKept(s)
    ensures !IsKept(s) <==> Delivered(s.answer) || Rejected(s.answer) || (OfUnknownClass(s.answer) && 5 <= s.attempt)
  {
  }

  /** One post: the record, the attempt reserved for it, and what came back. */
  datatype Sent = Sent(id: nat, attempt: nat, answer: Answer)

  predicate Terminal(s: Sent) {
    var v := Judge(s.answer, s.attempt);
    v.Acknowledged? || v.Quarantined?
  }

  datatype Stop = Drained | Undurable | Blocked | Held(verdict: Verdict)

  /** The post history after some more posts. */
  function Posted(posts: Posts, sent: seq<Sent>): Posts {
    if sent == [] then posts
    else
      var before := Posted(posts, sent[..|sent| - 1]);
      var id := sent[|sent| - 1].id;
      before[id := PostsOf(before, id) + 1]
  }

  /**
    A pass posts a prefix of the deliverable records, in order; every post but the
    last one ended its record; and each attempt number covers every post ever made.
    */
  predicate OrderedPass(records: seq<Line>, sent: seq<Sent>, posts: Posts) {
    && |sent| <= |records|
    && (forall k :: 0 <= k < |sent| ==> records[k].Readable? && sent[k].id == records[k].id)
    && (forall k :: 0 <= k < |sent| - 1 ==> Terminal(sent[k]))
    && (forall k :: 0 <= k < |sent| ==> PostsOf(posts, sent[k].id) <= sent[k].attempt)
  }

  /** The cursor once the first `n` records of a pass are resolved. */
  function CursorAfter(records: seq<Line>, n: nat, cursor: nat): nat
    requires n <= |records| && (n > 0 ==> records[n - 1].Readable?)
  {
    if n == 0 then cursor else records[n - 1].id
  }

  // ---------------------------------------------------------------- the head of the queue

  /** The first deliverable record is the head, and resolving it leaves the others deliverable. */
  lemma {:induction false} HeadOfQueue(lines: seq<Line>, cursor: nat)
    requires Ascending(lines) && Deliverable(lines, cursor) != []
    ensures var d := Deliverable(lines, cursor)[0];
      && d.Readable? && Live(lines, cursor, d.id) && Least(lines, cursor, d.id)
      && Deliverable(lines, d.id) == Deliverable(lines, cursor)[1..]
  {
    var d := Deliverable(lines, cursor)[0];
    HeadIsLeast(lines);
    if lines[0].id <= cursor {
      HeadOfQueue(lines[1..], cursor);
      assert lines[0].id < d.id by { DeliverableOnDisk(lines[1..], cursor, d); }
      var i :| 0 <= i < |lines[1..]| && lines[1..][i].Readable? && lines[1..][i].id == d.id;
      assert lines[i + 1] == lines[1..][i];
    } else {
      assert d == lines[0];
      AlreadyAbove(lines[1..], cursor, d.id);
    }
  }

  /** A cursor below every line decides nothing. */
  lemma {:induction false} AlreadyAbove(lines: seq<Line>, cursor: nat, higher: nat)
    requires Ascending(lines) && cursor <= higher && forall l :: l in lines ==> l.id > higher
    ensures Deliverable(lines, higher) == Deliverable(lines, cursor)
  {
    if lines != [] {
      assert lines[0] in lines;
      HeadIsLeast(lines);
      AlreadyAbove(lines[1..], cursor, higher);
    }
  }

  // ---------------------------------------------------------------- one pass

  /** A pass with `n` records resolved so far: the cursor is at the last of them and the rest are still deliverable. */
  predicate PassSoFar(lines: seq<Line>, cursor: nat, posts: Posts, sent: seq<Sent>, n: nat, cursor': nat,
                      posts': Posts) {
    var records := Deliverable(lines, cursor);
    && OrderedPass(records, sent, posts') && posts' == Posted(posts, sent)
    && n <= |sent| && (forall k :: 0 <= k < n ==> Terminal(sent[k]))
    && cursor' == CursorAfter(records, n, cursor)
    && Deliverable(lines, cursor') == records[n..]
  }

  /** A record whose post did not end it is the last posted, and the cursor is before it. */
  predicate NotPast(sent: seq<Sent>, cursor: nat) {
    forall k :: 0 <= k < |sent| && !Terminal(sent[k]) ==> k == |sent| - 1 && cursor < sent[k].id
  }

  /** The cursor is past every record whose post ended it. */
  predicate AllPast(sent: seq<Sent>, cursor: nat) {
    forall k :: 0 <= k < |sent| && Terminal(sent[k]) ==> sent[k].id <= cursor
  }

  lemma PassFates(lines: seq<Line>, cursor: nat, posts: Posts, sent: seq<Sent>, n: nat, cursor': nat, posts': Posts)
    requires Ascending(lines) && PassSoFar(lines, cursor, posts, sent, n, cursor', posts')
    requires n == |sent| || (n == |sent| - 1 && !Terminal(sent[n]))
    ensures NotPast(sent, cursor') && AllPast(sent, cursor')
  {
    hide Terminal;
    var records := Deliverable(lines, cursor);
    DeliverableFacts(lines, cursor);
    forall k | 0 <= k < |sent| ensures if k < n then sent[k].id <= cursor' else cursor' < sent[k].id {
      if 0 < n && k != n - 1 {
        assert if k < n then records[k].id < records[n - 1].id else records[n - 1].id < records[k].id;
      }
    }
  }

  lemma EndFates(lines: seq<Line>, cursor: nat, posts: Posts, sent: seq<Sent>, stop: Stop, limit: Option<nat>,
                 cursor': nat, posts': Posts)
    requires Ascending(lines) && PassEnds(lines, cursor, posts, sent, stop, limit, cursor', posts')
    ensures NotPast(sent, cursor') && AllPast(sent, cursor')
    ensures stop.Held? <==> sent != [] && !Terminal(sent[|sent| - 1])
  {
    hide Ascending, Deliverable, OrderedPass, Terminal;
    PassFates(lines, cursor, posts, sent, Ended(sent, stop), cursor', posts');
  }

  lemma ByNumber(sent: seq<Sent>)
    ensures forall k :: 0 <= k < |sent| ==> (Terminal(sent[k]) <==> !IsKept(sent[k]))
  {
    forall k | 0 <= k < |sent| ensures Terminal(sent[k]) <==> !IsKept(sent[k]) { FateByNumber(sent[k]); }
  }

  lemma PassStarts(lines: seq<Line>, cursor: nat, posts: Posts)
    ensures PassSoFar(lines, cursor, posts, [], 0, cursor, posts) && PassesNone(lines, cursor, cursor)
  {
  }

  lemma AllEnded(lines: seq<Line>, cursor: nat, posts: Posts, sent: seq<Sent>, cursor': nat, posts': Posts)
    requires PassSoFar(lines, cursor, posts, sent, |sent|, cursor', posts')
    ensures forall k :: 0 <= k < |sent| ==> Terminal(sent[k])
  {
  }

  lemma PassIsOrdered(lines: seq<Line>, cursor: nat, posts: Posts, sent: seq<Sent>, n: nat, cursor': nat, posts': Posts)
    requires PassSoFar(lines, cursor, posts, sent, n, cursor', posts')
    ensures OrderedPass(Deliverable(lines, cursor), sent, posts') && posts' == Posted(posts, sent)
  {
  }

  lemma NothingPosted(lines: seq<Line>, cursor: nat, posts: Posts)
    ensures OrderedPass(Deliverable(lines, cursor), [], posts) && Posted(posts, []) == posts
  {
  }

  lemma PassSends(lines: seq<Line>, cursor: nat, posts: Posts, sent: seq<Sent>, cursor': nat, posts': Posts, s: Sent)
    requires Ascending(lines) && PassSoFar(lines, cursor, posts, sent, |sent|, cursor', posts')
    requires |sent| < |Deliverable(lines, cursor)| && Deliverable(lines, cursor)[|sent|].Readable?
    requires s.id == Deliverable(lines, cursor)[|sent|].id && PostsOf(posts', s.id) < s.attempt
    ensures PassSoFar(lines, cursor, posts, sent + [s], |sent|, cursor', posts'[s.id := PostsOf(posts', s.id) + 1])
  {
    assert (sent + [s])[..|sent|] == sent;
    OrderedSend(lines, cursor, sent, posts', s);
  }

  lemma OrderedSend(lines: seq<Line>, cursor: nat, sent: seq<Sent>, posts: Posts, s: Sent)
    requires Ascending(lines) && OrderedPass(Deliverable(lines, cursor), sent, posts)
    requires forall k :: 0 <= k < |sent| ==> Terminal(sent[k])
    requires |sent| < |Deliverable(lines, cursor)| && Deliverable(lines, cursor)[|sent|].Readable?
    requires s.id == Deliverable(lines, cursor)[|sent|].id && PostsOf(posts, s.id) < s.attempt
    ensures OrderedPass(Deliverable(lines, cursor), sent + [s], posts[s.id := PostsOf(posts, s.id) + 1])
  {
    var records, more := Deliverable(lines, cursor), posts[s.id := PostsOf(posts, s.id) + 1];
    DeliverableFacts(lines, cursor);
    forall k | 0 <= k < |sent| ensures PostsOf(more, sent[k].id) <= sent[k].attempt {
      assert records[k].id < records[|sent|].id;
    }
  }

  lemma PassResolves(lines: seq<Line>, cursor: nat, posts: Posts, sent: seq<Sent>, n: nat, cursor': nat, posts': Posts)
    requires Ascending(lines) && PassSoFar(lines, cursor, posts, sent, n, cursor', posts')
    requires |sent| == n + 1 && Terminal(sent[n])
    ensures PassSoFar(lines, cursor, posts, sent, n + 1, sent[n].id, posts')
  {
    assert Deliverable(lines, cursor')[0] == Deliverable(lines, cursor)[n];
    HeadOfQueue(lines, cursor');
    assert Deliverable(lines, cursor)[n..][1..] == Deliverable(lines, cursor)[n + 1..];
  }

  lemma PassHead(lines: seq<Line>, cursor: nat, posts: Posts, sent: seq<Sent>, cursor': nat, posts': Posts)
    requires Ascending(lines) && PassSoFar(lines, cursor, posts, sent, |sent|, cursor', posts')
    requires |sent| < |Deliverable(lines, cursor)|
    ensures var d := Deliverable(lines, cursor)[|sent|];
      d.Readable? && d in lines && cursor' < d.id && Live(lines, cursor', d.id) && Least(lines, cursor', d.id)
  {
    var d := Deliverable(lines, cursor)[|sent|];
    assert d == Deliverable(lines, cursor')[0];
    HeadOfQueue(lines, cursor');
    DeliverableOnDisk(lines, cursor', d);
  }

  /** The cursor has reached no corrupt line that was unresolved. */
  predicate PassesNone(lines: seq<Line>, cursor: nat, cursor': nat) {
    forall l :: l in lines && l.Corrupt? && cursor < l.id ==> cursor' < l.id
  }

  lemma NoneBeforeHead(lines: seq<Line>, cursor: nat, head: Line)
    requires Ascending(lines) && head in Deliverable(lines, cursor)
    ensures head.Readable? && PassesNone(lines, cursor, head.id) && Names(lines, head.id)
  {
    DeliverableOnDisk(lines, cursor, head);
  }

  lemma PostCounted(posts: Posts, id: nat)
    ensures PostsOf(posts[id := PostsOf(posts, id) + 1], id) == PostsOf(posts, id) + 1
  {
  }

  /** Reserves one attempt for the head durably and only then posts it. */
  method Send(spool: Spool, id: nat, save: SaveEnd) returns (sent: Option<Sent>, alive: bool)
    requires spool.Ready() && spool.IsHead(id)
    modifies spool`st, spool`saved, spool`savedLag, spool`posts, spool`power
    ensures !alive ==> spool.power == 0
    ensures spool.st.next == old(spool.st.next)
    ensures spool.saved == old(spool.saved) || spool.Durable().next == spool.st.next
    ensures spool.Ready() && spool.st.resolved == old(spool.st.resolved)
    ensures sent.None? ==> spool.posts == old(spool.posts)
    ensures sent.Some? ==> 2 <= old(spool.power)
    ensures sent.None? && alive ==> spool.st == old(spool.st) && save != Saved
    ensures sent.Some? ==> save == Saved
    ensures sent.Some? ==> CountOf(spool.st.attempts, id) == CountOf(spool.Durable().attempts, id) == sent.value.attempt
    ensures sent.Some? ==>
      && sent.value.id == id && sent.value.attempt == CountOf(old(spool.st).attempts, id) + 1
      && spool.posts == old(spool.posts)[id := PostsOf(old(spool.posts), id) + 1]
      && PostsOf(spool.posts, id) <= sent.value.attempt
    ensures spool.Durable().resolved == old(spool.Durable().resolved) || spool.Durable().resolved == spool.st.resolved
    ensures sent.Some? ==> spool.Durable().resolved == spool.st.resolved
  {
    hide *;
    PostCounted(spool.posts, id);
    var count;
    count, alive := Reserve(spool, id, save);
    if count.None? { return None, alive; }
    alive := spool.Survives();
    if !alive { return None, false; }
    var answer := Post(spool, id);
    alive := spool.Survives();
    return Some(Sent(id, count.value, answer)), alive;
  }

  /** One attempt is charged durably, which covers one more post, or nothing is reported. */
  method Reserve(spool: Spool, id: nat, save: SaveEnd) returns (count: Option<nat>, alive: bool)
    requires spool.Ready() && spool.IsHead(id)
    modifies spool`st, spool`saved, spool`savedLag, spool`power
    ensures !alive ==> spool.power == 0
    ensures spool.st.next == old(spool.st.next)
    ensures spool.saved == old(spool.saved) || spool.Durable().next == spool.st.next
    ensures spool.Ready() && spool.st.resolved == old(spool.st.resolved)
    ensures count.Some? ==>
      count.value == CountOf(old(spool.st).attempts, id) + 1 && PostsOf(spool.posts, id) < count.value
    ensures count.Some? ==> spool.Reserved(id) && alive && spool.power < old(spool.power)
    ensures count.None? ==> spool.st == old(spool.st)
    ensures alive ==> (count.Some? <==> save == Saved)
    ensures count.Some? ==> CountOf(spool.st.attempts, id) == CountOf(spool.Durable().attempts, id) == count.value
    ensures spool.Durable().resolved == old(spool.Durable().resolved) || spool.Durable().resolved == spool.st.resolved
    ensures count.Some? ==> spool.Durable().resolved == spool.st.resolved
  {
    CoveredHead(Flat(spool.chain), spool.posts, spool.Memory(), id);
    ChargedHead(Flat(spool.chain), spool.posts, spool.Memory(), id);
    HeadLastCounts(Trimmed(Charged(spool.st.attempts, id)), spool.st.attempts, id, CountOf(spool.st.attempts, id) + 1);
    count, alive := spool.NoteAttempt(id, save);
  }

  /** The poster: what it answers is not up to us; that it was called is history. */
  method Post(spool: Spool, id: nat) returns (answer: Answer)
    requires spool.Reserved(id)
    modifies spool`posts
    ensures spool.Ready() && spool.posts == old(spool.posts)[id := PostsOf(old(spool.posts), id) + 1]
  {
    spool.posts := spool.posts[id := PostsOf(spool.posts, id) + 1];
    answer := *;
  }

  lemma CoveredHead(lines: seq<Line>, posts: Posts, s: State, id: nat)
    requires Tracks(lines, posts, s) && Live(lines, s.resolved, id)
    ensures PostsOf(posts, id) <= CountOf(s.attempts, id)
  {
    var i :| 0 <= i < |lines| && lines[i].Readable? && lines[i].id == id;
  }

  /** Did the pass stop where it had to? */
  predicate StopsRightly(lines: seq<Line>, records: seq<Line>, sent: seq<Sent>, stop: Stop, limit: Option<nat>,
                         cursor': nat) {
    match stop
    case Drained => (|sent| == |records| || limit == Some(|sent|)) && !HeadBlocked(lines, cursor')
    case Blocked => HeadBlocked(lines, cursor')
    case Undurable => |sent| < |records|
    case Held(verdict) =>
      sent != [] && !Terminal(sent[|sent| - 1]) && verdict == Judge(sent[|sent| - 1].answer, sent[|sent| - 1].attempt)
  }

  /** A pass that has come to its end: what it resolved, and why it stopped. */
  predicate PassEnds(lines: seq<Line>, cursor: nat, posts: Posts, sent: seq<Sent>, stop: Stop, limit: Option<nat>,
                     cursor': nat, posts': Posts) {
    && 0 <= Ended(sent, stop) && PassSoFar(lines, cursor, posts, sent, Ended(sent, stop), cursor', posts')
    && StopsRightly(lines, Deliverable(lines, cursor), sent, stop, limit, cursor')
  }

  /**
    `deliver_pending`. The records are posted strictly in order, each only once all
    before it are resolved; the cursor ends at the last one resolved, which leaves
    the record the pass stopped at as the head; the post history grows by exactly
    the posts reported. Power may go at any point, and wherever it goes, no corrupt line
    that was unresolved has been reached by the working or by the saved cursor. The cursor
    only moves to the id of a line on disk. A chain out of order, or with a part of a line at
    its end, is refused by the first scan.
    */
  method DeliverPending(spool: Spool, limit: Option<nat>, saves: nat -> SaveEnd)
    returns (sent: seq<Sent>, stop: Stop, alive: bool)
    requires spool.Ready()
    modifies spool`st, spool`saved, spool`savedLag, spool`posts, spool`power
    ensures !alive ==> spool.power == 0
    ensures spool.st.next == old(spool.st.next)
    ensures spool.saved == old(spool.saved) || spool.Durable().next == spool.st.next
    ensures spool.Ready()
    ensures !spool.InOrder() || spool.Torn() ==>
      sent == [] && stop == Blocked && alive && spool.st == old(spool.st) && spool.saved == old(spool.saved)
    ensures forall l :: l in Flat(spool.chain) && l.Corrupt? && old(spool.st.resolved) < l.id ==> spool.Behind(l.id)
    ensures spool.st.resolved == old(spool.st.resolved) || Names(Flat(spool.chain), spool.st.resolved)
    ensures OrderedPass(old(Deliverable(Flat(spool.chain), spool.st.resolved)), sent, spool.posts)
    ensures spool.posts == Posted(old(spool.posts), sent)
    ensures limit.Some? ==> |sent| <= limit.value
    ensures forall k :: 0 <= k < |sent| && IsKept(sent[k]) ==> k == |sent| - 1 && spool.Behind(sent[k].id)
    ensures alive ==> forall k :: 0 <= k < |sent| && !IsKept(sent[k]) ==> sent[k].id <= spool.st.resolved
    ensures alive ==> (stop.Held? <==> sent != [] && IsKept(sent[|sent| - 1]))
    ensures sent != [] ==> sent[0].attempt == CountOf(old(spool.st).attempts, sent[0].id) + 1
    ensures forall k :: 0 <= k < |sent| ==> saves(k) == Saved
    ensures alive && stop == Undurable ==> saves(|sent|) != Saved
    ensures alive && stop.Held? ==> Remembered(spool.st, spool.Durable(), sent)
    ensures alive && spool.InOrder() && !spool.Torn() ==>
      PassEnds(Flat(spool.chain), old(spool.st.resolved), old(spool.posts), sent, stop, limit, spool.st.resolved,
               spool.posts)
    ensures alive && !spool.flaky && sent != [] ==> spool.Durable().resolved == spool.st.resolved
  {
    hide Flat, Deliverable, Tracks, Shaped, AllBelow, Ascending, PassSoFar, Stored, IsKept,
      Judge, Posted, HeadBlocked, CountOf, Names;
    ghost var lines, cursor, posts := Flat(spool.chain), spool.st.resolved, spool.posts;
    PassStarts(lines, cursor, posts);
    NothingPosted(lines, cursor, posts);
    var pending := spool.Pending();
    if pending.None? { return [], Blocked, true; }
    sent, stop, alive := DeliverInOrder(spool, pending.value, limit, saves, lines, cursor, posts);
    ByNumber(sent);
    if !alive || !stop.Drained? { return; }
    var again := spool.Pending();
    if again.None? { stop := Blocked; }
  }

  /** The delivery loop. */
  method DeliverInOrder(spool: Spool, records: seq<Line>, limit: Option<nat>, saves: nat -> SaveEnd,
                        ghost lines: seq<Line>, ghost cursor: nat, ghost posts: Posts)
    returns (sent: seq<Sent>, stop: Stop, alive: bool)
    requires spool.Ready() && lines == Flat(spool.chain) && cursor == spool.st.resolved && posts == spool.posts
    requires spool.InOrder() && records == Deliverable(lines, cursor)
    modifies spool`st, spool`saved, spool`savedLag, spool`posts, spool`power
    ensures !alive ==> spool.power == 0
    ensures spool.st.next == old(spool.st.next)
    ensures spool.saved == old(spool.saved) || spool.Durable().next == spool.st.next
    ensures spool.Ready() && PassesNone(lines, cursor, spool.st.resolved)
    ensures spool.st.resolved == cursor || Names(lines, spool.st.resolved)
    ensures OrderedPass(records, sent, spool.posts) && spool.posts == Posted(posts, sent)
    ensures limit.Some? ==> |sent| <= limit.value
    ensures alive && stop.Drained? ==> PassSoFar(lines, cursor, posts, sent, |sent|, spool.st.resolved, spool.posts)
    ensures alive && stop.Drained? ==> |sent| == |records| || limit == Some(|sent|)
    ensures NotPast(sent, spool.st.resolved) && (alive ==> AllPast(sent, spool.st.resolved))
    ensures alive ==> (stop.Held? <==> sent != [] && !Terminal(sent[|sent| - 1]))
    ensures sent != [] ==> sent[0].attempt == CountOf(old(spool.st).attempts, sent[0].id) + 1
    ensures forall k :: 0 <= k < |sent| ==> saves(k) == Saved
    ensures alive && stop == Undurable ==> saves(|sent|) != Saved
    ensures alive && stop.Held? ==> Remembered(spool.st, spool.Durable(), sent)
    ensures alive && !stop.Drained? ==>
      PassEnds(lines, cursor, posts, sent, stop, limit, spool.st.resolved, spool.posts)
    ensures alive && !spool.flaky && sent != [] ==> spool.Durable().resolved == spool.st.resolved
  {
    hide Flat, Deliverable, PassSoFar, OrderedPass, Names, PassesNone, Posted, Ascending, Tracks, Shaped, AllBelow;
    sent, stop, alive := [], Drained, true;
    PassStarts(lines, cursor, posts);
    while |sent| < |records| && (limit.None? || |sent| < limit.value)
      invariant spool.Ready() && PassesNone(lines, cursor, spool.st.resolved)
      invariant spool.st.next == old(spool.st.next)
      invariant spool.saved == old(spool.saved) || spool.Durable().next == spool.st.next
      invariant spool.st.resolved == cursor || Names(lines, spool.st.resolved)
      invariant PassSoFar(lines, cursor, posts, sent, |sent|, spool.st.resolved, spool.posts)
      invariant limit.Some? ==> |sent| <= limit.value
      invariant sent == [] ==> spool.st == old(spool.st)
      invariant forall k :: 0 <= k < |sent| ==> saves(k) == Saved
      invariant !spool.flaky && sent != [] ==> spool.Durable().resolved == spool.st.resolved
      invariant sent != [] ==> sent[0].attempt == CountOf(old(spool.st).attempts, sent[0].id) + 1
      decreases |records| - |sent|
    {
      var next;
      NoneBeforeHead(lines, cursor, records[|sent|]);
      next, stop, alive := DeliverHead(spool, records[|sent|], saves(|sent|), sent, lines, cursor, posts);
      sent := next;
      if !alive { return; }
      if !stop.Drained? {
        EndFates(lines, cursor, posts, sent, stop, None, spool.st.resolved, spool.posts);
        return;
      }
    }
    PassIsOrdered(lines, cursor, posts, sent, |sent|, spool.st.resolved, spool.posts);
    PassFates(lines, cursor, posts, sent, |sent|, spool.st.resolved, spool.posts);
    AllEnded(lines, cursor, posts, sent, spool.st.resolved, spool.posts);
    stop, alive := Drained, true;
  }

  /** What one turn of the loop leaves, also when the power goes during it. */
  predicate TurnEnds(lines: seq<Line>, cursor: nat, posts: Posts, sent: seq<Sent>, sent': seq<Sent>, stop: Stop,
                     alive: bool, cursor': nat, posts': Posts) {
    && |sent'| <= |sent| + 1
    && OrderedPass(Deliverable(lines, cursor), sent', posts') && posts' == Posted(posts, sent')
    && (alive && stop.Drained? ==>
          |sent'| == |sent| + 1 && PassSoFar(lines, cursor, posts, sent', |sent'|, cursor', posts'))
    && (alive && !stop.Drained? ==> PassEnds(lines, cursor, posts, sent', stop, None, cursor', posts'))
  }

  /** How many of the posted records the pass resolved. */
  function Ended(sent: seq<Sent>, stop: Stop): int {
    if stop.Held? then |sent| - 1 else |sent|
  }

  lemma TurnUndurable(lines: seq<Line>, cursor: nat, posts: Posts, sent: seq<Sent>, alive: bool, cursor': nat,
                      posts': Posts)
    requires PassSoFar(lines, cursor, posts, sent, |sent|, cursor', posts') && |sent| < |Deliverable(lines, cursor)|
    ensures TurnEnds(lines, cursor, posts, sent, sent, Undurable, alive, cursor', posts')
  {
  }

  /** What the loop makes of a post. */
  function StopAfter(s: Sent): Stop {
    if Terminal(s) then Drained else Held(Judge(s.answer, s.attempt))
  }

  /** A post after which the power goes, or the record is kept. */
  lemma TurnSends(lines: seq<Line>, cursor: nat, posts: Posts, sent: seq<Sent>, s: Sent, alive: bool, cursor': nat,
                  posts': Posts)
    requires PassSoFar(lines, cursor, posts, sent + [s], |sent|, cursor', posts') && (alive ==> !Terminal(s))
    ensures TurnEnds(lines, cursor, posts, sent, sent + [s], StopAfter(s), alive, cursor', posts')
  {
  }

  lemma TurnResolves(lines: seq<Line>, cursor: nat, posts: Posts, sent: seq<Sent>, s: Sent, alive: bool,
                     cursor': nat, posts': Posts)
    requires PassSoFar(lines, cursor, posts, sent + [s], |sent| + 1, cursor', posts')
    ensures TurnEnds(lines, cursor, posts, sent, sent + [s], Drained, alive, cursor', posts')
  {
  }

  /** One more post, of this record, at this attempt. */
  predicate Extended(sent: seq<Sent>, sent': seq<Sent>, id: nat, attempt: nat) {
    && |sent'| == |sent| + 1 && sent'[..|sent|] == sent
    && sent'[|sent|].id == id && sent'[|sent|].attempt == attempt
  }

  /** The next pass goes on counting where this one has left off, whether the process lives on or not. */
  predicate Remembered(st: State, durable: State, sent: seq<Sent>) {
    sent != [] &&
    var last := sent[|sent| - 1];
    CountOf(st.attempts, last.id) == CountOf(durable.attempts, last.id) == last.attempt
  }

  /** One turn of the delivery loop. */
  method DeliverHead(spool: Spool, head: Line, save: SaveEnd, sent: seq<Sent>, ghost lines: seq<Line>,
                     ghost cursor: nat, ghost posts: Posts)
    returns (sent': seq<Sent>, stop: Stop, alive: bool)
    requires spool.Ready() && spool.InOrder() && lines == Flat(spool.chain)
    requires PassSoFar(lines, cursor, posts, sent, |sent|, spool.st.resolved, spool.posts)
    requires |sent| < |Deliverable(lines, cursor)| && head == Deliverable(lines, cursor)[|sent|]
    modifies spool`st, spool`saved, spool`savedLag, spool`posts, spool`power
    ensures !alive ==> spool.power == 0
    ensures spool.st.next == old(spool.st.next)
    ensures spool.saved == old(spool.saved) || spool.Durable().next == spool.st.next
    ensures spool.Ready() && head.Readable?
    ensures spool.st.resolved == old(spool.st.resolved) || spool.st.resolved == head.id
    ensures TurnEnds(lines, cursor, posts, sent, sent', stop, alive, spool.st.resolved, spool.posts)
    ensures NotPast(sent', spool.st.resolved)
    ensures sent' == sent || Extended(sent, sent', head.id, CountOf(old(spool.st).attempts, head.id) + 1)
    ensures stop.Held? ==> sent' != sent
    ensures sent' != sent ==> save == Saved
    ensures alive && stop == Undurable ==> sent' == sent && save != Saved
    ensures alive && stop.Held? ==> Remembered(spool.st, spool.Durable(), sent')
    ensures alive && !spool.flaky && (sent' != sent || old(spool.Durable().resolved == spool.st.resolved)) ==>
      spool.Durable().resolved == spool.st.resolved
  {
    hide Flat, Deliverable, PassSoFar, TurnEnds, CountOf, PostsOf, Live, Least, Tracks, Shaped, Terminal;
    AllEnded(lines, cursor, posts, sent, spool.st.resolved, spool.posts);
    PassHead(lines, cursor, posts, sent, spool.st.resolved, spool.posts);
    ghost var resolved, before := spool.st.resolved, spool.posts;
    var s;
    s, alive := Send(spool, head.id, save);
    if s.None? {
      TurnUndurable(lines, cursor, posts, sent, alive, resolved, before);
      return sent, Undurable, alive;
    }
    PostCounted(before, head.id);
    PassSends(lines, cursor, posts, sent, resolved, before, s.value);
    sent', stop := sent + [s.value], StopAfter(s.value);
    if alive && Terminal(s.value) {
      alive := ResolveHead(spool, head.id, sent', lines, cursor, posts);
      TurnResolves(lines, cursor, posts, sent, s.value, alive, spool.st.resolved, spool.posts);
    } else {
      TurnSends(lines, cursor, posts, sent, s.value, alive, resolved, spool.posts);
    }
  }

  /** The record just posted is done with. */
  method ResolveHead(spool: Spool, id: nat, sent: seq<Sent>, ghost lines: seq<Line>, ghost cursor: nat,
                     ghost posts: Posts)
    returns (alive: bool)
    requires spool.Ready() && spool.InOrder() && lines == Flat(spool.chain)
    requires spool.st.resolved < id < spool.Memory().next
    requires sent != [] && Terminal(sent[|sent| - 1]) && sent[|sent| - 1].id == id
    requires PassSoFar(lines, cursor, posts, sent, |sent| - 1, spool.st.resolved, spool.posts)
    modifies spool`st, spool`saved, spool`savedLag, spool`power
    ensures !alive ==> spool.power == 0
    ensures spool.st.next == old(spool.st.next)
    ensures spool.saved == old(spool.saved) || spool.Durable().next == spool.st.next
    ensures spool.Ready() && PassSoFar(lines, cursor, posts, sent, |sent|, spool.st.resolved, spool.posts)
    ensures spool.st.resolved == id
    ensures alive && !spool.flaky ==> spool.Durable().resolved == id
  {
    PassResolves(lines, cursor, posts, sent, |sent| - 1, spool.st.resolved, spool.posts);
    var moved;
    moved, alive := spool.Resolve(id);
  }

  // ---------------------------------------------------------------- the budget

  /**
    No poison head: a pass whose last answer is of an unknown class resolves that record
    exactly if it was the fifth attempt or a later one, so certainly once the record has
    been posted five times in its life, whatever crashes and restarts lie between.
    */
  lemma PoisonHeadGoes(lines: seq<Line>, cursor: nat, posts: Posts, sent: seq<Sent>, stop: Stop, limit: Option<nat>,
                       cursor': nat, posts': Posts)
    requires Ascending(lines) && PassEnds(lines, cursor, posts, sent, stop, limit, cursor', posts')
    requires sent != [] && OfUnknownClass(sent[|sent| - 1].answer)
    ensures var s := sent[|sent| - 1];
      && (cursor' == s.id <==> 5 <= s.attempt)
      && (5 <= PostsOf(posts', s.id) ==> cursor' == s.id)
  {
    var records, n := Deliverable(lines, cursor), |sent|;
    DeliverableFacts(lines, cursor);
    assert Terminal(sent[n - 1]) <==> 5 <= sent[n - 1].attempt;
    assert stop.Held? <==> !Terminal(sent[n - 1]);
    if n > 1 { assert records[n - 2].id < records[n - 1].id; }
  }

  // ---------------------------------------------------------------- whole histories

  /**
    What may happen to the spool: its operations, decay, and the power going between them (inside
    them it may go anyway). An append may also fail in a process that goes on.
    */
  datatype Event =
    | Restart
    | Add(epoch: int, size: Bytes, end: WriteEnd)
    | Drain(limit: Option<nat>, saves: nat -> SaveEnd)
    | Prune(now: int)
    | Decay(place: nat, line: nat)
    | PowerOff

  /** The cursor and the next id, of a running process or of the saved copy. */
  datatype Counters = Counters(cursor: nat, next: nat)

  /** What there is after an event: the lines on disk and what they end in, the saved copy, the process. */
  datatype Moment = Moment(lines: seq<Line>, tail: Tail, saved: Counters, working: Option<Counters>)

  function CountersOf(s: State): Counters { Counters(s.resolved, s.next) }

  function Now(spool: Spool, up: bool): Moment
    requires |spool.chain| == spool.max + 1
    reads spool`chain, spool`saved, spool`st
  {
    Moment(Flat(spool.chain), TailOf(spool.chain, spool.max), CountersOf(spool.Durable()),
           if up then Some(CountersOf(spool.st)) else None)
  }

  /** Every cursor there is, is behind this id. */
  predicate Unreached(m: Moment, id: nat) {
    m.saved.cursor < id && (m.working.Some? ==> m.working.value.cursor < id)
  }

  /** A corrupt line that no cursor had reached, and that is still there, is still not reached. */
  ghost predicate Respects(m: Moment, m': Moment) {
    forall l :: l in m.lines && l in m'.lines && l.Corrupt? && Unreached(m, l.id) ==> Unreached(m', l.id)
  }

  /** The lines a reopen finds: a line without its newline is cut. */
  function Found(m: Moment): seq<Line> {
    if m.tail.Unended? && m.lines != [] then m.lines[..|m.lines| - 1] else m.lines
  }

  /** A line with the next id of the process, or a higher one, is on disk. */
  predicate LineWaits(m: Moment) {
    m.working.Some? && !AllBelow(m.lines, m.working.value.next)
  }

  /** Something is in the way of the next append: such a line, or a part of one. */
  predicate Leftover(m: Moment) {
    LineWaits(m) || (m.working.Some? && m.tail.Part?)
  }

  /** The process has made an append: the next id has moved on. */
  predicate Accepted(m: Moment, m': Moment) {
    m.working.Some? && m'.working.Some? && m'.working.value.next == m.working.value.next + 1
  }

  /** An append has failed, and the process has gone on. */
  predicate FailedAdd(m: Moment, event: Event, m': Moment) {
    && event.Add? && event.size <= RECORD_MAX_BYTES && m.working.Some?
    && m'.working.Some? && m'.working.value.next == m.working.value.next
  }

  /** The cursor is below the next id, so a record appended now is above it. */
  predicate CursorBehind(c: Counters) { c.cursor < c.next }

  /** The cursor is below the next id, in the saved copy and in the process if there is one. */
  predicate Disciplined(m: Moment) {
    CursorBehind(m.saved) && (m.working.Some? ==> CursorBehind(m.working.value))
  }

  /** Counters a delivery or pruning may come to: the next id is as it was, the cursor at most at the id of a line. */
  predicate WithinReach(m: Moment, c: Counters) {
    && m.working.Some? && c.next == m.working.value.next
    && (c.cursor <= m.working.value.cursor || exists l :: l in m.lines && !l.Lost? && c.cursor <= l.id)
  }

  /** Only such counters are saved, or come to be those of the process. */
  predicate CursorsMove(m: Moment, m': Moment) {
    && (m.working.None? ==> m' == m)
    && (m'.saved == m.saved || WithinReach(m, m'.saved))
    && (m'.working.Some? ==> WithinReach(m, m'.working.value))
  }

  /** The counters a reopen starts from. */
  function Reopened(m: Moment): Counters {
    Counters(m.saved.cursor, Max(m.saved.next, LastId(Found(m)) + 1))
  }

  /** What an append does to the counters: an accepted one moves the next id, none the cursor. */
  predicate AddMoves(m: Moment, m': Moment) {
    && m.working.Some?
    && (m'.working.Some? ==> m'.working == m.working || m'.working == Some(OneMore(m.working.value)))
    && (m'.saved == m.saved || m'.saved == m.working.value || m'.saved == OneMore(m.working.value))
  }

  function OneMore(c: Counters): Counters { c.(next := c.next + 1) }

  /**
    The record an accepted append has made is the last line, and it counts as unresolved,
    for delivery, retention and compaction alike, exactly if the cursor was below the next id.
    */
  predicate FreshIsUnresolved(m: Moment, m': Moment) {
    Accepted(m, m') && Ascending(m.lines) && Ascending(m'.lines) ==>
      var n := |m'.lines| - 1;
      && 0 <= n && m'.lines[n].Readable? && m'.lines[n].id == m.working.value.next
      && (m'.lines[n] in Unresolved(m'.lines, m'.working.value.cursor) <==> CursorBehind(m.working.value))
  }

  /** What an event may do to the lines, to their order, and to the counters. */
  predicate Allowed(m: Moment, event: Event, m': Moment) {
    match event
    case Restart =>
      && ((m'.lines == m.lines && m'.tail == m.tail) || (m'.lines == Found(m) && m'.tail.Ended?))
      && (m'.saved == m.saved || m'.saved == Reopened(m))
      && (m'.working.Some? ==>
            && m'.working.value == Reopened(m) && 0 < m.saved.next
            && m'.lines == Found(m) && m'.tail.Ended? && Ascending(Found(m)))
    case Add(_, size, end) =>
      && (m.working.None? ==> m' == m)
      && (m.working.Some? ==> AddMoves(m, m') && FreshIsUnresolved(m, m'))
      && (Ascending(m.lines) && !Leftover(m) ==> Ascending(m'.lines))
      && (m'.working.Some? && Leftover(m') && !Leftover(m) ==> FailedAdd(m, event, m'))
      && (m.working.Some? && m'.working.Some? && size <= RECORD_MAX_BYTES ==> (Accepted(m, m') <==> end == Synced))
    case Drain(_, _) => m'.lines == m.lines && m'.tail == m.tail && CursorsMove(m, m')
    case Prune(_) =>
      && Within(m'.lines, m.lines) && (!m.tail.Part? ==> !m'.tail.Part?)
      && (Ascending(m.lines) ==> Ascending(m'.lines)) && CursorsMove(m, m')
    case Decay(_, _) =>
      && SameIds(m'.lines, m.lines) && m'.tail == m.tail && m'.saved == m.saved && m'.working == m.working
    case PowerOff => m' == m.(working := None)
  }

  /** The line is on disk at every moment from `a` to `b`. */
  ghost predicate Stays(trace: seq<Moment>, a: int, b: int, l: Line) {
    0 <= a <= b < |trace| && forall k :: a <= k <= b ==> l in trace[k].lines
  }

  /** Over a history: no cursor reaches a corrupt line that was unresolved at some moment and has been on disk since. */
  ghost predicate NeverReached(trace: seq<Moment>) {
    forall a, b, l :: Stays(trace, a, b, l) && l.Corrupt? && Unreached(trace[a], l.id) ==> Unreached(trace[b], l.id)
  }

  lemma NeverReachedGrows(trace: seq<Moment>, m: Moment)
    requires trace != [] && NeverReached(trace) && Respects(trace[|trace| - 1], m)
    ensures NeverReached(trace + [m])
  {
    var more, n := trace + [m], |trace|;
    forall a, b, l | Stays(more, a, b, l) && l.Corrupt? && Unreached(more[a], l.id)
      ensures Unreached(more[b], l.id)
    {
      var last := if b == n then n - 1 else b;
      if a <= last {
        forall k | a <= k <= last ensures l in trace[k].lines { assert l in more[k].lines; }
        assert Stays(trace, a, last, l);
      }
      assert l in more[b].lines;
    }
  }

  /** What storage says about the bounds and the saved copy. */
  lemma StorageIsSound(spool: Spool)
    requires spool.DiskOk()
    ensures 2 <= spool.max ==> Members(spool.chain) <= spool.max && ChainBytes(spool.chain) <= spool.max * spool.Cap()
    ensures spool.Durable().resolved < spool.Durable().next + spool.savedLag
    ensures Covers(Flat(spool.chain), spool.posts, spool.Durable())
  {
    hide Flat, Members, ChainBytes, HeadIsNewest, HighestIsNewest, Shaped;
    SameCover(Flat(spool.chain), spool.posts, spool.Durable(), spool.savedLag);
    if 2 <= spool.max { ChainIsBounded(spool.chain, spool.max, spool.Cap()); }
  }

  lemma SameCover(lines: seq<Line>, posts: Posts, s: State, lag: nat)
    ensures Covers(lines, posts, Lead(s, lag)) <==> Covers(lines, posts, s)
  {
  }

  /** An append that is made keeps the order exactly if nothing was in its way. */
  predicate KeepsOrderExactly(m: Moment, m': Moment) {
    Accepted(m, m') && Ascending(m.lines) ==> (Ascending(m'.lines) <==> !Leftover(m))
  }

  /** Nothing is wrong: ids ascend, nothing is in the way of the next append, and its id is above every cursor. */
  predicate Undisturbed(m: Moment) {
    Ascending(m.lines) && !Leftover(m) && Disciplined(m)
  }

  /** How an event ends: it is over, a reopen has been refused, or the power has gone during one. */
  datatype Fate = Over | RefusedOpen | Cut

  /** A made append leaves nothing in the way of the next one. */
  lemma MadeAppendIsClear(spool: Spool)
    requires spool.Ready() && spool.lag == 0
    ensures AllBelow(Flat(spool.chain), spool.st.next)
  {
    hide Flat, AllBelow, Shaped, HeadIsNewest, HighestIsNewest, Covers;
  }

  /** What is in the way of the next append is run into, or stays under the next id when room is made. */
  lemma LeftoverSpoils(spool: Spool, size: Bytes)
    requires spool.Ready() && spool.InOrder() && size <= RECORD_MAX_BYTES <= spool.fileBytes
    ensures var room := MadeRoom(spool.chain, spool.max, spool.fileBytes, size);
      !RunsInto(spool.chain, spool.max, spool.fileBytes, size) && AllBelow(Flat(room), spool.st.next) <==>
        !spool.Torn() && AllBelow(Flat(spool.chain), spool.st.next)
  {
    hide Flat, Shaped, Tracks, Ascending, MadeRoom;
    if !spool.Torn() {
      BelowNext(Flat(spool.chain), spool.Memory().next, spool.st.next + 1);
      LeftoverStays(spool.chain, spool.max, spool.fileBytes, size, spool.st.next);
      if AllBelow(Flat(spool.chain), spool.st.next) {
        NothingWaits(spool.chain, spool.max, spool.st.next);
        RoomIsWhole(spool.chain, spool.max, spool.fileBytes, size);
      }
    }
  }

  lemma BelowNext(lines: seq<Line>, next: nat, higher: nat)
    requires AllBelow(lines, next) && next <= higher
    ensures AllBelow(lines, higher)
  {
  }

  lemma GrownIsWhole(c: Chain, max: nat, fileBytes: nat, line: Line)
    requires |c| == max + 1 && 1 <= max
    ensures TailOf(Grown(c, max, fileBytes, line), max).Ended?
    ensures RunsInto(c, max, fileBytes, line.size) ==> !Ascending(Flat(Grown(c, max, fileBytes, line)))
  {
    hide Flat, Ascending, RunsInto, MadeRoom;
    if RunsInto(c, max, fileBytes, line.size) { RunIntoIsLost(c, max, fileBytes, line); }
  }

  /** What an append has made of the counters reaches no corrupt line. */
  lemma AddRespects(m: Moment, m': Moment)
    requires AddMoves(m, m')
    ensures Respects(m, m')
  {
  }

  /** The line an append has added at the end. */
  lemma FreshCounts(m: Moment, m': Moment, kept: seq<Line>, line: Line)
    requires m.working.Some? && m'.working.Some? && m'.working.value.cursor == m.working.value.cursor
    requires line.Readable? && line.id == m.working.value.next && m'.lines == kept + [line]
    requires line in Unresolved(m'.lines, m'.working.value.cursor) <==> CursorBehind(m.working.value)
    ensures FreshIsUnresolved(m, m')
  {
  }

  /** An append as an event. */
  method MakeAppend(spool: Spool, epoch: int, size: Bytes, end: WriteEnd) returns (alive: bool)
    requires spool.Ready()
    modifies spool`chain, spool`saved, spool`savedLag, spool`st, spool`lag, spool`posts, spool`power
    ensures spool.DiskOk() && (alive ==> spool.Ready())
    ensures var m, m' := old(Now(spool, true)), Now(spool, alive);
      && Respects(m, m') && Allowed(m, Add(epoch, size, end), m')
      && (RECORD_MAX_BYTES <= spool.fileBytes ==> KeepsOrderExactly(m, m'))
  {
    hide Flat, Ascending, AllBelow, Stored, Working, Shaped, IsSuffix, Grown, MadeRoom, RunsInto, LeftBy, Unresolved,
      Respects, FreshIsUnresolved;
    if spool.InOrder() && size <= RECORD_MAX_BYTES <= spool.fileBytes { LeftoverSpoils(spool, size); }
    ghost var m, line := Now(spool, true), Readable(spool.st.next, epoch, size);
    GrownIsWhole(spool.chain, spool.max, spool.fileBytes, line);
    ghost var spoilt := RunsInto(spool.chain, spool.max, spool.fileBytes, size);
    var r; ghost var kept;
    r, alive, kept := spool.Append(epoch, size, end);
    ghost var m' := Now(spool, alive);
    if alive && r.Appended? {
      MadeAppendIsClear(spool);
      if spoilt { SpoiltIsNoMatter(m, m'); } else { FreshCounts(m, m', kept, line); }
    } else {
      NothingFresh(m, m');
    }
    AddRespects(m, m');
  }

  lemma SpoiltIsNoMatter(m: Moment, m': Moment)
    requires !Ascending(m'.lines)
    ensures FreshIsUnresolved(m, m')
  {
  }

  lemma NothingFresh(m: Moment, m': Moment)
    requires !Accepted(m, m')
    ensures FreshIsUnresolved(m, m')
  {
  }

  lemma FoundIsMended(spool: Spool, up: bool)
    requires spool.DiskOk()
    ensures Found(Now(spool, up)) == Flat(Mended(spool.chain, spool.max))
    ensures TailOf(Mended(spool.chain, spool.max), spool.max).Ended?
  {
    hide Flat, Tracks, Shaped;
    FlatEnding(spool.chain, spool.max, Tail.Ended);
  }

  /** A reopen as an event. */
  method MakeRestart(spool: Spool, ghost up: bool) returns (r: OpenResult, alive: bool)
    requires spool.DiskOk()
    modifies spool`chain, spool`saved, spool`savedLag, spool`st, spool`lag, spool`power
    ensures spool.DiskOk() && (alive && r == Opened ==> spool.Ready())
    ensures alive || old(spool.power) < 2
    ensures var m, m' := old(Now(spool, up)), Now(spool, alive && r == Opened);
      Respects(m, m') && Allowed(m, Restart, m') && (alive ==> (r == Refused <==> !Ascending(Found(m))))
  {
    hide Flat, Ascending, AllBelow, Stored, Working, Shaped, LastId;
    FoundIsMended(spool, up);
    r, alive := spool.Open();
  }

  /** What a delivery or a pruning has made of the counters. */
  lemma CursorsCame(spool: Spool, m: Moment, alive: bool)
    requires spool.Ready() && m.working.Some? && spool.st.next == m.working.value.next
    requires spool.st.resolved == m.working.value.cursor || Names(m.lines, spool.st.resolved)
    requires CountersOf(spool.Durable()) == m.saved || spool.Durable().next == spool.st.next
    ensures CursorsMove(m, Now(spool, alive))
  {
    hide Flat, Tracks, Shaped, AllBelow;
    var top := spool.st.resolved;
    assert spool.Durable().resolved <= top;
    if top != m.working.value.cursor {
      var l :| l in m.lines && !l.Lost? && l.id == top;
    }
  }

  /** One event of a history; `up` says whether a process has the spool open. */
  method Happen(spool: Spool, event: Event, power: nat, up: bool) returns (up': bool, fate: Fate)
    requires spool.DiskOk() && (up ==> spool.Ready())
    modifies spool`chain, spool`saved, spool`savedLag, spool`st, spool`lag, spool`posts, spool`power
    ensures spool.DiskOk() && (up' ==> spool.Ready())
    ensures fate == Cut ==> event == Restart && power < 2
    ensures fate == RefusedOpen ==> event == Restart
    ensures event == Restart && fate != Cut ==>
      (up' <==> Ascending(Found(old(Now(spool, up))))) && (up' <==> fate == Over)
    ensures var m, m' := old(Now(spool, up)), Now(spool, up');
      && Respects(m, m') && Allowed(m, event, m')
      && (RECORD_MAX_BYTES <= spool.fileBytes && event.Add? ==> KeepsOrderExactly(m, m'))
  {
    hide Flat, Ascending, AllBelow, Stored, Working, PassEnds, OrderedPass, Deliverable, Retained, Reopened, Found,
      WithinReach, FreshIsUnresolved, AddMoves;
    up', fate := up, Over;
    ghost var was := Now(spool, up);
    spool.power := power;
    match event
    case Restart =>
      var r, alive;
      r, alive := MakeRestart(spool, up);
      up', fate := alive && r == Opened, if !alive then Cut else if r == Refused then RefusedOpen else Over;
    case Add(epoch, size, end) =>
      if up { up' := MakeAppend(spool, epoch, size, end); }
    case Drain(limit, saves) =>
      if up {
        var sent, stop;
        sent, stop, up' := DeliverPending(spool, limit, saves);
        CursorsCame(spool, was, up');
      }
    case Prune(now) =>
      if up {
        ghost var lines, cursor := Flat(spool.chain), spool.st.resolved;
        var r;
        r, up' := spool.EnforceBounds(now);
        RetainedIsWithin(lines, cursor, Flat(spool.chain), spool.st.resolved);
        CursorsCame(spool, was, up');
      }
    case Decay(k, j) =>
      if k < |spool.chain| && spool.chain[k].Some? && j < |spool.chain[k].value.lines| {
        FlatRotten(spool.chain, k, j);
        spool.Rot(k, j);
      }
    case PowerOff => up' := false;
  }

  lemma RetainedIsWithin(start: seq<Line>, from: nat, lines: seq<Line>, cursor: nat)
    requires Retained(start, from, lines, cursor)
    ensures Within(lines, start) && from <= cursor && (cursor == from || Names(start, cursor))
  {
  }

  /** The moments before, between and after the first events. */
  ghost predicate IsHistory(events: seq<Event>, trace: seq<Moment>) {
    && 0 < |trace| <= |events| + 1
    && forall k :: 0 <= k < |trace| - 1 ==> Allowed(trace[k], events[k], trace[k + 1])
  }

  /** Only a restart with little power is cut short; any other is refused exactly if the ids it finds do not ascend. */
  ghost predicate RefusalsAreExact(events: seq<Event>, powers: seq<nat>, trace: seq<Moment>, fates: seq<Fate>) {
    && |trace| == |fates| + 1 <= |events| + 1 == |powers| + 1
    && (forall k :: 0 <= k < |fates| && fates[k] == Cut ==> events[k] == Restart && powers[k] < 2)
    && forall k :: 0 <= k < |fates| && events[k] == Restart && fates[k] != Cut ==>
         && (fates[k] == RefusedOpen <==> !Ascending(Found(trace[k])))
         && (fates[k] == Over <==> trace[k + 1].working.Some?)
  }

  /** An append that is made keeps the order exactly if nothing was in its way. */
  ghost predicate OrderIsExact(events: seq<Event>, trace: seq<Moment>) {
    && 0 < |trace| <= |events| + 1
    && forall k :: 0 <= k < |trace| - 1 && events[k].Add? ==> KeepsOrderExactly(trace[k], trace[k + 1])
  }

  /** No append is among the first `n` events that failed in a process that went on. */
  ghost predicate NoneFailed(events: seq<Event>, trace: seq<Moment>, n: nat) {
    forall k :: 0 <= k < n && k < |events| && k + 1 < |trace| ==> !FailedAdd(trace[k], events[k], trace[k + 1])
  }

  /** One more event. */
  lemma HistoryGrows(events: seq<Event>, powers: seq<nat>, trace: seq<Moment>, fates: seq<Fate>, m: Moment, fate: Fate)
    requires |trace| <= |events| && IsHistory(events, trace) && RefusalsAreExact(events, powers, trace, fates)
    requires Allowed(trace[|trace| - 1], events[|trace| - 1], m)
    requires fate == Cut ==> events[|trace| - 1] == Restart && powers[|trace| - 1] < 2
    requires events[|trace| - 1] == Restart && fate != Cut ==>
      (fate == RefusedOpen <==> !Ascending(Found(trace[|trace| - 1]))) && (fate == Over <==> m.working.Some?)
    ensures IsHistory(events, trace + [m]) && RefusalsAreExact(events, powers, trace + [m], fates + [fate])
  {
    hide Allowed, Ascending, Found;
    var more := trace + [m];
    assert forall k :: 0 <= k < |trace| ==> more[k] == trace[k];
  }

  lemma OrderGrows(events: seq<Event>, trace: seq<Moment>, m: Moment)
    requires |trace| <= |events| && OrderIsExact(events, trace)
    requires events[|trace| - 1].Add? ==> KeepsOrderExactly(trace[|trace| - 1], m)
    ensures OrderIsExact(events, trace + [m])
  {
    hide KeepsOrderExactly;
    var more := trace + [m];
    assert forall k :: 0 <= k < |trace| ==> more[k] == trace[k];
  }

  // ---------------------------------------------------------------- the order of ids

  lemma OrderIsKept(m: Moment, event: Event, m': Moment)
    requires Allowed(m, event, m') && Ascending(m.lines) && (event.Add? ==> !Leftover(m))
    ensures Ascending(m'.lines)
  {
    if event.Decay? { SameIdsKeeps(m.lines, m'.lines, map[], INITIAL); }
  }

  /** While no append is made with something in its way, ids ascend, so no reopen is refused. */
  lemma {:induction false} CarefulHistoryIsInOrder(events: seq<Event>, trace: seq<Moment>, n: nat)
    requires IsHistory(events, trace) && n < |trace| && Ascending(trace[0].lines)
    requires forall j :: 0 <= j < n && events[j].Add? ==> !Leftover(trace[j])
    ensures Ascending(trace[n].lines)
  {
    hide Ascending, Allowed, Leftover;
    if n > 0 {
      CarefulHistoryIsInOrder(events, trace, n - 1);
      OrderIsKept(trace[n - 1], events[n - 1], trace[n]);
    }
  }

  /** A reopen leaves nothing in the way. */
  lemma ReopenedIsClear(m: Moment, m': Moment)
    requires Allowed(m, Restart, m') && m'.working.Some?
    ensures !Leftover(m')
  {
    LastIdIsHighest(Found(m));
    BelowNext(Found(m), LastId(Found(m)) + 1, m'.working.value.next);
  }

  lemma LeftoverComesFrom(m: Moment, event: Event, m': Moment)
    requires Allowed(m, event, m') && Leftover(m')
    ensures event != Restart && (Leftover(m) || FailedAdd(m, event, m'))
  {
    hide Ascending, FreshIsUnresolved, AddMoves, Found, Reopened;
    if event == Restart { ReopenedIsClear(m, m'); }
    if event.Decay? { BelowSame(m.lines, m'.lines, m'.working.value.next); }
    if event.Prune? { BelowWithin(m.lines, m'.lines, m'.working.value.next); }
  }

  lemma BelowSame(lines: seq<Line>, lines': seq<Line>, next: nat)
    requires SameIds(lines', lines)
    ensures AllBelow(lines, next) ==> AllBelow(lines', next)
  {
    assert forall i :: 0 <= i < |lines'| ==> lines'[i] == lines[i] || lines'[i] == Rotten(lines[i]);
  }

  lemma BelowWithin(lines: seq<Line>, lines': seq<Line>, next: nat)
    requires Within(lines', lines)
    ensures AllBelow(lines, next) ==> AllBelow(lines', next)
  {
    assert forall i :: 0 <= i < |lines'| ==> lines'[i] in lines;
  }

  /** Between these two points of a history somebody restarts. */
  ghost predicate Restarts(events: seq<Event>, i: int, j: int) {
    0 <= i < j <= |events| && exists k :: i < k < j && events[k] == Restart
  }

  /** What is in the way of an append was left by an earlier one that failed, with no restart since. */
  lemma {:induction false} LeftoverIsFromFailure(events: seq<Event>, trace: seq<Moment>, n: nat) returns (i: nat)
    requires IsHistory(events, trace) && n < |trace| && trace[0].working.None? && Leftover(trace[n])
    ensures i < n && FailedAdd(trace[i], events[i], trace[i + 1])
    ensures !Restarts(events, i, n)
  {
    hide Allowed, FailedAdd;
    LeftoverComesFrom(trace[n - 1], events[n - 1], trace[n]);
    if Leftover(trace[n - 1]) {
      i := LeftoverIsFromFailure(events, trace, n - 1);
    } else {
      i := n - 1;
    }
  }

  /**
    A chain is out of order only after an append has failed in a process that went on and
    another was tried, with no restart between them.
    */
  lemma DisorderNeedsARetry(events: seq<Event>, trace: seq<Moment>, n: nat) returns (i: nat, j: nat)
    requires IsHistory(events, trace) && n < |trace| && trace[0].working.None?
    requires Ascending(trace[0].lines) && !Ascending(trace[n].lines)
    ensures i < j < n && FailedAdd(trace[i], events[i], trace[i + 1]) && events[j].Add? && Leftover(trace[j])
    ensures !Restarts(events, i, j)
  {
    hide Ascending, Allowed, Leftover, FailedAdd;
    if forall j :: 0 <= j < n && events[j].Add? ==> !Leftover(trace[j]) {
      CarefulHistoryIsInOrder(events, trace, n);
    }
    j :| 0 <= j < n && events[j].Add? && Leftover(trace[j]);
    i := LeftoverIsFromFailure(events, trace, j);
  }

  // ---------------------------------------------------------------- the cursor and the next id

  /** At most at a line on disk is below the next id, if every line is. */
  lemma ReachIsBehind(m: Moment, c: Counters)
    requires WithinReach(m, c) && !LineWaits(m) && CursorBehind(m.working.value)
    ensures CursorBehind(c)
  {
    if c.cursor > m.working.value.cursor {
      var l :| l in m.lines && !l.Lost? && c.cursor <= l.id;
      var i :| 0 <= i < |m.lines| && m.lines[i] == l;
    }
  }

  /** The cursor comes to the next id only in a delivery or a pruning, and only past a line that waits. */
  lemma DisciplineIsKept(m: Moment, event: Event, m': Moment)
    requires Allowed(m, event, m') && Disciplined(m) && (event.Drain? || event.Prune? ==> !LineWaits(m))
    ensures Disciplined(m')
  {
    hide Ascending, LineWaits, FreshIsUnresolved, WithinReach, Found;
    if (event.Drain? || event.Prune?) && m.working.Some? {
      if m'.saved != m.saved { ReachIsBehind(m, m'.saved); }
      if m'.working.Some? { ReachIsBehind(m, m'.working.value); }
    }
  }

  /** While nothing is delivered or pruned with such a line on disk, every cursor stays below its next id. */
  lemma {:induction false} CarefulCursorStaysBehind(events: seq<Event>, trace: seq<Moment>, n: nat)
    requires IsHistory(events, trace) && n < |trace| && Disciplined(trace[0])
    requires forall j :: 0 <= j < n && (events[j].Drain? || events[j].Prune?) ==> !LineWaits(trace[j])
    ensures Disciplined(trace[n])
  {
    hide Disciplined, Allowed, LineWaits;
    if n > 0 {
      CarefulCursorStaysBehind(events, trace, n - 1);
      DisciplineIsKept(trace[n - 1], events[n - 1], trace[n]);
    }
  }

  /**
    A cursor is at its next id only after an append has failed in a process that went on
    and that process then delivered or pruned.
    */
  lemma CaughtUpNeedsADelivery(events: seq<Event>, trace: seq<Moment>, n: nat) returns (i: nat, j: nat)
    requires IsHistory(events, trace) && n < |trace| && trace[0].working.None?
    requires Disciplined(trace[0]) && !Disciplined(trace[n])
    ensures i < j < n && FailedAdd(trace[i], events[i], trace[i + 1]) && LineWaits(trace[j])
    ensures events[j].Drain? || events[j].Prune?
    ensures !Restarts(events, i, j)
  {
    hide Disciplined, Allowed, LineWaits, FailedAdd;
    if forall j :: 0 <= j < n && (events[j].Drain? || events[j].Prune?) ==> !LineWaits(trace[j]) {
      CarefulCursorStaysBehind(events, trace, n);
    }
    j :| 0 <= j < n && (events[j].Drain? || events[j].Prune?) && LineWaits(trace[j]);
    i := LeftoverIsFromFailure(events, trace, j);
  }

  /** A line at or above this id is on disk. */
  predicate HasFrom(lines: seq<Line>, id: nat) {
    exists l :: l in lines && !l.Lost? && id <= l.id
  }

  /**
    A reopen puts the next id above the cursor exactly if the saved copy had it there, or a
    line at or above the saved cursor is on disk.
    */
  lemma ReopenedBehindExactly(m: Moment, m': Moment)
    requires Allowed(m, Restart, m') && m'.working.Some?
    ensures CursorBehind(m'.working.value) <==> CursorBehind(m.saved) || HasFrom(Found(m), m.saved.cursor)
  {
    var lines, cursor := Found(m), m.saved.cursor;
    LastIdIsHighest(lines);
    if HasFrom(lines, cursor) {
      var l :| l in lines && !l.Lost? && cursor <= l.id;
      var i :| 0 <= i < |lines| && lines[i] == l;
    }
    if lines != [] && cursor <= LastId(lines) { assert lines[|lines| - 1] in lines; }
  }

  /** Is this event one that a leftover may spoil? */
  predicate Uses(event: Event) { event.Add? || event.Drain? || event.Prune? }

  /**
    What a caller has to do: if after every failed append a restart comes before the next
    append, delivery or pruning, ids ascend and every cursor is below its next id, always.
    */
  lemma RestartAfterFailureSuffices(events: seq<Event>, trace: seq<Moment>, n: nat)
    requires IsHistory(events, trace) && n < |trace| && trace[0].working.None?
    requires Ascending(trace[0].lines) && Disciplined(trace[0])
    requires forall i, j :: 0 <= i < j < n && FailedAdd(trace[i], events[i], trace[i + 1]) && Uses(events[j]) ==>
      Restarts(events, i, j)
    ensures Ascending(trace[n].lines) && Disciplined(trace[n])
  {
    hide Ascending, Disciplined, Allowed, FailedAdd, LineWaits, Restarts;
    forall j | 0 <= j < n && Uses(events[j]) ensures !Leftover(trace[j]) {
      if Leftover(trace[j]) {
        var i := LeftoverIsFromFailure(events, trace, j);
      }
    }
    CarefulHistoryIsInOrder(events, trace, n);
    CarefulCursorStaysBehind(events, trace, n);
  }

  // ---------------------------------------------------------------- until an append fails

  lemma NoneFailedGrows(events: seq<Event>, trace: seq<Moment>, n: nat)
    requires n + 1 < |trace| <= |events| + 1 && NoneFailed(events, trace, n + 1)
    ensures NoneFailed(events, trace, n) && !FailedAdd(trace[n], events[n], trace[n + 1])
  {
    hide FailedAdd;
  }

  /** Until an append fails, nothing is wrong. */
  lemma {:induction false} UndisturbedUntilAFailure(events: seq<Event>, trace: seq<Moment>, n: nat)
    requires IsHistory(events, trace) && n < |trace| && Undisturbed(trace[0]) && NoneFailed(events, trace, n)
    ensures Undisturbed(trace[n])
  {
    hide Ascending, Allowed, LineWaits, FailedAdd, Disciplined, NoneFailed;
    if n > 0 {
      NoneFailedGrows(events, trace, n - 1);
      UndisturbedUntilAFailure(events, trace, n - 1);
      var m, event, m' := trace[n - 1], events[n - 1], trace[n];
      OrderIsKept(m, event, m');
      DisciplineIsKept(m, event, m');
      if Leftover(m') { LeftoverComesFrom(m, event, m'); }
    }
  }

  /**
    Every history of the spool, appends that fail in a running process included; `powers`
    says how many durable steps the power lasts in each event. At its end, hence at every
    point, storage is within its bounds and the saved retry table covers every post made for
    an unresolved record. Over the whole history, crashes and restarts included, a corrupt
    line that was unresolved once is reached by neither cursor for as long as it is on disk.
    A restart that is not cut short is refused exactly if the ids it finds do not ascend, and
    an append that succeeds spoils their order exactly if a failed one has left something in
    its way. What the lemmas above say of histories, they say of this one.
    */
  method AnyHistory(spool: Spool, events: seq<Event>, powers: seq<nat>)
    returns (fates: seq<Fate>, ghost trace: seq<Moment>)
    requires spool.DiskOk() && |powers| == |events|
    modifies spool`chain, spool`saved, spool`savedLag, spool`st, spool`lag, spool`posts, spool`power
    ensures spool.DiskOk()
    ensures 2 <= spool.max ==> Members(spool.chain) <= spool.max && ChainBytes(spool.chain) <= spool.max * spool.Cap()
    ensures Covers(Flat(spool.chain), spool.posts, spool.Durable())
    ensures spool.Durable().resolved <= spool.Durable().next
    ensures |trace| == |events| + 1 && trace[0] == old(Now(spool, false))
    ensures IsHistory(events, trace) && NeverReached(trace) && RefusalsAreExact(events, powers, trace, fates)
    ensures trace[|events|] == Now(spool, trace[|events|].working.Some?)
    ensures RECORD_MAX_BYTES <= spool.fileBytes ==> OrderIsExact(events, trace)
    ensures Undisturbed(trace[0]) ==>
      forall n :: 0 <= n <= |events| && NoneFailed(events, trace, n) ==> Undisturbed(trace[n])
  {
    hide IsHistory, NeverReached, RefusalsAreExact, OrderIsExact, NoneFailed, Allowed, Respects, KeepsOrderExactly,
      FailedAdd, Ascending, Flat, Stored, Working, Undisturbed, Found;
    fates := [];
    var up := false;
    trace := [Now(spool, up)];
    HistoryStarts(events, powers, trace[0]);
    for i := 0 to |events|
      invariant spool.DiskOk() && (up ==> spool.Ready())
      invariant |fates| == i && |trace| == i + 1 && trace[0] == old(Now(spool, false)) && trace[i] == Now(spool, up)
      invariant IsHistory(events, trace) && NeverReached(trace) && RefusalsAreExact(events, powers, trace, fates)
      invariant RECORD_MAX_BYTES <= spool.fileBytes ==> OrderIsExact(events, trace)
    {
      var fate;
      up, fate := Happen(spool, events[i], powers[i], up);
      ghost var now := Now(spool, up);
      NeverReachedGrows(trace, now);
      HistoryGrows(events, powers, trace, fates, now, fate);
      if RECORD_MAX_BYTES <= spool.fileBytes { OrderGrows(events, trace, now); }
      fates, trace := fates + [fate], trace + [now];
    }
    StorageIsSound(spool);
    if Undisturbed(trace[0]) {
      forall n | 0 <= n <= |events| && NoneFailed(events, trace, n) ensures Undisturbed(trace[n]) {
        UndisturbedUntilAFailure(events, trace, n);
      }
    }
  }

  lemma HistoryStarts(events: seq<Event>, powers: seq<nat>, m: Moment)
    requires |powers| == |events|
    ensures IsHistory(events, [m]) && NeverReached([m]) && RefusalsAreExact(events, powers, [m], [])
    ensures OrderIsExact(events, [m])
  {
  }
}
