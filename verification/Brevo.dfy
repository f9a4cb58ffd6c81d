/** The Brevo provider's bounded retry (internal/email/brevo.go): send and the
    classification of a response in post. Times and durations are in nanoseconds;
    durations are int64 and wrap. */
module Brevo {
  import opened Results
  import opened Strings

  const SECOND := 1_000_000_000
  const DEFAULT_BACKOFF := 500_000_000
  const MAX_INT64 := 0x7FFF_FFFF_FFFF_FFFF
  /** The largest delay in seconds for which no duration in the retry path overflows. */
  const MAX_DELAY := 9_223_372_035

  /** int64 arithmetic of time.Duration. */
  function Wrap(x: int): int {
    (x + 0x8000_0000_0000_0000) % 0x1_0000_0000_0000_0000 - 0x8000_0000_0000_0000
  }

  function Max(a: int, b: int): int {
    if a < b then b else a
  }

  // ---- one post

  function Decimal(s: string): int
    requires AllDigits(s)
  {
    if s == [] then 0
    else
      assert IsDigit(s[|s| - 1]);
      assert AllDigits(s[..|s| - 1]) by {
        assert forall i :: 0 <= i < |s| - 1 ==> IsDigit(s[i]);
      }
      10 * Decimal(s[..|s| - 1]) + (s[|s| - 1] - '0') as int
  }

  /** The number that s writes in decimal, with or without a sign. */
  function Number(s: string): Option<int> {
    var negative := s != [] && s[0] == '-';
    var digits := if s != [] && (s[0] == '-' || s[0] == '+') then s[1..] else s;
    if digits == [] || !AllDigits(digits) then None
    else Some(if negative then -Decimal(digits) else Decimal(digits))
  }

  /** strconv.Atoi, which knows only the numbers of an int64. */
  function Atoi(s: string): Option<int> {
    match Number(s)
    case None => None
    case Some(v) => if -MAX_INT64 - 1 <= v <= MAX_INT64 then Some(v) else None
  }

  /** What one HTTP exchange brings: no usable response, or a status with its Retry-After
      header ("" when absent) and the message id of the body. */
  datatype Reply = NoResponse | Answer(status: int, retryAfter: string, messageId: string)

  datatype SendError = Transport | Api(status: int, retryAfter: int, hasRetry: bool)

  /** The delay-seconds that the source reads from the header. */
  function DelaySeconds(retryAfter: string): Option<nat> {
    match Atoi(retryAfter)
    case None => None
    case Some(secs) => if secs >= 0 then Some(secs) else None
  }

  /** Lines 205-230: any 2xx is success; other statuses carry the parsed delay. */
  function Classify(reply: Reply): Result<string, SendError> {
    match reply
    case NoResponse => Err(Transport)
    case Answer(status, retryAfter, id) =>
      if 200 <= status < 300 then Ok(id)
      else match DelaySeconds(retryAfter)
        case None => Err(Api(status, 0, false))
        case Some(secs) => Err(Api(status, Wrap(secs * SECOND), true))
  }

  predicate RetryStatus(status: int) {
    status == 429 || status == 503
  }

  predicate Retryable(e: SendError) {
    e.Api? && RetryStatus(e.status)
  }

  function Wait(e: SendError): int {
    if e.Api? && e.hasRetry then e.retryAfter else DEFAULT_BACKOFF
  }

  /** time.Until, which saturates. */
  function Until(deadline: int, now: int): int {
    var d := deadline - now;
    if d > MAX_INT64 then MAX_INT64 else if d < -MAX_INT64 - 1 then -MAX_INT64 - 1 else d
  }

  /** Line 165: the retry may start if the deadline leaves the wait and one second more. */
  predicate Affordable(deadline: Option<int>, now: int, wait: int) {
    deadline.None? || !(Until(deadline.value, now) < Wrap(wait + SECOND))
  }

  // ---- the loop

  /** The adversary's choices for one attempt: the reply, whether the server took the mail, how
      long the post ran, how late the timer fired, and whether the context ended first. */
  datatype Round = Round(reply: Reply, accepted: bool, latency: nat, late: nat, cancelled: bool)

  datatype Post = Post(start: int, finish: int, reply: Reply, accepted: bool)

  datatype Outcome = Outcome(posts: seq<Post>, result: Result<string, SendError>)

  function PostAt(now: int, r: Round): Post {
    Post(now, now + r.latency, r.reply, r.accepted)
  }

  predicate Stops(max: int, deadline: Option<int>, finish: int, r: Round, attempt: nat) {
    match Classify(r.reply)
    case Ok(_) => true
    case Err(e) => attempt >= max || !Retryable(e) || !Affordable(deadline, finish, Wait(e)) || r.cancelled
  }

  function NextStart(finish: int, r: Round): int
    requires Classify(r.reply).Err?
  {
    finish + Max(0, Wait(Classify(r.reply).error)) + r.late
  }

  /** The posts and the result of a send whose attempt number `attempt` begins at time now. */
  function Send(max: int, deadline: Option<int>, now: int, rounds: nat -> Round, attempt: nat): Outcome
    decreases max - attempt
  {
    var r := rounds(attempt);
    var p := PostAt(now, r);
    if Stops(max, deadline, p.finish, r, attempt) then Outcome([p], Classify(r.reply))
    else
      var rest := Send(max, deadline, NextStart(p.finish, r), rounds, attempt + 1);
      Outcome([p] + rest.posts, rest.result)
  }

  /** A send begun at `start` has made these posts, and attempt number `attempt` begins now. */
  ghost predicate Underway(max: int, deadline: Option<int>, start: int, rounds: nat -> Round,
                           posts: seq<Post>, now: int, attempt: nat)
  {
    var whole, rest := Send(max, deadline, start, rounds, 1), Send(max, deadline, now, rounds, attempt);
    whole.posts == posts + rest.posts && whole.result == rest.result
  }

  lemma GoesOn(max: int, deadline: Option<int>, start: int, rounds: nat -> Round,
               posts: seq<Post>, now: int, attempt: nat, posts': seq<Post>, next: int)
    requires Underway(max, deadline, start, rounds, posts, now, attempt)
    requires !Stops(max, deadline, now + rounds(attempt).latency, rounds(attempt), attempt)
    requires posts' == posts + [PostAt(now, rounds(attempt))]
    requires next == NextStart(now + rounds(attempt).latency, rounds(attempt))
    ensures Underway(max, deadline, start, rounds, posts', next, attempt + 1)
  {
    var r := rounds(attempt);
    var p := PostAt(now, r);
    var later := Send(max, deadline, NextStart(p.finish, r), rounds, attempt + 1).posts;
    assert posts + ([p] + later) == posts + [p] + later;
  }

  lemma Ends(max: int, deadline: Option<int>, start: int, rounds: nat -> Round,
             posts: seq<Post>, now: int, attempt: nat)
    requires Underway(max, deadline, start, rounds, posts, now, attempt)
    requires Stops(max, deadline, now + rounds(attempt).latency, rounds(attempt), attempt)
    ensures var whole := Send(max, deadline, start, rounds, 1);
            whole.posts == posts + [PostAt(now, rounds(attempt))] && whole.result == Classify(rounds(attempt).reply)
  {
  }

  /** send as the source runs it, for any number of attempts; posts is what reaches the server. */
  method SendLoop(max: int, deadline: Option<int>, start: int, rounds: nat -> Round)
    returns (result: Result<string, SendError>, posts: seq<Post>)
    ensures result == Send(max, deadline, start, rounds, 1).result
    ensures posts == Send(max, deadline, start, rounds, 1).posts
  {
    var attempt, now := 1, start;
    posts := [];
    while true
      invariant attempt >= 1 && Underway(max, deadline, start, rounds, posts, now, attempt)
      decreases max - attempt
    {
      var r := rounds(attempt);
      ghost var before, began := posts, now;
      posts := posts + [PostAt(now, r)];
      now := now + r.latency;
      result := Classify(r.reply);
      if result.Ok? {
        Ends(max, deadline, start, rounds, before, began, attempt);
        return;
      }
      var e := result.error;
      if attempt >= max || !Retryable(e) {
        Ends(max, deadline, start, rounds, before, began, attempt);
        return;
      }
      var wait := DEFAULT_BACKOFF;
      if e.hasRetry {
        wait := e.retryAfter;
      }
      if (deadline.Some? && Until(deadline.value, now) < Wrap(wait + SECOND)) || r.cancelled {
        Ends(max, deadline, start, rounds, before, began, attempt);
        return;
      }
      now := now + Max(0, wait) + r.late;
      GoesOn(max, deadline, start, rounds, before, began, attempt, posts, now);
      attempt := attempt + 1;
    }
  }

  // ---- at most one accepted mail

  /** The server never takes a mail it answers with 429 or 503. */
  ghost predicate Honest(rounds: nat -> Round) {
    forall i :: rounds(i).reply.Answer? && RetryStatus(rounds(i).reply.status) ==> !rounds(i).accepted
  }

  predicate Refused(p: Post) {
    p.reply.Answer? && RetryStatus(p.reply.status)
  }

  function AcceptedCount(posts: seq<Post>): nat {
    if posts == [] then 0
    else AcceptedCount(posts[1..]) + if posts[0].accepted then 1 else 0
  }

  /** Whatever the server does, only refused posts are repeated, and not more often than allowed. */
  lemma {:induction false} OnlyRefusalsRetried(max: int, deadline: Option<int>, now: int,
                                               rounds: nat -> Round, attempt: nat)
    ensures var out := Send(max, deadline, now, rounds, attempt);
            && 1 <= |out.posts| <= Max(1, max - attempt + 1)
            && (forall i :: 0 <= i < |out.posts| - 1 ==> Refused(out.posts[i]))
            && out.result == Classify(out.posts[|out.posts| - 1].reply)
    decreases max - attempt
  {
    var r := rounds(attempt);
    var p := PostAt(now, r);
    if !Stops(max, deadline, p.finish, r, attempt) {
      OnlyRefusalsRetried(max, deadline, NextStart(p.finish, r), rounds, attempt + 1);
    }
  }

  /** With an honest server one send is accepted at most once. */
  lemma {:induction false} AtMostOneAcceptance(max: int, deadline: Option<int>, now: int,
                                               rounds: nat -> Round, attempt: nat)
    requires Honest(rounds)
    ensures AcceptedCount(Send(max, deadline, now, rounds, attempt).posts) <= 1
    decreases max - attempt
  {
    var r := rounds(attempt);
    var p := PostAt(now, r);
    if !Stops(max, deadline, p.finish, r, attempt) {
      var rest := Send(max, deadline, NextStart(p.finish, r), rounds, attempt + 1);
      AtMostOneAcceptance(max, deadline, NextStart(p.finish, r), rounds, attempt + 1);
      assert ([p] + rest.posts)[1..] == rest.posts;
    } else {
      assert [p][1..] == [];
    }
  }

  /** A server whose 2xx answers, and no others, mean that it took the mail. */
  ghost predicate Truthful(rounds: nat -> Round) {
    forall i :: rounds(i).reply.Answer? ==> (rounds(i).accepted <==> 200 <= rounds(i).reply.status < 300)
  }

  /** What the result of a send tells about the mail: success means taken once, an error status not
      taken. Only a lost answer leaves it open. */
  lemma {:induction false} ResultTells(max: int, deadline: Option<int>, now: int,
                                       rounds: nat -> Round, attempt: nat)
    requires Truthful(rounds)
    ensures var out := Send(max, deadline, now, rounds, attempt);
            && AcceptedCount(out.posts) <= 1
            && (out.result.Ok? ==> AcceptedCount(out.posts) == 1)
            && (out.result.Err? && out.result.error.Api? ==> AcceptedCount(out.posts) == 0)
    decreases max - attempt
  {
    var r := rounds(attempt);
    var p := PostAt(now, r);
    if !Stops(max, deadline, p.finish, r, attempt) {
      var rest := Send(max, deadline, NextStart(p.finish, r), rounds, attempt + 1);
      ResultTells(max, deadline, NextStart(p.finish, r), rounds, attempt + 1);
      assert ([p] + rest.posts)[1..] == rest.posts;
    } else {
      assert [p][1..] == [];
    }
  }

  /** The same choices for every attempt. */
  function Always(r: Round): nat -> Round {
    (i: nat) => r
  }

  lemma FirstTwo(max: int, deadline: Option<int>, now: int, rounds: nat -> Round)
    requires !Stops(max, deadline, now + rounds(1).latency, rounds(1), 1)
    ensures var posts := Send(max, deadline, now, rounds, 1).posts;
            && |posts| >= 2 && posts[0] == PostAt(now, rounds(1))
            && posts[1] == PostAt(NextStart(now + rounds(1).latency, rounds(1)), rounds(2))
  {
    var r := rounds(1);
    var rest := Send(max, deadline, NextStart(now + r.latency, r), rounds, 2);
    assert Send(max, deadline, now, rounds, 1).posts == [PostAt(now, r)] + rest.posts;
  }

  /** A server that takes a mail and answers 429 or 503 gets it twice, for any number of attempts. */
  lemma DishonestServerTakesTwo(status: int, max: int)
    requires RetryStatus(status) && max >= 2
    ensures exists rounds: nat -> Round ::
              TakesOnlyWith(rounds, iset{status}) && AcceptedCount(Send(max, None, 0, rounds, 1).posts) >= 2
  {
    var r := Round(Answer(status, "", ""), true, 0, 0, false);
    assert Atoi("").None?;
    FirstTwo(max, None, 0, Always(r));
    assert AcceptedCount((Send(max, None, 0, Always(r), 1).posts)) >= 2;
    assert TakesOnlyWith(Always(r), iset{status});
  }

  /** What the server takes it answers with one of these statuses, unless its answer is lost. */
  ghost predicate TakesOnlyWith(rounds: nat -> Round, statuses: iset<int>) {
    forall i :: rounds(i).accepted && rounds(i).reply.Answer? ==> rounds(i).reply.status in statuses
  }

  /** No send to any such server is accepted twice. */
  ghost predicate NeverTwice(statuses: iset<int>) {
    forall max: int, deadline: Option<int>, now: int, rounds: nat -> Round :: TakesOnlyWith(rounds, statuses) ==>
      AcceptedCount(Send(max, deadline, now, rounds, 1).posts) <= 1
  }

  /** Exactly what the loop relies on: that neither 429 nor 503 can mean accepted. */
  lemma NeverTwiceIff(statuses: iset<int>)
    ensures NeverTwice(statuses) <==> 429 !in statuses && 503 !in statuses
  {
    if 429 !in statuses && 503 !in statuses {
      forall max: int, deadline: Option<int>, now: int, rounds: nat -> Round | TakesOnlyWith(rounds, statuses)
        ensures AcceptedCount(Send(max, deadline, now, rounds, 1).posts) <= 1
      {
        AtMostOneAcceptance(max, deadline, now, rounds, 1);
      }
    } else {
      var status := if 429 in statuses then 429 else 503;
      DishonestServerTakesTwo(status, 2);
      var rounds: nat -> Round :|
        TakesOnlyWith(rounds, iset{status}) && AcceptedCount(Send(2, None, 0, rounds, 1).posts) >= 2;
      assert TakesOnlyWith(rounds, statuses);
    }
  }

  // ---- delay and deadline

  /** The delay-seconds that a header names, however large the number is. */
  function Named(header: string): Option<nat> {
    match Number(header)
    case None => None
    case Some(v) => if v >= 0 then Some(v) else None
  }

  /** The delay asked for by a reply that was complete at time finish: so many seconds, or until a
      date, or the source's default. dates tells which moment a header text names as an HTTP date. */
  function AskedDelay(reply: Reply, finish: int, dates: string -> Option<int>): int {
    if reply.NoResponse? then DEFAULT_BACKOFF
    else if Named(reply.retryAfter).Some? then Named(reply.retryAfter).value * SECOND
    else if dates(reply.retryAfter).Some? then dates(reply.retryAfter).value - finish
    else DEFAULT_BACKOFF
  }

  /** Headers whose demand the source understands: no date, and not too many seconds. */
  predicate InRange(header: string, dates: string -> Option<int>) {
    if Named(header).Some? then Named(header).value <= MAX_DELAY else dates(header).None?
  }

  /** What the source waits for a header. */
  function HeaderWait(header: string): int {
    if DelaySeconds(header).Some? then Wrap(DelaySeconds(header).value * SECOND) else DEFAULT_BACKOFF
  }

  lemma WrapIdentity(x: int)
    requires -MAX_INT64 - 1 <= x <= MAX_INT64
    ensures Wrap(x) == x
  {
  }

  /** The post after posts[i] keeps to the delay the server asked for and, but for the lateness
      of its own timer, to the budget. */
  ghost predicate RetryInTime(posts: seq<Post>, i: nat, rounds: nat -> Round, first: nat,
                              deadline: Option<int>, dates: string -> Option<int>)
    requires i + 1 < |posts|
  {
    && posts[i + 1].start >= posts[i].finish + AskedDelay(posts[i].reply, posts[i].finish, dates)
    && (deadline.Some? ==> posts[i + 1].start + SECOND <= deadline.value + rounds(first + i).late)
  }

  lemma OneRetryInTime(deadline: Option<int>, finish: int, r: Round, e: SendError, dates: string -> Option<int>)
    requires Classify(r.reply) == Err(e) && Retryable(e) && InRange(r.reply.retryAfter, dates)
    requires Affordable(deadline, finish, Wait(e))
    ensures NextStart(finish, r) >= finish + AskedDelay(r.reply, finish, dates)
    ensures deadline.Some? ==> NextStart(finish, r) + SECOND <= deadline.value + r.late
  {
    WrapIdentity(AskedDelay(r.reply, finish, dates));
    WrapIdentity(AskedDelay(r.reply, finish, dates) + SECOND);
  }

  ghost predicate AllInTime(posts: seq<Post>, rounds: nat -> Round, first: nat,
                            deadline: Option<int>, dates: string -> Option<int>)
  {
    forall i :: 0 <= i < |posts| - 1 ==> RetryInTime(posts, i, rounds, first, deadline, dates)
  }

  lemma ConsInTime(p: Post, rest: seq<Post>, rounds: nat -> Round, first: nat,
                   deadline: Option<int>, dates: string -> Option<int>)
    requires rest != [] && AllInTime(rest, rounds, first + 1, deadline, dates)
    requires rest[0].start >= p.finish + AskedDelay(p.reply, p.finish, dates)
    requires deadline.Some? ==> rest[0].start + SECOND <= deadline.value + rounds(first).late
    ensures AllInTime([p] + rest, rounds, first, deadline, dates)
  {
    var posts := [p] + rest;
    forall i | 0 <= i < |posts| - 1 ensures RetryInTime(posts, i, rounds, first, deadline, dates) {
      if i > 0 {
        assert RetryInTime(rest, i - 1, rounds, first + 1, deadline, dates);
      }
    }
  }

  /** Every retry of every send starts after the delay the server asked for and, with an exact
      timer, with at least one second of the budget left. */
  lemma {:induction false} RetriesInTime(max: int, deadline: Option<int>, now: int, rounds: nat -> Round,
                                         attempt: nat, dates: string -> Option<int>)
    requires forall i :: rounds(i).reply.Answer? ==> InRange(rounds(i).reply.retryAfter, dates)
    ensures AllInTime(Send(max, deadline, now, rounds, attempt).posts, rounds, attempt, deadline, dates)
    decreases max - attempt
  {
    var r := rounds(attempt);
    var p := PostAt(now, r);
    if !Stops(max, deadline, p.finish, r, attempt) {
      OneRetryInTime(deadline, p.finish, r, Classify(r.reply).error, dates);
      var start := NextStart(p.finish, r);
      RetriesInTime(max, deadline, start, rounds, attempt + 1, dates);
      ConsInTime(p, Send(max, deadline, start, rounds, attempt + 1).posts, rounds, attempt, deadline, dates);
    }
  }

  // ---- the whole course of a send

  /** Was the post refused, with attempts left and the context alive, and does what it asked for,
      and one second more, fit the deadline? */
  ghost predicate RetryDue(p: Post, r: Round, max: int, attempt: int, deadline: Option<int>,
                           dates: string -> Option<int>)
  {
    && p.reply.Answer? && (p.reply.status == 429 || p.reply.status == 503)
    && attempt < max && !r.cancelled
    && (deadline.Some? ==> deadline.value - p.finish >= AskedDelay(p.reply, p.finish, dates) + 1_000_000_000)
  }

  /** posts[i] is round number first + i as the server and the clock made it; unless it is the last
      it is due a retry, which starts exactly as late as asked and as its timer is late. */
  ghost predicate CourseAt(posts: seq<Post>, i: nat, max: int, deadline: Option<int>, rounds: nat -> Round,
                           first: nat, dates: string -> Option<int>)
    requires i < |posts|
  {
    var p, r := posts[i], rounds(first + i);
    && p.reply == r.reply && p.accepted == r.accepted && p.finish == p.start + r.latency
    && (RetryDue(p, r, max, first + i, deadline, dates) <==> i < |posts| - 1)
    && (i < |posts| - 1 ==> posts[i + 1].start == p.finish + AskedDelay(p.reply, p.finish, dates) + r.late)
  }

  ghost predicate Course(posts: seq<Post>, max: int, deadline: Option<int>, now: int, rounds: nat -> Round,
                         first: nat, dates: string -> Option<int>)
  {
    && posts != [] && posts[0].start == now
    && forall i: nat :: i < |posts| ==> CourseAt(posts, i, max, deadline, rounds, first, dates)
  }

  lemma DueIff(max: int, deadline: Option<int>, now: int, r: Round, attempt: nat, dates: string -> Option<int>)
    requires r.reply.Answer? ==> InRange(r.reply.retryAfter, dates)
    ensures var p := PostAt(now, r);
            && (RetryDue(p, r, max, attempt, deadline, dates) <==> !Stops(max, deadline, p.finish, r, attempt))
            && (!Stops(max, deadline, p.finish, r, attempt) ==>
                  NextStart(p.finish, r) == p.finish + AskedDelay(r.reply, p.finish, dates) + r.late)
  {
    var asked := AskedDelay(r.reply, now + r.latency, dates);
    if r.reply.Answer? && RetryStatus(r.reply.status) {
      WrapIdentity(asked);
      WrapIdentity(asked + SECOND);
      assert Wait(Classify(r.reply).error) == asked;
    }
  }

  lemma CourseAlone(max: int, deadline: Option<int>, now: int, rounds: nat -> Round, first: nat,
                    dates: string -> Option<int>)
    requires !RetryDue(PostAt(now, rounds(first)), rounds(first), max, first, deadline, dates)
    ensures Course([PostAt(now, rounds(first))], max, deadline, now, rounds, first, dates)
  {
  }

  lemma CourseCons(rest: seq<Post>, max: int, deadline: Option<int>, now: int, next: int, rounds: nat -> Round,
                   first: nat, dates: string -> Option<int>)
    requires Course(rest, max, deadline, next, rounds, first + 1, dates)
    requires var p := PostAt(now, rounds(first));
             && RetryDue(p, rounds(first), max, first, deadline, dates)
             && next == p.finish + AskedDelay(p.reply, p.finish, dates) + rounds(first).late
    ensures Course([PostAt(now, rounds(first))] + rest, max, deadline, now, rounds, first, dates)
  {
    var posts := [PostAt(now, rounds(first))] + rest;
    forall i: nat | i < |posts| ensures CourseAt(posts, i, max, deadline, rounds, first, dates) {
      if i > 0 {
        assert CourseAt(rest, i - 1, max, deadline, rounds, first + 1, dates);
      }
    }
  }

  /** If every header is in range the course of a send is determined: it retries when it may and as
      soon as it may, and gives up only when it must. */
  lemma {:induction false} SendCourse(max: int, deadline: Option<int>, now: int, rounds: nat -> Round,
                                      first: nat, dates: string -> Option<int>)
    requires forall i :: rounds(i).reply.Answer? ==> InRange(rounds(i).reply.retryAfter, dates)
    ensures Course(Send(max, deadline, now, rounds, first).posts, max, deadline, now, rounds, first, dates)
    decreases max - first
  {
    var r := rounds(first);
    var p := PostAt(now, r);
    DueIff(max, deadline, now, r, first, dates);
    if Stops(max, deadline, p.finish, r, first) {
      CourseAlone(max, deadline, now, rounds, first, dates);
    } else {
      var next := NextStart(p.finish, r);
      SendCourse(max, deadline, next, rounds, first + 1, dates);
      CourseCons(Send(max, deadline, next, rounds, first + 1).posts, max, deadline, now, next, rounds, first, dates);
    }
  }

  /** The result repeats the last answer: a 2xx with its message id, an error status as it came, and
      no answer as a transport error. */
  lemma ResultRepeats(max: int, deadline: Option<int>, now: int, rounds: nat -> Round, attempt: nat)
    ensures var out := Send(max, deadline, now, rounds, attempt);
            out.posts != []
            && match out.posts[|out.posts| - 1].reply
               case NoResponse => out.result == Err(Transport)
               case Answer(status, _, id) =>
                 if 200 <= status <= 299 then out.result == Ok(id)
                 else out.result.Err? && out.result.error.Api? && out.result.error.status == status
  {
    OnlyRefusalsRetried(max, deadline, now, rounds, attempt);
  }

  // ---- numbers as they are printed

  function PrintNumber(n: nat): string {
    (if n < 10 then [] else PrintNumber(n / 10)) + ['0' + (n % 10) as char]
  }

  lemma {:induction false} PrintedNumber(n: nat)
    ensures PrintNumber(n) != [] && AllDigits(PrintNumber(n)) && Decimal(PrintNumber(n)) == n
  {
    var before := if n < 10 then [] else PrintNumber(n / 10);
    var c := '0' + (n % 10) as char;
    if n >= 10 {
      PrintedNumber(n / 10);
    }
  }

  /** Delay-seconds as any server prints them are read as they are meant, within an int64. */
  lemma PrintedDelay(n: nat)
    ensures Named(PrintNumber(n)) == Some(n)
    ensures DelaySeconds(PrintNumber(n)) == if n <= 0x7FFF_FFFF_FFFF_FFFF then Some(n) else None
  {
    PrintedNumber(n);
    assert IsDigit(PrintNumber(n)[0]);
  }

  // ---- one header

  /** Every answer carries this Retry-After header. */
  ghost predicate AllSay(rounds: nat -> Round, header: string) {
    forall i :: rounds(i).reply.Answer? ==> rounds(i).reply.retryAfter == header
  }

  /** In every send to a server that answers with this header, every retry is in time. */
  ghost predicate HeaderRespected(header: string, dates: string -> Option<int>) {
    forall max: int, deadline: Option<int>, now: int, rounds: nat -> Round :: AllSay(rounds, header) ==>
      AllInTime(Send(max, deadline, now, rounds, 1).posts, rounds, 1, deadline, dates)
  }

  /** A header is respected exactly when it names no date and at most MAX_DELAY seconds. A larger
      number makes the source's durations wrap around or is not read at all, and a date never is. */
  lemma HeaderRespectedIff(header: string, dates: string -> Option<int>)
    ensures HeaderRespected(header, dates) <==> InRange(header, dates)
  {
    if InRange(header, dates) {
      forall max: int, deadline: Option<int>, now: int, rounds: nat -> Round | AllSay(rounds, header)
        ensures AllInTime(Send(max, deadline, now, rounds, 1).posts, rounds, 1, deadline, dates)
      {
        RetriesInTime(max, deadline, now, rounds, 1, dates);
      }
    } else {
      var now := BrokenWithin(header, dates, MAX_INT64);
      assert AllSay(Always(Busy(header)), header);
    }
  }

  // ---- within a send budget

  function Busy(header: string): Round {
    Round(Answer(429, header, ""), false, 0, 0, false)
  }

  /** posts[i + 1] begins by the deadline, but for the lateness of its timer: the context ends there. */
  ghost predicate StartsBy(posts: seq<Post>, i: nat, rounds: nat -> Round, deadline: int)
    requires i + 1 < |posts|
  {
    posts[i + 1].start <= deadline + rounds(1 + i).late
  }

  ghost predicate KeepsDeadline(posts: seq<Post>, rounds: nat -> Round, deadline: int) {
    forall i :: 0 <= i < |posts| - 1 ==> StartsBy(posts, i, rounds, deadline)
  }

  /** One send with a budget to a server that answers with this header: if no retry begins after the
      deadline, every retry is in time. */
  ghost predicate SendInTime(header: string, dates: string -> Option<int>, budget: int,
                             max: int, now: int, rounds: nat -> Round)
  {
    var posts := Send(max, Some(now + budget), now, rounds, 1).posts;
    AllSay(rounds, header) && KeepsDeadline(posts, rounds, now + budget) ==>
      AllInTime(posts, rounds, 1, Some(now + budget), dates)
  }

  ghost predicate RespectedWithin(header: string, dates: string -> Option<int>, budget: int) {
    forall max: int, now: int, rounds: nat -> Round :: SendInTime(header, dates, budget, max, now, rounds)
  }

  /** Would an immediate answer with this header be followed by a retry within the budget? */
  predicate RetriesWithin(header: string, budget: int) {
    Affordable(Some(budget), 0, HeaderWait(header)) && HeaderWait(header) <= budget
  }

  lemma WrapIs(x: int) returns (k: int)
    ensures -0x8000_0000_0000_0000 <= Wrap(x) <= 0x7FFF_FFFF_FFFF_FFFF
    ensures Wrap(x) == x + k * 0x1_0000_0000_0000_0000
  {
    k := -((x + 0x8000_0000_0000_0000) / 0x1_0000_0000_0000_0000);
  }

  /** What the source waits for a header, without its arithmetic: the delay modulo 2^64 ns as an
      int64, or 500 ms if it reads none. */
  lemma HeaderWaits(header: string) returns (k: int)
    ensures var w, n := HeaderWait(header), Named(header);
            if n.Some? && n.value <= 0x7FFF_FFFF_FFFF_FFFF
            then -0x8000_0000_0000_0000 <= w <= 0x7FFF_FFFF_FFFF_FFFF
                 && w == n.value * 1_000_000_000 + k * 0x1_0000_0000_0000_0000
            else w == 500_000_000
  {
    k := 0;
    if Named(header).Some? && Named(header).value <= 0x7FFF_FFFF_FFFF_FFFF {
      k := WrapIs(Named(header).value * SECOND);
    }
  }

  /** The retry is made if the wait and one second more fit, or do not fit into an int64. */
  lemma RetriesWithinIff(header: string, budget: int)
    requires 0 <= budget <= 0x7FFF_FFFF_FFFF_FFFF
    ensures RetriesWithin(header, budget) <==>
            var w := HeaderWait(header);
            w <= budget && (w + 1_000_000_000 <= budget || w + 1_000_000_000 > 0x7FFF_FFFF_FFFF_FFFF)
  {
    var k := HeaderWaits(header);
  }

  /** A header that is out of range and retried all the same is disregarded: the retry comes
      earlier than asked or leaves less than a second. */
  lemma BrokenWithin(header: string, dates: string -> Option<int>, budget: int) returns (now: int)
    requires 0 <= budget <= MAX_INT64
    requires !InRange(header, dates) && (budget == MAX_INT64 || RetriesWithin(header, budget))
    ensures var rounds, deadline := Always(Busy(header)), Some(now + budget);
            var posts := Send(2, deadline, now, rounds, 1).posts;
            && |posts| == 2 && KeepsDeadline(posts, rounds, now + budget)
            && !RetryInTime(posts, 0, rounds, 1, deadline, dates)
    ensures !SendInTime(header, dates, budget, 2, now, Always(Busy(header)))
  {
    now := if Named(header).Some? then 0 else dates(header).value - DEFAULT_BACKOFF - 1;
    OutOfRangeWait(header, dates, budget, now);
    var posts := BusyPosts(header, budget, now);
    assert !RetryInTime(posts, 0, Always(Busy(header)), 1, Some(now + budget), dates);
    assert AllSay(Always(Busy(header)), header);
  }

  lemma BusyPosts(header: string, budget: int, now: int) returns (posts: seq<Post>)
    requires Affordable(Some(now + budget), now, HeaderWait(header)) && Max(0, HeaderWait(header)) <= budget
    ensures var r := Busy(header);
            && posts == Send(2, Some(now + budget), now, Always(r), 1).posts
            && posts == [PostAt(now, r), PostAt(now + Max(0, HeaderWait(header)), r)]
            && KeepsDeadline(posts, Always(r), now + budget)
  {
    var r, deadline := Busy(header), Some(now + budget);
    posts := Send(2, deadline, now, Always(r), 1).posts;
    FirstTwo(2, deadline, now, Always(r));
    OnlyRefusalsRetried(2, deadline, now, Always(r), 1);
    assert posts == [posts[0], posts[1]];
  }

  lemma OutOfRangeWait(header: string, dates: string -> Option<int>, budget: int, now: int)
    requires 0 <= budget <= MAX_INT64
    requires !InRange(header, dates) && (budget == MAX_INT64 || RetriesWithin(header, budget))
    requires Named(header).None? ==> now == dates(header).value - DEFAULT_BACKOFF - 1
    ensures var wait := HeaderWait(header);
            && Affordable(Some(now + budget), now, wait) && wait <= budget
            && (Max(0, wait) < AskedDelay(Answer(429, header, ""), now, dates) || Max(0, wait) + SECOND > budget)
  {
    if Named(header).Some? && Named(header).value <= MAX_INT64 {
      var secs := Named(header).value;
      if secs == MAX_DELAY + 1 {
        WrapIdentity(secs * SECOND);
      } else {
        assert Wrap(secs * SECOND) <= MAX_INT64 < secs * SECOND;
      }
    }
  }

  /** Without a retry at the first opportunity there is none later. */
  lemma NoRetry(header: string, budget: int, max: int, now: int, rounds: nat -> Round)
    requires !RetriesWithin(header, budget) && 0 <= budget <= MAX_INT64 && AllSay(rounds, header)
    requires KeepsDeadline(Send(max, Some(now + budget), now, rounds, 1).posts, rounds, now + budget)
    ensures Stops(max, Some(now + budget), now + rounds(1).latency, rounds(1), 1)
  {
    var r, deadline := rounds(1), Some(now + budget);
    if !Stops(max, deadline, now + r.latency, r, 1) {
      FirstTwo(max, deadline, now, rounds);
      assert StartsBy(Send(max, deadline, now, rounds, 1).posts, 0, rounds, now + budget);
      assert RetriesWithin(header, budget);
      assert false;
    }
  }

  /** For a given budget the exact condition is weaker by the headers that the source never acts
      on: their wait does not fit, so no retry is made that could come too early. */
  lemma RespectedWithinIff(header: string, dates: string -> Option<int>, budget: int)
    requires 0 <= budget <= MAX_INT64
    ensures RespectedWithin(header, dates, budget) <==> InRange(header, dates) || !RetriesWithin(header, budget)
  {
    if !InRange(header, dates) && RetriesWithin(header, budget) {
      var now := BrokenWithin(header, dates, budget);
    } else {
      forall max: int, now: int, rounds: nat -> Round ensures SendInTime(header, dates, budget, max, now, rounds) {
        OneSendInTime(header, dates, budget, max, now, rounds);
      }
    }
  }

  lemma OneSendInTime(header: string, dates: string -> Option<int>, budget: int,
                      max: int, now: int, rounds: nat -> Round)
    requires 0 <= budget <= MAX_INT64 && (InRange(header, dates) || !RetriesWithin(header, budget))
    ensures SendInTime(header, dates, budget, max, now, rounds)
  {
    var posts := Send(max, Some(now + budget), now, rounds, 1).posts;
    if AllSay(rounds, header) && KeepsDeadline(posts, rounds, now + budget) {
      if InRange(header, dates) {
        RetriesInTime(max, Some(now + budget), now, rounds, 1, dates);
      } else {
        NoRetry(header, budget, max, now, rounds);
      }
    }
  }
}
