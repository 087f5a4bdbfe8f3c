/** The ladder of delay queues: which queue a timeout event goes to, and when it comes out. */
module DelayLadder {

  const MILLISECOND := 1_000_000   // in nanoseconds
  const MINUTE := 60_000_000_000

  datatype Rung = Rung(duration: int, routingKey: string, queueName: string)

  const DEFAULT_RUNG := Rung(30 * MINUTE, "delay.30m", "order.timeout.delay.30m")

  predicate SortedRungs(ladders: seq<Rung>) {
    forall i, j :: 0 <= i < j < |ladders| ==> ladders[i].duration <= ladders[j].duration
  }

  // ---- NewWorker's sort ----

  lemma SpliceSorted(ladders: seq<Rung>, i: nat, x: Rung, r: seq<Rung>)
    requires SortedRungs(ladders) && i <= |ladders|
    requires i > 0 ==> ladders[i - 1].duration <= x.duration
    requires i < |ladders| ==> x.duration <= ladders[i].duration
    requires |r| == |ladders| + 1 && r[i] == x
    requires forall k :: 0 <= k < i ==> r[k] == ladders[k]
    requires forall k :: i < k < |r| ==> r[k] == ladders[k - 1]
    ensures SortedRungs(r)
  {
    forall j, k | 0 <= j < k < |r| ensures r[j].duration <= r[k].duration {
      var before := if j < i then ladders[j].duration else if j == i then x.duration else ladders[j - 1].duration;
      var after := if k < i then ladders[k].duration else if k == i then x.duration else ladders[k - 1].duration;
      assert r[j].duration == before && r[k].duration == after;
    }
  }

  lemma SpliceKeeps(ladders: seq<Rung>, i: nat, x: Rung)
    requires i <= |ladders|
    ensures multiset(ladders[..i] + [x] + ladders[i..]) == multiset(ladders) + multiset{x}
  {
    assert ladders == ladders[..i] + ladders[i..];
  }

  method InsertRung(ladders: seq<Rung>, x: Rung) returns (r: seq<Rung>)
    requires SortedRungs(ladders)
    ensures SortedRungs(r) && multiset(r) == multiset(ladders) + multiset{x}
  {
    var i := |ladders|;
    while i > 0 && ladders[i - 1].duration > x.duration
      invariant 0 <= i <= |ladders|
      invariant i < |ladders| ==> ladders[i].duration > x.duration
    {
      i := i - 1;
    }
    r := ladders[..i] + [x] + ladders[i..];
    SpliceKeeps(ladders, i, x);
    SpliceSorted(ladders, i, x, r);
  }

  /** Sorts a copy of the configured ladders by duration. */
  method SortLadders(config: seq<Rung>) returns (ladders: seq<Rung>)
    ensures SortedRungs(ladders)
    ensures multiset(ladders) == multiset(config)
  {
    ladders := [];
    for k := 0 to |config|
      invariant SortedRungs(ladders)
      invariant multiset(ladders) == multiset(config[..k])
    {
      ladders := InsertRung(ladders, config[k]);
      assert config[..k + 1] == config[..k] + [config[k]];
    }
    assert config[..|config|] == config;
  }

  // ---- matchDelayLadder ----

  /** The first rung that is long enough, else the last one. */
  function FirstFit(ladders: seq<Rung>, delay: int): Rung
    requires ladders != []
  {
    if delay <= ladders[0].duration || |ladders| == 1 then ladders[0] else FirstFit(ladders[1..], delay)
  }

  method MatchDelayLadder(ladders: seq<Rung>, delay: int) returns (rung: Rung)
    ensures rung == if ladders == [] then DEFAULT_RUNG else FirstFit(ladders, delay)
  {
    if ladders == [] {
      return DEFAULT_RUNG;
    }
    if delay <= ladders[0].duration {
      return ladders[0];
    }
    for i := 1 to |ladders|
      invariant delay > ladders[i - 1].duration
      invariant FirstFit(ladders, delay) == FirstFit(ladders[i - 1..], delay)
    {
      assert ladders[i - 1..][1..] == ladders[i..];
      if delay <= ladders[i].duration {
        return ladders[i];
      }
    }
    assert ladders[|ladders| - 1..] == [ladders[|ladders| - 1]];
    return ladders[|ladders| - 1];
  }

  predicate Reaches(ladders: seq<Rung>, delay: int) {
    exists i :: 0 <= i < |ladders| && ladders[i].duration >= delay
  }

  /** On sorted ladders the choice is the least rung that covers the delay; past the largest rung it is a largest one. */
  lemma {:induction false} FirstFitIsLeast(ladders: seq<Rung>, delay: int)
    requires ladders != [] && SortedRungs(ladders)
    ensures FirstFit(ladders, delay) in ladders
    ensures FirstFit(ladders, delay).duration >= delay <==> Reaches(ladders, delay)
    ensures Reaches(ladders, delay) ==>
      forall r :: r in ladders && r.duration >= delay ==> FirstFit(ladders, delay).duration <= r.duration
    ensures !Reaches(ladders, delay) ==> forall r :: r in ladders ==> r.duration <= FirstFit(ladders, delay).duration
  {
    if delay > ladders[0].duration && |ladders| > 1 {
      var rest := ladders[1..];
      FirstFitIsLeast(rest, delay);
      if Reaches(ladders, delay) {
        var i :| 0 <= i < |ladders| && ladders[i].duration >= delay;
        assert rest[i - 1].duration >= delay;
      }
      if Reaches(rest, delay) {
        var i :| 0 <= i < |rest| && rest[i].duration >= delay;
        assert ladders[i + 1].duration >= delay;
      }
      forall r | r in ladders ensures r == ladders[0] || r in rest {
        var i :| 0 <= i < |ladders| && ladders[i] == r;
        assert i > 0 ==> rest[i - 1] == r;
      }
    } else {
      assert ladders[0].duration >= delay ==> Reaches(ladders, delay);
    }
  }

  /** The library sort is not stable, but every sorted arrangement of one configuration leads to the same duration. */
  lemma ChoiceIgnoresTies(a: seq<Rung>, b: seq<Rung>, delay: int)
    requires a != [] && b != [] && SortedRungs(a) && SortedRungs(b) && multiset(a) == multiset(b)
    ensures FirstFit(a, delay).duration == FirstFit(b, delay).duration
  {
    hide FirstFit;
    FirstFitIsLeast(a, delay);
    FirstFitIsLeast(b, delay);
    forall r | r in a ensures r in b { assert r in multiset(b); }
    forall r | r in b ensures r in a { assert r in multiset(a); }
    var ra, rb := FirstFit(a, delay), FirstFit(b, delay);
    assert ra in b && rb in a;
    if Reaches(a, delay) {
      var i :| 0 <= i < |b| && b[i] == ra;
      assert Reaches(b, delay);
    }
    if Reaches(b, delay) {
      var i :| 0 <= i < |a| && a[i] == rb;
      assert Reaches(a, delay);
    }
  }

  // ---- queue expiry ----

  /** Go's Duration.Milliseconds truncates toward zero. */
  function Milliseconds(duration: int): int {
    if duration >= 0 then duration / MILLISECOND else -((-duration) / MILLISECOND)
  }

  /** The x-message-ttl of a rung's queue. */
  function TtlMs(rung: Rung): int {
    if Milliseconds(rung.duration) < 1 then 1 else Milliseconds(rung.duration)
  }

  /** The lifetime is the rung's duration in whole milliseconds, and never less than one. */
  lemma TtlIsDuration(rung: Rung)
    ensures if rung.duration < MILLISECOND then TtlMs(rung) == 1
      else rung.duration - MILLISECOND < TtlMs(rung) * MILLISECOND <= rung.duration
  {
  }

  /** A queued message: when it was enqueued and how long it may stay, in nanoseconds. */
  datatype Message = Message(enqueuedAt: int, ttl: int)

  function ExpiresAt(m: Message): int {
    m.enqueuedAt + m.ttl
  }

  /** Messages leave from the head only: each waits for its own expiry and for its predecessor's departure. */
  function DepartsAt(queue: seq<Message>, i: nat): int
    requires i < |queue|
  {
    if i == 0 || DepartsAt(queue, i - 1) <= ExpiresAt(queue[i]) then ExpiresAt(queue[i])
    else DepartsAt(queue, i - 1)
  }

  /** A message leaves on time exactly when nothing ahead of it expires later. */
  lemma {:induction false} OnTimeIff(queue: seq<Message>, i: nat)
    requires i < |queue|
    ensures DepartsAt(queue, i) >= ExpiresAt(queue[i])
    ensures forall j :: 0 <= j < i ==> DepartsAt(queue, i) >= ExpiresAt(queue[j])
    ensures DepartsAt(queue, i) == ExpiresAt(queue[i]) <==> forall j :: 0 <= j < i ==> ExpiresAt(queue[j]) <= ExpiresAt(queue[i])
    ensures exists j :: 0 <= j <= i && DepartsAt(queue, i) == ExpiresAt(queue[j])
  {
    if i > 0 {
      OnTimeIff(queue, i - 1);
    }
  }

  /** A queue in arrival order whose messages all live equally long has no head-of-line blocking. */
  lemma UniformTtlOnTime(queue: seq<Message>, i: nat)
    requires i < |queue|
    requires forall j :: 0 <= j < |queue| ==> queue[j].ttl == queue[i].ttl
    requires forall j, k :: 0 <= j < k < |queue| ==> queue[j].enqueuedAt <= queue[k].enqueuedAt
    ensures DepartsAt(queue, i) == queue[i].enqueuedAt + queue[i].ttl
  {
    OnTimeIff(queue, i);
  }

  /** With per-message lifetimes, as in the single legacy queue, a short message behind a long one is held up. */
  lemma PerMessageTtlBlocks(long: int, short: int)
    requires short < long
    ensures DepartsAt([Message(0, long), Message(0, short)], 1) == long
  {
    OnTimeIff([Message(0, long), Message(0, short)], 1);
  }

  // ---- from deadline to arrival ----

  predicate WholeMilliseconds(ladders: seq<Rung>) {
    forall r :: r in ladders ==> r.duration > 0 && r.duration % MILLISECOND == 0
  }

  /** A rung's queue: arrival order, every message with the queue's lifetime. */
  predicate RungQueue(queue: seq<Message>, rung: Rung) {
    && (forall j :: 0 <= j < |queue| ==> queue[j].ttl == TtlMs(rung) * MILLISECOND)
    && (forall j, k :: 0 <= j < k < |queue| ==> queue[j].enqueuedAt <= queue[k].enqueuedAt)
  }

  /** An event published at `now` and enqueued as message `i` of its rung's queue departs exactly one rung later. If the
      remaining delay is within the largest rung it never arrives before its deadline. */
  lemma NeverBeforeDeadline(ladders: seq<Rung>, now: int, deadline: int, queue: seq<Message>, i: nat)
    requires ladders != [] && SortedRungs(ladders) && WholeMilliseconds(ladders)
    requires Reaches(ladders, deadline - now)
    requires i < |queue| && RungQueue(queue, FirstFit(ladders, deadline - now)) && queue[i].enqueuedAt >= now
    ensures DepartsAt(queue, i) == queue[i].enqueuedAt + FirstFit(ladders, deadline - now).duration
    ensures DepartsAt(queue, i) >= deadline
  {
    hide FirstFit, DepartsAt;
    var rung := FirstFit(ladders, deadline - now);
    FirstFitIsLeast(ladders, deadline - now);
    assert rung in ladders;
    assert TtlMs(rung) * MILLISECOND == rung.duration;
    UniformTtlOnTime(queue, i);
  }

  /** Exactly those delays are safe: however full the queue and however late the broker enqueues, the event never comes
      out before its deadline if and only if some rung covers its delay. */
  lemma OnTimeIffCovered(ladders: seq<Rung>, now: int, deadline: int)
    requires ladders != [] && SortedRungs(ladders) && WholeMilliseconds(ladders)
    ensures (forall queue: seq<Message>, i ::
              0 <= i < |queue| && RungQueue(queue, FirstFit(ladders, deadline - now)) && queue[i].enqueuedAt >= now ==>
                DepartsAt(queue, i) >= deadline)
      <==> Reaches(ladders, deadline - now)
  {
    hide FirstFit;
    var rung := FirstFit(ladders, deadline - now);
    FirstFitIsLeast(ladders, deadline - now);
    assert rung in ladders;
    assert TtlMs(rung) * MILLISECOND == rung.duration;
    if Reaches(ladders, deadline - now) {
      forall queue: seq<Message>, i | 0 <= i < |queue| && RungQueue(queue, rung) && queue[i].enqueuedAt >= now
        ensures DepartsAt(queue, i) >= deadline
      {
        NeverBeforeDeadline(ladders, now, deadline, queue, i);
      }
    } else {
      var alone := [Message(now, TtlMs(rung) * MILLISECOND)];
      assert RungQueue(alone, rung) && DepartsAt(alone, 0) < deadline;
    }
  }

  /** Enqueued at once, a message of its rung's queue is on time exactly then, whatever is queued before it. */
  lemma EnqueuedAtOnceIff(ladders: seq<Rung>, now: int, deadline: int, queue: seq<Message>, i: nat)
    requires ladders != [] && SortedRungs(ladders) && WholeMilliseconds(ladders)
    requires i < |queue| && RungQueue(queue, FirstFit(ladders, deadline - now)) && queue[i].enqueuedAt == now
    ensures DepartsAt(queue, i) >= deadline <==> Reaches(ladders, deadline - now)
  {
    hide FirstFit, DepartsAt;
    var rung := FirstFit(ladders, deadline - now);
    FirstFitIsLeast(ladders, deadline - now);
    assert rung in ladders;
    assert TtlMs(rung) * MILLISECOND == rung.duration;
    UniformTtlOnTime(queue, i);
  }
}
