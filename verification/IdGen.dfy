/** The Snowflake order-id generator: 41 bits of milliseconds, 10 bits of worker, 12 bits of sequence. */
module IdGen {
  import opened Domain
  import opened Backoff

  const MAX_WORKER := 1023
  const SEQUENCES := 4096
  const TIME_LIMIT := 0x200_0000_0000  // 2^41

  // ---- bit packing ----

  /** Bitwise or of natural numbers. */
  function BitOr(a: nat, b: nat): nat {
    if a == 0 then b
    else if b == 0 then a
    else 2 * BitOr(a / 2, b / 2) + (if a % 2 == 1 || b % 2 == 1 then 1 else 0)
  }

  /** The 64-bit pattern of an integer, and back. */
  function Unsigned64(x: int): nat {
    x % 0x1_0000_0000_0000_0000
  }

  function Signed64(x: nat): int {
    if x < 0x8000_0000_0000_0000 then x else x - 0x1_0000_0000_0000_0000
  }

  /** Shift, shift, or, on 64-bit words. */
  function Pack(elapsed: int, worker: nat, sequence: nat): int {
    Signed64(BitOr(BitOr(Unsigned64(elapsed * 0x40_0000), worker * 0x1000), sequence))
  }

  lemma {:induction false} BitOrDisjoint(high: nat, low: nat, k: nat)
    requires low < Pow2(k)
    ensures BitOr(high * Pow2(k), low) == high * Pow2(k) + low
  {
    if k > 0 && high > 0 && low > 0 {
      var h, l := high * Pow2(k), low;
      Pow2Monotone(0, k - 1);
      HalfOfMultiple(high, Pow2(k - 1));
      assert h == 2 * (high * Pow2(k - 1));
      BitOrDisjoint(high, l / 2, k - 1);
      Positive(high, Pow2(k));
    }
  }

  lemma HalfOfMultiple(high: nat, p: nat)
    ensures high * (2 * p) == 2 * (high * p)
    ensures (high * (2 * p)) / 2 == high * p && (high * (2 * p)) % 2 == 0
  {
    assert high * (2 * p) == 2 * (high * p);
  }

  lemma PowersOfTwo()
    ensures Pow2(12) == 0x1000 && Pow2(22) == 0x40_0000
  {
    assert Pow2(6) == 64;
    Pow2Sum(6, 6);
    assert Pow2(4) == 16 && Pow2(10) == 1024 by {
      Pow2Sum(6, 4);
    }
    Pow2Sum(12, 10);
  }

  predicate Fields(elapsed: int, worker: int, sequence: int) {
    0 <= elapsed && 0 <= worker <= MAX_WORKER && 0 <= sequence < SEQUENCES
  }

  /** For a clock up to 2^42 ms past the epoch the three fields never overlap. */
  lemma PackPattern(elapsed: int, worker: nat, sequence: nat)
    requires Fields(elapsed, worker, sequence) && elapsed < 2 * TIME_LIMIT
    ensures Pack(elapsed, worker, sequence)
      == Signed64(elapsed * 0x40_0000 + worker * 0x1000 + sequence)
  {
    PowersOfTwo();
    hide BitOr, Pow2;
    assert Unsigned64(elapsed * 0x40_0000) == elapsed * 0x40_0000;
    BitOrDisjoint(elapsed, worker * 0x1000, 22);
    var high := elapsed * 0x400 + worker;
    assert high * 0x1000 == elapsed * 0x40_0000 + worker * 0x1000;
    BitOrDisjoint(high, sequence, 12);
  }

  /** Inside the 41-bit window an id is the plain positional value, non-negative and below 2^63;
      beyond the window, up to 2^42 ms, the sign bit is taken. */
  lemma PackValue(elapsed: int, worker: nat, sequence: nat)
    requires Fields(elapsed, worker, sequence) && elapsed < 2 * TIME_LIMIT
    ensures Pack(elapsed, worker, sequence) >= 0 <==> elapsed < TIME_LIMIT
    ensures elapsed < TIME_LIMIT ==>
      Pack(elapsed, worker, sequence) == elapsed * 0x40_0000 + worker * 0x1000 + sequence < 0x8000_0000_0000_0000
  {
    PackPattern(elapsed, worker, sequence);
  }

  function Unpack(id: int): (int, int, int) {
    (id / 0x40_0000, id / 0x1000 % 0x400, id % 0x1000)
  }

  /** An id determines its time, worker and sequence. */
  lemma UnpackPack(elapsed: int, worker: nat, sequence: nat)
    requires Fields(elapsed, worker, sequence) && elapsed < TIME_LIMIT
    ensures Unpack(Pack(elapsed, worker, sequence)) == (elapsed, worker, sequence)
  {
    hide Pack;
    PackValue(elapsed, worker, sequence);
    Digits(elapsed, worker, sequence);
  }

  lemma Digits(elapsed: nat, worker: nat, sequence: nat)
    requires worker < 0x400 && sequence < 0x1000
    ensures var id := elapsed * 0x40_0000 + worker * 0x1000 + sequence;
      id / 0x40_0000 == elapsed && id / 0x1000 % 0x400 == worker && id % 0x1000 == sequence
  {
    var high, id := elapsed * 0x400 + worker, elapsed * 0x40_0000 + worker * 0x1000 + sequence;
    assert id == high * 0x1000 + sequence;
    Split(high, 0x1000, sequence);
    Split(elapsed, 0x400, worker);
    Split(elapsed, 0x40_0000, worker * 0x1000 + sequence);
  }

  lemma Split(high: nat, base: nat, low: nat)
    requires low < base
    ensures (high * base + low) / base == high && (high * base + low) % base == low
  {
    var n := high * base + low;
    assert n == base * (n / base) + n % base;
    assert base * (n / base - high) == low - n % base;
    NoMultipleBetween(base, n / base - high, low - n % base);
  }

  lemma NoMultipleBetween(base: nat, k: int, d: int)
    requires base * k == d && d < base && -d < base
    ensures k == 0
  {
  }

  // ---- one call ----

  datatype Gen = Gen(epoch: int, worker: nat, last: int, sequence: nat)

  /** `Waiting`: the readings supplied so far do not let the call return. */
  datatype Reply = Issued(id: int) | ClockMovedBack(drift: int) | Waiting

  datatype ConfigError = InvalidWorkerID | InvalidEpoch

  /** First reading past `last`, for the spin loop. */
  function SpinUntil(clock: seq<int>, last: int): Option<int> {
    if clock == [] then None
    else if clock[0] > last then Some(clock[0])
    else SpinUntil(clock[1..], last)
  }

  function IdOf(g: Gen): int {
    Pack(g.last - g.epoch, g.worker, g.sequence)
  }

  function Stamp(g: Gen, now: int, sequence: nat): (Gen, Reply) {
    var next := g.(last := now, sequence := sequence);
    (next, Issued(IdOf(next)))
  }

  /** The call after the clock has been accepted as not behind. */
  function Advance(g: Gen, now: int, clock: seq<int>): (Gen, Reply) {
    if now != g.last then Stamp(g, now, 0)
    else if (g.sequence + 1) % SEQUENCES != 0 then Stamp(g, now, (g.sequence + 1) % SEQUENCES)
    else
      match SpinUntil(clock, g.last)
      case None => (g.(sequence := 0), Waiting)
      case Some(later) => Stamp(g, later, 0)
  }

  /** One call, given the clock readings it gets. */
  function NextId(g: Gen, clock: seq<int>): (Gen, Reply) {
    if clock == [] then (g, Waiting)
    else if clock[0] >= g.last then Advance(g, clock[0], clock[1..])
    else if g.last - clock[0] > 100 then (g, ClockMovedBack(g.last - clock[0]))
    else if |clock| == 1 then (g, Waiting)
    else if clock[1] < g.last then (g, ClockMovedBack(g.last - clock[1]))
    else Advance(g, clock[1], clock[2..])
  }

  class Snowflake {
    const epoch: int
    const workerId: nat
    var lastTimestamp: int
    var sequence: nat

    function State(): Gen
      reads this
    {
      Gen(epoch, workerId, lastTimestamp, sequence)
    }

    constructor (workerId: nat, epoch: int)
      ensures State() == Gen(epoch, workerId, -1, 0)
    {
      this.epoch, this.workerId := epoch, workerId;
      lastTimestamp, sequence := -1, 0;
    }

    /** NewSnowflakeWithEpoch: refuse a worker outside its 10 bits, then an epoch that is not in the past. */
    static method Create(workerId: int, epoch: int, wallClock: int) returns (error: Option<ConfigError>, g: Snowflake?)
      ensures error == if !(0 <= workerId <= MAX_WORKER) then Some(InvalidWorkerID)
                       else if !(0 < epoch <= wallClock) then Some(InvalidEpoch) else None
      ensures error == None ==> g != null && fresh(g) && g.State() == Gen(epoch, workerId, -1, 0) && GenInv(g.State())
      ensures error != None ==> g == null
    {
      if workerId < 0 || workerId > MAX_WORKER {
        return Some(InvalidWorkerID), null;
      }
      if epoch <= 0 || epoch > wallClock {
        return Some(InvalidEpoch), null;
      }
      g := new Snowflake(workerId, epoch);
      error := None;
    }

    method NextIDWithError(clock: seq<int>) returns (reply: Reply)
      modifies this
      ensures (State(), reply) == NextId(old(State()), clock)
    {
      if clock == [] {
        return Waiting;
      }
      var i := 1;
      var now := clock[0];
      if now < lastTimestamp {
        var drift := lastTimestamp - now;
        if drift <= 100 {
          if |clock| == 1 {
            return Waiting;
          }
          now, i := clock[1], 2;
        }
        if now < lastTimestamp {
          return ClockMovedBack(lastTimestamp - now);
        }
      }
      if now == lastTimestamp {
        sequence := (sequence + 1) % SEQUENCES;
        if sequence == 0 {
          ghost var rest := clock[i..];
          while now <= lastTimestamp
            invariant i <= |clock|
            invariant now <= lastTimestamp ==> SpinUntil(rest, lastTimestamp) == SpinUntil(clock[i..], lastTimestamp)
            invariant now > lastTimestamp ==> SpinUntil(rest, lastTimestamp) == Some(now)
            decreases |clock| - i
          {
            if i == |clock| {
              return Waiting;
            }
            now, i := clock[i], i + 1;
          }
        }
      } else {
        sequence := 0;
      }
      lastTimestamp := now;
      reply := Issued(Pack(now - epoch, workerId, sequence));
    }
  }

  // ---- what a call answers, over its readings ----

  /** The clock is reported: the first reading is more than 100 behind, or it is behind and the second is too. */
  predicate Reports(g: Gen, clock: seq<int>) {
    clock != [] && clock[0] < g.last && (g.last - clock[0] > 100 || (|clock| > 1 && clock[1] < g.last))
  }

  /** Reading `i` is the one the call accepts. */
  predicate AcceptsAt(g: Gen, clock: seq<int>, i: int) {
    || (i == 0 && |clock| > 0 && clock[0] >= g.last)
    || (i == 1 && |clock| > 1 && g.last - 100 <= clock[0] < g.last && clock[1] >= g.last)
  }

  /** Reading `j` is the first after `i` that is past the last millisecond. */
  predicate FirstLater(g: Gen, clock: seq<int>, i: int, j: int) {
    0 <= i < j < |clock| && clock[j] > g.last && forall m :: i < m < j ==> clock[m] <= g.last
  }

  predicate NoneLater(g: Gen, clock: seq<int>, i: int) {
    0 <= i && forall m :: i < m < |clock| ==> clock[m] <= g.last
  }

  /** The id of instant `at` and sequence `sequence` is issued and remembered. */
  predicate Issues(g: Gen, next: Gen, reply: Reply, at: int, sequence: nat) {
    && next == g.(last := at, sequence := sequence)
    && reply == Issued(Pack(at - g.epoch, g.worker, sequence))
    && (g.epoch <= at < g.epoch + TIME_LIMIT && g.worker <= MAX_WORKER && sequence < SEQUENCES ==>
          reply.id == (at - g.epoch) * 0x40_0000 + g.worker * 0x1000 + sequence)
  }

  lemma StampIssues(g: Gen, at: int, sequence: nat)
    ensures var (next, reply) := Stamp(g, at, sequence);
      Issues(g, next, reply, at, sequence)
  {
    hide Pack;
    if g.epoch <= at < g.epoch + TIME_LIMIT && g.worker <= MAX_WORKER && sequence < SEQUENCES {
      PackValue(at - g.epoch, g.worker, sequence);
    }
  }

  lemma {:induction false} SpinFirst(clock: seq<int>, last: int)
    ensures SpinUntil(clock, last) == None <==> forall m :: 0 <= m < |clock| ==> clock[m] <= last
    ensures forall j :: 0 <= j < |clock| && clock[j] > last && (forall m :: 0 <= m < j ==> clock[m] <= last) ==>
      SpinUntil(clock, last) == Some(clock[j])
  {
    if clock != [] && clock[0] <= last {
      SpinFirst(clock[1..], last);
      assert forall m :: 0 < m < |clock| ==> clock[m] == clock[1..][m - 1];
      forall j | 0 <= j < |clock| && clock[j] > last && (forall m :: 0 <= m < j ==> clock[m] <= last)
        ensures SpinUntil(clock, last) == Some(clock[j])
      {
        assert clock[1..][j - 1] == clock[j];
      }
    }
  }

  /** Once a reading is accepted: a new millisecond starts at sequence 0, the same one continues with the next sequence, and
      after 4095 the call waits for the first later reading and starts that one at 0. */
  ghost predicate AnswersAt(g: Gen, next: Gen, reply: Reply, clock: seq<int>, i: int)
    requires 0 <= i < |clock|
  {
    && (clock[i] > g.last ==> Issues(g, next, reply, clock[i], 0))
    && (clock[i] == g.last && g.sequence < SEQUENCES - 1 ==> Issues(g, next, reply, g.last, g.sequence + 1))
    && (clock[i] == g.last && g.sequence == SEQUENCES - 1 ==>
          && (forall j :: FirstLater(g, clock, i, j) ==> Issues(g, next, reply, clock[j], 0))
          && (NoneLater(g, clock, i) ==> reply == Waiting))
  }

  lemma AdvanceAnswers(g: Gen, clock: seq<int>, i: int)
    requires GenInv(g) && 0 <= i < |clock| && clock[i] >= g.last
    ensures var (next, reply) := Advance(g, clock[i], clock[i + 1..]);
      AnswersAt(g, next, reply, clock, i) && !reply.ClockMovedBack?
  {
    hide Pack, Issues;
    var rest := clock[i + 1..];
    assert forall m :: i < m < |clock| ==> clock[m] == rest[m - i - 1];
    SpinFirst(rest, g.last);
    StampIssues(g, clock[i], 0);
    StampIssues(g, clock[i], (g.sequence + 1) % SEQUENCES);
    forall j | FirstLater(g, clock, i, j) ensures SpinUntil(rest, g.last) == Some(clock[j]) {
      assert rest[j - i - 1] == clock[j];
    }
    if SpinUntil(rest, g.last).Some? {
      StampIssues(g, SpinUntil(rest, g.last).value, 0);
    }
  }

  /** The answer of one call as a matter of its readings alone: when the clock is reported and by how much, and otherwise
      which id is issued once the readings suffice. */
  lemma CallAnswers(g: Gen, clock: seq<int>)
    requires GenInv(g)
    ensures var (next, reply) := NextId(g, clock);
      && (reply.ClockMovedBack? <==> Reports(g, clock))
      && (Reports(g, clock) ==>
            next == g && reply.drift == g.last - (if g.last - clock[0] > 100 then clock[0] else clock[1]))
      && (forall i :: AcceptsAt(g, clock, i) ==> AnswersAt(g, next, reply, clock, i))
      && (!Reports(g, clock) && (forall i :: !AcceptsAt(g, clock, i)) ==> reply == Waiting && next == g)
  {
    hide Advance, AnswersAt;
    if AcceptsAt(g, clock, 0) {
      AdvanceAnswers(g, clock, 0);
    } else if AcceptsAt(g, clock, 1) {
      AdvanceAnswers(g, clock, 1);
    }
  }

  // ---- many calls ----

  predicate GenInv(g: Gen) {
    g.worker <= MAX_WORKER && g.sequence < SEQUENCES
  }

  /** Clock readings within the 41 bits after the epoch. */
  predicate InWindow(g: Gen, clock: seq<int>) {
    forall i :: 0 <= i < |clock| ==> g.epoch <= clock[i] < g.epoch + TIME_LIMIT
  }

  /** `id` is past everything the generator has issued. */
  predicate Past(g: Gen, id: int) {
    g.epoch <= g.last ==> id > IdOf(g)
  }

  lemma {:induction false} SpinIsReading(clock: seq<int>, last: int)
    ensures SpinUntil(clock, last).Some? ==> SpinUntil(clock, last).value in clock && SpinUntil(clock, last).value > last
  {
    if clock != [] && clock[0] <= last {
      SpinIsReading(clock[1..], last);
    }
  }

  /** A later instant, or the same instant with a larger sequence, packs to a larger id. */
  lemma PackIncreases(g: Gen, now: int, sequence: nat)
    requires GenInv(g) && sequence < SEQUENCES
    requires g.epoch <= now < g.epoch + TIME_LIMIT && g.last < g.epoch + TIME_LIMIT
    requires now > g.last || (now == g.last && sequence > g.sequence)
    ensures Past(g, Pack(now - g.epoch, g.worker, sequence))
  {
    hide Pack;
    PackValue(now - g.epoch, g.worker, sequence);
    if g.epoch <= g.last {
      PackValue(g.last - g.epoch, g.worker, g.sequence);
    }
  }

  lemma AdvanceIncreases(g: Gen, now: int, clock: seq<int>)
    requires GenInv(g) && g.last < g.epoch + TIME_LIMIT && InWindow(g, clock)
    requires g.last <= now && g.epoch <= now < g.epoch + TIME_LIMIT
    ensures var (next, reply) := Advance(g, now, clock);
      && GenInv(next)
      && (reply.Issued? ==> Past(g, reply.id) && reply.id == IdOf(next) && g.epoch <= next.last < g.epoch + TIME_LIMIT)
      && !reply.ClockMovedBack?
  {
    hide Pack;
    SpinIsReading(clock, g.last);
    var (next, reply) := Advance(g, now, clock);
    if reply.Issued? {
      PackIncreases(g, next.last, next.sequence);
    }
  }

  /** One call issues an id past all earlier ones, or reports the clock and changes nothing. */
  lemma CallIncreases(g: Gen, clock: seq<int>)
    requires GenInv(g) && g.last < g.epoch + TIME_LIMIT && InWindow(g, clock)
    ensures var (next, reply) := NextId(g, clock);
      && GenInv(next) && next.epoch == g.epoch && next.worker == g.worker
      && (reply.Issued? ==> Past(g, reply.id) && reply.id == IdOf(next) && g.epoch <= next.last < g.epoch + TIME_LIMIT)
      && (reply.ClockMovedBack? ==> next == g)
  {
    if clock != [] && clock[0] >= g.last {
      AdvanceIncreases(g, clock[0], clock[1..]);
    } else if |clock| > 1 && clock[1] >= g.last {
      AdvanceIncreases(g, clock[1], clock[2..]);
    }
  }

  /** The ids issued by consecutive calls; a call that never returns is the last. */
  function Ids(g: Gen, calls: seq<seq<int>>): seq<int>
    decreases |calls|
  {
    if calls == [] then []
    else
      var (next, reply) := NextId(g, calls[0]);
      match reply
      case Issued(id) => [id] + Ids(next, calls[1..])
      case ClockMovedBack(_) => Ids(next, calls[1..])
      case Waiting => []
  }

  /** Whatever the clock does, one generator's ids strictly increase, are non-negative, and carry its worker. */
  lemma {:induction false} IdsIncrease(g: Gen, calls: seq<seq<int>>)
    requires GenInv(g) && g.last < g.epoch + TIME_LIMIT
    requires forall c :: c in calls ==> InWindow(g, c)
    ensures forall i :: 0 <= i < |Ids(g, calls)| ==> Past(g, Ids(g, calls)[i]) && 0 <= Ids(g, calls)[i] < 0x8000_0000_0000_0000
    ensures forall i :: 0 <= i < |Ids(g, calls)| ==> Unpack(Ids(g, calls)[i]).1 == g.worker
    ensures forall i, j :: 0 <= i < j < |Ids(g, calls)| ==> Ids(g, calls)[i] < Ids(g, calls)[j]
    decreases |calls|
  {
    hide NextId, Pack, Unpack;
    if calls != [] {
      CallIncreases(g, calls[0]);
      var (next, reply) := NextId(g, calls[0]);
      assert forall c :: c in calls[1..] ==> c in calls;
      if reply.Issued? {
        PackValue(next.last - g.epoch, g.worker, next.sequence);
        UnpackPack(next.last - g.epoch, g.worker, next.sequence);
        IdsIncrease(next, calls[1..]);
      } else if reply.ClockMovedBack? {
        IdsIncrease(g, calls[1..]);
      }
    }
  }

  /** Generators with different workers never issue the same id, even with different epochs. */
  lemma WorkersNeverCollide(g: Gen, h: Gen, gCalls: seq<seq<int>>, hCalls: seq<seq<int>>, i: nat, j: nat)
    requires GenInv(g) && g.last < g.epoch + TIME_LIMIT && forall c :: c in gCalls ==> InWindow(g, c)
    requires GenInv(h) && h.last < h.epoch + TIME_LIMIT && forall c :: c in hCalls ==> InWindow(h, c)
    requires g.worker != h.worker && i < |Ids(g, gCalls)| && j < |Ids(h, hCalls)|
    ensures Ids(g, gCalls)[i] != Ids(h, hCalls)[j]
  {
    hide Ids, Unpack;
    IdsIncrease(g, gCalls);
    IdsIncrease(h, hCalls);
  }

  /** With a positive worker, as the default generator has, every id is positive. */
  lemma PositiveIds(g: Gen, calls: seq<seq<int>>, i: nat)
    requires GenInv(g) && g.last < g.epoch + TIME_LIMIT && (forall c :: c in calls ==> InWindow(g, c))
    requires g.worker > 0 && i < |Ids(g, calls)|
    ensures Ids(g, calls)[i] > 0
  {
    hide Ids;
    IdsIncrease(g, calls);
  }
}
