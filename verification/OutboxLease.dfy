/** Several publishers sharing the outbox: claims are disjoint, bounded and a lease apart. */
module OutboxLease {
  import opened Domain
  import opened Outbox
  import opened Backoff
  import Sums

  /** A claim transaction between its locking select and its commit; `at` is the clock reading it was given. */
  datatype Claim = Claim(ids: seq<int>, at: int)

  /** A committed claim of one row. */
  datatype Grant = Grant(row: int, at: int)

  /** `retryDelay` is both the lease and the back-off base. `granted` records history. */
  datatype Pool = Pool(
    rows: seq<OutboxRow>, now: int, retryDelay: int, open: map<int, Claim>, granted: seq<Grant>)

  datatype Step =
    | Tick(to: int)
    | Insert(inserted: OutboxRow)
    | OpenClaim(worker: int, at: int, limit: int)
    | CommitClaim(worker: int)
    | AbortClaim(worker: int)
    | Publish(row: int, at: int)
    | Fail(row: int, attempts: int, at: int)

  function Initial(retryDelay: int): Pool {
    Pool([], 0, retryDelay, map[], [])
  }

  /** Rows locked by open claims. */
  function LockedRows(s: Pool): set<int> {
    set w, i | w in s.open && i in s.open[w].ids :: i
  }

  /** Marks wait for the row lock; a worker reports the attempt number of a claim that did happen;
      clock readings may be old but not from the future. */
  predicate Enabled(s: Pool, step: Step) {
    match step
    case Tick(to) => to >= s.now
    case Insert(row) => row.publishedAt.None? && row.attempts == 0
    case OpenClaim(w, at, _) => w !in s.open && at <= s.now
    case CommitClaim(w) => w in s.open
    case AbortClaim(w) => w in s.open
    case Publish(i, at) => 0 <= i < |s.rows| && i !in LockedRows(s) && at <= s.now
    case Fail(i, k, at) => 0 <= i < |s.rows| && i !in LockedRows(s) && 1 <= k <= s.rows[i].attempts && at <= s.now
  }

  function Grants(ids: seq<int>, at: int): (r: seq<Grant>)
    ensures |r| == |ids| && forall k :: 0 <= k < |ids| ==> r[k] == Grant(ids[k], at)
  {
    seq(|ids|, k requires 0 <= k < |ids| => Grant(ids[k], at))
  }

  function Apply(s: Pool, step: Step): Pool
    requires Enabled(s, step)
  {
    match step
    case Tick(to) => s.(now := to)
    case Insert(row) => s.(rows := s.rows + [row])
    case OpenClaim(w, at, limit) =>
      s.(open := s.open[w := Claim(Pick(s.rows, LockedRows(s), at, limit, DEFAULT_MAX_ATTEMPTS, 0), at)])
    case CommitClaim(w) =>
      var c := s.open[w];
      s.(rows := Leased(s.rows, c.ids, c.at + s.retryDelay), open := s.open - {w}, granted := s.granted + Grants(c.ids, c.at))
    case AbortClaim(w) => s.(open := s.open - {w})
    case Publish(i, at) => s.(rows := Published(s.rows, i, at))
    case Fail(i, k, at) =>
      s.(rows := Postponed(s.rows, i, at + CalculateExponentialBackoff(s.retryDelay, k, MAX_OUTBOX_BACKOFF)))
  }

  /** When the failure record lets the row be tried again. */
  function RetryAt(s: Pool, step: Step): int
    requires step.Fail?
  {
    step.at + CalculateExponentialBackoff(s.retryDelay, step.attempts, MAX_OUTBOX_BACKOFF)
  }

  /** No lease of the row runs past instant `at`. */
  predicate LeasesOver(s: Pool, row: int, at: int) {
    forall k :: 0 <= k < |s.granted| && s.granted[k].row == row ==> at >= s.granted[k].at + s.retryDelay
  }

  /** A row that may be claimed again some day. */
  predicate Claimable(row: OutboxRow) {
    row.publishedAt.None? && row.attempts < DEFAULT_MAX_ATTEMPTS
  }

  /** A failure record cuts no lease short: the next attempt it sets is not before the end of any lease of its row,
      unless the row cannot be claimed again anyway. */
  predicate Harmless(s: Pool, step: Step)
    requires Enabled(s, step)
  {
    step.Fail? && Claimable(s.rows[step.row]) ==> LeasesOver(s, step.row, RetryAt(s, step))
  }

  /** A failure is recorded with a clock reading no older than the latest claim of its row. */
  predicate Timely(s: Pool, step: Step) {
    step.Fail? ==> forall k :: 0 <= k < |s.granted| && s.granted[k].row == step.row ==> step.at >= s.granted[k].at
  }

  /** Any two claims of one row are at least a lease apart. */
  predicate Spaced(granted: seq<Grant>, lease: int) {
    forall i, j :: 0 <= i < j < |granted| && granted[i].row == granted[j].row ==> granted[j].at >= granted[i].at + lease
  }

  /** How often a row has been claimed. */
  function Claims(granted: seq<Grant>, row: int): nat {
    if granted == [] then 0
    else Claims(granted[..|granted| - 1], row) + (if granted[|granted| - 1].row == row then 1 else 0)
  }

  // ---- invariants ----

  /** An open claim locks distinct rows, all still due at its reading. */
  predicate ClaimInv(s: Pool, c: Claim) {
    && c.at <= s.now
    && (forall k :: 0 <= k < |c.ids| ==> 0 <= c.ids[k] < |s.rows| && Due(s.rows[c.ids[k]], c.at, DEFAULT_MAX_ATTEMPTS))
    && (forall j, k :: 0 <= j < k < |c.ids| ==> c.ids[j] != c.ids[k])
  }

  /** Concurrent claims never share a row. */
  predicate DisjointClaims(s: Pool) {
    forall v, w, i :: v in s.open && w in s.open && i in s.open[v].ids && i in s.open[w].ids ==> v == w
  }

  /** Attempts count the claims and never exceed the maximum. */
  ghost predicate AttemptsInv(s: Pool) {
    && (forall i :: 0 <= i < |s.rows| ==> s.rows[i].attempts == Claims(s.granted, i) <= DEFAULT_MAX_ATTEMPTS)
    && (forall k :: 0 <= k < |s.granted| ==> 0 <= s.granted[k].row < |s.rows| && s.granted[k].at <= s.now)
  }

  ghost predicate PoolInv(s: Pool) {
    (forall w :: w in s.open ==> ClaimInv(s, s.open[w])) && DisjointClaims(s) && AttemptsInv(s)
  }

  /** As long as it may be claimed again, a row is not due before a lease after each of its claims. */
  predicate LeaseInv(s: Pool) {
    && Spaced(s.granted, s.retryDelay)
    && forall k :: 0 <= k < |s.granted| && 0 <= s.granted[k].row < |s.rows| && Claimable(s.rows[s.granted[k].row]) ==>
         s.rows[s.granted[k].row].nextAttemptAt >= s.granted[k].at + s.retryDelay
  }

  /** What a step may do to an existing row. */
  predicate RowEvolves(a: OutboxRow, b: OutboxRow) {
    && b.orderId == a.orderId && b.timeoutAt == a.timeoutAt
    && a.attempts <= b.attempts
    && (a.publishedAt.Some? ==> a == b)
  }

  predicate RowsEvolve(a: seq<OutboxRow>, b: seq<OutboxRow>) {
    |a| <= |b| && forall i :: 0 <= i < |a| ==> RowEvolves(a[i], b[i])
  }

  lemma {:induction false} ClaimsAppend(granted: seq<Grant>, more: seq<Grant>, row: int)
    ensures Claims(granted + more, row) == Claims(granted, row) + Claims(more, row)
  {
    if more == [] {
      assert granted + more == granted;
    } else {
      var n := |more| - 1;
      assert (granted + more)[..|granted + more| - 1] == granted + more[..n];
      ClaimsAppend(granted, more[..n], row);
    }
  }

  lemma {:induction false} ClaimsOfGrants(ids: seq<int>, at: int, row: int)
    requires forall j, k :: 0 <= j < k < |ids| ==> ids[j] != ids[k]
    ensures Claims(Grants(ids, at), row) == if row in ids then 1 else 0
  {
    if ids != [] {
      var n := |ids| - 1;
      assert Grants(ids, at)[..n] == Grants(ids[..n], at);
      ClaimsOfGrants(ids[..n], at, row);
      assert ids == ids[..n] + [ids[n]];
    }
  }

  lemma CommitAttempts(s: Pool, w: int)
    requires PoolInv(s) && w in s.open
    ensures AttemptsInv(Apply(s, CommitClaim(w)))
  {
    hide Claims, DisjointClaims;
    var c := s.open[w];
    assert ClaimInv(s, c);
    var after := Apply(s, CommitClaim(w));
    forall i | 0 <= i < |after.rows| ensures after.rows[i].attempts == Claims(after.granted, i) <= DEFAULT_MAX_ATTEMPTS {
      ClaimsAppend(s.granted, Grants(c.ids, c.at), i);
      ClaimsOfGrants(c.ids, c.at, i);
      if i in c.ids {
        var k :| 0 <= k < |c.ids| && c.ids[k] == i;
        assert Due(s.rows[i], c.at, DEFAULT_MAX_ATTEMPTS);
      }
    }
  }

  lemma OpenKeeps(s: Pool, w: int, at: int, limit: int)
    requires PoolInv(s) && Enabled(s, OpenClaim(w, at, limit))
    ensures PoolInv(Apply(s, OpenClaim(w, at, limit)))
  {
    hide Claims;
    PickedAreDue(s.rows, LockedRows(s), at, limit, DEFAULT_MAX_ATTEMPTS, 0);
    var after := Apply(s, OpenClaim(w, at, limit));
    var ids := after.open[w].ids;
    assert ClaimInv(after, after.open[w]);
    forall i | i in ids ensures i !in LockedRows(s) {
      var k :| 0 <= k < |ids| && ids[k] == i;
    }
    forall v | v in after.open ensures ClaimInv(after, after.open[v]) {
      assert v != w ==> ClaimInv(s, s.open[v]);
    }
    forall v, i | v in s.open && i in s.open[v].ids ensures i !in ids {
      assert i in LockedRows(s);
    }
  }

  lemma ClaimsKept(s: Pool, step: Step)
    requires PoolInv(s) && Enabled(s, step) && !step.OpenClaim?
    ensures var after := Apply(s, step);
      (forall w :: w in after.open ==> ClaimInv(after, after.open[w])) && DisjointClaims(after)
  {
    hide Pick, Claims, CalculateExponentialBackoff, AttemptsInv;
    var after := Apply(s, step);
    forall w | w in after.open ensures ClaimInv(after, after.open[w]) {
      assert ClaimInv(s, s.open[w]);
      forall k | 0 <= k < |after.open[w].ids|
        ensures 0 <= after.open[w].ids[k] < |after.rows|
        ensures after.rows[after.open[w].ids[k]] == s.rows[s.open[w].ids[k]]
      {
        var i := s.open[w].ids[k];
        assert i in s.open[w].ids && i in LockedRows(s);
      }
    }
  }

  lemma StepKeeps(s: Pool, step: Step)
    requires PoolInv(s) && Enabled(s, step)
    ensures PoolInv(Apply(s, step)) && Apply(s, step).retryDelay == s.retryDelay
    ensures RowsEvolve(s.rows, Apply(s, step).rows)
  {
    hide Pick, Claims, CalculateExponentialBackoff;
    match step {
      case OpenClaim(w, at, limit) => OpenKeeps(s, w, at, limit);
      case CommitClaim(w) =>
        CommitAttempts(s, w);
        ClaimsKept(s, step);
        CommitEvolves(s, w);
      case Insert(row) =>
        ClaimsKept(s, step);
        NewRowUnclaimed(s.granted, |s.rows|);
      case _ => ClaimsKept(s, step);
    }
  }

  lemma CommitEvolves(s: Pool, w: int)
    requires w in s.open && ClaimInv(s, s.open[w])
    ensures RowsEvolve(s.rows, Apply(s, CommitClaim(w)).rows)
  {
    var c := s.open[w];
    forall i | 0 <= i < |s.rows| ensures RowEvolves(s.rows[i], Leased(s.rows, c.ids, c.at + s.retryDelay)[i]) {
      if i in c.ids {
        var k :| 0 <= k < |c.ids| && c.ids[k] == i;
      }
    }
  }

  lemma {:induction false} NewRowUnclaimed(granted: seq<Grant>, row: int)
    requires forall k :: 0 <= k < |granted| ==> granted[k].row < row
    ensures Claims(granted, row) == 0
  {
    if granted != [] {
      NewRowUnclaimed(granted[..|granted| - 1], row);
    }
  }

  lemma CommitKeepsLease(s: Pool, w: int)
    requires PoolInv(s) && LeaseInv(s) && s.retryDelay > 0 && w in s.open
    ensures LeaseInv(Apply(s, CommitClaim(w)))
  {
    hide Claims, DisjointClaims;
    var c := s.open[w];
    assert ClaimInv(s, c);
    var after := Apply(s, CommitClaim(w));
    var n := |s.granted|;
    forall g, k | 0 <= g < n && 0 <= k < |c.ids| && s.granted[g].row == c.ids[k]
      ensures c.at >= s.granted[g].at + s.retryDelay
    {
      assert Due(s.rows[c.ids[k]], c.at, DEFAULT_MAX_ATTEMPTS);
    }
    forall g | 0 <= g < |after.granted| && Claimable(after.rows[after.granted[g].row])
      ensures after.rows[after.granted[g].row].nextAttemptAt >= after.granted[g].at + s.retryDelay
    {
      var row := after.granted[g].row;
      if row in c.ids {
        var k :| 0 <= k < |c.ids| && c.ids[k] == row;
      }
    }
  }

  lemma StepKeepsLease(s: Pool, step: Step)
    requires PoolInv(s) && LeaseInv(s) && Enabled(s, step) && Harmless(s, step) && s.retryDelay > 0
    ensures LeaseInv(Apply(s, step))
  {
    hide Pick, Claims, CalculateExponentialBackoff, DisjointClaims, ClaimInv;
    if step.CommitClaim? {
      CommitKeepsLease(s, step.worker);
    }
  }

  /** A failure record keeps the lease invariant exactly when it is harmless. */
  lemma FailKeepsLeaseIff(s: Pool, step: Step)
    requires PoolInv(s) && LeaseInv(s) && Enabled(s, step) && step.Fail? && s.retryDelay > 0
    ensures LeaseInv(Apply(s, step)) <==> Harmless(s, step)
  {
    hide Pick, Claims, CalculateExponentialBackoff, DisjointClaims, ClaimInv;
    var after := Apply(s, step);
    if LeaseInv(after) && Claimable(s.rows[step.row]) {
      assert after.rows[step.row].nextAttemptAt == RetryAt(s, step) && Claimable(after.rows[step.row]);
    }
  }

  /** With the delay within the back-off cap, a timely failure record is harmless. */
  lemma TimelyIsHarmless(s: Pool, step: Step)
    requires Enabled(s, step) && Timely(s, step) && 0 < s.retryDelay <= MAX_OUTBOX_BACKOFF
    ensures Harmless(s, step)
  {
    hide CalculateExponentialBackoff, LockedRows;
    if step.Fail? {
      BackoffAtLeast(s.retryDelay, step.attempts, MAX_OUTBOX_BACKOFF);
    }
  }

  /** A claim whose lease is still running is the latest of its row. */
  lemma LatestClaim(s: Pool, own: nat)
    requires PoolInv(s) && Spaced(s.granted, s.retryDelay) && s.retryDelay > 0
    requires own < |s.granted| && s.now < s.granted[own].at + s.retryDelay
    ensures forall k :: 0 <= k < |s.granted| && s.granted[k].row == s.granted[own].row ==> k <= own && s.granted[k].at <= s.granted[own].at
  {
    hide Claims, DisjointClaims, ClaimInv;
    forall k | 0 <= k < |s.granted| && s.granted[k].row == s.granted[own].row
      ensures s.granted[k].at <= s.now && (k > own ==> s.granted[k].at >= s.granted[own].at + s.retryDelay)
      ensures k < own ==> s.granted[own].at >= s.granted[k].at + s.retryDelay
    {
    }
  }

  /** What a worker can check with its own claim: a failure recorded before that claim's lease has run out, with a reading
      not before the claim, is timely whatever other publishers did meanwhile. */
  lemma FailureWithinLeaseIsTimely(s: Pool, own: nat, attempts: int, at: int)
    requires PoolInv(s) && LeaseInv(s) && s.retryDelay > 0 && own < |s.granted|
    requires s.granted[own].at <= at && s.now < s.granted[own].at + s.retryDelay
    ensures Timely(s, Fail(s.granted[own].row, attempts, at))
  {
    hide Claims, DisjointClaims, ClaimInv;
    LatestClaim(s, own);
  }

  /** And then it is harmless exactly when its own next attempt is not before the end of its own lease. */
  lemma FailureWithinLeaseIff(s: Pool, own: nat, attempts: int, at: int)
    requires PoolInv(s) && LeaseInv(s) && s.retryDelay > 0 && own < |s.granted|
    requires s.granted[own].at <= at && s.now < s.granted[own].at + s.retryDelay
    requires Enabled(s, Fail(s.granted[own].row, attempts, at)) && Claimable(s.rows[s.granted[own].row])
    ensures Harmless(s, Fail(s.granted[own].row, attempts, at))
      <==> at + CalculateExponentialBackoff(s.retryDelay, attempts, MAX_OUTBOX_BACKOFF) >= s.granted[own].at + s.retryDelay
  {
    hide Claims, DisjointClaims, ClaimInv, CalculateExponentialBackoff, LockedRows;
    LatestClaim(s, own);
  }

  // ---- runs ----

  predicate Feasible(s: Pool, steps: seq<Step>)
    decreases |steps|
  {
    steps == [] || (Enabled(s, steps[0]) && Feasible(Apply(s, steps[0]), steps[1..]))
  }

  function Run(s: Pool, steps: seq<Step>): Pool
    requires Feasible(s, steps)
    decreases |steps|
  {
    if steps == [] then s else Run(Apply(s, steps[0]), steps[1..])
  }

  predicate TimelyRun(s: Pool, steps: seq<Step>)
    requires Feasible(s, steps)
    decreases |steps|
  {
    steps == [] || (Timely(s, steps[0]) && TimelyRun(Apply(s, steps[0]), steps[1..]))
  }

  predicate HarmlessRun(s: Pool, steps: seq<Step>)
    requires Feasible(s, steps)
    decreases |steps|
  {
    steps == [] || (Harmless(s, steps[0]) && HarmlessRun(Apply(s, steps[0]), steps[1..]))
  }

  /** Over every run: claims stay disjoint, attempts count claims and never exceed ten, only grow,
      and a published row is frozen, so it is never claimed again. */
  lemma {:induction false} RunKeeps(s: Pool, steps: seq<Step>)
    requires PoolInv(s) && Feasible(s, steps)
    ensures PoolInv(Run(s, steps)) && RowsEvolve(s.rows, Run(s, steps).rows)
    ensures Run(s, steps).retryDelay == s.retryDelay
    ensures forall i :: 0 <= i < |s.rows| && s.rows[i].publishedAt.Some? ==> Claims(Run(s, steps).granted, i) == Claims(s.granted, i)
    decreases |steps|
  {
    hide Enabled, Apply, ClaimInv, DisjointClaims, Claims;
    if steps != [] {
      StepKeeps(s, steps[0]);
      RunKeeps(Apply(s, steps[0]), steps[1..]);
    }
  }

  /** Over every run whose failure records are harmless, claims of a row are a lease apart, whatever the delay. */
  lemma {:induction false} RunKeepsLease(s: Pool, steps: seq<Step>)
    requires PoolInv(s) && LeaseInv(s) && Feasible(s, steps) && HarmlessRun(s, steps) && s.retryDelay > 0
    ensures LeaseInv(Run(s, steps)) && Spaced(Run(s, steps).granted, s.retryDelay)
    decreases |steps|
  {
    hide Enabled, Apply, PoolInv, LeaseInv, Harmless, RowsEvolve, Spaced;
    if steps == [] {
      LeaseSpaced(s);
    } else {
      StepKeeps(s, steps[0]);
      StepKeepsLease(s, steps[0]);
      RunKeepsLease(Apply(s, steps[0]), steps[1..]);
    }
  }

  lemma LeaseSpaced(s: Pool)
    requires LeaseInv(s)
    ensures Spaced(s.granted, s.retryDelay)
  {
  }

  lemma {:induction false} TimelyRunIsHarmless(s: Pool, steps: seq<Step>)
    requires PoolInv(s) && Feasible(s, steps) && TimelyRun(s, steps) && 0 < s.retryDelay <= MAX_OUTBOX_BACKOFF
    ensures HarmlessRun(s, steps)
    decreases |steps|
  {
    hide Enabled, Apply, PoolInv, Harmless, Timely, RowsEvolve;
    if steps != [] {
      StepKeeps(s, steps[0]);
      TimelyIsHarmless(s, steps[0]);
      TimelyRunIsHarmless(Apply(s, steps[0]), steps[1..]);
    }
  }

  // ---- a harmful record always has a bad continuation ----

  /** With room for all, every eligible row is picked. */
  lemma {:induction false} PickAll(rows: seq<OutboxRow>, locked: set<int>, now: int, limit: int, maxAttempts: int, i: nat, r: int)
    requires i <= r < |rows| && r !in locked && Due(rows[r], now, maxAttempts) && limit >= |rows| - i
    ensures r in Pick(rows, locked, now, limit, maxAttempts, i)
    decreases |rows| - i
  {
    if i == r {
      assert Pick(rows, locked, now, limit, maxAttempts, i) == [r] + Pick(rows, locked, now, limit - 1, maxAttempts, r + 1);
    } else if i !in locked && Due(rows[i], now, maxAttempts) {
      var rest := Pick(rows, locked, now, limit - 1, maxAttempts, i + 1);
      PickAll(rows, locked, now, limit - 1, maxAttempts, i + 1, r);
      assert Pick(rows, locked, now, limit, maxAttempts, i) == [i] + rest;
    } else {
      PickAll(rows, locked, now, limit, maxAttempts, i + 1, r);
    }
  }

  /** The clock moves to the next attempt of the row, and a free worker claims it. */
  function Reclaim(s: Pool, row: int, worker: int): seq<Step>
    requires 0 <= row < |s.rows|
  {
    var at := s.rows[row].nextAttemptAt;
    [Tick(if at > s.now then at else s.now), OpenClaim(worker, at, |s.rows|), CommitClaim(worker)]
  }

  lemma ReclaimGrants(s: Pool, row: int, worker: int)
    requires 0 <= row < |s.rows| && Claimable(s.rows[row]) && row !in LockedRows(s) && worker !in s.open
    ensures var steps := Reclaim(s, row, worker);
      && Feasible(s, steps) && HarmlessRun(s, steps)
      && var granted := Run(s, steps).granted;
      && s.granted <= granted
      && exists j :: |s.granted| <= j < |granted| && granted[j] == Grant(row, s.rows[row].nextAttemptAt)
  {
    var at := s.rows[row].nextAttemptAt;
    var steps := Reclaim(s, row, worker);
    var ticked := Apply(s, steps[0]);
    assert LockedRows(ticked) == LockedRows(s);
    assert Enabled(ticked, steps[1]);
    var holding := Apply(ticked, steps[1]);
    PickAll(s.rows, LockedRows(s), at, |s.rows|, DEFAULT_MAX_ATTEMPTS, 0, row);
    var ids := holding.open[worker].ids;
    var k :| 0 <= k < |ids| && ids[k] == row;
    assert Enabled(holding, steps[2]);
    var committed := Apply(holding, steps[2]);
    assert committed.granted[|s.granted| + k] == Grant(row, at);
    hide Apply, Enabled, Pick, LockedRows;
    assert steps[1..] == [steps[1], steps[2]] && steps[1..][1..] == [steps[2]] && steps[1..][1..][1..] == [];
    assert Feasible(committed, []) && HarmlessRun(committed, []) && Run(committed, []) == committed;
    assert Feasible(holding, [steps[2]]) && HarmlessRun(holding, [steps[2]]) && Run(holding, [steps[2]]) == committed;
  }

  /** The exact condition: after a failure record, every continuation with harmless records keeps claims a lease apart if
      and only if the record is harmless itself, that is, if and only if it does not set the next attempt of a row that can
      still be claimed before the end of a lease of that row. */
  lemma SpacedAfterFailureIff(s: Pool, fail: Step)
    requires PoolInv(s) && LeaseInv(s) && Enabled(s, fail) && fail.Fail? && s.retryDelay > 0
    ensures (forall steps :: Feasible(Apply(s, fail), steps) && HarmlessRun(Apply(s, fail), steps) ==>
              Spaced(Run(Apply(s, fail), steps).granted, s.retryDelay))
      <==> Harmless(s, fail)
  {
    var after := Apply(s, fail);
    StepKeeps(s, fail);
    FailKeepsLeaseIff(s, fail);
    if Harmless(s, fail) {
      forall steps | Feasible(after, steps) && HarmlessRun(after, steps) ensures Spaced(Run(after, steps).granted, s.retryDelay) {
        RunKeepsLease(after, steps);
      }
    } else {
      var worker := FreeWorker(s.open.Keys);
      HarmfulBreaks(s, fail, worker);
    }
  }

  lemma {:induction false} FreeWorker(used: set<int>) returns (worker: int)
    ensures forall w :: w in used ==> w < worker
  {
    if used == {} {
      worker := 0;
    } else {
      Sums.NonEmpty(used);
      var one :| one in used;
      var above := FreeWorker(used - {one});
      worker := if above > one then above else one + 1;
      assert forall w :: w in used ==> w == one || w in used - {one};
    }
  }

  lemma HarmfulBreaks(s: Pool, fail: Step, worker: int)
    requires Enabled(s, fail) && fail.Fail? && worker !in s.open && !Harmless(s, fail)
    ensures var after := Apply(s, fail);
      var steps := Reclaim(after, fail.row, worker);
      Feasible(after, steps) && HarmlessRun(after, steps) && !Spaced(Run(after, steps).granted, s.retryDelay)
  {
    hide CalculateExponentialBackoff, Feasible, HarmlessRun, Run, Reclaim;
    var after := Apply(s, fail);
    assert after.rows[fail.row].nextAttemptAt == RetryAt(s, fail) && after.granted == s.granted;
    assert LockedRows(after) == LockedRows(s);
    ReclaimGrants(after, fail.row, worker);
    var granted := Run(after, Reclaim(after, fail.row, worker)).granted;
    var j :| |s.granted| <= j < |granted| && granted[j] == Grant(fail.row, RetryAt(s, fail));
    var k :| 0 <= k < |s.granted| && s.granted[k].row == fail.row && RetryAt(s, fail) < s.granted[k].at + s.retryDelay;
    assert granted[k] == s.granted[k];
  }

  ghost predicate Reachable(retryDelay: int, s: Pool) {
    exists steps :: Feasible(Initial(retryDelay), steps) && Run(Initial(retryDelay), steps) == s
  }

  ghost predicate TimelyReachable(retryDelay: int, s: Pool) {
    exists steps ::
      Feasible(Initial(retryDelay), steps) && TimelyRun(Initial(retryDelay), steps) && Run(Initial(retryDelay), steps) == s
  }

  lemma {:induction false} RunSnoc(s: Pool, steps: seq<Step>, step: Step)
    requires Feasible(s, steps) && Enabled(Run(s, steps), step)
    ensures Feasible(s, steps + [step]) && Run(s, steps + [step]) == Apply(Run(s, steps), step)
    ensures TimelyRun(s, steps) && Timely(Run(s, steps), step) ==> TimelyRun(s, steps + [step])
    decreases |steps|
  {
    hide Enabled, Apply, Timely;
    if steps == [] {
      assert steps + [step] == [step] && [step][1..] == [];
      assert Feasible(Apply(s, step), []) && TimelyRun(Apply(s, step), []);
    } else {
      RunSnoc(Apply(s, steps[0]), steps[1..], step);
      assert (steps + [step])[1..] == steps[1..] + [step];
    }
  }

  lemma ReachStep(retryDelay: int, s: Pool, step: Step)
    requires Enabled(s, step)
    ensures Reachable(retryDelay, s) ==> Reachable(retryDelay, Apply(s, step))
    ensures TimelyReachable(retryDelay, s) && Timely(s, step) ==> TimelyReachable(retryDelay, Apply(s, step))
  {
    hide Enabled, Apply, Timely, Feasible, Run, TimelyRun;
    if Reachable(retryDelay, s) {
      var steps :| Feasible(Initial(retryDelay), steps) && Run(Initial(retryDelay), steps) == s;
      RunSnoc(Initial(retryDelay), steps, step);
    }
    if TimelyReachable(retryDelay, s) && Timely(s, step) {
      var steps :|
        Feasible(Initial(retryDelay), steps) && TimelyRun(Initial(retryDelay), steps) && Run(Initial(retryDelay), steps) == s;
      RunSnoc(Initial(retryDelay), steps, step);
    }
  }

  lemma ReachInitial(retryDelay: int)
    ensures Reachable(retryDelay, Initial(retryDelay)) && TimelyReachable(retryDelay, Initial(retryDelay))
  {
    assert Feasible(Initial(retryDelay), []) && TimelyRun(Initial(retryDelay), [])
      && Run(Initial(retryDelay), []) == Initial(retryDelay);
  }

  /** Claims of a row are a lease apart in every run whose failure records are timely, exactly when the configured
      delay does not exceed the ten-minute back-off cap. */
  lemma LeaseSpacingIff(retryDelay: int)
    requires 0 < retryDelay <= MAX_INT64
    ensures (forall s :: TimelyReachable(retryDelay, s) ==> Spaced(s.granted, retryDelay)) <==> retryDelay <= MAX_OUTBOX_BACKOFF
  {
    if retryDelay <= MAX_OUTBOX_BACKOFF {
      forall s | TimelyReachable(retryDelay, s) ensures Spaced(s.granted, retryDelay) {
        var steps :|
          Feasible(Initial(retryDelay), steps) && TimelyRun(Initial(retryDelay), steps) && Run(Initial(retryDelay), steps) == s;
        TimelyRunIsHarmless(Initial(retryDelay), steps);
        RunKeepsLease(Initial(retryDelay), steps);
      }
    } else {
      LongDelayBreaksSpacing(retryDelay);
    }
  }

  /** One row, claimed once at time 0. */
  lemma ClaimedOnce(retryDelay: int) returns (s: Pool)
    requires retryDelay > 0
    ensures Reachable(retryDelay, s) && TimelyReachable(retryDelay, s)
    ensures s == Pool([OutboxRow(1, 1, 0, None, 1, retryDelay)], 0, retryDelay, map[], [Grant(0, 0)])
  {
    ReachInitial(retryDelay);
    hide Reachable, TimelyReachable;
    var s0 := Initial(retryDelay);
    var row := OutboxRow(1, 1, 0, None, 0, 0);
    ReachStep(retryDelay, s0, Insert(row));
    var s1 := Apply(s0, Insert(row));
    assert s1.rows == [row];
    s := ClaimRow(retryDelay, s1, 0);
    assert s.granted == [Grant(0, 0)];
  }

  /** Claim the single row of a pool, now. */
  lemma ClaimRow(retryDelay: int, s: Pool, at: int) returns (after: Pool)
    requires |s.rows| == 1 && s.open == map[] && s.retryDelay == retryDelay && at <= s.now
    requires Due(s.rows[0], at, DEFAULT_MAX_ATTEMPTS)
    ensures Reachable(retryDelay, s) ==> Reachable(retryDelay, after)
    ensures TimelyReachable(retryDelay, s) ==> TimelyReachable(retryDelay, after)
    ensures after == s.(
      rows := [s.rows[0].(attempts := s.rows[0].attempts + 1, nextAttemptAt := at + retryDelay)],
      granted := s.granted + [Grant(0, at)])
  {
    hide Reachable, TimelyReachable;
    assert LockedRows(s) == {};
    assert Pick(s.rows, {}, at, 1, DEFAULT_MAX_ATTEMPTS, 0) == [0];
    ReachStep(retryDelay, s, OpenClaim(1, at, 1));
    var mid := Apply(s, OpenClaim(1, at, 1));
    assert mid.open[1] == Claim([0], at);
    ReachStep(retryDelay, mid, CommitClaim(1));
    after := Apply(mid, CommitClaim(1));
    assert after.open == map[];
    assert Grants([0], at) == [Grant(0, at)];
  }

  lemma LongDelayBreaksSpacing(retryDelay: int)
    requires MAX_OUTBOX_BACKOFF < retryDelay <= MAX_INT64
    ensures exists s :: TimelyReachable(retryDelay, s) && !Spaced(s.granted, retryDelay)
  {
    hide Reachable, TimelyReachable;
    var s := ClaimedOnce(retryDelay);
    assert LockedRows(s) == {};
    ReachStep(retryDelay, s, Fail(0, 1, 0));
    var failed := Apply(s, Fail(0, 1, 0));
    assert failed.rows == [OutboxRow(1, 1, 0, None, 1, MAX_OUTBOX_BACKOFF)];
    ReachStep(retryDelay, failed, Tick(MAX_OUTBOX_BACKOFF));
    var later := Apply(failed, Tick(MAX_OUTBOX_BACKOFF));
    var again := ClaimRow(retryDelay, later, MAX_OUTBOX_BACKOFF);
    assert again.granted == [Grant(0, 0), Grant(0, MAX_OUTBOX_BACKOFF)];
    assert again.granted[0].row == again.granted[1].row;
  }

  /** Timeliness is needed too: a failure recorded with a reading from before a newer claim cuts that claim's lease short. */
  lemma StaleFailureBreaksSpacing(retryDelay: int)
    requires 0 < retryDelay <= MAX_OUTBOX_BACKOFF
    ensures exists s :: Reachable(retryDelay, s) && !Spaced(s.granted, retryDelay)
  {
    hide Reachable, TimelyReachable;
    var s := ClaimedOnce(retryDelay);
    ReachStep(retryDelay, s, Tick(retryDelay));
    var later := Apply(s, Tick(retryDelay));
    var second := ClaimRow(retryDelay, later, retryDelay);
    assert LockedRows(second) == {};
    ReachStep(retryDelay, second, Fail(0, 1, 0));
    var failed := Apply(second, Fail(0, 1, 0));
    assert failed.rows[0].nextAttemptAt == retryDelay;
    var third := ClaimRow(retryDelay, failed, retryDelay);
    assert third.granted == [Grant(0, 0), Grant(0, retryDelay), Grant(0, retryDelay)];
    assert third.granted[1].row == third.granted[2].row;
  }
}
