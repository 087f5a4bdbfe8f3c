/** The Redis stock guard: available counters, one reservation per order, and the Lua scripts over them. */
module StockGuard {
  import opened Domain
  import opened Items

  datatype Redis = Redis(available: map<int, int>, reservations: map<int, seq<Item>>)

  /** Numeric replies 1, 0 and -1 of the pre-deduct script. */
  datatype Reply = Applied | Missing | Insufficient

  /** Whether a command reached Redis, and whether its reply came back. */
  datatype Link = Up | Down | ReplyLost

  /** The script's check loop: the first line that fails decides. */
  function CheckFrom(available: map<int, int>, items: seq<Item>, k: nat): Reply
    requires k <= |items|
    decreases |items| - k
  {
    if k == |items| then Applied
    else if items[k].productId !in available then Missing
    else if available[items[k].productId] < items[k].quantity then Insufficient
    else CheckFrom(available, items, k + 1)
  }

  /** Every line alone is covered by its counter. */
  predicate Covered(available: map<int, int>, items: seq<Item>) {
    forall k :: 0 <= k < |items| ==>
      items[k].productId in available && available[items[k].productId] >= items[k].quantity
  }

  function Deducted(available: map<int, int>, items: seq<Item>): map<int, int> {
    map p | p in available :: available[p] - QtyOf(items, p)
  }

  function Credited(available: map<int, int>, items: seq<Item>): map<int, int> {
    map p | p in available :: available[p] + QtyOf(items, p)
  }

  function PreDeduct(r: Redis, o: int, items: seq<Item>): (Redis, Reply) {
    if o in r.reservations then (r, Applied)
    else
      var reply := CheckFrom(r.available, items, 0);
      if reply == Applied
      then (Redis(Deducted(r.available, items), r.reservations[o := items]), Applied)
      else (r, reply)
  }

  function Release(r: Redis, o: int): Redis {
    if o in r.reservations
    then Redis(Credited(r.available, r.reservations[o]), r.reservations - {o})
    else r
  }

  function Confirm(r: Redis, o: int): Redis {
    r.(reservations := r.reservations - {o})
  }

  function SetStock(r: Redis, p: int, q: int): Redis {
    r.(available := r.available[p := q])
  }

  function Increase(r: Redis, p: int, delta: int, fallback: int): Redis {
    SetStock(r, p, if p in r.available then r.available[p] + delta else fallback)
  }

  function Lookup(available: map<int, int>, p: int): Option<int> {
    if p in available then Some(available[p]) else None
  }

  /** A row that the write commands do not skip. */
  predicate Writable(x: Item) {
    x.productId > 0 && x.quantity >= 0
  }

  /** What a loop of SET commands over the rows leaves, as counters to write. */
  function Writes(rows: seq<Item>): map<int, int> {
    if rows == [] then map[]
    else
      var n := |rows| - 1;
      var writes := Writes(rows[..n]);
      if Writable(rows[n]) then writes[rows[n].productId := rows[n].quantity] else writes
  }

  /** With distinct products, exactly the writable rows are written, each with its own quantity. */
  lemma {:induction false} WritesAt(rows: seq<Item>, p: int)
    requires Distinct(rows)
    ensures p in Writes(rows) <==> p > 0 && Mentions(rows, p) && QtyOf(rows, p) >= 0
    ensures p in Writes(rows) ==> Writes(rows)[p] == QtyOf(rows, p)
  {
    if rows != [] {
      var init, last := rows[..|rows| - 1], rows[|rows| - 1];
      assert rows == init + [last];
      WritesAt(init, p);
      MentionsSnoc(init, last, p);
      if last.productId == p {
        assert !Mentions(init, p);
        QtyOfAbsent(init, p);
      }
    }
  }

  /** Writing one more counter of a batch. */
  lemma WriteOne(available: map<int, int>, writes: map<int, int>, p: int, q: int)
    ensures (available + writes)[p := q] == available + writes[p := q]
    ensures p !in writes ==> |writes[p := q]| == |writes| + 1
  {
    if p !in writes {
      assert writes[p := q].Keys == writes.Keys + {p};
      assert |writes[p := q].Keys| == |writes.Keys| + 1;
    }
  }

  lemma WritesStep(rows: seq<Item>, k: nat)
    requires k < |rows|
    ensures Writes(rows[..k + 1])
      == if Writable(rows[k]) then Writes(rows[..k])[rows[k].productId := rows[k].quantity] else Writes(rows[..k])
  {
    assert rows[..k + 1][..k] == rows[..k];
  }

  /** The commands of a pipeline: one per row that is not skipped. */
  function Pipeline(rows: seq<Item>): seq<Item> {
    if rows == [] then []
    else
      var n := |rows| - 1;
      Pipeline(rows[..n]) + (if Writable(rows[n]) then [rows[n]] else [])
  }

  lemma {:induction false} PipelineMembers(rows: seq<Item>, x: Item)
    ensures x in Pipeline(rows) <==> x in rows && Writable(x)
  {
    if rows != [] {
      PipelineMembers(rows[..|rows| - 1], x);
      assert rows == rows[..|rows| - 1] + [rows[|rows| - 1]];
    }
  }

  /** The whole pipeline writes what the rows ask for. */
  lemma {:induction false} PipelineWrites(rows: seq<Item>)
    ensures Writes(Pipeline(rows)) == Writes(rows)
  {
    if rows != [] {
      var init, last := rows[..|rows| - 1], rows[|rows| - 1];
      PipelineWrites(init);
      WritesSnoc(Pipeline(init), last);
      assert Pipeline(rows) == if Writable(last) then Pipeline(init) + [last] else Pipeline(init);
    }
  }

  lemma WritesSnoc(rows: seq<Item>, x: Item)
    ensures Writes(rows + [x]) == if Writable(x) then Writes(rows)[x.productId := x.quantity] else Writes(rows)
  {
    assert (rows + [x])[..|rows|] == rows;
  }

  /** With distinct products each command writes a counter of its own. */
  lemma {:induction false} PipelineCount(rows: seq<Item>)
    requires Distinct(rows)
    ensures |Writes(rows)| == |Pipeline(rows)|
  {
    if rows != [] {
      var init, last := rows[..|rows| - 1], rows[|rows| - 1];
      PipelineCount(init);
      assert !Mentions(init, last.productId);
      WritesAt(init, last.productId);
      hide Distinct, Mentions, QtyOf;
      assert last.productId !in Writes(init);
      WriteOne(map[], Writes(init), last.productId, last.quantity);
    }
  }

  predicate NonNegative(available: map<int, int>) {
    forall p :: p in available ==> available[p] >= 0
  }

  // ---- properties of the scripts ----

  lemma {:induction false} CheckIsCovered(available: map<int, int>, items: seq<Item>, k: nat)
    requires k <= |items|
    requires forall j :: 0 <= j < k ==> items[j].productId in available && available[items[j].productId] >= items[j].quantity
    ensures CheckFrom(available, items, k) == Applied <==> Covered(available, items)
    decreases |items| - k
  {
    if k < |items| && items[k].productId in available && available[items[k].productId] >= items[k].quantity {
      CheckIsCovered(available, items, k + 1);
    }
  }

  predicate LineCovered(available: map<int, int>, x: Item) {
    x.productId in available && available[x.productId] >= x.quantity
  }

  /** The first line that is not covered has a counter, and it is too low. */
  predicate ShortAtFirstGap(available: map<int, int>, items: seq<Item>) {
    exists k :: 0 <= k < |items|
      && items[k].productId in available && available[items[k].productId] < items[k].quantity
      && forall j :: 0 <= j < k ==> LineCovered(available, items[j])
  }

  /** The script answers "insufficient" exactly then; a missing counter in front makes it answer "missing". */
  lemma {:induction false} InsufficientIff(available: map<int, int>, items: seq<Item>, k: nat)
    requires k <= |items| && forall j :: 0 <= j < k ==> LineCovered(available, items[j])
    ensures CheckFrom(available, items, k) == Insufficient <==> ShortAtFirstGap(available, items)
    decreases |items| - k
  {
    if k < |items| {
      if LineCovered(available, items[k]) {
        InsufficientIff(available, items, k + 1);
      } else if ShortAtFirstGap(available, items) {
        var i :| 0 <= i < |items| && items[i].productId in available && available[items[i].productId] < items[i].quantity
          && forall j :: 0 <= j < i ==> LineCovered(available, items[j]);
        assert !LineCovered(available, items[i]);
        assert i == k;
      }
    }
  }

  /** All or nothing: a fresh pre-deduction applies exactly when every line is covered, taking every line;
      otherwise nothing moves. */
  lemma PreDeductAllOrNothing(r: Redis, o: int, items: seq<Item>)
    requires o !in r.reservations
    ensures PreDeduct(r, o, items).1 == Applied <==> Covered(r.available, items)
    ensures !Covered(r.available, items) ==> PreDeduct(r, o, items).0 == r
    ensures Covered(r.available, items) ==>
      var after := PreDeduct(r, o, items).0;
      && after.available.Keys == r.available.Keys
      && (forall p :: p in r.available ==> after.available[p] == r.available[p] - QtyOf(items, p))
      && after.reservations == r.reservations[o := items]
  {
    CheckIsCovered(r.available, items, 0);
  }

  /** Checking each line before decrementing any keeps counters non-negative, because lines name distinct products. */
  lemma PreDeductKeepsNonNegative(r: Redis, o: int, items: seq<Item>)
    requires NonNegative(r.available) && Distinct(items)
    ensures NonNegative(PreDeduct(r, o, items).0.available)
  {
    if o !in r.reservations {
      PreDeductAllOrNothing(r, o, items);
      if Covered(r.available, items) {
        forall p | p in r.available ensures r.available[p] - QtyOf(items, p) >= 0 {
          if Mentions(items, p) {
            var k :| 0 <= k < |items| && items[k].productId == p;
            QtyOfLine(items, k);
          } else {
            QtyOfAbsent(items, p);
          }
        }
      }
    }
  }

  /** The lines are off their counters and reserved for the order; nothing else moves. */
  predicate Takes(r: Redis, after: Redis, o: int, items: seq<Item>) {
    && after.available.Keys == r.available.Keys
    && (forall p :: p in r.available ==> after.available[p] == r.available[p] - QtyOf(items, p))
    && after.reservations == r.reservations[o := items]
  }

  /** What the order had reserved is back on every counter that exists, and no longer reserved; nothing else moves. */
  predicate GivesBack(r: Redis, after: Redis, o: int) {
    && after.available.Keys == r.available.Keys
    && (forall p :: p in r.available ==>
          after.available[p] == r.available[p] + (if o in r.reservations then QtyOf(r.reservations[o], p) else 0))
    && after.reservations == r.reservations - {o}
  }

  lemma ReleaseGivesBack(r: Redis, o: int)
    ensures GivesBack(r, Release(r, o), o)
  {
    hide QtyOf;
  }

  /** Without that condition the script overdraws exactly when a product's lines together exceed its counter. */
  lemma OverdraftIff(r: Redis, o: int, items: seq<Item>)
    requires o !in r.reservations && Covered(r.available, items)
    ensures NonNegative(PreDeduct(r, o, items).0.available)
      <==> forall p :: p in r.available ==> QtyOf(items, p) <= r.available[p]
  {
    PreDeductAllOrNothing(r, o, items);
    var after := PreDeduct(r, o, items).0;
    assert forall p :: p in r.available ==> after.available[p] == r.available[p] - QtyOf(items, p);
  }

  lemma DuplicateLinesOverdraw(p: int, o: int)
    ensures PreDeduct(Redis(map[p := 4], map[]), o, [Item(p, 3), Item(p, 3)]).0.available == map[p := -2]
  {
    var r := Redis(map[p := 4], map[]);
    var items := [Item(p, 3), Item(p, 3)];
    PreDeductAllOrNothing(r, o, items);
    assert items[..1] == [Item(p, 3)];
    QtyOfSnoc([], Item(p, 3), p);
    assert QtyOf(items, p) == 6;
  }

  /** Releasing what was just reserved restores Redis exactly. */
  lemma ReleaseUndoesPreDeduct(r: Redis, o: int, items: seq<Item>)
    requires o !in r.reservations
    ensures Release(PreDeduct(r, o, items).0, o) == r
  {
    PreDeductAllOrNothing(r, o, items);
    var mid := PreDeduct(r, o, items).0;
    if Covered(r.available, items) {
      assert Credited(mid.available, items) == r.available;
      assert mid.reservations - {o} == r.reservations;
    }
  }

  /** Repeating any script for the same order changes nothing further. */
  lemma ScriptsAreIdempotent(r: Redis, o: int, items: seq<Item>)
    ensures PreDeduct(r, o, items).1 == Applied ==>
      PreDeduct(PreDeduct(r, o, items).0, o, items) == PreDeduct(r, o, items)
    ensures Release(Release(r, o), o) == Release(r, o)
    ensures Confirm(Confirm(r, o), o) == Confirm(r, o)
    ensures Release(Confirm(r, o), o) == Confirm(r, o)
  {
    assert r.reservations - {o} - {o} == r.reservations - {o};
  }

  // ---- the guard object ----

  class Guard {
    var available: map<int, int>
    var reservations: map<int, seq<Item>>

    function State(): Redis
      reads this
    {
      Redis(available, reservations)
    }

    constructor ()
      ensures State() == Redis(map[], map[])
    {
      available, reservations := map[], map[];
    }

    /** The pre-deduct Lua script: test the reservation, check every line, then decrement and record. */
    method RunPreDeduct(o: int, items: seq<Item>) returns (reply: Reply)
      modifies this
      ensures (State(), reply) == PreDeduct(old(State()), o, items)
    {
      if o in reservations {
        return Applied;
      }
      for k := 0 to |items|
        invariant State() == old(State())
        invariant CheckFrom(available, items, 0) == CheckFrom(available, items, k)
        invariant forall j :: 0 <= j < k ==> items[j].productId in available
      {
        if items[k].productId !in available {
          return Missing;
        }
        if available[items[k].productId] < items[k].quantity {
          return Insufficient;
        }
      }
      for k := 0 to |items|
        invariant available == Deducted(old(available), items[..k])
        invariant reservations == old(reservations)
      {
        forall p | p in available
          ensures QtyOf(items[..k + 1], p) == QtyOf(items[..k], p) + (if items[k].productId == p then items[k].quantity else 0)
        {
          QtyOfPrefix(items, k, p);
        }
        available := available[items[k].productId := available[items[k].productId] - items[k].quantity];
      }
      assert items[..|items|] == items;
      reservations := reservations[o := items];
      return Applied;
    }

    /** The release Lua script: credit every line whose counter still exists, then delete the reservation. */
    method RunRelease(o: int)
      modifies this
      ensures State() == Release(old(State()), o)
    {
      if o !in reservations {
        return;
      }
      var lines := reservations[o];
      for k := 0 to |lines|
        invariant available == Credited(old(available), lines[..k])
        invariant reservations == old(reservations)
      {
        forall p | p in available
          ensures QtyOf(lines[..k + 1], p) == QtyOf(lines[..k], p) + (if lines[k].productId == p then lines[k].quantity else 0)
        {
          QtyOfPrefix(lines, k, p);
        }
        if lines[k].productId in available {
          available := available[lines[k].productId := available[lines[k].productId] + lines[k].quantity];
        }
      }
      assert lines[..|lines|] == lines;
      reservations := reservations - {o};
    }

    /** Answers (applied, insufficient); an unreachable Redis or a lost reply reads as neither. */
    method PreDeductInventory(o: int, items: seq<Item>, link: Link) returns (applied: bool, insufficient: bool)
      modifies this
      ensures o <= 0 || items == [] || link == Down ==> State() == old(State()) && !applied && !insufficient
      ensures o > 0 && items != [] && link != Down ==> State() == PreDeduct(old(State()), o, items).0
      ensures applied <==> o > 0 && items != [] && link == Up && PreDeduct(old(State()), o, items).1 == Applied
      ensures insufficient <==> o > 0 && items != [] && link == Up && PreDeduct(old(State()), o, items).1 == Insufficient
    {
      if o <= 0 || items == [] || link == Down {
        return false, false;
      }
      var reply := RunPreDeduct(o, items);
      return link == Up && reply == Applied, link == Up && reply == Insufficient;
    }

    method ReleaseReservation(o: int, link: Link)
      modifies this
      ensures State() == if o <= 0 || link == Down then old(State()) else Release(old(State()), o)
    {
      if o > 0 && link != Down {
        RunRelease(o);
      }
    }

    method ConfirmPreDeductedInventory(o: int, link: Link)
      modifies this
      ensures State() == if o <= 0 || link == Down then old(State()) else Confirm(old(State()), o)
    {
      if o > 0 && link != Down {
        reservations := reservations - {o};
      }
    }

    method SetInventoryStock(p: int, q: int, link: Link)
      modifies this
      ensures State() == if p <= 0 || q < 0 || link == Down then old(State()) else SetStock(old(State()), p, q)
    {
      if p > 0 && q >= 0 && link != Down {
        available := available[p := q];
      }
    }

    method IncrInventoryStock(p: int, delta: int, fallback: int, link: Link)
      modifies this
      ensures State() ==
        if p <= 0 || delta <= 0 || fallback < 0 || link == Down then old(State())
        else Increase(old(State()), p, delta, fallback)
    {
      if p > 0 && delta > 0 && fallback >= 0 && link != Down {
        if p in available {
          available := available[p := available[p] + delta];
        } else {
          available := available[p := fallback];
        }
      }
    }

    /** Counters of the listed products, None for a missing key. The read fails when Redis does not answer or a value is not
        an integer, as the values of `garbled` products are not; with no valid id Redis is not asked. */
    method GetInventoryStocks(ids: seq<int>, link: Link, garbled: set<int>) returns (answer: Option<map<int, Option<int>>>)
      ensures answer.Some? <==>
        (forall p :: p in ids ==> p <= 0)
        || (link == Up && forall p :: p in ids && p > 0 && p in available ==> p !in garbled)
      ensures answer.Some? ==> forall p :: p in answer.value <==> p > 0 && p in ids
      ensures answer.Some? ==> forall p :: p in answer.value ==> answer.value[p] == Lookup(available, p)
    {
      var valid: seq<int> := [];
      for k := 0 to |ids|
        invariant forall p :: p in valid <==> p > 0 && p in ids[..k]
      {
        if ids[k] > 0 {
          valid := valid + [ids[k]];
        }
      }
      assert ids[..|ids|] == ids;
      assert forall p :: p in valid <==> p > 0 && p in ids;
      if valid == [] {
        assert forall p :: p in ids ==> p !in valid;
        return Some(map[]);
      }
      assert valid[0] in valid;
      if link != Up {
        return None;
      }
      var stocks: map<int, Option<int>> := map[];
      for k := 0 to |valid|
        invariant forall p :: p in stocks <==> p in valid[..k]
        invariant forall p :: p in stocks ==> stocks[p] == Lookup(available, p)
        invariant forall p :: p in valid[..k] && p in available ==> p !in garbled
      {
        assert valid[k] in valid && valid[k] in ids && valid[k] > 0;
        if valid[k] in available && valid[k] in garbled {
          return None;
        }
        stocks := stocks[valid[k] := Lookup(available, valid[k])];
      }
      assert valid[..|valid|] == valid;
      return Some(stocks);
    }

    /** One SET per row that is not skipped, in one pipeline; answers how many. A pipeline is not atomic: when its reply is
        lost, some first part of it (`executed` commands) has run. */
    method RebuildInventoryStocks(rows: seq<Item>, link: Link, executed: nat) returns (count: Option<nat>)
      modifies this
      ensures count == if Pipeline(rows) == [] then Some(0) else if link == Up then Some(|Pipeline(rows)|) else None
      ensures State() == Redis(old(available) + Writes(Sent(Pipeline(rows), link, executed)), old(reservations))
    {
      var pipe: seq<Item> := [];
      for k := 0 to |rows|
        invariant pipe == Pipeline(rows[..k])
      {
        assert rows[..k + 1][..k] == rows[..k];
        if rows[k].productId > 0 && rows[k].quantity >= 0 {
          pipe := pipe + [rows[k]];
        }
      }
      assert rows[..|rows|] == rows;
      if pipe == [] {
        return Some(0);
      }
      forall x | x in Sent(pipe, link, executed) ensures Writable(x) {
        PipelineMembers(rows, x);
      }
      Execute(Sent(pipe, link, executed));
      return if link == Up then Some(|pipe|) else None;
    }

    /** SET commands one after another. */
    method Execute(commands: seq<Item>)
      requires forall x :: x in commands ==> Writable(x)
      modifies this`available
      ensures available == old(available) + Writes(commands)
    {
      ghost var was := available;
      for k := 0 to |commands|
        invariant available == was + Writes(commands[..k])
      {
        WritesStep(commands, k);
        WriteOne(was, Writes(commands[..k]), commands[k].productId, commands[k].quantity);
        available := available[commands[k].productId := commands[k].quantity];
      }
      assert commands[..|commands|] == commands;
    }
  }

  /** The part of a pipeline that Redis executes. */
  function Sent(commands: seq<Item>, link: Link, executed: nat): (r: seq<Item>)
    ensures r <= commands
  {
    match link
    case Up => commands
    case Down => []
    case ReplyLost => if executed < |commands| then commands[..executed] else commands
  }
}
