/** Appends sent to several servers, with retries and replays, and the batch ids that keep them from counting twice. */
module ExactlyOnce {
  import opened Wrappers
  import opened Table
  import opened ClockMix
  import Bitmap

  /** The rows of one append for one table, under the id that the client chose. */
  datatype Batch = Batch(id: nat, rows: seq<Row>)

  // ---------- One server ----------

  /** A server's table and the ids that it has stored. */
  datatype Replica = Replica(rows: seq<Row>, seen: set<nat>)

  const EMPTY_REPLICA := Replica([], {})

  /** A batch arrives and is stored in one step. The id 0 stands for no id. */
  function Receive(r: Replica, b: Batch): Replica {
    if b.id != 0 && b.id in r.seen then r
    else Replica(r.rows + b.rows, if b.id != 0 then r.seen + {b.id} else r.seen)
  }

  /**
   HandleAppendBatch behind its parsing. `stores` tells whether the table takes
   the rows and `persists` whether the files that this makes due can be
   written: a failure to write comes after the rows are in the table.
   The second component is the answer.
   */
  function Handle(r: Replica, b: Batch, stores: bool, persists: bool): (Replica, bool) {
    if b.id != 0 && b.id in r.seen then (r, true)
    else if !stores then (r, false)
    else if !persists then (r.(rows := r.rows + b.rows), false)
    else (Receive(r, b), true)
  }

  /** The server's side of an append. */
  class TableServer {
    var rows: seq<Row>
    var seen: set<nat>

    ghost function State(): Replica
      reads this
    {
      Replica(rows, seen)
    }

    constructor ()
      ensures State() == EMPTY_REPLICA
    {
      rows, seen := [], {};
    }

    method HandleAppendBatch(b: Batch, stores: bool, persists: bool) returns (ok: bool)
      modifies this
      ensures (State(), ok) == Handle(old(State()), b, stores, persists)
    {
      if b.id != 0 && b.id in seen {
        return true;
      }
      if !stores {
        return false;
      }
      rows := rows + b.rows;
      if !persists {
        return false;
      }
      if b.id != 0 {
        seen := seen + {b.id};
      }
      return true;
    }
  }

  /**
   After a failed append a successful retry leaves the rows in the table once
   exactly when the failure came before they were stored: the id is not
   recorded for rows that are stored but could not be written.
   */
  lemma RetryStoresOnceExactly(r: Replica, b: Batch, stores: bool, persists: bool)
    requires !Handle(r, b, stores, persists).1
    ensures var retried := Handle(Handle(r, b, stores, persists).0, b, true, true);
            retried.1 && (retried.0.rows == r.rows + b.rows <==> !stores || b.rows == [])
  {
    var after := Handle(r, b, stores, persists).0;
    if stores {
      assert |(r.rows + b.rows) + b.rows| == |r.rows + b.rows| + |b.rows|;
      if b.rows == [] {
        assert (r.rows + b.rows) + b.rows == r.rows + b.rows;
      }
    }
  }

  // ---------- Any interleaving of deliveries ----------

  /** A batch reaches a server: in a fan-out, a retry, a replay, or behind the client's back. */
  datatype Delivery = Delivery(server: string, batch: Batch)

  /** A server after a history of deliveries to all servers. */
  function After(history: seq<Delivery>, server: string): Replica {
    if history == [] then EMPTY_REPLICA
    else
      var d := history[|history| - 1];
      var r := After(history[..|history| - 1], server);
      if d.server == server then Receive(r, d.batch) else r
  }

  /** The ids that were delivered to a server. */
  function Delivered(history: seq<Delivery>, server: string): set<nat> {
    set i | 0 <= i < |history| && history[i].server == server :: history[i].batch.id
  }

  /** The batches of a server, each at its first delivery. */
  function FirstDeliveries(history: seq<Delivery>, server: string): seq<Batch> {
    if history == [] then []
    else
      var d, front := history[|history| - 1], history[..|history| - 1];
      FirstDeliveries(front, server) +
      if d.server == server && d.batch.id !in Delivered(front, server) then [d.batch] else []
  }

  function Concatenated(batches: seq<Batch>): seq<Row> {
    if batches == [] then [] else Concatenated(batches[..|batches| - 1]) + batches[|batches| - 1].rows
  }

  predicate Identified(history: seq<Delivery>) { forall i :: 0 <= i < |history| ==> history[i].batch.id != 0 }

  /** At this server an id stands for one batch. */
  predicate Consistent(history: seq<Delivery>, server: string) {
    forall i, j :: 0 <= i < |history| && 0 <= j < |history| && history[i].server == server == history[j].server &&
                   history[i].batch.id == history[j].batch.id ==>
      history[i].batch == history[j].batch
  }

  lemma DeliveredMore(history: seq<Delivery>, d: Delivery, server: string)
    ensures Delivered(history + [d], server) ==
            Delivered(history, server) + if d.server == server then {d.batch.id} else {}
  {
    var more := history + [d];
    assert more[|history|] == d;
    forall i | 0 <= i < |history| && history[i].server == server
      ensures history[i].batch.id in Delivered(more, server)
    {
      assert more[i] == history[i];
    }
  }

  /** The batches carry exactly the given ids, each once. */
  ghost predicate EachOnce(batches: seq<Batch>, ids: set<nat>) {
    && (forall i, j :: 0 <= i < j < |batches| ==> batches[i].id != batches[j].id)
    && (forall i :: 0 <= i < |batches| ==> batches[i].id in ids)
    && forall id :: id in ids ==> exists i :: 0 <= i < |batches| && batches[i].id == id
  }

  lemma OneMore(batches: seq<Batch>, ids: set<nat>, b: Batch)
    requires EachOnce(batches, ids) && b.id !in ids
    ensures EachOnce(batches + [b], ids + {b.id})
  {
    var more := batches + [b];
    forall id | id in ids + {b.id}
      ensures exists i :: 0 <= i < |more| && more[i].id == id
    {
      if id in ids {
        var i :| 0 <= i < |batches| && batches[i].id == id;
        assert more[i].id == id;
      } else {
        assert more[|batches|].id == id;
      }
    }
  }

  /**
   Over every interleaving of deliveries, each server's table is the
   concatenation of its batches in the order of their first deliveries: every
   batch that was delivered is there, and none is there twice.
   */
  lemma {:induction false} TableIsFirstDeliveries(history: seq<Delivery>, server: string)
    requires Identified(history)
    ensures var batches := FirstDeliveries(history, server);
            && After(history, server) == Replica(Concatenated(batches), Delivered(history, server))
            && EachOnce(batches, Delivered(history, server))
  {
    hide Delivered, EachOnce, Concatenated;
    NoBatches();
    if history == [] {
      NothingDelivered(server);
    } else {
      var front, d := history[..|history| - 1], history[|history| - 1];
      TableIsFirstDeliveries(front, server);
      DeliveredMore(front, d, server);
      assert history == front + [d];
      var before, ids := FirstDeliveries(front, server), Delivered(front, server);
      if d.server == server && d.batch.id !in ids {
        OneMore(before, ids, d.batch);
        OneMoreConcatenated(before, d.batch);
      } else {
        assert before + [] == before && ids + {d.batch.id} == if d.batch.id in ids then ids else ids + {d.batch.id};
        assert ids + {} == ids;
      }
    }
  }

  lemma NoBatches()
    ensures Concatenated([]) == [] && EachOnce([], {})
  {
  }

  lemma OneMoreConcatenated(batches: seq<Batch>, b: Batch)
    ensures Concatenated(batches + [b]) == Concatenated(batches) + b.rows
  {
    assert (batches + [b])[..|batches|] == batches;
  }

  lemma NothingDelivered(server: string)
    ensures Delivered([], server) == {}
  {
  }

  /** Which of several deliveries of one id came first makes no difference to what is stored for it. */
  lemma {:induction false} FirstIsAny(history: seq<Delivery>, server: string, i: nat)
    requires Consistent(history, server) && i < |history| && history[i].server == server
    ensures history[i].batch in FirstDeliveries(history, server)
  {
    var front, d := history[..|history| - 1], history[|history| - 1];
    if i < |front| {
      FirstIsAny(front, server, i);
    } else if d.batch.id in Delivered(front, server) {
      var j :| 0 <= j < |front| && front[j].server == server && front[j].batch.id == d.batch.id;
      assert history[j] == front[j];
      FirstIsAny(front, server, j);
    }
  }

  /** Every batch that reached the server is stored there exactly when an id stands for one batch at that server. */
  lemma EveryBatchStoredExactly(history: seq<Delivery>, server: string)
    requires Identified(history)
    ensures (forall i :: 0 <= i < |history| && history[i].server == server ==> history[i].batch in FirstDeliveries(history, server))
            <==> Consistent(history, server)
  {
    hide Delivered, FirstDeliveries, After;
    var batches := FirstDeliveries(history, server);
    if Consistent(history, server) {
      forall i | 0 <= i < |history| && history[i].server == server
        ensures history[i].batch in batches
      {
        FirstIsAny(history, server, i);
      }
    }
    TableIsFirstDeliveries(history, server);
    if forall i :: 0 <= i < |history| && history[i].server == server ==> history[i].batch in batches {
      forall i, j | 0 <= i < |history| && 0 <= j < |history| && history[i].server == server == history[j].server &&
                    history[i].batch.id == history[j].batch.id
        ensures history[i].batch == history[j].batch
      {
        SameInList(batches, history[i].batch, history[j].batch);
      }
    }
  }

  lemma SameInList(batches: seq<Batch>, a: Batch, b: Batch)
    requires forall i, j :: 0 <= i < j < |batches| ==> batches[i].id != batches[j].id
    requires a in batches && b in batches && a.id == b.id
    ensures a == b
  {
    var i :| 0 <= i < |batches| && batches[i] == a;
    var j :| 0 <= j < |batches| && batches[j] == b;
  }

  /** next_batch_id, by the reading of the clock and the number of the call. */
  function NextBatchId(time: nat, counter: nat): nat { Mixed(time, counter) }

  /** Without an id a repeated delivery is stored again. */
  lemma ZeroIdRepeats(server: string, rows: seq<Row>)
    requires rows != []
    ensures var d := Delivery(server, Batch(0, rows));
            After([d, d], server).rows == rows + rows && After([d], server).rows == rows
  {
    var d := Delivery(server, Batch(0, rows));
    assert [d, d][..1] == [d] && [d][..0] == [];
    assert After([], server).rows + rows == rows;
  }

  /**
   The ids of a client are not distinct: when its first two appends are three
   clock ticks apart, at a time divisible by 4, both get the same id, and the
   server drops the second batch although it answers that it is stored.
   */
  lemma EqualIdsLoseBatch(time: nat, server: string, first: seq<Row>, second: seq<Row>)
    requires time % 4 == 0
    ensures var a, b := Batch(NextBatchId(time, 1), first), Batch(NextBatchId(time + 3, 2), second);
            && a.id == b.id != 0
            && After([Delivery(server, a), Delivery(server, b)], server).rows == first
            && Handle(After([Delivery(server, a)], server), b, true, true) == (After([Delivery(server, a)], server), true)
  {
    hide Mixed;
    MixedCollides(time);
    var a, b := Batch(NextBatchId(time, 1), first), Batch(NextBatchId(time + 3, 2), second);
    var d, e := Delivery(server, a), Delivery(server, b);
    assert [d, e][..1] == [d] && [d][..0] == [];
    assert After([], server).rows + first == first;
  }

  /**
   The ids of a client are distinct, and none of them is 0, as long as it makes
   fewer than 2^k of them and the clock, wherever it moves on between two calls,
   does so above bit k. Then each server stores every batch that reaches it.
   */
  lemma ClientIdsStoreAll(batches: seq<Batch>, clock: nat -> nat, k: nat, history: seq<Delivery>, server: string)
    requires k <= 64 && |batches| < Bitmap.PowerOfTwo(k) && MovesOn(clock, |batches|, k)
    requires forall i :: 1 <= i <= |batches| ==> Bitmap.PowerOfTwo(k) <= clock(i) < UINT64
    requires forall i :: 0 <= i < |batches| ==> batches[i].id == NextBatchId(clock(i + 1), i + 1)
    requires forall i :: 0 <= i < |history| ==> history[i].batch in batches
    ensures Identified(history) && Consistent(history, server)
    ensures forall i :: 0 <= i < |history| && history[i].server == server ==> history[i].batch in FirstDeliveries(history, server)
  {
    hide Mixed, MovesOn, FirstDeliveries;
    forall i | 0 <= i < |batches|
      ensures batches[i].id != 0
    {
      MixedNotZero(clock(i + 1), i + 1, k);
    }
    forall i, j | 0 <= i < j < |batches|
      ensures batches[i].id != batches[j].id
    {
      MixedDistinct(clock, |batches|, k, i + 1, j + 1);
    }
    forall i, j | 0 <= i < |history| && 0 <= j < |history| && history[i].batch.id == history[j].batch.id
      ensures history[i].batch == history[j].batch
    {
      SameInList(batches, history[i].batch, history[j].batch);
    }
    EveryBatchStoredExactly(history, server);
  }

  lemma SeenGrows(history: seq<Delivery>, d: Delivery, server: string)
    ensures After(history, server).seen <= After(history + [d], server).seen
    ensures d.server == server && d.batch.id != 0 ==> d.batch.id in After(history + [d], server).seen
  {
    assert (history + [d])[..|history|] == history;
  }

  // ---------- The client ----------

  /** What becomes of one call: the answer arrives, or the client sees an exception before or after the server stored. */
  datatype Outcome = Acknowledged | Lost | Unanswered

  /**
   The world, by the number of the step: outcomes, clock readings, which call of
   a fan-out completes next, and which call of an earlier one finishes.
   */
  datatype Environment = Environment(outcome: nat -> Outcome, clock: nat -> nat,
                                     completes: nat -> nat, background: nat -> nat)

  datatype Health = Health(healthy: bool, blacklistUntil: Option<nat>)

  /** A server that failed is usable again once its time is over. */
  predicate Usable(h: Health, now: nat) { h.healthy || (h.blacklistUntil.Some? && h.blacklistUntil.value <= now) }

  /** How often the clock is read to find the usable ones among `names`. */
  ghost function Readings(health: map<string, Health>, names: seq<string>): (n: nat)
    requires forall i :: 0 <= i < |names| ==> names[i] in health
  {
    if names == [] then 0
    else
      var h := health[names[|names| - 1]];
      Readings(health, names[..|names| - 1]) + if !h.healthy && h.blacklistUntil.Some? then 1 else 0
  }

  lemma NoReadings(health: map<string, Health>)
    ensures Readings(health, []) == 0
  {
  }

  lemma ReadingsStep(health: map<string, Health>, names: seq<string>, i: nat)
    requires i < |names| && forall k :: 0 <= k < |names| ==> names[k] in health
    ensures Readings(health, names[..i + 1]) ==
            Readings(health, names[..i]) +
            if !health[names[i]].healthy && health[names[i]].blacklistUntil.Some? then 1 else 0
  {
    assert names[..i + 1][..i] == names[..i];
  }

  /**
   What a round of a fan-out does about a server: the call of a step, or nothing,
   because it acknowledged before, has no transport, or is not usable yet.
   */
  datatype Turn =
    | Called(server: string, step: nat)
    | Answered(server: string)
    | Unreachable(server: string)
    | Resting(server: string, health: Health, step: nat)

  ghost predicate Acknowledges(outcome: nat -> Outcome, t: Turn) { t.Called? && outcome(t.step).Acknowledged? }

  /** The servers whose call in this round was acknowledged. */
  ghost function AckedBy(outcome: nat -> Outcome, turns: seq<Turn>): set<string> {
    set t | t in turns && Acknowledges(outcome, t) :: t.server
  }

  /** The same over all rounds. */
  ghost function Acked(outcome: nat -> Outcome, rounds: seq<seq<Turn>>): set<string> {
    if rounds == [] then {}
    else Acked(outcome, rounds[..|rounds| - 1]) + AckedBy(outcome, rounds[|rounds| - 1])
  }

  lemma AckedByMore(outcome: nat -> Outcome, turns: seq<Turn>, t: Turn)
    ensures AckedBy(outcome, turns + [t]) == AckedBy(outcome, turns) + if Acknowledges(outcome, t) then {t.server} else {}
  {
    assert forall u :: u in turns + [t] <==> u in turns || u == t;
  }

  lemma AckedMore(outcome: nat -> Outcome, rounds: seq<seq<Turn>>, turns: seq<Turn>)
    ensures Acked(outcome, rounds + [turns]) == Acked(outcome, rounds) + AckedBy(outcome, turns)
  {
    assert (rounds + [turns])[..|rounds|] == rounds;
  }

  lemma FirstRounds(outcome: nat -> Outcome, turns: seq<Turn>)
    ensures Acked(outcome, [turns]) == AckedBy(outcome, turns)
  {
    assert [turns][..0] == [];
  }

  ghost predicate CallsServer(turns: seq<Turn>, server: string) {
    exists t :: t in turns && t.Called? && t.server == server
  }

  ghost predicate TurnOf(turns: seq<Turn>, server: string) { exists t :: t in turns && t.server == server }

  lemma TurnAdded(turns: seq<Turn>, t: Turn)
    ensures forall s :: CallsServer(turns + [t], s) <==> CallsServer(turns, s) || (t.Called? && s == t.server)
    ensures forall s :: TurnOf(turns + [t], s) <==> TurnOf(turns, s) || s == t.server
  {
    assert forall u :: u in turns + [t] <==> u in turns || u == t;
  }

  const LOG_SIZE := 1024

  function LastOf(s: seq<Batch>, n: nat): seq<Batch> { if |s| <= n then s else s[|s| - n..] }

  /** After these deliveries the server stores the batch. */
  ghost predicate Stores(history: seq<Delivery>, server: string, id: nat) { id in After(history, server).seen }

  /** Deliveries were added, and what was stored stays stored. */
  ghost predicate Extends(before: seq<Delivery>, after: seq<Delivery>) {
    before <= after && forall s, id :: Stores(before, s, id) ==> Stores(after, s, id)
  }

  /** The servers for which the results dictionary says True. */
  ghost function Successful(results: map<string, bool>): set<string> { set s | s in results && results[s] }

  /** The results of the calls so far: as many successes as counted, each at a server that stores the batch. */
  ghost predicate Tally(history: seq<Delivery>, results: map<string, bool>, successes: nat, b: Batch) {
    && |Successful(results)| == successes
    && (b.id != 0 ==> forall s :: s in Successful(results) ==> Stores(history, s, b.id))
  }

  lemma AckedTally(history: seq<Delivery>, results: map<string, bool>, successes: nat, b: Batch)
    requires Tally(history, results, successes, b)
    ensures |Successful(results)| == successes
    ensures b.id != 0 ==> forall s :: s in Successful(results) ==> Stores(history, s, b.id)
  {
  }

  lemma OneMoreSuccess(results: map<string, bool>, name: string, ok: bool)
    requires name in results ==> !results[name]
    ensures Successful(results[name := ok]) == Successful(results) + if ok then {name} else {}
    ensures |Successful(results[name := ok])| == |Successful(results)| + if ok then 1 else 0
  {
    assert Successful(results[name := ok]) == Successful(results) + if ok then {name} else {};
  }

  lemma CallTallied(before: seq<Delivery>, after: seq<Delivery>, results: map<string, bool>, successes: nat, b: Batch,
                    name: string, ok: bool)
    requires Tally(before, results, successes, b) && Extends(before, after) && (name in results ==> !results[name])
    requires ok && b.id != 0 ==> Stores(after, name, b.id)
    ensures Tally(after, results[name := ok], if ok then successes + 1 else successes, b)
  {
    hide Successful, Stores;
    OneMoreSuccess(results, name, ok);
  }

  predicate Distinct(names: seq<string>) { forall i, j :: 0 <= i < j < |names| ==> names[i] != names[j] }

  lemma NoneDistinct()
    ensures Distinct([])
  {
  }

  lemma DistinctMore(names: seq<string>, name: string)
    requires Distinct(names) && name !in names
    ensures Distinct(names + [name])
  {
  }

  /** Each server either still waits or has a result. */
  ghost predicate Split(servers: seq<string>, waiting: seq<string>, results: map<string, bool>) {
    && Distinct(waiting)
    && (forall s :: s in servers <==> s in waiting || s in results)
    && forall s :: s in waiting ==> s !in results
  }

  lemma NobodySplit()
    ensures Split([], [], map[]) && Successful(map[]) == {}
  {
  }

  lemma SplitMore(servers: seq<string>, waiting: seq<string>, results: map<string, bool>, name: string)
    requires Split(servers, waiting, results) && name !in servers
    ensures Split(servers + [name], waiting + [name], results)
    ensures Split(servers + [name], waiting, results[name := false])
    ensures Successful(results[name := false]) == Successful(results)
  {
  }

  lemma WaitsWithoutResult(servers: seq<string>, waiting: seq<string>, results: map<string, bool>, k: nat)
    requires Split(servers, waiting, results) && k < |waiting|
    ensures waiting[k] !in results
  {
  }

  lemma SplitNext(servers: seq<string>, waiting: seq<string>, results: map<string, bool>, k: nat, results': map<string, bool>)
    requires Split(servers, waiting, results) && k < |waiting|
    requires forall s :: s in results' <==> s in results || s == waiting[k]
    ensures Split(servers, waiting[..k] + waiting[k + 1..], results')
  {
    var rest := waiting[..k] + waiting[k + 1..];
    assert waiting[k] in waiting;
    forall s
      ensures s in waiting <==> s in rest || s == waiting[k]
      ensures s in rest ==> s != waiting[k]
    {
      if s in waiting {
        var i :| 0 <= i < |waiting| && waiting[i] == s;
        assert i < k ==> rest[i] == s;
        assert i > k ==> rest[i - 1] == s;
      }
    }
  }

  lemma SplitAll(servers: seq<string>, waiting: seq<string>, results: map<string, bool>)
    requires Split(servers, waiting, results)
    ensures forall s :: s in results ==> s in servers
    ensures waiting == [] ==> forall s :: s in servers ==> s in results
  {
  }

  lemma ExtendsOn(a: seq<Delivery>, b: seq<Delivery>, c: seq<Delivery>)
    requires Extends(a, b) && Extends(b, c)
    ensures Extends(a, c)
  {
    hide Stores;
  }

  lemma ExtendsItself(a: seq<Delivery>)
    ensures Extends(a, a)
  {
  }

  lemma NothingTallied(history: seq<Delivery>, results: map<string, bool>, b: Batch)
    requires Successful(results) == {}
    ensures Tally(history, results, 0, b) && Extends(history, history)
  {
    hide Stores;
  }

  /** `order` lists the keys of the dictionary, each once. */
  ghost predicate Keyed(results: map<string, bool>, order: seq<string>) {
    Distinct(order) && forall s :: s in results <==> s in order
  }

  lemma NothingKeyed()
    ensures Keyed(map[], [])
  {
  }

  lemma KeyAdded(results: map<string, bool>, order: seq<string>, name: string, value: bool)
    requires Keyed(results, order) && name !in results
    ensures Keyed(results[name := value], order + [name])
  {
  }

  lemma KeysListed(results: map<string, bool>, order: seq<string>)
    requires Keyed(results, order)
    ensures Distinct(order) && forall s :: s in results <==> s in order
  {
  }

  lemma KeyChanged(results: map<string, bool>, order: seq<string>, name: string, value: bool)
    requires Keyed(results, order) && name in results
    ensures Keyed(results[name := value], order)
  {
  }

  lemma NobodyAcked(outcome: nat -> Outcome)
    ensures AckedBy(outcome, []) == {}
  {
  }

  /** The dictionary keeps up with the turns. */
  lemma TurnNoted(outcome: nat -> Outcome, base: set<string>, results: map<string, bool>, results': map<string, bool>,
                  turns: seq<Turn>, t: Turn)
    requires Successful(results) == base + AckedBy(outcome, turns)
    requires if t.Called? then (t.server in results ==> !results[t.server]) &&
                               results' == results[t.server := Acknowledges(outcome, t)]
             else results' == results
    ensures Successful(results') == base + AckedBy(outcome, turns + [t])
  {
    AckedByMore(outcome, turns, t);
    if t.Called? {
      OneMoreSuccess(results, t.server, Acknowledges(outcome, t));
    }
  }

  class ApiClient {
    const env: Environment
    const blacklistTtl: nat
    const maxRetries: nat
    const names: seq<string>          // the registered servers, in order
    const transports: set<string>
    var health: map<string, Health>
    var replayLog: seq<Batch>
    var pending: seq<Delivery>        // calls of earlier fan-outs that nobody waits for
    var steps: nat
    ghost var History: seq<Delivery>  // what reached the servers

    ghost predicate Valid()
      reads this`health, this`replayLog
    {
      && (forall i, j :: 0 <= i < j < |names| ==> names[i] != names[j])
      && (forall i :: 0 <= i < |names| ==> names[i] in health)
      && |replayLog| <= LOG_SIZE
    }

    /** A turn is what it says: a call made in between, a missing transport, a server that was not usable. */
    ghost predicate TurnHolds(t: Turn, servers: seq<string>, from: nat, to: nat) {
      && t.server in servers
      && match t
         case Called(s, step) => s in transports && from <= step < to
         case Answered(s) => true
         case Unreachable(s) => s !in transports
         case Resting(s, h, step) => from <= step <= to && !Usable(h, env.clock(step))
    }

    method MarkFailure(name: string)
      requires Valid()
      modifies this`health, this`steps
      ensures Valid() && health.Keys == old(health).Keys && steps == old(steps) + 1
      ensures name in health ==> health[name] == Health(false, Some(env.clock(old(steps)) + blacklistTtl))
      ensures forall n :: n in health && n != name ==> health[n] == old(health)[n]
    {
      var now := env.clock(steps);
      steps := steps + 1;
      if name in health {
        health := health[name := Health(false, Some(now + blacklistTtl))];
      }
    }

    method MarkSuccess(name: string)
      requires Valid()
      modifies this`health
      ensures Valid() && health.Keys == old(health).Keys
      ensures name in health ==> health[name] == Health(true, None)
      ensures forall n :: n in health && n != name ==> health[n] == old(health)[n]
    {
      if name in health {
        health := health[name := Health(true, None)];
      }
    }

    /** A server that failed counts as healthy again once its time is over. */
    method IsHealthy(name: string) returns (ok: bool)
      requires Valid() && name in health
      modifies this`health, this`steps
      ensures Valid() && ok == Usable(old(health[name]), env.clock(old(steps)))
      ensures ok <==> old(health[name].healthy) ||
                      (old(health[name].blacklistUntil).Some? &&
                       old(health[name].blacklistUntil).value <= env.clock(old(steps)))
      ensures health == old(health)[name := old(health[name]).(healthy := ok)]
      ensures steps == old(steps) +
                       if !old(health[name]).healthy && old(health[name]).blacklistUntil.Some? then 1 else 0
    {
      if !health[name].healthy {
        if health[name].blacklistUntil.None? {
          return false;
        }
        var now := env.clock(steps);
        steps := steps + 1;
        if now < health[name].blacklistUntil.value {
          return false;
        }
        health := health[name := health[name].(healthy := true)];
      }
      return true;
    }

    /** One transport.append_batch; an exception does not tell whether the server stored the batch. */
    method Send(name: string, b: Batch) returns (ok: bool)
      requires Valid()
      modifies this`steps, this`History
      ensures Valid() && Extends(old(History), History) && steps == old(steps) + 1
      ensures ok == env.outcome(old(steps)).Acknowledged?
      ensures History == old(History) + if env.outcome(old(steps)).Lost? then [] else [Delivery(name, b)]
      ensures ok && b.id != 0 ==> Stores(History, name, b.id)
    {
      var outcome := env.outcome(steps);
      steps := steps + 1;
      if !outcome.Lost? {
        OneDelivery(History, Delivery(name, b));
        History := History + [Delivery(name, b)];
      }
      return outcome.Acknowledged?;
    }

    lemma OneDelivery(history: seq<Delivery>, d: Delivery)
      ensures forall s :: After(history, s).seen <= After(history + [d], s).seen
      ensures d.batch.id != 0 ==> d.batch.id in After(history + [d], d.server).seen
    {
      forall s
        ensures After(history, s).seen <= After(history + [d], s).seen
      {
        SeenGrows(history, d, s);
      }
      SeenGrows(history, d, d.server);
    }

    /** Calls that earlier fan-outs left behind may finish at any moment, in any order and number. */
    method Background()
      requires Valid()
      modifies this`health, this`steps, this`pending, this`History
      ensures Valid() && health.Keys == old(health).Keys && Extends(old(History), History) && steps >= old(steps)
    {
      hide After;
      while env.background(steps) < |pending|
        invariant Valid() && health.Keys == old(health).Keys && Extends(old(History), History) && steps >= old(steps)
        decreases |pending|
      {
        var k := env.background(steps);
        var d := pending[k];
        pending := pending[..k] + pending[k + 1..];
        var ok := Send(d.server, d.batch);
        if ok {
          MarkSuccess(d.server);
        } else {
          MarkFailure(d.server);
        }
      }
    }

    /** The servers that a fan-out contacts: those that are usable when their turn comes. */
    method HealthyServers() returns (servers: seq<string>)
      requires Valid()
      modifies this`health, this`steps
      ensures Valid() && health.Keys == old(health).Keys && Distinct(servers) && steps >= old(steps)
      ensures forall i :: 0 <= i < |servers| ==> servers[i] in names
      ensures forall i :: 0 <= i < |names| ==>
                (names[i] in servers <==>
                 Usable(old(health)[names[i]], env.clock(old(steps) + Readings(old(health), names[..i]))))
    {
      hide Usable, Readings, Distinct;
      servers := [];
      NoReadings(health);
      NoneDistinct();
      for i := 0 to |names|
        invariant Valid() && health.Keys == old(health).Keys && Distinct(servers)
        invariant forall k :: 0 <= k < |servers| ==> servers[k] in names[..i]
        invariant steps == old(steps) + Readings(old(health), names[..i])
        invariant forall k :: i <= k < |names| ==> health[names[k]] == old(health)[names[k]]
        invariant forall k :: 0 <= k < i ==>
                    (names[k] in servers <==>
                     Usable(old(health)[names[k]], env.clock(old(steps) + Readings(old(health), names[..k]))))
      {
        ReadingsStep(old(health), names, i);
        assert names[..i + 1] == names[..i] + [names[i]];
        assert names[i] !in names[..i];
        var ok := IsHealthy(names[i]);
        if ok {
          DistinctMore(servers, names[i]);
          servers := servers + [names[i]];
        }
      }
    }

    /** One call, and its server's health after it. */
    method Call(name: string, b: Batch) returns (ok: bool, ghost step: nat)
      requires Valid()
      modifies this`health, this`steps, this`pending, this`History
      ensures Valid() && health.Keys == old(health).Keys && Extends(old(History), History)
      ensures old(steps) <= step < steps && ok == env.outcome(step).Acknowledged?
      ensures !env.outcome(step).Lost? ==> Delivery(name, b) in History
      ensures name in health ==>
                health[name] == if ok then Health(true, None) else Health(false, Some(env.clock(step + 1) + blacklistTtl))
      ensures ok && b.id != 0 ==> Stores(History, name, b.id)
    {
      hide Stores;
      Background();
      step := steps;
      ok := Send(name, b);
      if ok {
        MarkSuccess(name);
      } else {
        MarkFailure(name);
      }
    }

    /** One call and what the fan-out notes of it. */
    method Attempt(name: string, b: Batch, results: map<string, bool>, successes: nat)
        returns (results': map<string, bool>, successes': nat, ghost turn: Turn)
      requires Valid() && Tally(History, results, successes, b) && (name in results ==> !results[name])
      modifies this`health, this`steps, this`pending, this`History
      ensures Valid() && health.Keys == old(health).Keys && Extends(old(History), History)
      ensures Tally(History, results', successes', b)
      ensures turn.Called? && turn.server == name && old(steps) <= turn.step < steps
      ensures !env.outcome(turn.step).Lost? ==> Delivery(name, b) in History
      ensures results' == results[name := Acknowledges(env.outcome, turn)]
    {
      hide Tally, Extends;
      ghost var before := History;
      var ok, step := Call(name, b);
      CallTallied(before, History, results, successes, b, name, ok);
      results' := results[name := ok];
      successes' := if ok then successes + 1 else successes;
      turn := Called(name, step);
    }

    /** The submission of the calls: a server without a transport has failed at once. */
    method Submit(servers: seq<string>) returns (results: map<string, bool>, order: seq<string>, waiting: seq<string>)
      requires Distinct(servers)
      ensures Split(servers, waiting, results) && Successful(results) == {} && Keyed(results, order)
      ensures forall s :: s in waiting ==> s in transports && s in servers
      ensures forall s :: s in results ==> s !in transports
    {
      hide Split, Successful, Keyed;
      results, order, waiting := map[], [], [];
      NobodySplit();
      NothingKeyed();
      for i := 0 to |servers|
        invariant Split(servers[..i], waiting, results) && Successful(results) == {} && Keyed(results, order)
        invariant forall s :: s in waiting ==> s in transports && s in servers
        invariant forall s :: s in results ==> s !in transports
      {
        assert servers[..i + 1] == servers[..i] + [servers[i]] && servers[i] !in servers[..i];
        SplitMore(servers[..i], waiting, results, servers[i]);
        if servers[i] in transports {
          waiting := waiting + [servers[i]];
        } else {
          KeyAdded(results, order, servers[i], false);
          results, order := results[servers[i] := false], order + [servers[i]];
        }
      }
      assert servers[..|servers|] == servers;
    }

    /** The calls of a fan-out as they complete, in any order, until enough have succeeded. */
    method FirstRound(servers: seq<string>, b: Batch, needed: nat)
        returns (results: map<string, bool>, order: seq<string>, successes: nat, ghost turns: seq<Turn>)
      requires Valid() && Distinct(servers)
      modifies this`health, this`steps, this`pending, this`History
      ensures Valid() && health.Keys == old(health).Keys && Extends(old(History), History) && steps >= old(steps)
      ensures Tally(History, results, successes, b) && Keyed(results, order) && (forall s :: s in results ==> s in servers)
      ensures Successful(results) == AckedBy(env.outcome, turns)
      ensures forall t :: t in turns ==> t.Called? && TurnHolds(t, servers, old(steps), steps)
      ensures successes < needed ==>
                forall s :: s in servers ==> s in results && (s in transports ==> CallsServer(turns, s))
    {
      hide After, Split, Tally, Successful, Extends, Keyed, AckedBy, CallsServer;
      var waiting;
      results, order, waiting := Submit(servers);
      successes, turns := 0, [];
      NothingTallied(History, results, b);
      NobodyAcked(env.outcome);
      while waiting != []
        invariant Valid() && health.Keys == old(health).Keys && Extends(old(History), History) && steps >= old(steps)
        invariant Tally(History, results, successes, b) && Split(servers, waiting, results) && Keyed(results, order)
        invariant Successful(results) == AckedBy(env.outcome, turns)
        invariant forall s :: s in waiting ==> s in transports && s in servers
        invariant forall t :: t in turns ==> t.Called? && TurnHolds(t, servers, old(steps), steps)
        invariant forall s :: s in results && s in transports ==> CallsServer(turns, s)
        decreases |waiting|
      {
        var k := env.completes(steps) % |waiting|;
        var name := waiting[k];
        WaitsWithoutResult(servers, waiting, results, k);
        ghost var before, others, known, done := History, waiting, results, turns;
        waiting := waiting[..k] + waiting[k + 1..];
        ghost var turn;
        results, successes, turn := Attempt(name, b, results, successes);
        KeyAdded(known, order, name, results[name]);
        order, turns := order + [name], turns + [turn];
        TurnNoted(env.outcome, {}, known, results, done, turn);
        TurnAdded(done, turn);
        SplitNext(servers, others, known, k, results);
        ExtendsOn(old(History), before, History);
        SplitAll(servers, waiting, results);
        if successes >= needed {
          pending := pending + seq(|waiting|, i requires 0 <= i < |waiting| => Delivery(waiting[i], b));
          return;
        }
      }
      SplitAll(servers, waiting, results);
    }

    /** What the retry loop does about one server. */
    method Retry(name: string, b: Batch, results: map<string, bool>, successes: nat)
        returns (results': map<string, bool>, successes': nat, ghost turn: Turn)
      requires Valid() && Tally(History, results, successes, b) && name in health && name in results
      modifies this`health, this`steps, this`pending, this`History
      ensures Valid() && health.Keys == old(health).Keys && Extends(old(History), History) && steps >= old(steps)
      ensures Tally(History, results', successes', b) && TurnHolds(turn, [name], old(steps), steps)
      ensures turn.Answered? <==> results[name]
      ensures turn.Unreachable? <==> !results[name] && name !in transports
      ensures turn.Resting? <==> !results[name] && name in transports && !Usable(old(health[name]), env.clock(old(steps)))
      ensures turn.Resting? ==> turn.health == old(health[name]) && turn.step == old(steps)
      ensures results' == if turn.Called? then results[name := Acknowledges(env.outcome, turn)] else results
    {
      hide Tally, Stores, Usable;
      results', successes' := results, successes;
      if results[name] {
        turn := Answered(name);
        return;
      }
      if name !in transports {
        turn := Unreachable(name);
        return;
      }
      turn := Resting(name, health[name], steps);
      var healthy := IsHealthy(name);
      if !healthy {
        return;
      }
      results', successes', turn := Attempt(name, b, results, successes);
    }

    /** One pass of the retry loop over the servers with a result, in the order of their first results. */
    method RetryPass(order: seq<string>, b: Batch, needed: nat, results: map<string, bool>, successes: nat)
        returns (results': map<string, bool>, successes': nat, ghost turns: seq<Turn>)
      requires Valid() && Tally(History, results, successes, b) && successes < needed && Keyed(results, order)
      requires forall i :: 0 <= i < |order| ==> order[i] in health
      modifies this`health, this`steps, this`pending, this`History
      ensures Valid() && health.Keys == old(health).Keys && Extends(old(History), History) && steps >= old(steps)
      ensures Tally(History, results', successes', b) && Keyed(results', order)
      ensures Successful(results') == Successful(results) + AckedBy(env.outcome, turns)
      ensures forall t :: t in turns ==> TurnHolds(t, order, old(steps), steps)
      ensures forall t :: t in turns && t.Answered? ==> t.server in Successful(results)
      ensures successes' < needed ==> forall s :: s in order ==> TurnOf(turns, s)
    {
      hide Extends, Tally, Keyed, TurnOf, Acknowledges, AckedBy;
      results', successes', turns := results, successes, [];
      NobodyAcked(env.outcome);
      KeysListed(results, order);
      ExtendsItself(History);
      for i := 0 to |order|
        invariant Valid() && health.Keys == old(health).Keys && Extends(old(History), History) && steps >= old(steps)
        invariant Tally(History, results', successes', b) && successes' < needed && Keyed(results', order)
        invariant Successful(results') == Successful(results) + AckedBy(env.outcome, turns)
        invariant forall k :: i <= k < |order| ==> order[k] in results' && (results'[order[k]] <==> results[order[k]])
        invariant forall t :: t in turns ==> TurnHolds(t, order, old(steps), steps)
        invariant forall t :: t in turns && t.Answered? ==> t.server in Successful(results)
        invariant forall k :: 0 <= k < i ==> TurnOf(turns, order[k])
      {
        ghost var before, known, done, turn := History, results', turns, Answered("");
        results', successes', turn := Retry(order[i], b, results', successes');
        ExtendsOn(old(History), before, History);
        turns := turns + [turn];
        TurnNoted(env.outcome, Successful(results), known, results', done, turn);
        TurnAdded(done, turn);
        if turn.Called? {
          KeyChanged(known, order, order[i], results'[order[i]]);
        }
        if successes' >= needed {
          return;
        }
      }
    }

    ghost predicate RoundsHold(rounds: seq<seq<Turn>>, servers: seq<string>, from: nat, to: nat) {
      forall r :: 0 <= r < |rounds| ==> forall t :: t in rounds[r] ==> TurnHolds(t, servers, from, to)
    }

    /** The first round called every server with a transport, and each later one dealt with every server. */
    ghost predicate AllTried(rounds: seq<seq<Turn>>, servers: seq<string>) {
      && rounds != []
      && (forall s :: s in servers && s in transports ==> CallsServer(rounds[0], s))
      && forall r :: 0 < r < |rounds| ==> forall s :: s in servers ==> TurnOf(rounds[r], s)
    }

    /** Only a server that acknowledged in an earlier round is passed over as answered. */
    ghost predicate AnswersKnown(rounds: seq<seq<Turn>>) {
      forall r :: 0 <= r < |rounds| ==>
        forall t :: t in rounds[r] && t.Answered? ==> t.server in Acked(env.outcome, rounds[..r])
    }

    lemma OneRound(turns: seq<Turn>, servers: seq<string>, from: nat, to: nat)
      requires forall t :: t in turns ==> t.Called? && TurnHolds(t, servers, from, to)
      ensures RoundsHold([turns], servers, from, to) && AnswersKnown([turns])
      ensures Acked(env.outcome, [turns]) == AckedBy(env.outcome, turns)
      ensures (forall s :: s in servers && s in transports ==> CallsServer(turns, s)) ==> AllTried([turns], servers)
    {
      FirstRounds(env.outcome, turns);
    }

    lemma AnotherRound(rounds: seq<seq<Turn>>, turns: seq<Turn>, order: seq<string>, servers: seq<string>,
                       from: nat, start: nat, to: nat)
      requires forall i :: 0 <= i < |order| ==> order[i] in servers
      requires from <= start <= to && RoundsHold(rounds, servers, from, start) && AnswersKnown(rounds)
      requires forall t :: t in turns ==> TurnHolds(t, order, start, to)
      requires forall t :: t in turns && t.Answered? ==> t.server in Acked(env.outcome, rounds)
      ensures RoundsHold(rounds + [turns], servers, from, to) && AnswersKnown(rounds + [turns])
      ensures Acked(env.outcome, rounds + [turns]) == Acked(env.outcome, rounds) + AckedBy(env.outcome, turns)
      ensures AllTried(rounds, servers) && (forall s :: s in servers ==> TurnOf(turns, s)) ==>
                AllTried(rounds + [turns], servers)
    {
      AckedMore(env.outcome, rounds, turns);
      var all := rounds + [turns];
      assert forall r :: 0 <= r <= |rounds| ==> all[..r] == rounds[..r];
      assert rounds[..|rounds|] == rounds;
    }

    /** The calls of a fan-out and its retries. */
    method Rounds(servers: seq<string>, b: Batch, needed: nat) returns (successes: nat, ghost rounds: seq<seq<Turn>>)
      requires Valid() && Distinct(servers) && forall s :: s in servers ==> s in health
      modifies this`health, this`steps, this`pending, this`History
      ensures Valid() && Extends(old(History), History) && steps >= old(steps)
      ensures successes == |Acked(env.outcome, rounds)|
      ensures b.id != 0 ==> forall s :: s in Acked(env.outcome, rounds) ==> Stores(History, s, b.id)
      ensures RoundsHold(rounds, servers, old(steps), steps) && AnswersKnown(rounds)
      ensures successes < needed ==> |rounds| == 1 + maxRetries && AllTried(rounds, servers)
    {
      hide Stores, Tally, Keyed, Successful, Extends, Acked, AckedBy, RoundsHold, AnswersKnown, AllTried, TurnHolds, TurnOf;
      var results, order;
      ghost var turns;
      results, order, successes, turns := FirstRound(servers, b, needed);
      rounds := [turns];
      OneRound(turns, servers, old(steps), steps);
      KeysListed(results, order);
      AckedTally(History, results, successes, b);
      var retries := 0;
      while retries < maxRetries && successes < needed
        invariant Valid() && health.Keys == old(health).Keys && Extends(old(History), History) && steps >= old(steps)
        invariant retries <= maxRetries && |rounds| == 1 + retries && Keyed(results, order)
        invariant Tally(History, results, successes, b) && Successful(results) == Acked(env.outcome, rounds)
        invariant forall s :: s in order ==> s in servers
        invariant RoundsHold(rounds, servers, old(steps), steps) && AnswersKnown(rounds)
        invariant successes < needed ==> AllTried(rounds, servers) && forall s :: s in servers ==> s in order
      {
        ghost var earlier, before, start := rounds, History, steps;
        retries := retries + 1;
        results, successes, turns := RetryPass(order, b, needed, results, successes);
        rounds := rounds + [turns];
        ExtendsOn(old(History), before, History);
        AnotherRound(earlier, turns, order, servers, old(steps), start, steps);
      }
      AckedTally(History, results, successes, b);
    }

    /**
     append_batch_fanout. It contacts the servers that are usable at their clock
     reading, and returns exactly if enough of them acknowledge one of its calls:
     the quorum, or else more than half. Before it fails it has called every one
     that has a transport, and has in each permitted retry called again or found
     unusable every one that had not acknowledged; the servers that acknowledged
     store the batch.
     */
    method AppendBatchFanout(b: Batch, quorum: Option<nat>)
        returns (ok: bool, ghost contacted: seq<string>, ghost rounds: seq<seq<Turn>>)
      requires Valid()
      modifies this
      ensures Valid() && Extends(old(History), History)
      ensures |replayLog| == if |old(replayLog)| < 1024 then |old(replayLog)| + 1 else 1024
      ensures |old(replayLog)| >= |replayLog| - 1 &&
              replayLog == old(replayLog)[|old(replayLog)| - (|replayLog| - 1)..] + [b]
      ensures Distinct(contacted) && forall i :: 0 <= i < |contacted| ==> contacted[i] in names
      ensures forall i :: 0 <= i < |names| ==>
                (names[i] in contacted <==>
                 Usable(old(health)[names[i]], env.clock(old(steps) + Readings(old(health), names[..i]))))
      ensures var needed := if quorum.Some? then quorum.value else |contacted| / 2 + 1;
              ok <==> contacted != [] && |Acked(env.outcome, rounds)| >= needed
      ensures !ok && contacted != [] ==> |rounds| == 1 + maxRetries && AllTried(rounds, contacted)
      ensures RoundsHold(rounds, contacted, old(steps), steps) && AnswersKnown(rounds)
      ensures b.id != 0 ==> forall s :: s in Acked(env.outcome, rounds) ==> Stores(History, s, b.id)
    {
      hide Stores, Readings, Usable, AckedBy, AllTried, TurnHolds;
      replayLog := LastOf(replayLog + [b], LOG_SIZE);
      contacted, rounds := [], [];
      var servers := HealthyServers();
      contacted := servers;
      if servers == [] {
        return false, contacted, rounds;
      }
      var needed := if quorum.Some? then quorum.value else |servers| / 2 + 1;
      var successes: nat;
      ghost var start := steps;
      successes, rounds := Rounds(servers, b, needed);
      StillHold(rounds, servers, start, old(steps), steps);
      return successes >= needed, contacted, rounds;
    }

    lemma StillHold(rounds: seq<seq<Turn>>, servers: seq<string>, start: nat, from: nat, to: nat)
      requires from <= start && RoundsHold(rounds, servers, start, to)
      ensures RoundsHold(rounds, servers, from, to)
    {
    }

    /**
     replay_for: the logged batches again, to one server, until a call fails. It
     completes exactly if every call is acknowledged.
     */
    method ReplayFor(name: string) returns (known: bool, completed: bool, ghost calls: seq<nat>)
      requires Valid()
      modifies this
      ensures Valid() && Extends(old(History), History) && replayLog == old(replayLog)
      ensures known <==> name in transports && name in names
      ensures !known ==> !completed && calls == []
      ensures known ==> |calls| <= |replayLog| && forall i :: 0 <= i < |calls| ==> old(steps) <= calls[i] < steps
      ensures known && completed ==> |calls| == |replayLog| && forall i :: 0 <= i < |calls| ==> env.outcome(calls[i]).Acknowledged?
      ensures known && !completed ==> calls != [] && !env.outcome(calls[|calls| - 1]).Acknowledged?
      ensures forall i :: 0 <= i < |calls| && !env.outcome(calls[i]).Lost? ==> Delivery(name, replayLog[i]) in History
      ensures known && completed ==> forall i :: 0 <= i < |replayLog| && replayLog[i].id != 0 ==> Stores(History, name, replayLog[i].id)
    {
      hide After;
      calls := [];
      if name !in transports || name !in names {
        return false, false, calls;
      }
      for i := 0 to |replayLog|
        invariant Valid() && health.Keys == old(health).Keys && Extends(old(History), History) && replayLog == old(replayLog)
        invariant |calls| == i && steps >= old(steps) && forall k :: 0 <= k < i ==> old(steps) <= calls[k] < steps
        invariant forall k :: 0 <= k < i ==> env.outcome(calls[k]).Acknowledged? && Delivery(name, replayLog[k]) in History
        invariant forall k :: 0 <= k < i && replayLog[k].id != 0 ==> Stores(History, name, replayLog[k].id)
      {
        var ok, step := Call(name, replayLog[i]);
        calls := calls + [step];
        if !ok {
          return true, false, calls;
        }
      }
      return true, true, calls;
    }
  }
}
