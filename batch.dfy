/**
 * The Batch Orchestrator of main_final.py's `main`: a sliding window of at most
 * three city crawls in flight, the insertion-ordered buffer `all_city_data`
 * of finished cities, a flush of the buffer to a batch file every
 * `BATCH_SIZE` completions with a checkpoint, and a final flush of what is
 * left. The crawls themselves are not modelled: the run is driven by the
 * order in which the cities in flight finish and by what each produced.
 */
module Batch {
  import opened Dicts
  import opened Text
  import Fields

  /** The semaphore's initial value: how many crawls are started up front. */
  const Concurrency: nat := 3
  /** `BATCH_SIZE` */
  const BatchSize: nat := 25
  /** `START_FROM_INDEX` */
  const StartFromIndex: nat := 0

  type CityData = seq<Fields.Record>

  /** One call of `export_batch_to_excel` followed by `save_progress`. */
  datatype Flush = Flush(batchNum: nat, data: Dict<CityData>, checkpoint: int)

  /** The checkpoint written with a flush: `START_FROM_INDEX + completed - 1`. */
  function CheckpointAfter(start: nat, completed: nat): (c: int)
    ensures completed > 0 ==> c >= start
  {
    start + completed - 1
  }

  /** How far the city iterator has advanced once `completed` crawls have finished. */
  function Admitted(start: nat, count: nat, completed: nat): (next: nat)
    ensures start <= next
    ensures start < count ==> next <= count
  {
    if start >= count then start
    else if start + Concurrency + completed < count then start + Concurrency + completed
    else count
  }

  /** The cities from `start` on: `state_df.iloc[START_FROM_INDEX:]`. */
  function Remaining(start: nat, count: nat): (n: nat)
    ensures n == (if start < count then count - start else 0)
  {
    if start < count then count - start else 0
  }

  /** The city names of the finished crawls, in finishing order. */
  function NamesOf(names: seq<string>, done: seq<nat>): (r: seq<string>)
    requires forall j :: 0 <= j < |done| ==> done[j] < |names|
    ensures |r| == |done|
    ensures forall j :: 0 <= j < |done| ==> r[j] == names[done[j]]
  {
    if done == [] then [] else NamesOf(names, done[..|done| - 1]) + [names[done[|done| - 1]]]
  }

  /** The city names of a sequence of flushes, batch after batch. */
  function FlushedKeys(flushes: seq<Flush>): (r: seq<string>)
  {
    if flushes == [] then [] else FlushedKeys(flushes[..|flushes| - 1]) + flushes[|flushes| - 1].data.keys
  }

  /**
   * The sliding window: rows are started in order from `start`, three up
   * front and one more per completion, each finishes at most once, and the
   * rows in flight are exactly the started ones that have not finished.
   */
  ghost predicate AdmissionOk(count: nat, start: nat, next: nat, pending: set<nat>, done: seq<nat>) {
    && Distinct(done)
    && next == Admitted(start, count, |done|)
    && (forall j :: 0 <= j < |done| ==> start <= done[j] < next)
    && (forall i :: i in pending <==> start <= i < next && i !in done)
  }

  /** One flush per `batchSize` completions, numbered from `start / batchSize + 1`, with its checkpoint. */
  ghost predicate FlushesOk(start: nat, batchSize: nat, completed: nat, batchNum: nat, flushes: seq<Flush>)
    requires batchSize > 0
  {
    && |flushes| == completed / batchSize
    && batchNum == start / batchSize + 1 + |flushes|
    && (forall t :: 0 <= t < |flushes| ==> flushes[t].batchNum == start / batchSize + 1 + t)
    && (forall t :: 0 <= t < |flushes| ==> flushes[t].checkpoint == CheckpointAfter(start, (t + 1) * batchSize))
  }

  /** The buffer holds fewer than `batchSize` cities and is empty exactly at a multiple of `batchSize` completions. */
  ghost predicate BufferOk(batchSize: nat, completed: nat, buffer: Dict<CityData>)
    requires batchSize > 0
  {
    && buffer.Valid()
    && |buffer.keys| <= completed % batchSize
    && (buffer.keys == [] <==> completed % batchSize == 0)
  }

  /**
   * With distinct city names, the flushed cities followed by the buffered
   * ones are the finished cities in finishing order, and every flush but the
   * last holds exactly `batchSize` cities.
   */
  ghost predicate OrderOk(names: seq<string>, batchSize: nat, done: seq<nat>, flushes: seq<Flush>, buffer: Dict<CityData>)
    requires forall j :: 0 <= j < |done| ==> done[j] < |names|
  {
    Distinct(names) ==>
      && FlushedKeys(flushes) + buffer.keys == NamesOf(names, done)
      && (forall t :: 0 <= t < |flushes| ==> |flushes[t].data.keys| == batchSize)
  }

  lemma AdmissionStep(count: nat, start: nat, next: nat, pending: set<nat>, done: seq<nat>, k: nat)
    requires AdmissionOk(count, start, next, pending, done) && k in pending
    ensures start <= k < count
    ensures AdmissionOk(count, start, if next < count then next + 1 else next,
                        pending - {k} + (if next < count then {next} else {}), done + [k])
  {
    var done' := done + [k];
    assert forall j :: 0 <= j < |done| ==> done'[j] == done[j];
  }

  lemma FlushStep(start: nat, batchSize: nat, completed: nat, batchNum: nat, flushes: seq<Flush>, buffer: Dict<CityData>, put: Dict<CityData>, exact: bool)
    requires batchSize > 0
    requires FlushesOk(start, batchSize, completed, batchNum, flushes) && BufferOk(batchSize, completed, buffer)
    requires put.Valid() && put.keys != [] && |put.keys| <= |buffer.keys| + 1
    requires exact ==> |buffer.keys| == completed % batchSize && |put.keys| == |buffer.keys| + 1
    ensures (completed + 1) % batchSize != 0 ==>
      && FlushesOk(start, batchSize, completed + 1, batchNum, flushes)
      && BufferOk(batchSize, completed + 1, put)
      && (exact ==> |put.keys| == (completed + 1) % batchSize)
    ensures (completed + 1) % batchSize == 0 ==>
      && |put.keys| <= batchSize
      && (exact ==> |put.keys| == batchSize)
      && FlushesOk(start, batchSize, completed + 1, batchNum + 1,
                   flushes + [Flush(batchNum, put, CheckpointAfter(start, completed + 1))])
      && BufferOk(batchSize, completed + 1, DeleteKeys(put, set c | c in put.keys))
  {
    CountStep(completed, batchSize);
    if (completed + 1) % batchSize == 0 {
      FlushesAppend(start, batchSize, completed, batchNum, flushes, Flush(batchNum, put, CheckpointAfter(start, completed + 1)));
      FlushedBufferOk(batchSize, completed, put);
    }
  }

  /** A flush at a multiple of the batch size, numbered in turn and with the checkpoint formula, keeps the flush list well formed. */
  lemma FlushesAppend(start: nat, batchSize: nat, completed: nat, batchNum: nat, flushes: seq<Flush>, f: Flush)
    requires batchSize > 0 && FlushesOk(start, batchSize, completed, batchNum, flushes)
    requires (completed + 1) % batchSize == 0
    requires f.batchNum == batchNum && f.checkpoint == CheckpointAfter(start, completed + 1)
    ensures FlushesOk(start, batchSize, completed + 1, batchNum + 1, flushes + [f])
  {
    CountStep(completed, batchSize);
    var t := |flushes|;
    assert completed == t * batchSize + (batchSize - 1);
    assert (t + 1) * batchSize == completed + 1;
    var fs := flushes + [f];
    assert forall u :: 0 <= u < t ==> fs[u] == flushes[u];
    assert fs[t] == f;
  }

  /** The buffer emptied by a flush at a multiple of the batch size is a valid empty buffer. */
  lemma FlushedBufferOk(batchSize: nat, completed: nat, put: Dict<CityData>)
    requires batchSize > 0 && put.Valid() && (completed + 1) % batchSize == 0
    ensures BufferOk(batchSize, completed + 1, DeleteKeys(put, set c | c in put.keys))
  {
    DeleteEveryKey(put);
  }

  lemma OrderStep(names: seq<string>, batchSize: nat, done: seq<nat>, flushes: seq<Flush>, buffer: Dict<CityData>, k: nat, data: CityData)
    requires batchSize > 0 && k < |names| && k !in done
    requires forall j :: 0 <= j < |done| ==> done[j] < |names|
    requires OrderOk(names, batchSize, done, flushes, buffer) && buffer.Valid()
    ensures Distinct(names) ==> names[k] !in buffer.values && |Put(buffer, names[k], data).keys| == |buffer.keys| + 1
    ensures OrderOk(names, batchSize, done + [k], flushes, Put(buffer, names[k], data))
  {
    if Distinct(names) {
      var all := FlushedKeys(flushes) + buffer.keys;
      forall m | 0 <= m < |buffer.keys| ensures buffer.keys[m] != names[k] {
        assert all[|FlushedKeys(flushes)| + m] == buffer.keys[m];
        assert done[|FlushedKeys(flushes)| + m] != k;
      }
      assert NamesOf(names, done + [k]) == NamesOf(names, done) + [names[k]] by {
        assert (done + [k])[..|done|] == done;
      }
    }
  }

  /** One more completion: the position within the batch advances, wrapping to 0 when a batch is full. */
  lemma CountStep(c: nat, b: nat)
    requires b > 0
    ensures c % b == b - 1 ==> (c + 1) % b == 0 && (c + 1) / b == c / b + 1
    ensures c % b != b - 1 ==> (c + 1) % b == c % b + 1 && (c + 1) / b == c / b
  {
    var q, r := c / b, c % b;
    assert c == q * b + r;
    if r == b - 1 {
      assert (q + 1) * b == q * b + b;
      DivModUnique(c + 1, b, q + 1, 0);
    } else {
      assert r + 1 < b && c + 1 == q * b + (r + 1);
      DivModUnique(c + 1, b, q, r + 1);
    }
  }

  lemma DivModUnique(n: nat, b: nat, q: nat, r: nat)
    requires b > 0 && r < b && n == q * b + r
    ensures n / b == q && n % b == r
  {
    var q', r' := n / b, n % b;
    assert n == q' * b + r';
    if q' < q {
      MulMono(q', q, b);
    } else if q' > q {
      MulMono(q, q', b);
    }
  }

  lemma MulMono(a: nat, c: nat, b: nat)
    requires a < c
    ensures a * b + b <= c * b
  {
    var d := c - a;
    assert c * b == a * b + d * b;
    assert d * b >= b by {
      assert d * b == b + (d - 1) * b;
    }
  }

  /** `{c: d[c] for c in list(d.keys())[-n:]}` is the whole dict when it has at most `n` keys. */
  lemma BatchIsWholeBuffer(put: Dict<CityData>, n: nat)
    requires put.Valid() && |put.keys| <= n
    ensures Dict(LastKeys(put.keys, n), map c | c in LastKeys(put.keys, n) :: put.values[c]) == put
  {
  }

  lemma OrderFlush(names: seq<string>, batchSize: nat, done: seq<nat>, flushes: seq<Flush>, put: Dict<CityData>, f: Flush)
    requires forall j :: 0 <= j < |done| ==> done[j] < |names|
    requires OrderOk(names, batchSize, done, flushes, put) && f.data == put
    requires Distinct(names) ==> |put.keys| == batchSize
    ensures OrderOk(names, batchSize, done, flushes + [f], Dict([], put.values - set c | c in put.keys))
  {
    assert (flushes + [f])[..|flushes|] == flushes;
    assert FlushedKeys(flushes + [f]) == FlushedKeys(flushes) + put.keys;
  }

  /** The invariant of a run, on the values of its state. */
  ghost predicate RunOk(names: seq<string>, start: nat, batchSize: nat, next: nat, pending: set<nat>, buffer: Dict<CityData>,
                        completed: nat, batchNum: nat, flushes: seq<Flush>, done: seq<nat>)
  {
    && batchSize > 0
    && completed == |done|
    && AdmissionOk(|names|, start, next, pending, done)
    && FlushesOk(start, batchSize, completed, batchNum, flushes)
    && BufferOk(batchSize, completed, buffer)
    && OrderOk(names, batchSize, done, flushes, buffer)
    && (Distinct(names) ==> |buffer.keys| == completed % batchSize)
  }

  /** The state after row `k` finishes with `data`: the primed values are those the fields take. */
  lemma CompleteOk(names: seq<string>, start: nat, batchSize: nat, next: nat, pending: set<nat>, buffer: Dict<CityData>,
                   completed: nat, batchNum: nat, flushes: seq<Flush>, done: seq<nat>, k: nat, data: CityData,
                   next': nat, pending': set<nat>, buffer': Dict<CityData>, batchNum': nat, flushes': seq<Flush>)
    requires RunOk(names, start, batchSize, next, pending, buffer, completed, batchNum, flushes, done) && k in pending && k < |names|
    requires next' == (if next < |names| then next + 1 else next)
    requires pending' == pending - {k} + (if next < |names| then {next} else {})
    requires (completed + 1) % batchSize == 0 ==>
      && buffer' == Dict([], map[]) && batchNum' == batchNum + 1
      && flushes' == flushes + [Flush(batchNum, Put(buffer, names[k], data), CheckpointAfter(start, completed + 1))]
    requires (completed + 1) % batchSize != 0 ==>
      buffer' == Put(buffer, names[k], data) && batchNum' == batchNum && flushes' == flushes
    ensures RunOk(names, start, batchSize, next', pending', buffer', completed + 1, batchNum', flushes', done + [k])
  {
    AdmissionStep(|names|, start, next, pending, done, k);
    OrderStep(names, batchSize, done, flushes, buffer, k, data);
    var put := Put(buffer, names[k], data);
    FlushStep(start, batchSize, completed, batchNum, flushes, buffer, put, Distinct(names));
    if (completed + 1) % batchSize == 0 {
      var f := Flush(batchNum, put, CheckpointAfter(start, completed + 1));
      OrderFlush(names, batchSize, done + [k], flushes, put, f);
      DeleteEveryKey(put);
    }
  }

  /** A row in flight is a row of the state, and a batch never outgrows `batchSize`. */
  lemma InFlightRow(names: seq<string>, start: nat, batchSize: nat, next: nat, pending: set<nat>, buffer: Dict<CityData>,
                    completed: nat, batchNum: nat, flushes: seq<Flush>, done: seq<nat>, k: nat, data: CityData)
    requires RunOk(names, start, batchSize, next, pending, buffer, completed, batchNum, flushes, done) && k in pending
    ensures k < |names| && |Put(buffer, names[k], data).keys| <= batchSize
  {
    AdmissionStep(|names|, start, next, pending, done, k);
    var put := Put(buffer, names[k], data);
    FlushStep(start, batchSize, completed, batchNum, flushes, buffer, put, false);
  }

  /** `|pending|` grows by one per admitted row and shrinks by one per finished row. */
  lemma PendingCard(pending: set<nat>, k: nat, next: nat, admit: bool)
    requires k in pending && next !in pending
    ensures |pending - {k} + (if admit then {next} else {})| == |pending| - 1 + (if admit then 1 else 0)
  {
    assert pending == (pending - {k}) + {k};
  }

  lemma PrefixStep(s: seq<nat>, n: nat)
    requires n < |s|
    ensures s[..n + 1] == s[..n] + [s[n]]
  {
  }

  /**
   * The body of the completion loop for one finished row `k` whose crawl
   * produced `data`: store it under the city's name, count it, flush the
   * last `batchSize` keys of the buffer when the count reaches a multiple of
   * `batchSize` (then delete them from the buffer), and admit the next row if
   * there is one. Returns the new values of the loop's variables.
   */
  method Complete(names: seq<string>, start: nat, batchSize: nat, next: nat, pending: set<nat>, buffer: Dict<CityData>,
                  completed: nat, batchNum: nat, flushes: seq<Flush>, ghost done: seq<nat>, k: nat, data: CityData)
    returns (next': nat, pending': set<nat>, buffer': Dict<CityData>, batchNum': nat, flushes': seq<Flush>)
    requires RunOk(names, start, batchSize, next, pending, buffer, completed, batchNum, flushes, done) && k in pending
    ensures k < |names|
    ensures RunOk(names, start, batchSize, next', pending', buffer', completed + 1, batchNum', flushes', done + [k])
    ensures next' == (if next < |names| then next + 1 else next)
    ensures pending' == pending - {k} + (if next < |names| then {next} else {})
    ensures (completed + 1) % batchSize == 0 ==>
      && buffer' == Empty() && batchNum' == batchNum + 1
      && flushes' == flushes + [Flush(batchNum, Put(buffer, names[k], data), CheckpointAfter(start, completed + 1))]
    ensures (completed + 1) % batchSize != 0 ==>
      buffer' == Put(buffer, names[k], data) && batchNum' == batchNum && flushes' == flushes
  {
    InFlightRow(names, start, batchSize, next, pending, buffer, completed, batchNum, flushes, done, k, data);
    var put := Put(buffer, names[k], data);
    buffer', batchNum', flushes' := put, batchNum, flushes;
    if (completed + 1) % batchSize == 0 {
      var batchCities := LastKeys(put.keys, batchSize);
      var batchData := Dict(batchCities, map c | c in batchCities :: put.values[c]);
      BatchIsWholeBuffer(put, batchSize);
      DeleteEveryKey(put);
      flushes' := flushes + [Flush(batchNum, batchData, CheckpointAfter(start, completed + 1))];
      buffer' := DeleteKeys(put, set c | c in batchCities);
      batchNum' := batchNum + 1;
    }
    next', pending' := next, pending - {k};
    if next < |names| {
      pending' := pending' + {next};
      next' := next + 1;
    }
    CompleteOk(names, start, batchSize, next, pending, buffer, completed, batchNum, flushes, done, k, data,
               next', pending', buffer', batchNum', flushes');
  }

  /** The rows finished first in a legal completion order: each was admitted when it finished. */
  ghost predicate Schedule(count: nat, start: nat, order: seq<nat>) {
    && |order| == Remaining(start, count)
    && Distinct(order)
    && (forall j :: 0 <= j < |order| ==> start <= order[j] < Admitted(start, count, j))
  }

  /**
   * `main` of main_final.py for the rows `start..` of a state: prime the pool
   * with up to three crawls, then, each time a crawl finishes, store its
   * result under the city's name, flush the buffer every `batchSize`
   * completions, and admit the next row; finally flush what is left.
   * `order` is the order in which the crawls finish (any order the sliding
   * window allows) and `data[i]` what the crawl of row `i` produced.
   * `flushes` are the batch files written inside the loop, `final` the last
   * one, if any.
   */
  method RunRegion(names: seq<string>, start: nat, batchSize: nat, order: seq<nat>, data: seq<CityData>)
    returns (flushes: seq<Flush>, final: Option<Flush>)
    requires batchSize > 0 && |data| == |names|
    requires Schedule(|names|, start, order)
    ensures |flushes| == Remaining(start, |names|) / batchSize
    ensures forall t :: 0 <= t < |flushes| ==>
      flushes[t].batchNum == start / batchSize + 1 + t && flushes[t].checkpoint == CheckpointAfter(start, (t + 1) * batchSize)
    ensures final.Some? <==> Remaining(start, |names|) % batchSize != 0
    ensures final.Some? ==>
      final.value.batchNum == start / batchSize + 1 + |flushes| && final.value.checkpoint == CheckpointAfter(start, Remaining(start, |names|))
    ensures Distinct(names) ==>
      && FlushedKeys(flushes) + (if final.Some? then final.value.data.keys else []) == NamesOf(names, order)
      && (forall t :: 0 <= t < |flushes| ==> |flushes[t].data.keys| == batchSize)
    ensures Distinct(names) ==>
      && (forall t, i :: 0 <= t < |flushes| && 0 <= i < |names| && names[i] in flushes[t].data.values ==>
            flushes[t].data.values[names[i]] == data[i])
      && (final.Some? ==> forall i :: 0 <= i < |names| && names[i] in final.value.data.values ==>
            final.value.data.values[names[i]] == data[i])
  {
    var next: nat, pending: set<nat> := Prime(|names|, start);
    var completed: nat := 0;
    var buffer: Dict<CityData> := Empty();
    var batchNum: nat := start / batchSize + 1;
    flushes := [];
    ghost var done: seq<nat> := [];
    while pending != {}
      invariant RunOk(names, start, batchSize, next, pending, buffer, completed, batchNum, flushes, done)
      invariant completed <= |order| && done == order[..completed]
      invariant |pending| + completed == next - start
      invariant ValuesOk(names, data, flushes, buffer)
      decreases |order| - completed
    {
      if completed == |order| {
        assert false;
      }
      var k := order[completed];
      assert k !in done;
      var next', pending', buffer', batchNum', flushes' :=
        Complete(names, start, batchSize, next, pending, buffer, completed, batchNum, flushes, done, k, data[k]);
      PendingCard(pending, k, next, next < |names|);
      ValuesStep(names, data, flushes, buffer, k, batchNum, CheckpointAfter(start, completed + 1));
      PrefixStep(order, completed);
      next, pending, buffer, batchNum, flushes, done := next', pending', buffer', batchNum', flushes', done + [k];
      completed := completed + 1;
    }
    LoopExit(names, start, batchSize, next, pending, buffer, completed, batchNum, flushes, done, order);
    final := FinalFlush(start, buffer, completed, batchNum);
  }

  /**
   * The run as main_final.py configures it: `BATCH_SIZE` cities per batch
   * file from row `START_FROM_INDEX` = 0, so batch files are numbered from 1,
   * the t-th checkpoint is the row index of the last city of batch t, and a
   * last, smaller batch is written exactly when the city count is not a
   * multiple of 25.
   */
  method RunTargetState(names: seq<string>, order: seq<nat>, data: seq<CityData>)
    returns (flushes: seq<Flush>, final: Option<Flush>)
    requires |data| == |names|
    requires Schedule(|names|, StartFromIndex, order)
    ensures |flushes| == |names| / 25
    ensures forall t :: 0 <= t < |flushes| ==> flushes[t].batchNum == t + 1 && flushes[t].checkpoint == 25 * t + 24
    ensures final.Some? <==> |names| % 25 != 0
    ensures final.Some? ==> final.value.batchNum == |names| / 25 + 1 && final.value.checkpoint == |names| - 1
  {
    flushes, final := RunRegion(names, StartFromIndex, BatchSize, order, data);
  }

  /**
   * With distinct city names, every dict written or still buffered maps a
   * city to what the crawl of its row produced.
   */
  ghost predicate ValuesOk(names: seq<string>, data: seq<CityData>, flushes: seq<Flush>, buffer: Dict<CityData>) {
    Distinct(names) && |data| == |names| ==>
      && (forall i :: 0 <= i < |names| && names[i] in buffer.values ==> buffer.values[names[i]] == data[i])
      && (forall t, i :: 0 <= t < |flushes| && 0 <= i < |names| && names[i] in flushes[t].data.values ==>
            flushes[t].data.values[names[i]] == data[i])
  }

  lemma ValuesStep(names: seq<string>, data: seq<CityData>, flushes: seq<Flush>, buffer: Dict<CityData>, k: nat, batchNum: nat, checkpoint: int)
    requires ValuesOk(names, data, flushes, buffer) && buffer.Valid() && k < |names| && |data| == |names|
    ensures ValuesOk(names, data, flushes, Put(buffer, names[k], data[k]))
    ensures ValuesOk(names, data, flushes + [Flush(batchNum, Put(buffer, names[k], data[k]), checkpoint)], Empty())
  {
  }

  /** Prime the pool: admit up to `Concurrency` rows from `start` on. */
  method Prime(count: nat, start: nat) returns (next: nat, pending: set<nat>)
    ensures next == Admitted(start, count, 0)
    ensures forall i :: i in pending <==> start <= i < next
    ensures |pending| == next - start
  {
    next := start;
    pending := {};
    var primed := 0;
    while primed < Concurrency && next < count
      invariant primed <= Concurrency
      invariant next == start + primed
      invariant start < count ==> next <= count
      invariant start >= count ==> primed == 0
      invariant forall i :: i in pending <==> start <= i < next
      invariant |pending| == primed
    {
      assert next !in pending;
      pending := pending + {next};
      next := next + 1;
      primed := primed + 1;
    }
  }

  /** Once no crawl is in flight, every row of the schedule has finished, in its order. */
  lemma LoopExit(names: seq<string>, start: nat, batchSize: nat, next: nat, pending: set<nat>, buffer: Dict<CityData>,
                 completed: nat, batchNum: nat, flushes: seq<Flush>, done: seq<nat>, order: seq<nat>)
    requires RunOk(names, start, batchSize, next, pending, buffer, completed, batchNum, flushes, done)
    requires Schedule(|names|, start, order)
    requires completed <= |order| && done == order[..completed]
    requires |pending| + completed == next - start && pending == {}
    ensures completed == |order| == Remaining(start, |names|) && done == order
  {
  }

  /** `if all_city_data:` export what is left, with the checkpoint of all completions. */
  method FinalFlush(start: nat, buffer: Dict<CityData>, completed: nat, batchNum: nat) returns (final: Option<Flush>)
    ensures final.Some? <==> buffer.keys != []
    ensures final.Some? ==> final.value == Flush(batchNum, buffer, CheckpointAfter(start, completed))
  {
    if buffer.keys != [] {
      final := Some(Flush(batchNum, buffer, CheckpointAfter(start, completed)));
    } else {
      final := None;
    }
  }

  /**
   * The checkpoint counts completions, not rows: crawls may finish out of
   * order, so the row it names can still be in flight. Over five rows from 0
   * with batches of three, the completion order 0, 1, 3, 2, 4 is one the
   * window allows, and the first flush records checkpoint 2 although row 2
   * has not finished yet while row 3 has.
   */
  lemma CheckpointMayNameUnfinishedRow()
    ensures Schedule(5, 0, [0, 1, 3, 2, 4])
    ensures CheckpointAfter(0, 3) == 2 && 2 !in [0, 1, 3] && 3 in [0, 1, 3]
  {
    var order := [0, 1, 3, 2, 4];
    assert Admitted(0, 5, 0) == 3 && Admitted(0, 5, 1) == 4 && Admitted(0, 5, 2) == 5;
    assert Admitted(0, 5, 3) == 5 && Admitted(0, 5, 4) == 5;
    assert forall j :: 0 <= j < |order| ==> 0 <= order[j] < Admitted(0, 5, j);
  }

  /** `list(d.keys())[-n:]`: the last `n` keys, or all of them when there are fewer. */
  function LastKeys(keys: seq<string>, n: nat): (r: seq<string>)
    ensures |keys| <= n ==> r == keys
    ensures |keys| > n ==> r == keys[|keys| - n..]
  {
    if |keys| <= n then keys else keys[|keys| - n..]
  }
}
