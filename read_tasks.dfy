/**
 * The two database read tasks of common.concurrent: how a table is split
 * between threads (by id range, or by row offset), and the batch loop each
 * task runs. The database is a function from a query's two parameters to the
 * rows it returns (a null row is None); the blocking queue is a sequence the
 * task appends to; how long a read keeps running is a number of loop rounds.
 */
module ReadTasks {
  import opened JavaLang

  /** One row of a partition table (a long[2]), or the two parameters of one query. */
  datatype Row = Row(first: int, second: int)

  /** ReadTaskDataHandler.handle: a row becomes null or an array of rows. */
  type Handler<!T> = T -> Option<seq<T>>

  /** The rows a query returns for its two parameters. */
  type Query<T> = (int, int) -> seq<Option<T>>

  // ---------------------------------------------------------------------------
  // Partition by id range (CommonReadDBAccordingIdRangeTask)
  // ---------------------------------------------------------------------------

  /** The ranges for n >= 2 threads: n - 1 ranges of width step from minId, then the rest up to maxId. */
  function IdRanges(minId: int, maxId: int, n: nat, step: int): (r: seq<Row>)
    requires n >= 2
    ensures |r| == n
  {
    seq(n, i requires 0 <= i < n =>
      if i < n - 1 then Row(minId + i * step, minId + i * step + step)
      else Row(minId + (n - 2) * step + step, maxId))
  }

  /** The id-range table: null (None) for an empty id range or no thread, an exception, or the rows. */
  function IdPartition(minId: int, maxId: int, n: int): Result<Option<seq<Row>>>
  {
    if minId > maxId || n < 1 then Ok(None)
    else if n == 1 then Ok(Some([Row(minId, maxId)]))
    else if JavaDiv(maxId - minId, n) <= 10 then Throws(IllegalStateException)
    else Ok(Some(IdRanges(minId, maxId, n, JavaDiv(maxId - minId, n))))
  }

  /** The rows of a table with two columns. */
  function TableRows(a: array2<int>): (r: seq<Row>)
    requires a.Length1 == 2
    reads a
    ensures |r| == a.Length0
  {
    seq(a.Length0, i requires 0 <= i < a.Length0 reads a => Row(a[i, 0], a[i, 1]))
  }

  /** calculateTaskAccordingIdRangeAndThreadNumber, filling a long[threadNum][2]. */
  method CalculateIdRanges(minId: int, maxId: int, threadNum: int) returns (r: Result<array2?<int>>)
    ensures IdPartition(minId, maxId, threadNum).Throws? ==> r == Throws(IdPartition(minId, maxId, threadNum).exception)
    ensures IdPartition(minId, maxId, threadNum) == Ok(None) ==> r == Ok(null)
    ensures IdPartition(minId, maxId, threadNum).Ok? && IdPartition(minId, maxId, threadNum).value.Some? ==>
      r.Ok? && r.value != null && r.value.Length1 == 2 &&
      TableRows(r.value) == IdPartition(minId, maxId, threadNum).value.value
  {
    if minId > maxId || threadNum < 1 {
      return Ok(null);
    }
    var t := new int[threadNum, 2];
    if threadNum == 1 {
      t[0, 0] := minId;
      t[0, 1] := maxId;
      assert TableRows(t) == [Row(minId, maxId)];
      return Ok(t);
    }
    var count := JavaDiv(maxId - minId, threadNum);
    if count <= 10 {
      return Throws(IllegalStateException);
    }
    var i := 0;
    while i < threadNum - 1
      invariant 0 <= i <= threadNum - 1
      invariant forall k :: 0 <= k < i ==> t[k, 0] == minId + k * count && t[k, 1] == minId + k * count + count
    {
      t[i, 0] := minId + i * count;
      t[i, 1] := t[i, 0] + count;
      i := i + 1;
    }
    t[threadNum - 1, 0] := t[threadNum - 2, 1];
    t[threadNum - 1, 1] := maxId;
    assert TableRows(t) == IdRanges(minId, maxId, threadNum, count);
    return Ok(t);
  }

  /** When the partition gives null, when it throws, and that one thread gets the whole range. */
  lemma IdPartitionCases(minId: int, maxId: int, n: int)
    ensures IdPartition(minId, maxId, n) == Ok(None) <==> minId > maxId || n < 1
    ensures IdPartition(minId, maxId, n).Throws? <==> minId <= maxId && n >= 2 && (maxId - minId) / n <= 10
    ensures IdPartition(minId, maxId, n).Throws? ==> IdPartition(minId, maxId, n).exception == IllegalStateException
    ensures minId <= maxId && n == 1 ==> IdPartition(minId, maxId, n) == Ok(Some([Row(minId, maxId)]))
  {
  }

  lemma MulMono(a: int, b: int, step: int)
    requires a <= b && step >= 0
    ensures a * step <= b * step
  {
  }

  /** The ranges follow each other: the first starts at minId, the last ends at maxId, each starts where the previous ends. */
  lemma IdRangesContiguous(minId: int, maxId: int, n: nat, step: int)
    requires n >= 2
    ensures IdRanges(minId, maxId, n, step)[0].first == minId
    ensures IdRanges(minId, maxId, n, step)[n - 1].second == maxId
    ensures forall i :: 0 <= i < n - 1 ==> IdRanges(minId, maxId, n, step)[i].second == IdRanges(minId, maxId, n, step)[i + 1].first
  {
    var r := IdRanges(minId, maxId, n, step);
    forall i | 0 <= i < n - 1
      ensures r[i].second == r[i + 1].first
    {
      assert (i + 1) * step == i * step + step;
    }
  }

  /** Every range but the last is step ids wide; the last is at least as wide. */
  lemma IdRangesWidths(minId: int, maxId: int, n: nat)
    requires n >= 2 && minId <= maxId
    ensures var step := (maxId - minId) / n;
      var r := IdRanges(minId, maxId, n, step);
      (forall i :: 0 <= i < n - 1 ==> r[i].second - r[i].first == step) && r[n - 1].second - r[n - 1].first >= step
  {
    var step := (maxId - minId) / n;
    assert n * step <= maxId - minId;
    assert (n - 2) * step + step + step == n * step;
  }

  /** Euclidean division brackets x between two multiples of step. */
  lemma DivBracket(x: int, step: int)
    requires step > 0
    ensures (x / step) * step <= x < (x / step) * step + step
  {
  }

  /** The id that the k-th multiple of step reaches lies in range k, or in the last range when k is past it. */
  lemma IdInRange(minId: int, maxId: int, n: nat, step: int, id: int, k: int)
    requires n >= 2 && step > 0 && minId <= id < maxId && 0 <= k
    requires k * step <= id - minId < k * step + step
    ensures var i := if k < n - 1 then k else n - 1;
      IdRanges(minId, maxId, n, step)[i].first <= id < IdRanges(minId, maxId, n, step)[i].second
  {
    if k >= n - 1 {
      MulMono(n - 1, k, step);
      assert (n - 2) * step + step == (n - 1) * step;
    }
  }

  /** Every id of [minId, maxId) lies in a range. */
  lemma IdRangesCover(minId: int, maxId: int, n: nat, step: int, id: int)
    requires n >= 2 && step > 0 && minId <= id < maxId
    ensures exists i :: 0 <= i < n && IdRanges(minId, maxId, n, step)[i].first <= id < IdRanges(minId, maxId, n, step)[i].second
  {
    var k := (id - minId) / step;
    DivBracket(id - minId, step);
    IdInRange(minId, maxId, n, step, id, k);
    var i := if k < n - 1 then k else n - 1;
    assert IdRanges(minId, maxId, n, step)[i].first <= id < IdRanges(minId, maxId, n, step)[i].second;
  }

  lemma IdRangesOrdered(minId: int, maxId: int, n: nat, step: int)
    requires n >= 2 && step >= 0
    ensures forall i, j :: 0 <= i < j < n ==> IdRanges(minId, maxId, n, step)[i].second <= IdRanges(minId, maxId, n, step)[j].first
  {
    var r := IdRanges(minId, maxId, n, step);
    forall i, j | 0 <= i < j < n
      ensures r[i].second <= r[j].first
    {
      MulMono(i + 1, j, step);
      assert (i + 1) * step == i * step + step;
      assert (n - 2) * step + step == (n - 1) * step;
    }
  }

  // ---------------------------------------------------------------------------
  // Partition by row count (CommonReadDBOnEverageTask)
  // ---------------------------------------------------------------------------

  /** The slices for n >= 1 threads: row i starts at i * per and holds per rows; the last takes the rest. */
  function Slices(total: int, n: nat): (r: seq<Row>)
    requires n >= 1
    ensures |r| == n
  {
    var per := JavaDiv(total, n);
    seq(n, i requires 0 <= i < n =>
      if i < n - 1 then Row(i * per, per) else Row((n - 1) * per, total - (n - 1) * per))
  }

  /** The slice table: a negative size throws when it is allocated, zero threads when it divides. */
  function SlicePartition(total: int, n: int): Result<seq<Row>>
  {
    if n < 0 then Throws(NegativeArraySizeException)
    else if n == 0 then Throws(ArithmeticException)
    else Ok(Slices(total, n))
  }

  /** calculateTasksAccordingTotalCountAndThreadNumber, filling a long[threadNumber][2]. */
  method CalculateSlices(totalCount: int, threadNumber: int) returns (r: Result<array2<int>>)
    ensures SlicePartition(totalCount, threadNumber).Throws? ==> r == Throws(SlicePartition(totalCount, threadNumber).exception)
    ensures SlicePartition(totalCount, threadNumber).Ok? ==>
      r.Ok? && r.value.Length1 == 2 && TableRows(r.value) == SlicePartition(totalCount, threadNumber).value
  {
    if threadNumber < 0 {
      return Throws(NegativeArraySizeException);
    }
    var tasks := new int[threadNumber, 2];
    if threadNumber == 0 {
      return Throws(ArithmeticException);
    }
    var per := JavaDiv(totalCount, threadNumber);
    var i := 0;
    while i < threadNumber - 1
      invariant 0 <= i <= threadNumber - 1
      invariant forall k :: 0 <= k < i ==> tasks[k, 0] == k * per && tasks[k, 1] == per
    {
      tasks[i, 0] := i * per;
      tasks[i, 1] := per;
      i := i + 1;
    }
    tasks[threadNumber - 1, 0] := (threadNumber - 1) * per;
    tasks[threadNumber - 1, 1] := totalCount - tasks[threadNumber - 1, 0];
    assert TableRows(tasks) == Slices(totalCount, threadNumber);
    return Ok(tasks);
  }

  /** The slices follow each other from offset 0, and all but the last hold total / n rows. */
  lemma SlicesShape(total: int, n: nat)
    requires n >= 1
    ensures var r := Slices(total, n);
      r[0].first == 0 &&
      (forall i :: 0 <= i < n ==> r[i].first == i * JavaDiv(total, n)) &&
      (forall i :: 0 <= i < n - 1 ==> r[i].second == JavaDiv(total, n) && r[i + 1].first == r[i].first + r[i].second)
  {
    var r := Slices(total, n);
    var per := JavaDiv(total, n);
    forall i | 0 <= i < n - 1
      ensures r[i + 1].first == r[i].first + r[i].second
    {
      assert (i + 1) * per == i * per + per;
    }
  }

  /** The number of rows a table of slices covers. */
  function SumSizes(rows: seq<Row>): int
  {
    if rows == [] then 0 else SumSizes(rows[..|rows| - 1]) + rows[|rows| - 1].second
  }

  lemma {:induction false} SlicesPrefixSum(total: int, n: nat, k: nat)
    requires n >= 1 && k <= n - 1
    ensures SumSizes(Slices(total, n)[..k]) == k * JavaDiv(total, n)
  {
    var r := Slices(total, n);
    if k > 0 {
      SlicesPrefixSum(total, n, k - 1);
      assert r[..k][..k - 1] == r[..k - 1];
      assert (k - 1) * JavaDiv(total, n) + JavaDiv(total, n) == k * JavaDiv(total, n);
    }
  }

  /** The slices hand out exactly totalCount rows between them. */
  lemma SlicesSum(total: int, n: nat)
    requires n >= 1
    ensures SumSizes(Slices(total, n)) == total
  {
    var r := Slices(total, n);
    SlicesPrefixSum(total, n, n - 1);
    assert r[..n][..n - 1] == r[..n - 1];
    assert r[..n] == r;
  }

  // ---------------------------------------------------------------------------
  // Handing rows to the queue
  // ---------------------------------------------------------------------------

  /** What a task puts on the queue for one fetched row. */
  function Put<T>(handler: Option<Handler<T>>, row: Option<T>): seq<T>
  {
    match row
    case None => []
    case Some(t) =>
      match handler
      case None => [t]
      case Some(h) => (match h(t) case None => [] case Some(ts) => ts)
  }

  function PutAll<T>(handler: Option<Handler<T>>, rows: seq<Option<T>>): seq<T>
  {
    if rows == [] then [] else PutAll(handler, rows[..|rows| - 1]) + Put(handler, rows[|rows| - 1])
  }

  /** The number of non-null rows. */
  function NonNull<T>(rows: seq<Option<T>>): nat
  {
    if rows == [] then 0 else NonNull(rows[..|rows| - 1]) + (if rows[|rows| - 1].Some? then 1 else 0)
  }

  /** Rows are handed over in the order they were fetched. */
  lemma {:induction false} PutAllAppend<T>(handler: Option<Handler<T>>, a: seq<Option<T>>, b: seq<Option<T>>)
    ensures PutAll(handler, a + b) == PutAll(handler, a) + PutAll(handler, b)
    ensures NonNull(a + b) == NonNull(a) + NonNull(b)
  {
    if b != [] {
      var init := b[..|b| - 1];
      PutAllAppend(handler, a, init);
      assert (a + b)[..|a + b| - 1] == a + init;
      assert (a + b)[|a + b| - 1] == b[|b| - 1];
    } else {
      assert a + b == a;
    }
  }

  /** The inner loop of both runInternal methods: every non-null row goes through the handler onto the queue. */
  method Deliver<T>(queue: seq<T>, handler: Option<Handler<T>>, rows: seq<Option<T>>) returns (q: seq<T>, delivered: nat)
    ensures q == queue + PutAll(handler, rows)
    ensures delivered == NonNull(rows)
  {
    q := queue;
    delivered := 0;
    for j := 0 to |rows|
      invariant q == queue + PutAll(handler, rows[..j])
      invariant delivered == NonNull(rows[..j])
    {
      assert rows[..j + 1][..j] == rows[..j];
      var t := rows[j];
      if t.Some? {
        delivered := delivered + 1;
        if handler.Some? {
          var ts := handler.value(t.value);
          if ts.Some? {
            var tts := ts.value;
            for k := 0 to |tts|
              invariant q == queue + PutAll(handler, rows[..j]) + tts[..k]
            {
              assert tts[..k + 1] == tts[..k] + [tts[k]];
              q := q + [tts[k]];
            }
            assert tts[..|tts|] == tts;
          }
        } else {
          q := q + [t.value];
        }
      }
    }
    assert rows[..|rows|] == rows;
  }

  /** The rows a sequence of queries returns, in query order. */
  function Fetched<T>(query: Query<T>, requests: seq<Row>): seq<Option<T>>
  {
    if requests == [] then []
    else query(requests[0].first, requests[0].second) + Fetched(query, requests[1..])
  }

  /** What a sequence of queries puts on the queue, query by query. */
  function Delivered<T>(handler: Option<Handler<T>>, query: Query<T>, requests: seq<Row>): seq<T>
  {
    if requests == [] then []
    else PutAll(handler, query(requests[0].first, requests[0].second)) + Delivered(handler, query, requests[1..])
  }

  /** The rows of a first query come before those of the later ones. */
  lemma FetchedCons<T>(query: Query<T>, req: Row, rest: seq<Row>)
    ensures Fetched(query, [req] + rest) == query(req.first, req.second) + Fetched(query, rest)
  {
    assert ([req] + rest)[1..] == rest;
  }

  /** The rows of a first query reach the queue before those of the later ones. */
  lemma DeliveredCons<T>(handler: Option<Handler<T>>, query: Query<T>, req: Row, rest: seq<Row>)
    ensures Delivered(handler, query, [req] + rest) == PutAll(handler, query(req.first, req.second)) + Delivered(handler, query, rest)
  {
    assert ([req] + rest)[1..] == rest;
  }

  /** The queue gets the fetched rows, in fetch order, each through the handler. */
  lemma {:induction false} DeliveredIsPutAll<T>(handler: Option<Handler<T>>, query: Query<T>, requests: seq<Row>)
    ensures Delivered(handler, query, requests) == PutAll(handler, Fetched(query, requests))
  {
    if requests != [] {
      DeliveredIsPutAll(handler, query, requests[1..]);
      PutAllAppend(handler, query(requests[0].first, requests[0].second), Fetched(query, requests[1..]));
    }
  }

  /** One query, then the rest: the queue after the first, then what the rest adds. */
  lemma QueueFirst<T>(handler: Option<Handler<T>>, query: Query<T>, q: seq<T>, req: Row, rest: seq<Row>)
    ensures q + Delivered(handler, query, [req] + rest) ==
      (q + PutAll(handler, query(req.first, req.second))) + Delivered(handler, query, rest)
  {
    DeliveredCons(handler, query, req, rest);
    ConcatAssoc(q, PutAll(handler, query(req.first, req.second)), Delivered(handler, query, rest));
  }

  /** One query, then the rest: the non-null rows of the first come before those of the rest. */
  lemma CountFirst<T>(query: Query<T>, req: Row, rest: seq<Row>)
    ensures NonNull(Fetched(query, [req] + rest)) == NonNull(query(req.first, req.second)) + NonNull(Fetched(query, rest))
  {
    FetchedCons(query, req, rest);
    PutAllAppend(None, query(req.first, req.second), Fetched(query, rest));
  }

  // ---------------------------------------------------------------------------
  // The id-window loop (CommonReadDBAccordingIdRangeTask.runInternal)
  // ---------------------------------------------------------------------------

  /**
   * The windows [sid, eid) the loop queries while it is running for `rounds`
   * more rounds: it goes on while sid < maxId and eid <= maxId, and the next
   * window starts where this one ends and is at most batch ids wide.
   */
  function Windows(sid: int, eid: int, maxId: int, batch: int, rounds: nat): seq<Row>
    decreases rounds
  {
    if rounds == 0 || !(sid < maxId && eid <= maxId) then []
    else [Row(sid, eid)] + Windows(eid, Min(eid + batch, maxId), maxId, batch, rounds - 1)
  }

  /** The windows of a task over [minId, maxId). */
  function IdWindows(minId: int, maxId: int, batch: int, rounds: nat): seq<Row>
  {
    Windows(minId, Min(minId + batch, maxId), maxId, batch, rounds)
  }

  /** The query of an id-range task: rows with sid <= id < eid. */
  function IdWindowSql(returnData: string, tableName: string): string
  {
    "select " + returnData + " from " + tableName + " where id >= ? and id < ?"
  }

  /** Each window starts below maxId and ends at most at maxId (so id maxId is never read); each starts where the previous ends. */
  lemma {:induction false} WindowsShape(sid: int, eid: int, maxId: int, batch: int, rounds: nat)
    ensures var w := Windows(sid, eid, maxId, batch, rounds);
      |w| <= rounds &&
      (w != [] ==> w[0] == Row(sid, eid)) &&
      (forall k :: 0 <= k < |w| ==> w[k].first < maxId && w[k].second <= maxId) &&
      (forall k :: 0 <= k < |w| - 1 ==> w[k + 1] == Row(w[k].second, Min(w[k].second + batch, maxId)))
    decreases rounds
  {
    var w := Windows(sid, eid, maxId, batch, rounds);
    if w != [] {
      var next := Min(eid + batch, maxId);
      var rest := Windows(eid, next, maxId, batch, rounds - 1);
      WindowsShape(eid, next, maxId, batch, rounds - 1);
      assert w == [Row(sid, eid)] + rest;
      forall k | 0 <= k < |w| - 1
        ensures w[k + 1] == Row(w[k].second, Min(w[k].second + batch, maxId))
      {
        if k > 0 {
          assert w[k] == rest[k - 1] && w[k + 1] == rest[k];
        }
      }
    }
  }

  /** One round of the window loop: the window [sid, eid), then the windows from eid. */
  lemma WindowsUnfold(sid: int, eid: int, maxId: int, batch: int, rounds: nat)
    requires rounds > 0 && sid < maxId && eid <= maxId
    ensures Windows(sid, eid, maxId, batch, rounds) == [Row(sid, eid)] + Windows(eid, Min(eid + batch, maxId), maxId, batch, rounds - 1)
  {
  }

  lemma {:induction false} WindowAt(sid: int, maxId: int, batch: int, rounds: nat, k: nat)
    requires k < |Windows(sid, Min(sid + batch, maxId), maxId, batch, rounds)|
    ensures var w := Windows(sid, Min(sid + batch, maxId), maxId, batch, rounds)[k];
      (batch > 0 ==> w.first < w.second) && (batch <= 0 ==> w.second <= w.first)
    decreases k
  {
    var eid := Min(sid + batch, maxId);
    assert rounds > 0 && sid < maxId;
    WindowsUnfold(sid, eid, maxId, batch, rounds);
    if k > 0 {
      WindowAt(eid, maxId, batch, rounds - 1, k - 1);
    }
  }

  /** With batchSize > 0 every window is non-empty; with batchSize <= 0 every window is empty, so nothing is read. */
  lemma {:induction false} WindowsProgress(sid: int, maxId: int, batch: int, rounds: nat)
    ensures var w := Windows(sid, Min(sid + batch, maxId), maxId, batch, rounds);
      (batch > 0 ==> forall k :: 0 <= k < |w| ==> w[k].first < w[k].second) &&
      (batch <= 0 ==> forall k :: 0 <= k < |w| ==> w[k].second <= w[k].first)
  {
    var w := Windows(sid, Min(sid + batch, maxId), maxId, batch, rounds);
    forall k | 0 <= k < |w|
      ensures (batch > 0 ==> w[k].first < w[k].second) && (batch <= 0 ==> w[k].second <= w[k].first)
    {
      WindowAt(sid, maxId, batch, rounds, k);
    }
  }

  /** Given enough rounds and batchSize > 0, the windows reach maxId: every id of [minId, maxId) is read. */
  lemma {:induction false} WindowsReachMax(sid: int, maxId: int, batch: int, rounds: nat)
    requires batch > 0 && sid < maxId && rounds > maxId - sid
    ensures var w := Windows(sid, Min(sid + batch, maxId), maxId, batch, rounds);
      w != [] && w[|w| - 1].second == maxId
    decreases rounds
  {
    var eid := Min(sid + batch, maxId);
    var w := Windows(sid, eid, maxId, batch, rounds);
    var rest := Windows(eid, Min(eid + batch, maxId), maxId, batch, rounds - 1);
    assert w == [Row(sid, eid)] + rest;
    if eid < maxId {
      WindowsReachMax(eid, maxId, batch, rounds - 1);
    } else {
      assert rest == [];
    }
  }

  /** CommonReadDBAccordingIdRangeTask: reads the ids [minId, maxId) in windows of batchSize ids. */
  class IdRangeReadTask<T> {
    const name: string
    const minId: int
    const maxId: int
    const batchSize: int
    const usingSql: string
    const query: Query<T>
    const handler: Option<Handler<T>>
    var queue: seq<T>
    var count: int

    constructor (tableName: string, returnData: string, minId: int, maxId: int, batchSize: int,
                 query: Query<T>, queue: seq<T>, handler: Option<Handler<T>>)
      requires minId <= maxId
      ensures this.minId == minId && this.maxId == maxId && this.batchSize == batchSize
      ensures this.query == query && this.handler == handler && this.queue == queue && count == 0
      ensures usingSql == IdWindowSql(returnData, tableName)
      ensures name == "Read " + tableName + " id:" + LongStr(minId) + "--" + LongStr(maxId)
    {
      usingSql := IdWindowSql(returnData, tableName);
      this.minId := minId;
      this.maxId := maxId;
      this.batchSize := batchSize;
      this.query := query;
      this.queue := queue;
      this.handler := handler;
      count := 0;
      name := "Read " + tableName + " id:" + LongStr(minId) + "--" + LongStr(maxId);
    }

    /**
     * runInternal while the read runs for `rounds` rounds: queries each window
     * of IdWindows, counts the non-null rows and hands them to the queue.
     */
    method RunInternal(rounds: nat) returns (r: string)
      modifies this
      ensures queue == old(queue) + Delivered(handler, query, IdWindows(minId, maxId, batchSize, rounds))
      ensures count == old(count) + NonNull(Fetched(query, IdWindows(minId, maxId, batchSize, rounds)))
      ensures r == name + " finished:" + LongStr(count)
    {
      var sid := minId;
      var eid := Min(minId + batchSize, maxId);
      var left: nat := rounds;
      var q, c := queue, count;
      ghost var all := IdWindows(minId, maxId, batchSize, rounds);
      while left > 0 && sid < maxId && eid <= maxId
        invariant q + Delivered(handler, query, Windows(sid, eid, maxId, batchSize, left)) == old(queue) + Delivered(handler, query, all)
        invariant c + NonNull(Fetched(query, Windows(sid, eid, maxId, batchSize, left))) == old(count) + NonNull(Fetched(query, all))
        decreases left
      {
        var tlist := query(sid, eid);
        var q', delivered := Deliver(q, handler, tlist);
        var next := Min(eid + batchSize, maxId);
        WindowsUnfold(sid, eid, maxId, batchSize, left);
        QueueFirst(handler, query, q, Row(sid, eid), Windows(eid, next, maxId, batchSize, left - 1));
        CountFirst(query, Row(sid, eid), Windows(eid, next, maxId, batchSize, left - 1));
        q, c := q', c + delivered;
        sid := eid;
        eid := next;
        left := left - 1;
      }
      assert Windows(sid, eid, maxId, batchSize, left) == [];
      assert q + [] == q;
      queue, count := q, c;
      r := name + " finished:" + LongStr(count);
    }
  }

  /** The constructor's checks: a null queue or operator, or minId > maxId, throw IllegalArgumentException. */
  method NewIdRangeReadTask<T>(tableName: string, returnData: string, minId: int, maxId: int, batchSize: int,
                               query: Option<Query<T>>, queue: Option<seq<T>>, handler: Option<Handler<T>>)
    returns (r: Result<IdRangeReadTask<T>>)
    ensures r.Throws? <==> queue.None? || query.None? || minId > maxId
    ensures r.Throws? ==> r.exception == IllegalArgumentException
    ensures r.Ok? ==> fresh(r.value) && r.value.minId == minId && r.value.maxId == maxId && r.value.count == 0
    ensures r.Ok? ==> r.value.queue == queue.value && r.value.query == query.value
  {
    if queue.None? || query.None? || minId > maxId {
      return Throws(IllegalArgumentException);
    }
    var task := new IdRangeReadTask(tableName, returnData, minId, maxId, batchSize, query.value, queue.value, handler);
    return Ok(task);
  }

  // ---------------------------------------------------------------------------
  // The offset loop (CommonReadDBOnEverageTask.runInternal)
  // ---------------------------------------------------------------------------

  /** The size of the next query: what is left to read, at most batch rows. */
  function Want(count: int, readCount: int, batch: int): int
  {
    Min(readCount - count, batch)
  }

  /** The number of rows the next query returns. */
  function Got<T>(query: Query<T>, st: int, count: int, readCount: int, batch: int): nat
  {
    |query(st, Want(count, readCount, batch))|
  }

  /**
   * The (offset, size) of each query the loop makes while it runs for `rounds`
   * rounds: it asks for Want rows at offset st, counts every row returned,
   * moves st past them, and stops once count reaches readCount or a query
   * returns no row.
   */
  function OffsetRequests<T>(query: Query<T>, st: int, count: int, readCount: int, batch: int, rounds: nat): seq<Row>
    decreases rounds
  {
    if rounds == 0 then []
    else
      var n := Got(query, st, count, readCount, batch);
      [Row(st, Want(count, readCount, batch))] +
      (if count + n >= readCount || n == 0 then []
       else OffsetRequests(query, st + n, count + n, readCount, batch, rounds - 1))
  }

  /** The round after which the offset loop stops: its query reached readCount or returned nothing. */
  lemma OffsetStops<T>(query: Query<T>, st: int, count: int, readCount: int, batch: int, rounds: nat)
    requires rounds > 0
    requires count + Got(query, st, count, readCount, batch) >= readCount || Got(query, st, count, readCount, batch) == 0
    ensures OffsetRequests(query, st, count, readCount, batch, rounds) == [Row(st, Want(count, readCount, batch))]
  {
  }

  /** A round after which the offset loop goes on from the next offset. */
  lemma OffsetContinues<T>(query: Query<T>, st: int, count: int, readCount: int, batch: int, rounds: nat)
    requires rounds > 0
    requires !(count + Got(query, st, count, readCount, batch) >= readCount || Got(query, st, count, readCount, batch) == 0)
    ensures var n := Got(query, st, count, readCount, batch);
      OffsetRequests(query, st, count, readCount, batch, rounds) ==
        [Row(st, Want(count, readCount, batch))] + OffsetRequests(query, st + n, count + n, readCount, batch, rounds - 1)
  {
  }

  lemma ConsPrefix<X>(x: X, rest: seq<X>, k: nat)
    requires k <= |rest|
    ensures ([x] + rest)[..k + 1] == [x] + rest[..k]
    ensures k < |rest| ==> ([x] + rest)[k + 1] == rest[k]
  {
  }

  lemma {:induction false} OffsetRequestAt<T>(query: Query<T>, st: int, count: int, readCount: int, batch: int, rounds: nat, k: nat)
    requires k < |OffsetRequests(query, st, count, readCount, batch, rounds)|
    ensures var reqs := OffsetRequests(query, st, count, readCount, batch, rounds);
      var before := |Fetched(query, reqs[..k])|;
      reqs[k] == Row(st + before, Want(count + before, readCount, batch))
    decreases k, 1
  {
    if k == 0 {
      assert OffsetRequests(query, st, count, readCount, batch, rounds)[..0] == [];
    } else {
      OffsetRequestAfter(query, st, count, readCount, batch, rounds, k);
    }
  }

  /** The step of OffsetRequestAt past the first query. */
  lemma {:induction false} OffsetRequestAfter<T>(query: Query<T>, st: int, count: int, readCount: int, batch: int, rounds: nat, k: nat)
    requires 0 < k < |OffsetRequests(query, st, count, readCount, batch, rounds)|
    ensures var reqs := OffsetRequests(query, st, count, readCount, batch, rounds);
      var before := |Fetched(query, reqs[..k])|;
      reqs[k] == Row(st + before, Want(count + before, readCount, batch))
    decreases k, 0
  {
    var n := Got(query, st, count, readCount, batch);
    if count + n >= readCount || n == 0 {
      OffsetStops(query, st, count, readCount, batch, rounds);
      assert false;
    }
    OffsetContinues(query, st, count, readCount, batch, rounds);
    OffsetRequestAt(query, st + n, count + n, readCount, batch, rounds - 1, k - 1);
    ConsAt(query, Row(st, Want(count, readCount, batch)), OffsetRequests(query, st + n, count + n, readCount, batch, rounds - 1), k - 1);
  }

  /** Query k of [x] + rest is query k - 1 of rest, after the rows of x. */
  lemma ConsAt<T>(query: Query<T>, x: Row, rest: seq<Row>, j: nat)
    requires j < |rest|
    ensures ([x] + rest)[j + 1] == rest[j]
    ensures |Fetched(query, ([x] + rest)[..j + 1])| == |query(x.first, x.second)| + |Fetched(query, rest[..j])|
  {
    ConsPrefix(x, rest, j);
    FetchedCons(query, x, rest[..j]);
  }

  /** Query k starts at the first offset not yet read and asks for what is left, at most batch rows. */
  lemma {:induction false} OffsetRequestSteps<T>(query: Query<T>, st: int, count: int, readCount: int, batch: int, rounds: nat)
    ensures var reqs := OffsetRequests(query, st, count, readCount, batch, rounds);
      forall k {:trigger Fetched(query, reqs[..k])} :: 0 <= k < |reqs| ==>
        reqs[k] == Row(st + |Fetched(query, reqs[..k])|, Want(count + |Fetched(query, reqs[..k])|, readCount, batch))
  {
    var reqs := OffsetRequests(query, st, count, readCount, batch, rounds);
    forall k {:trigger Fetched(query, reqs[..k])} | 0 <= k < |reqs|
      ensures reqs[k] == Row(st + |Fetched(query, reqs[..k])|, Want(count + |Fetched(query, reqs[..k])|, readCount, batch))
    {
      OffsetRequestAt(query, st, count, readCount, batch, rounds, k);
    }
  }

  lemma {:induction false} OffsetContinueAt<T>(query: Query<T>, st: int, count: int, readCount: int, batch: int, rounds: nat, k: nat)
    requires k + 1 < |OffsetRequests(query, st, count, readCount, batch, rounds)|
    ensures var reqs := OffsetRequests(query, st, count, readCount, batch, rounds);
      count + |Fetched(query, reqs[..k + 1])| < readCount && |query(reqs[k].first, reqs[k].second)| > 0
    decreases k
  {
    var n := Got(query, st, count, readCount, batch);
    if count + n >= readCount || n == 0 {
      OffsetStops(query, st, count, readCount, batch, rounds);
      assert false;
    }
    OffsetContinues(query, st, count, readCount, batch, rounds);
    var rest := OffsetRequests(query, st + n, count + n, readCount, batch, rounds - 1);
    ConsPrefix(Row(st, Want(count, readCount, batch)), rest, k);
    FetchedCons(query, Row(st, Want(count, readCount, batch)), rest[..k]);
    if k > 0 {
      OffsetContinueAt(query, st + n, count + n, readCount, batch, rounds - 1, k - 1);
    }
  }

  /** Every query but the last leaves count below readCount and returns at least one row. */
  lemma {:induction false} OffsetRequestsContinue<T>(query: Query<T>, st: int, count: int, readCount: int, batch: int, rounds: nat)
    ensures var reqs := OffsetRequests(query, st, count, readCount, batch, rounds);
      forall j :: 0 < j < |reqs| ==> count + |Fetched(query, reqs[..j])| < readCount
    ensures var reqs := OffsetRequests(query, st, count, readCount, batch, rounds);
      forall k :: 0 <= k < |reqs| - 1 ==> |query(reqs[k].first, reqs[k].second)| > 0
  {
    var reqs := OffsetRequests(query, st, count, readCount, batch, rounds);
    forall j | 0 < j < |reqs|
      ensures count + |Fetched(query, reqs[..j])| < readCount
    {
      OffsetContinueAt(query, st, count, readCount, batch, rounds, j - 1);
    }
    forall k | 0 <= k < |reqs| - 1
      ensures |query(reqs[k].first, reqs[k].second)| > 0
    {
      OffsetContinueAt(query, st, count, readCount, batch, rounds, k);
    }
  }

  /** The last round of the offset loop: its query's rows are all that is left to reach the queue and the count. */
  lemma OffsetLast<T>(query: Query<T>, handler: Option<Handler<T>>, st: int, c: int, readCount: int, batch: int, left: nat)
    requires left > 0
    requires var n := |query(st, Want(c, readCount, batch))|; c + n >= readCount || n == 0
    ensures var reqs := OffsetRequests(query, st, c, readCount, batch, left);
      Delivered(handler, query, reqs) == PutAll(handler, query(st, Want(c, readCount, batch))) &&
      |Fetched(query, reqs)| == |query(st, Want(c, readCount, batch))|
  {
    var x := Row(st, Want(c, readCount, batch));
    OffsetStops(query, st, c, readCount, batch, left);
    assert [x] + [] == [x];
    DeliveredCons(handler, query, x, []);
    FetchedCons(query, x, []);
  }

  /** A round after which the offset loop goes on: its query's rows reach the queue before those of the rounds to come. */
  lemma OffsetNextQueue<T>(query: Query<T>, handler: Option<Handler<T>>, q: seq<T>, st: int, c: int, readCount: int, batch: int,
                           left: nat, tlist: seq<Option<T>>)
    requires left > 0 && tlist == query(st, Want(c, readCount, batch)) && !(c + |tlist| >= readCount || |tlist| == 0)
    ensures q + Delivered(handler, query, OffsetRequests(query, st, c, readCount, batch, left)) ==
      (q + PutAll(handler, tlist)) + Delivered(handler, query, OffsetRequests(query, st + |tlist|, c + |tlist|, readCount, batch, left - 1))
  {
    var x := Row(st, Want(c, readCount, batch));
    var rest := OffsetRequests(query, st + |tlist|, c + |tlist|, readCount, batch, left - 1);
    OffsetContinues(query, st, c, readCount, batch, left);
    assert OffsetRequests(query, st, c, readCount, batch, left) == [x] + rest;
    QueueFirst(handler, query, q, x, rest);
  }

  /** A round after which the offset loop goes on: its query's rows are counted before those of the rounds to come. */
  lemma OffsetNextCount<T>(query: Query<T>, st: int, c: int, readCount: int, batch: int, left: nat, tlist: seq<Option<T>>)
    requires left > 0 && tlist == query(st, Want(c, readCount, batch)) && !(c + |tlist| >= readCount || |tlist| == 0)
    ensures |Fetched(query, OffsetRequests(query, st, c, readCount, batch, left))| ==
      |tlist| + |Fetched(query, OffsetRequests(query, st + |tlist|, c + |tlist|, readCount, batch, left - 1))|
  {
    var x := Row(st, Want(c, readCount, batch));
    var rest := OffsetRequests(query, st + |tlist|, c + |tlist|, readCount, batch, left - 1);
    OffsetContinues(query, st, c, readCount, batch, left);
    assert OffsetRequests(query, st, c, readCount, batch, left) == [x] + rest;
    FetchedCons(query, x, rest);
  }

  /** A round after which the offset loop goes on keeps the loop's invariant for the next round. */
  lemma OffsetStep<T>(query: Query<T>, handler: Option<Handler<T>>, q: seq<T>, st: int, c: int, readCount: int, batch: int,
                      left: nat, finalQueue: seq<T>, finalCount: int, tlist: seq<Option<T>>, q': seq<T>, c': int, st': int)
    requires left > 0 && tlist == query(st, Want(c, readCount, batch)) && q' == q + PutAll(handler, tlist)
    requires c' == c + |tlist| && st' == st + |tlist| && !(c' >= readCount || |tlist| == 0)
    requires q + Delivered(handler, query, OffsetRequests(query, st, c, readCount, batch, left)) == finalQueue
    requires c + |Fetched(query, OffsetRequests(query, st, c, readCount, batch, left))| == finalCount
    ensures q' + Delivered(handler, query, OffsetRequests(query, st', c', readCount, batch, left - 1)) == finalQueue
    ensures c' + |Fetched(query, OffsetRequests(query, st', c', readCount, batch, left - 1))| == finalCount
  {
    OffsetNextQueue(query, handler, q, st, c, readCount, batch, left, tlist);
    OffsetNextCount(query, st, c, readCount, batch, left, tlist);
  }

  /** A round after which the offset loop stops leaves the queue and the count at their final values. */
  lemma OffsetRoundStops<T>(query: Query<T>, handler: Option<Handler<T>>, q: seq<T>, st: int, c: int, readCount: int, batch: int,
                            left: nat, finalQueue: seq<T>, finalCount: int, tlist: seq<Option<T>>, q': seq<T>, c': int)
    requires left > 0 && tlist == query(st, Want(c, readCount, batch)) && q' == q + PutAll(handler, tlist)
    requires c' == c + |tlist| && (c' >= readCount || |tlist| == 0)
    requires q + Delivered(handler, query, OffsetRequests(query, st, c, readCount, batch, left)) == finalQueue
    requires c + |Fetched(query, OffsetRequests(query, st, c, readCount, batch, left))| == finalCount
    ensures q' == finalQueue && c' == finalCount
  {
    OffsetLast(query, handler, st, c, readCount, batch, left);
  }

  /**
   * One round of the offset loop: the query at offset st for used rows, its
   * non-null rows handed to the queue, every row counted, st moved past them
   * and the next size computed. When the count reaches readCount or the
   * query returns nothing the loop breaks: no round is left.
   */
  method OffsetRound<T>(query: Query<T>, handler: Option<Handler<T>>, q: seq<T>, c: int, st: int, used: int,
                        readCount: int, batchSize: int, left: nat, ghost finalQueue: seq<T>, ghost finalCount: int)
    returns (q': seq<T>, c': int, st': int, used': int, left': nat)
    requires left > 0 && used == Want(c, readCount, batchSize)
    requires q + Delivered(handler, query, OffsetRequests(query, st, c, readCount, batchSize, left)) == finalQueue
    requires c + |Fetched(query, OffsetRequests(query, st, c, readCount, batchSize, left))| == finalCount
    ensures left' < left && used' == Want(c', readCount, batchSize)
    ensures q' + Delivered(handler, query, OffsetRequests(query, st', c', readCount, batchSize, left')) == finalQueue
    ensures c' + |Fetched(query, OffsetRequests(query, st', c', readCount, batchSize, left'))| == finalCount
  {
    var tlist := query(st, used);
    var delivered;
    q', delivered := Deliver(q, handler, tlist);
    c', st' := c + |tlist|, st + |tlist|;
    used' := Min(readCount - c', batchSize);
    if c' >= readCount || |tlist| == 0 {
      OffsetRoundStops(query, handler, q, st, c, readCount, batchSize, left, finalQueue, finalCount, tlist, q', c');
      left' := 0;
      assert q' + [] == q';
    } else {
      OffsetStep(query, handler, q, st, c, readCount, batchSize, left, finalQueue, finalCount, tlist, q', c', st');
      left' := left - 1;
    }
  }

  /**
   * The loop of CommonReadDBOnEverageTask.runInternal, from the current queue
   * and row count: makes the queries of OffsetRequests, counts every row
   * returned (null ones too) and hands the non-null ones to the queue.
   */
  method OffsetLoop<T>(query: Query<T>, handler: Option<Handler<T>>, limitStart: int, readCount: int, batchSize: int,
                       rounds: nat, queue: seq<T>, count: int)
    returns (q: seq<T>, c: int)
    ensures q == queue + Delivered(handler, query, OffsetRequests(query, limitStart, count, readCount, batchSize, rounds))
    ensures c == count + |Fetched(query, OffsetRequests(query, limitStart, count, readCount, batchSize, rounds))|
  {
    ghost var all := OffsetRequests(query, limitStart, count, readCount, batchSize, rounds);
    ghost var finalQueue, finalCount := queue + Delivered(handler, query, all), count + |Fetched(query, all)|;
    var st := limitStart;
    q, c := queue, count;
    var used := Min(readCount - c, batchSize);
    var left: nat := rounds;
    while left > 0
      invariant used == Want(c, readCount, batchSize)
      invariant q + Delivered(handler, query, OffsetRequests(query, st, c, readCount, batchSize, left)) == finalQueue
      invariant c + |Fetched(query, OffsetRequests(query, st, c, readCount, batchSize, left))| == finalCount
      decreases left
    {
      q, c, st, used, left := OffsetRound(query, handler, q, c, st, used, readCount, batchSize, left, finalQueue, finalCount);
    }
    assert q + [] == q;
  }

  /** CommonReadDBOnEverageTask: reads readCount rows from offset limitStart, batchSize rows per query. */
  class AverageReadTask<T> {
    const name: string
    const sql: string
    const tableName: string
    const readCount: int
    const limitStart: int
    const batchSize: int
    const query: Query<T>
    const handler: Option<Handler<T>>
    var queue: seq<T>
    var count: int

    constructor (query: Query<T>, sql: string, readCount: int, limitStart: int, batchSize: int,
                 queue: seq<T>, tableName: string, handler: Option<Handler<T>>)
      ensures this.query == query && this.sql == sql && this.readCount == readCount
      ensures this.limitStart == limitStart && this.batchSize == batchSize && this.queue == queue
      ensures this.tableName == tableName && this.handler == handler && count == 0
      ensures name == "(Read " + tableName + " from: " + LongStr(limitStart) + ", readCount:" + LongStr(readCount) + ")"
    {
      this.query := query;
      this.readCount := readCount;
      this.sql := sql;
      this.batchSize := batchSize;
      this.queue := queue;
      this.tableName := tableName;
      this.handler := handler;
      this.limitStart := limitStart;
      count := 0;
      name := "(Read " + tableName + " from: " + LongStr(limitStart) + ", readCount:" + LongStr(readCount) + ")";
    }

    /**
     * runInternal while the read runs for `rounds` rounds: makes the queries of
     * OffsetRequests, counts every row returned (null ones too) and hands the
     * non-null ones to the queue.
     */
    method RunInternal(rounds: nat) returns (r: string)
      modifies this
      ensures queue == old(queue) + Delivered(handler, query, OffsetRequests(query, limitStart, old(count), readCount, batchSize, rounds))
      ensures count == old(count) + |Fetched(query, OffsetRequests(query, limitStart, old(count), readCount, batchSize, rounds))|
      ensures r == name + " finished:" + LongStr(count)
    {
      var q, c := OffsetLoop(query, handler, limitStart, readCount, batchSize, rounds, queue, count);
      queue, count := q, c;
      r := name + " finished:" + LongStr(count);
    }
  }
}
