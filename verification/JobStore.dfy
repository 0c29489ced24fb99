/** The shared job store (runner-job-store-sqlite.ts): its transactions, and one connection to it. */
module JobStore {
  import opened Wrappers
  import opened JobRecord

  const MAX_JOBS := 100
  const MAX_RECORD_BYTES := 262144
  const MAX_SAFE_INTEGER := 9007199254740991

  type Key = (string, string)

  /** `StoredJobRow`; the canonical record is counted in bytes. */
  datatype Row = Row(
    campaignId: string, runId: string, jobId: string, revision: int,
    intentDigest: string, recordDigest: string, canonicalRecord: string)

  datatype Store = Store(rows: map<Key, Row>, wallHighWater: int)

  /** The regular expressions of `validateRow`: identifiers, job id, digests. */
  type Shape = Row -> bool

  predicate RowOk(shape: Shape, row: Row) {
    1 <= row.revision <= 3 && 1 <= |row.canonicalRecord| <= MAX_RECORD_BYTES && shape(row)
  }

  function KeyOf(row: Row): Key { (row.campaignId, row.runId) }

  function RevisionAt(s: Store, k: Key): int { if k in s.rows then s.rows[k].revision else 0 }

  // Transactions

  function ObserveTime(s: Store, now: Sample): Result<Store, Code> {
    if now.None? || now.value < 0 then Err(InputInvalid)
    else if now.value < s.wallHighWater then Err(ClockRollback)
    else Ok(s.(wallHighWater := now.value))
  }

  predicate JobIdTaken(s: Store, jobId: string) { exists k :: k in s.rows && s.rows[k].jobId == jobId }

  /** Whether the row went in, and the store afterwards. */
  function Insert(shape: Shape, s: Store, row: Row): Result<(bool, Store), Code> {
    if !RowOk(shape, row) then Err(InputInvalid)
    else if KeyOf(row) in s.rows then Ok((false, s))
    else if JobIdTaken(s, row.jobId) then Err(JobConflict)
    else if |s.rows| >= MAX_JOBS then Err(StoreFull)
    else Ok((true, s.(rows := s.rows[KeyOf(row) := row])))
  }

  predicate Successor(previous: Row, next: Row) {
    && next.revision == previous.revision + 1 && KeyOf(next) == KeyOf(previous)
    && next.jobId == previous.jobId && next.intentDigest == previous.intentDigest
  }

  function CompareAndSwap(shape: Shape, s: Store, previous: Row, next: Row): Result<(bool, Store), Code> {
    if !RowOk(shape, previous) || !RowOk(shape, next) || !Successor(previous, next) then Err(InputInvalid)
    else if KeyOf(previous) !in s.rows then Err(JobConflict)
    else if s.rows[KeyOf(previous)] != previous then Ok((false, s))
    else Ok((true, s.(rows := s.rows[KeyOf(previous) := next])))
  }

  function Read(shape: Shape, s: Store, k: Key): Result<Option<Row>, Code> {
    if k !in s.rows then Ok(None)
    else if !RowOk(shape, s.rows[k]) then Err(StoreCorrupt)
    else Ok(Some(s.rows[k]))
  }

  // What every transaction keeps

  ghost predicate Sound(shape: Shape, s: Store) {
    && s.wallHighWater >= 0 && |s.rows| <= MAX_JOBS
    && (forall k :: k in s.rows ==> RowOk(shape, s.rows[k]) && KeyOf(s.rows[k]) == k)
    && forall k, k' :: k in s.rows && k' in s.rows && s.rows[k].jobId == s.rows[k'].jobId ==> k == k'
  }

  /** No row is lost or loses a revision, its job and intent stay, and time only moves forward. */
  ghost predicate Progress(s: Store, t: Store) {
    && s.wallHighWater <= t.wallHighWater
    && forall k :: k in s.rows ==>
         && k in t.rows && s.rows[k].revision <= t.rows[k].revision
         && t.rows[k].jobId == s.rows[k].jobId && t.rows[k].intentDigest == s.rows[k].intentDigest
         && (t.rows[k].revision == s.rows[k].revision ==> t.rows[k] == s.rows[k])
  }

  lemma InsertKeeps(shape: Shape, s: Store, row: Row)
    requires Sound(shape, s) && Insert(shape, s, row).Ok?
    ensures Sound(shape, Insert(shape, s, row).value.1) && Progress(s, Insert(shape, s, row).value.1)
    ensures KeyOf(row) in Insert(shape, s, row).value.1.rows
  {
    var t := Insert(shape, s, row).value.1;
    if t != s {
      assert t.rows.Keys == s.rows.Keys + {KeyOf(row)};
      forall k | k in s.rows ensures s.rows[k].jobId != row.jobId {
        assert !JobIdTaken(s, row.jobId);
      }
    }
  }

  lemma SwapKeeps(shape: Shape, s: Store, previous: Row, next: Row)
    requires Sound(shape, s) && CompareAndSwap(shape, s, previous, next).Ok?
    ensures Sound(shape, CompareAndSwap(shape, s, previous, next).value.1) && Progress(s, CompareAndSwap(shape, s, previous, next).value.1)
  {
    var t := CompareAndSwap(shape, s, previous, next).value.1;
    assert t.rows.Keys == s.rows.Keys;
  }

  /** What keeps a row out: it is malformed, another key has its job id, or the store holds a hundred jobs. */
  lemma InsertExactly(shape: Shape, s: Store, row: Row)
    ensures
      var outcome, k := Insert(shape, s, row), (row.campaignId, row.runId);
      var formed := 1 <= row.revision <= 3 && 0 < |row.canonicalRecord| <= 262144 && shape(row);
      var taken := exists other :: other in s.rows && s.rows[other].jobId == row.jobId;
      && (outcome == Err(InputInvalid) <==> !formed)
      && (outcome == Err(JobConflict) <==> formed && k !in s.rows && taken)
      && (outcome == Err(StoreFull) <==> formed && k !in s.rows && !taken && |s.rows| >= 100)
      && (outcome.Ok? ==> outcome.value.0 == (k !in s.rows) && outcome.value.1.wallHighWater == s.wallHighWater
                          && outcome.value.1.rows == if k in s.rows then s.rows else s.rows[k := row])
      && (outcome.Err? ==> outcome.error in {InputInvalid, JobConflict, StoreFull})
  {
  }

  /** A swap takes place exactly when the row still is the previous one and the next is its successor: one
      revision on, for the same job and intent. */
  lemma SwapExactly(shape: Shape, s: Store, previous: Row, next: Row, after: Store)
    requires Sound(shape, s)
    ensures
      var k := (previous.campaignId, previous.runId);
      CompareAndSwap(shape, s, previous, next) == Ok((true, after)) <==>
        && k in s.rows && s.rows[k] == previous && after == s.(rows := s.rows[k := next])
        && next.revision == previous.revision + 1 && next.revision <= 3 && shape(next)
        && next.campaignId == previous.campaignId && next.runId == previous.runId
        && next.jobId == previous.jobId && next.intentDigest == previous.intentDigest
        && 0 < |next.canonicalRecord| <= 262144
  {
  }

  /** One process's connection. The database is shared: another connection may change it
      between two calls, which is what JobProtocol interleaves. */
  class Connection {
    var rows: map<Key, Row>
    var wallHighWater: int
    var closed: bool
    const shape: Shape

    ghost function Contents(): Store reads this { Store(rows, wallHighWater) }

    constructor (shape: Shape)
      ensures this.shape == shape &&  Contents() == Store(map[], 0) && !closed && Sound(shape, Contents())
    {
      this.shape := shape;
      rows, wallHighWater, closed := map[], 0, false;
    }

    method Observe(now: Sample) returns (error: Option<Code>)
      requires Sound(shape, Contents())
      modifies this`wallHighWater
      ensures Sound(shape, Contents())
      ensures closed ==> error == Some(StoreUnavailable) && Contents() == old(Contents())
      ensures !closed ==> (error.None? <==> now.Some? && now.value >= old(wallHighWater))
      ensures !closed && error.Some? ==> error.value == if now.Some? && now.value >= 0 then ClockRollback else InputInvalid
      ensures !closed ==> Contents() == if error.None? then old(Contents()).(wallHighWater := now.value) else old(Contents())
    {
      if closed {
        error := Some(StoreUnavailable);
      } else if now.None? || now.value < 0 {
        error := Some(InputInvalid);
      } else if now.value < wallHighWater {
        error := Some(ClockRollback);
      } else {
        wallHighWater, error := now.value, None;
      }
    }

    method InsertRow(row: Row) returns (r: Result<(bool, Row), Code>)
      requires Sound(shape, Contents())
      modifies this`rows
      ensures Sound(shape, Contents()) && Progress(old(Contents()), Contents())
      ensures closed ==> r == Err(StoreUnavailable)
      ensures r.Err? ==> Contents() == old(Contents())
      ensures !closed ==> (r.Err? <==> Insert(shape, old(Contents()), row).Err?)
      ensures r.Ok? ==> Insert(shape, old(Contents()), row) == Ok((r.value.0, Contents()))
      ensures r.Ok? ==> KeyOf(row) in rows && r.value.1 == rows[KeyOf(row)] && (r.value.0 ==> r.value.1 == row)
    {
      if closed { return Err(StoreUnavailable); }
      if !RowOk(shape, row) { return Err(InputInvalid); }
      ghost var before := Contents();
      if KeyOf(row) !in rows {
        if exists k :: k in rows && rows[k].jobId == row.jobId { return Err(JobConflict); }
        if |rows| >= MAX_JOBS { return Err(StoreFull); }
        InsertKeeps(shape, before, row);
        rows := rows[KeyOf(row) := row];
        return Ok((true, rows[KeyOf(row)]));
      }
      return Ok((false, rows[KeyOf(row)]));
    }

    method Swap(previous: Row, next: Row) returns (r: Result<(bool, Row), Code>)
      requires Sound(shape, Contents())
      modifies this`rows
      ensures Sound(shape, Contents()) && Progress(old(Contents()), Contents())
      ensures closed ==> r == Err(StoreUnavailable)
      ensures r.Err? ==> Contents() == old(Contents())
      ensures !closed ==> (r.Err? <==> CompareAndSwap(shape, old(Contents()), previous, next).Err?)
      ensures r.Ok? ==> CompareAndSwap(shape, old(Contents()), previous, next) == Ok((r.value.0, Contents()))
      ensures r.Ok? ==> KeyOf(previous) in rows && r.value.1 == rows[KeyOf(previous)]
      ensures r.Ok? && r.value.0 ==> old(rows)[KeyOf(previous)] == previous && r.value.1 == next
    {
      if closed { return Err(StoreUnavailable); }
      if !RowOk(shape, previous) || !RowOk(shape, next) || !Successor(previous, next) { return Err(InputInvalid); }
      var k := KeyOf(previous);
      if k !in rows { return Err(JobConflict); }
      ghost var before := Contents();
      var committed := rows[k] == previous;
      if committed {
        SwapKeeps(shape, before, previous, next);
        rows := rows[k := next];
      }
      return Ok((committed, rows[k]));
    }

    method ReadRow(campaignId: string, runId: string) returns (r: Result<Option<Row>, Code>)
      requires Sound(shape, Contents())
      ensures r == if closed then Err(StoreUnavailable) else Read(shape, Contents(), (campaignId, runId))
    {
      if closed { return Err(StoreUnavailable); }
      var k := (campaignId, runId);
      if k !in rows { return Ok(None); }
      if !RowOk(shape, rows[k]) { return Err(StoreCorrupt); }
      return Ok(Some(rows[k]));
    }

    method Close()
      modifies this`closed
      ensures closed
    {
      closed := true;
    }
  }
}
