/** The extraction worker: reads, extracts, writes the document, then the row; retries until the last
    attempt, which stamps the row failed. It may stop between any two of these. */
module Extraction {
  import opened Base
  import opened Credentials
  import opened Lifecycle
  import opened LifecycleInvariant
  import Sql = CaseSql

  datatype Doc = Doc(fileHash: Ascii, text: string, embedding: seq<real>)

  type Docs = map<Id, Doc>

  /** The two stores the worker writes. */
  datatype Stores = Stores(rows: Rows, docs: Docs)

  /** What the extraction service answers. */
  datatype Answer = Answer(text: string, embedding: seq<real>)

  /** How far one attempt gets: not past its reads, or its document is written, or its row as well
      although the reply is lost, or all the way. */
  datatype Reach = Nowhere | DocWritten | RowWritten | Finished

  /** An attempt that stops short reports an error, or dies with its process. */
  datatype Attempt = Attempt(answer: Answer, reach: Reach, dies: bool, now: Time)

  predicate Usable(a: Attempt, id: Id, s: Stores) {
    a.reach != Nowhere && a.answer.embedding != [] && id in s.rows
  }

  predicate Succeeds(a: Attempt, id: Id, s: Stores) {
    Usable(a, id, s) && a.reach == Finished
  }

  function Upsert(s: Stores, id: Id, a: Attempt): Stores
    requires id in s.rows
  {
    s.(docs := s.docs[id := Doc(s.rows[id].fileHash, a.answer.text, a.answer.embedding)])
  }

  function StampExtracted(s: Stores, id: Id, now: Time): Stores {
    s.(rows := UpdateRows(s.rows, [Extracted(id, now)], now))
  }

  /** workExtract: everything that is left behind, wherever it stops. */
  function Work(s: Stores, id: Id, a: Attempt): Stores {
    if !Usable(a, id, s) then s
    else if a.reach == DocWritten then Upsert(s, id, a)
    else StampExtracted(Upsert(s, id, a), id, a.now)
  }

  // ----- Every crash point -----

  /** A row that says it is extracted has its document, for its own file, with an embedding. */
  ghost predicate Documented(s: Stores) {
    forall id :: id in s.rows && s.rows[id].extractedAt.Some? ==>
      id in s.docs && s.docs[id].fileHash == s.rows[id].fileHash && s.docs[id].embedding != []
  }

  function AsExtracted(c: Credential, now: Time): Credential {
    c.(extractedAt := Some(Stored(now)), updatedAt := Some(Stored(now)))
  }

  function AsFailed(c: Credential, now: Time, message: string): Credential {
    c.(extractFailedAt := Some(Stored(now)), extractError := Some(message), updatedAt := Some(Stored(now)))
  }

  lemma {:induction false} StampedRow(rows: Rows, id: Id, now: Time)
    requires Keyed(rows)
    ensures var rows' := UpdateRows(rows, [Extracted(id, now)], now);
      && Keyed(rows') && rows'.Keys == rows.Keys
      && (forall x :: x in rows ==> rows'[x] == if x == id then AsExtracted(rows[x], now) else rows[x])
  {
    OneStamp(rows, Extracted(id, now), now);
    if id in rows {
      assert ApplyPatch(rows[id], Extracted(id, now)) == rows[id].(extractedAt := Some(Stored(now)));
    }
  }

  lemma {:induction false} FailedRow(rows: Rows, id: Id, now: Time, message: string)
    requires Keyed(rows)
    ensures var rows' := UpdateRows(rows, [ExtractionFailed(id, now, message)], now);
      && Keyed(rows') && rows'.Keys == rows.Keys
      && (forall x :: x in rows ==> rows'[x] == if x == id then AsFailed(rows[x], now, message) else rows[x])
  {
    OneStamp(rows, ExtractionFailed(id, now, message), now);
    if id in rows {
      assert ApplyPatch(rows[id], ExtractionFailed(id, now, message))
          == rows[id].(extractFailedAt := Some(Stored(now)), extractError := Some(message));
    }
  }

  /** A batch of one record on one row. */
  lemma {:induction false} OneStamp(rows: Rows, p: Credential, now: Time)
    requires Keyed(rows) && (p.extractedAt.Some? || p.extractFailedAt.Some?)
    ensures var rows' := UpdateRows(rows, [p], now);
      && rows'.Keys == rows.Keys
      && (forall x :: x in rows ==>
            rows'[x] == if x == p.id then ApplyPatch(rows[x], p).(updatedAt := Some(Stored(now))) else rows[x])
  {
    ProvidesSomething(p);
    UpdateEach(rows, [p], now);
    forall x | x in rows && x != p.id ensures !Names([p], x) {
    }
  }

  lemma {:induction false} ProvidesSomething(p: Credential)
    requires p.extractedAt.Some? || p.extractFailedAt.Some?
    ensures Provided(p) != map[]
  {
    if p.extractedAt.Some? {
      Provides(p, Sql.EXTRACTED_AT);
    } else {
      Provides(p, Sql.EXTRACT_FAILED_AT);
    }
  }

  /** What an attempt leaves: nothing without a row or an embedding; otherwise the document it extracted,
      for the row's file, and once it gets that far the row's stamp, and nothing else. */
  lemma {:induction false} WorkDoes(s: Stores, id: Id, a: Attempt)
    requires Keyed(s.rows)
    ensures var s' := Work(s, id, a);
      if a.reach == Nowhere || a.answer.embedding == [] || id !in s.rows then s' == s
      else
        && s'.docs.Keys == s.docs.Keys + {id} && (forall x :: x in s.docs && x != id ==> s'.docs[x] == s.docs[x])
        && s'.docs[id].fileHash == s.rows[id].fileHash && s'.docs[id].text == a.answer.text
        && s'.docs[id].embedding == a.answer.embedding
        && s'.rows.Keys == s.rows.Keys && (forall x :: x in s.rows && x != id ==> s'.rows[x] == s.rows[x])
        && s'.rows[id] == (if a.reach == DocWritten then s.rows[id]
                           else s.rows[id].(extractedAt := Some(Stored(a.now)), updatedAt := Some(Stored(a.now))))
  {
    StampedRow(s.rows, id, a.now);
  }

  /** Wherever an attempt stops, the document is there before the row says so. */
  lemma {:induction false} WorkDocumented(s: Stores, id: Id, a: Attempt)
    requires Documented(s) && Keyed(s.rows)
    ensures Documented(Work(s, id, a)) && Keyed(Work(s, id, a).rows)
  {
    StampedRow(s.rows, id, a.now);
  }

  /** The other writers of the extraction columns keep it too: the failure stamp and the reset. */
  lemma {:induction false} OtherWritersDocumented(s: Stores, id: Id, order: seq<Id>, now: Time, message: string)
    requires Documented(s) && Keyed(s.rows)
    ensures Documented(s.(rows := UpdateRows(s.rows, [ExtractionFailed(id, now, message)], now)))
    ensures Documented(s.(rows := ClearOutcome(s.rows, order, now)))
  {
    FailedRow(s.rows, id, now, message);
  }

  // ----- Retries -----

  lemma {:induction false} StampTwice(rows: Rows, id: Id, first: Time, again: Time)
    requires Keyed(rows)
    ensures UpdateRows(UpdateRows(rows, [Extracted(id, first)], first), [Extracted(id, again)], again)
         == UpdateRows(rows, [Extracted(id, again)], again)
  {
    StampedRow(rows, id, first);
    StampedRow(rows, id, again);
    StampedRow(UpdateRows(rows, [Extracted(id, first)], first), id, again);
  }

  /** The second upsert overwrites the first. */
  lemma {:induction false} UpsertTwice(s: Stores, id: Id, first: Attempt, again: Attempt)
    requires id in s.rows
    ensures Upsert(Upsert(s, id, first), id, again) == Upsert(s, id, again)
  {
  }

  lemma {:induction false} UpsertAfterStamp(s: Stores, id: Id, first: Attempt, again: Attempt)
    requires id in s.rows && Keyed(s.rows)
    ensures id in StampExtracted(s, id, first.now).rows
    ensures Upsert(StampExtracted(s, id, first.now), id, again) == StampExtracted(Upsert(s, id, again), id, first.now)
  {
    StampedRow(s.rows, id, first.now);
  }

  lemma {:induction false} RetryAfterRow(s: Stores, id: Id, first: Attempt, again: Attempt)
    requires id in s.rows && Keyed(s.rows)
    ensures id in StampExtracted(Upsert(s, id, first), id, first.now).rows
    ensures StampExtracted(Upsert(StampExtracted(Upsert(s, id, first), id, first.now), id, again), id, again.now)
         == StampExtracted(Upsert(s, id, again), id, again.now)
  {
    UpsertAfterStamp(Upsert(s, id, first), id, first, again);
    UpsertTwice(s, id, first, again);
    StampTwice(s.rows, id, first.now, again.now);
  }

  /** Running a job again after its row write was lost, wherever the first try stopped and whatever it
      had extracted, ends with the same documents and rows as running it once. */
  lemma {:induction false} RetryConverges(s: Stores, id: Id, first: Attempt, again: Attempt)
    requires Keyed(s.rows) && Succeeds(again, id, s)
    ensures Work(Work(s, id, first), id, again) == Work(s, id, again)
  {
    if Usable(first, id, s) {
      if first.reach == DocWritten {
        UpsertTwice(s, id, first, again);
      } else {
        RetryAfterRow(s, id, first, again);
      }
    }
  }

  // ----- The job -----

  /** Whether the handler of a terminal error manages to write its stamp. */
  datatype Handler = Handler(writes: bool, message: string, now: Time)

  /** Stamped failed by the handler, with its message. */
  predicate FailedNow(c: Credential, h: Handler) {
    c.extractFailedAt == Some(Stored(h.now)) && c.extractError == Some(h.message)
  }

  class Worker {
    var rows: Rows
    var docs: Docs

    constructor (rows: Rows, docs: Docs)
      ensures At() == Stores(rows, docs)
    {
      this.rows, this.docs := rows, docs;
    }

    function At(): Stores
      reads this
    {
      Stores(rows, docs)
    }

    /** workExtract. */
    method WorkExtract(id: Id, a: Attempt) returns (ok: bool)
      modifies this
      ensures At() == Work(old(At()), id, a)
      ensures ok == Succeeds(a, id, old(At()))
    {
      if a.reach == Nowhere || a.answer.embedding == [] || id !in rows {
        return false;
      }
      docs := docs[id := Doc(rows[id].fileHash, a.answer.text, a.answer.embedding)];
      if a.reach == DocWritten {
        return false;
      }
      rows := UpdateRows(rows, [Extracted(id, a.now)], a.now);
      return a.reach == Finished;
    }

    /** handleTerminalFailure: stamps only once the attempts are used up. */
    method HandleError(id: Id, attempt: nat, maxAttempts: nat, h: Handler)
      modifies this`rows
      ensures rows == if attempt >= maxAttempts && h.writes
                      then UpdateRows(old(rows), [ExtractionFailed(id, h.now, h.message)], h.now) else old(rows)
    {
      if attempt < maxAttempts {
        return;
      }
      if h.writes {
        rows := UpdateRows(rows, [ExtractionFailed(id, h.now, h.message)], h.now);
      }
    }

    /** One attempt and, when it reports an error, its handler. */
    method TryOnce(id: Id, a: Attempt, attempt: nat, maxAttempts: nat, h: Handler) returns (ok: bool)
      requires Keyed(rows) && Documented(At())
      modifies this
      ensures Keyed(rows) && Documented(At()) && rows.Keys == old(rows).Keys
      ensures ok == Succeeds(a, id, old(At()))
      ensures ok ==> id in rows && rows[id].extractedAt.Some?
      ensures !ok && attempt >= maxAttempts && id in rows ==> FailedNow(rows[id], h) || a.dies || !h.writes
    {
      WorkDocumented(At(), id, a);
      StampedRow(rows, id, a.now);
      ok := WorkExtract(id, a);
      if !ok && !a.dies {
        FailedRow(rows, id, h.now, h.message);
        OtherWritersDocumented(At(), id, [], h.now, h.message);
        HandleError(id, attempt, maxAttempts, h);
      }
    }

    /** The queue runs a job until it succeeds or its attempts are used up. An attempt that dies with its
        process has no error handler. So a row is left neither extracted nor failed only when the very
        last attempt died or its stamp could not be written. */
    method RunJob(id: Id, attempts: seq<Attempt>, h: Handler) returns (used: nat)
      requires Keyed(rows) && Documented(At()) && attempts != []
      modifies this
      ensures Documented(At()) && Keyed(rows) && rows.Keys == old(rows).Keys
      ensures 1 <= used <= |attempts|
      ensures id in rows ==>
        rows[id].extractedAt.Some? || FailedNow(rows[id], h) || attempts[used - 1].dies || !h.writes
      ensures Succeeds(attempts[used - 1], id, old(At())) ==> id in rows && rows[id].extractedAt.Some?
      ensures forall k :: 0 <= k < used - 1 ==> !Succeeds(attempts[k], id, old(At()))
      ensures used < |attempts| ==> Succeeds(attempts[used - 1], id, old(At()))
    {
      used := 0;
      var ok := false;
      while !ok && used < |attempts|
        invariant Keyed(rows) && Documented(At()) && rows.Keys == old(rows).Keys
        invariant used <= |attempts| && (ok ==> used > 0)
        invariant forall k :: 0 <= k < used ==> (Succeeds(attempts[k], id, old(At())) <==> ok && k == used - 1)
        invariant ok ==> id in rows && rows[id].extractedAt.Some?
        invariant !ok && used == |attempts| && id in rows ==>
          FailedNow(rows[id], h) || attempts[used - 1].dies || !h.writes
        decreases |attempts| - used
      {
        ok := TryOnce(id, attempts[used], used + 1, |attempts|, h);
        used := used + 1;
      }
    }
  }
}
