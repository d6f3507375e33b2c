/**
 The batched scan over all enabled channels: fetch the next batch in id order after the last
 id seen, process it, and stop after an empty or short batch.
 */
module ChannelScan {

  predicate Ascending(s: seq<int>) {
    forall i, j :: 0 <= i < j < |s| ==> s[i] < s[j]
  }

  /** The lower bound on ids is only added to the query once it is positive. */
  predicate Selected(lastId: int, id: int) {
    lastId > 0 ==> id > lastId
  }

  /** The answer to the batch query: the smallest matching ids, ascending, at most limit of them. */
  ghost predicate IsBatch(enabled: seq<int>, lastId: int, limit: nat, batch: seq<int>) {
    && Ascending(batch)
    && |batch| <= limit
    && (forall id :: id in batch ==> id in enabled && Selected(lastId, id))
    && (forall id :: id in enabled && Selected(lastId, id) && id !in batch ==>
          |batch| == limit && forall b :: b in batch ==> b < id)
  }

  /** The smallest matching id above a bound, if there is one; rows are in no particular order. */
  method NextId(enabled: seq<int>, lastId: int, batch: seq<int>) returns (found: bool, next: int)
    ensures found ==> Candidate(enabled, lastId, batch, next)
    ensures forall id :: Candidate(enabled, lastId, batch, id) ==> found && next <= id
  {
    found, next := false, 0;
    for i := 0 to |enabled|
      invariant found ==> Candidate(enabled, lastId, batch, next)
      invariant forall j :: 0 <= j < i && Candidate(enabled, lastId, batch, enabled[j]) ==> found && next <= enabled[j]
    {
      var id := enabled[i];
      if Selected(lastId, id) && (batch == [] || batch[|batch| - 1] < id) && (!found || id < next) {
        found, next := true, id;
      }
    }
  }

  predicate Candidate(enabled: seq<int>, lastId: int, batch: seq<int>, id: int) {
    id in enabled && Selected(lastId, id) && (batch == [] || batch[|batch| - 1] < id)
  }

  method FindBatch(enabled: seq<int>, lastId: int, limit: nat) returns (batch: seq<int>)
    ensures IsBatch(enabled, lastId, limit, batch)
  {
    batch := [];
    while |batch| < limit
      invariant Ascending(batch) && |batch| <= limit
      invariant forall id :: id in batch ==> id in enabled && Selected(lastId, id)
      invariant forall id :: id in enabled && Selected(lastId, id) && id !in batch ==>
        Candidate(enabled, lastId, batch, id)
    {
      var found, id := NextId(enabled, lastId, batch);
      if !found {
        break;
      }
      batch := batch + [id];
    }
  }

  /** Everything enabled that lies beyond the ids processed so far. */
  ghost predicate Ahead(enabled: seq<int>, processed: seq<int>) {
    && Ascending(processed)
    && (forall p :: p in processed ==> p in enabled)
    && (forall p, id :: p in processed && id in enabled && id !in processed ==> p < id)
  }

  ghost function NonPositive(enabled: seq<int>): set<int> {
    set id | id in enabled && id <= 0
  }

  /**
   Scans every enabled channel.  The observations of a cancelled context are a parameter;
   each check of the context consumes one.
   */
  method Scan(enabled: seq<int>, batchSize: nat, cancelled: nat -> bool)
    returns (processed: seq<int>, complete: bool)
    requires batchSize > 0
    requires |NonPositive(enabled)| < batchSize
    ensures Ahead(enabled, processed)
    ensures complete ==> forall id :: id in enabled ==> id in processed
    ensures (forall i: nat :: !cancelled(i)) ==> complete
  {
    hide NonPositive, IsBatch, Ahead;
    NothingDone(enabled);
    processed, complete := [], false;
    var lastId, checks := 0, 0;
    while true
      invariant Ahead(enabled, processed)
      invariant lastId >= 0 && DoneUpTo(enabled, lastId, processed)
      decreases Beyond(enabled, lastId)
    {
      checks := checks + 1;
      if cancelled(checks) {
        return;
      }
      var batch := FindBatch(enabled, lastId, batchSize);
      if |batch| == 0 {
        EmptyBatch(enabled, lastId, batchSize, processed);
        return processed, true;
      }
      BatchDone(enabled, lastId, batchSize, batch, processed);
      var going: bool;
      processed, checks, going := ProcessBatch(enabled, processed, batch, cancelled, checks);
      if !going {
        return;
      }
      lastId := batch[|batch| - 1];
      if |batch| < batchSize {
        return processed, true;
      }
    }
  }

  /** The ids that a query with this cursor would find. */
  ghost function Beyond(enabled: seq<int>, cursor: int): set<int> {
    set id | id in enabled && Selected(cursor, id)
  }

  /** Exactly the ids that the next query would not find have been processed. */
  ghost predicate DoneUpTo(enabled: seq<int>, cursor: int, processed: seq<int>) {
    forall id :: id in enabled ==> (id in processed <==> !Selected(cursor, id))
  }

  lemma NothingDone(enabled: seq<int>)
    ensures Ahead(enabled, []) && DoneUpTo(enabled, 0, [])
  {
  }

  lemma EmptyBatch(enabled: seq<int>, cursor: int, limit: nat, processed: seq<int>)
    requires limit > 0 && IsBatch(enabled, cursor, limit, []) && DoneUpTo(enabled, cursor, processed)
    ensures forall id :: id in enabled ==> id in processed
  {
  }

  /** A batch holds the next ids; a full one moves the cursor on, and a short one completes the scan. */
  lemma BatchDone(enabled: seq<int>, cursor: int, limit: nat, batch: seq<int>, processed: seq<int>)
    requires batch != [] && IsBatch(enabled, cursor, limit, batch) && cursor >= 0
    requires DoneUpTo(enabled, cursor, processed) && |NonPositive(enabled)| < limit
    ensures IsNext(enabled, processed, batch)
    ensures |batch| < limit ==> forall id :: id in enabled ==> id in processed + batch
    ensures var last := batch[|batch| - 1];
            |batch| >= limit ==>
              last > 0 && DoneUpTo(enabled, last, processed + batch) && Beyond(enabled, last) < Beyond(enabled, cursor)
  {
    StallsIff(enabled, limit, cursor, batch);
    var last := batch[|batch| - 1];
    assert last in batch;
    if |batch| == limit {
      assert last in Beyond(enabled, cursor) && last !in Beyond(enabled, last);
    }
  }

  /** The batch is what comes next. */
  ghost predicate IsNext(enabled: seq<int>, before: seq<int>, batch: seq<int>) {
    && Ascending(batch)
    && (forall id :: id in batch ==> id in enabled && id !in before)
    && (forall id :: id in enabled && id !in before && id !in batch ==> forall b :: b in batch ==> b < id)
  }

  /** Processes one batch, checking the context before each channel. */
  method ProcessBatch(enabled: seq<int>, before: seq<int>, batch: seq<int>, cancelled: nat -> bool, checked: nat)
    returns (processed: seq<int>, checks: nat, going: bool)
    requires Ahead(enabled, before) && IsNext(enabled, before, batch)
    ensures Ahead(enabled, processed)
    ensures going ==> processed == before + batch
    ensures (forall i: nat :: !cancelled(i)) ==> going
  {
    processed, checks := before, checked;
    for i := 0 to |batch|
      invariant processed == before + batch[..i]
      invariant Ahead(enabled, processed)
    {
      checks := checks + 1;
      if cancelled(checks) {
        return processed, checks, false;
      }
      ExtendAhead(enabled, processed, batch[i]) by {
        BatchIsNext(enabled, before, batch, i);
      }
      processed := processed + [batch[i]];
      assert before + batch[..i] + [batch[i]] == before + batch[..i + 1];
    }
    assert batch[..|batch|] == batch;
    going := true;
  }

  lemma BatchIsNext(enabled: seq<int>, before: seq<int>, batch: seq<int>, i: nat)
    requires Ahead(enabled, before) && IsNext(enabled, before, batch) && i < |batch|
    ensures var done := before + batch[..i];
            && batch[i] in enabled && batch[i] !in done
            && forall id :: id in enabled && id !in done ==> batch[i] <= id
  {
    var done := before + batch[..i];
    assert batch[i] in batch;
    forall id | id in enabled && id !in done
      ensures batch[i] <= id
    {
      if id in batch {
        var j :| 0 <= j < |batch| && batch[j] == id;
      }
    }
  }

  lemma ExtendAhead(enabled: seq<int>, done: seq<int>, next: int)
    requires Ahead(enabled, done)
    requires next in enabled && next !in done
    requires forall id :: id in enabled && id !in done ==> next <= id
    ensures Ahead(enabled, done + [next])
  {
    forall i, j | 0 <= i < j < |done| + 1
      ensures (done + [next])[i] < (done + [next])[j]
    {
      if j == |done| {
        assert done[i] in done;
      }
    }
  }

  // ----- when the scan does not advance -----

  lemma {:induction false} AscendingIsDistinct(s: seq<int>)
    requires Ascending(s)
    ensures |set id | id in s| == |s|
  {
    if s != [] {
      var n := |s| - 1;
      AscendingIsDistinct(s[..n]);
      assert s == s[..n] + [s[n]];
      assert (set id | id in s) == (set id | id in s[..n]) + {s[n]};
    }
  }

  lemma SubsetSize(a: set<int>, b: set<int>)
    requires a <= b
    ensures |a| <= |b|
  {
    if a != b {
      assert a + (b - a) == b;
    }
  }

  /** Without a positive cursor, the next cursor is not positive either exactly if the ids that are not fill a batch. */
  lemma StallsIff(enabled: seq<int>, limit: nat, cursor: int, batch: seq<int>)
    requires limit > 0 && IsBatch(enabled, cursor, limit, batch)
    ensures cursor <= 0 ==> (|batch| == limit && batch[limit - 1] <= 0 <==> |NonPositive(enabled)| >= limit)
  {
    var low, all := NonPositive(enabled), set id | id in batch;
    AscendingIsDistinct(batch);
    if cursor <= 0 {
      if |batch| < limit {
        SubsetSize(low, all);
      } else if batch[limit - 1] <= 0 {
        assert forall id :: id in batch ==> id <= 0;
        SubsetSize(all, low);
      } else {
        var front := batch[..limit - 1];
        AscendingIsDistinct(front);
        var last := batch[limit - 1];
        assert last in batch && batch == front + [last];
        assert forall id :: id in low ==> Selected(cursor, id) && id in batch && id != last;
        SubsetSize(low, set id | id in front);
      }
    }
  }

  /** Where the query starts after some full batches. */
  function Cursor(rounds: seq<seq<int>>): int {
    if rounds == [] || rounds[|rounds| - 1] == [] then 0
    else var last := rounds[|rounds| - 1]; last[|last| - 1]
  }

  /** Rounds of an uncancelled scan after which it goes on: every batch was full. */
  ghost predicate GoesOn(enabled: seq<int>, limit: nat, rounds: seq<seq<int>>) {
    forall k :: 0 <= k < |rounds| ==>
      |rounds[k]| == limit && IsBatch(enabled, Cursor(rounds[..k]), limit, rounds[k])
  }

  lemma {:induction false} StaysStalled(enabled: seq<int>, limit: nat, rounds: seq<seq<int>>)
    requires 0 < limit <= |NonPositive(enabled)| && GoesOn(enabled, limit, rounds)
    ensures Cursor(rounds) <= 0
  {
    if rounds != [] {
      var n := |rounds| - 1;
      var front := rounds[..n];
      assert forall k :: 0 <= k < n ==> front[..k] == rounds[..k];
      StaysStalled(enabled, limit, front);
      StallsIff(enabled, limit, Cursor(front), rounds[n]);
    }
  }

  /** After any number of rounds the next batch is full again and does not move the cursor above zero. */
  ghost predicate NeverEnds(enabled: seq<int>, limit: nat) {
    forall rounds, batch :: GoesOn(enabled, limit, rounds) && IsBatch(enabled, Cursor(rounds), limit, batch) ==>
      |batch| == limit && Cursor(rounds + [batch]) <= 0
  }

  /** The scan goes on for ever exactly if at least a full batch of enabled ids is not positive. */
  lemma NeverEndsIff(enabled: seq<int>, limit: nat, first: seq<int>)
    requires limit > 0 && IsBatch(enabled, 0, limit, first)
    ensures NeverEnds(enabled, limit) <==> |NonPositive(enabled)| >= limit
  {
    hide IsBatch, GoesOn, NonPositive;
    StallsIff(enabled, limit, 0, first);
    if NeverEnds(enabled, limit) {
      FirstRound(enabled, limit, first);
      assert |first| == limit && Cursor([] + [first]) <= 0;
    }
    if |NonPositive(enabled)| >= limit {
      forall rounds, batch | GoesOn(enabled, limit, rounds) && IsBatch(enabled, Cursor(rounds), limit, batch)
        ensures |batch| == limit && Cursor(rounds + [batch]) <= 0
      {
        StaysStalled(enabled, limit, rounds);
        StallsIff(enabled, limit, Cursor(rounds), batch);
      }
    }
  }

  lemma FirstRound(enabled: seq<int>, limit: nat, first: seq<int>)
    ensures GoesOn(enabled, limit, []) && Cursor([]) == 0
    ensures first != [] ==> Cursor([] + [first]) == first[|first| - 1]
  {
    assert [] + [first] == [first];
  }
}
