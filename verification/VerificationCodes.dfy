/**
 One-time verification codes: a map from purpose and key to the code last issued, with a
 validity limit, single use, and a purge of expired codes when the map grows large.

 The specification looks only at the history: the last issue for a purpose and key, unless it
 has been consumed, deleted or has expired.
 */
module VerificationCodes {
  import opened Basics

  /** An issued code and the time of issue in nanoseconds. */
  datatype Issue = Issue(code: string, time: int)

  type Store = map<string, Issue>

  const VALID_MINUTES := 10

  function MapKey(purpose: string, key: string): string {
    purpose + key
  }

  predicate Expired(issue: Issue, now: int) {
    (now - issue.time) / NANOS_PER_SECOND >= VALID_MINUTES * 60
  }

  // ----- the operations on the map -----

  function Purge(codes: Store, now: int): Store {
    map k | k in codes && !Expired(codes[k], now) :: codes[k]
  }

  /** Stores a code; a map that has outgrown its limit is purged, at a possibly later reading of the clock. */
  function Put(codes: Store, mapKey: string, issue: Issue, maxSize: nat, purgeAt: int): Store {
    var grown := codes[mapKey := issue];
    if |grown| > maxSize then Purge(grown, purgeAt) else grown
  }

  predicate Live(codes: Store, mapKey: string, now: int) {
    mapKey in codes && !Expired(codes[mapKey], now)
  }

  predicate Verifies(codes: Store, mapKey: string, code: string, now: int) {
    Live(codes, mapKey, now) && codes[mapKey].code == code
  }

  class VerificationMap {
    var codes: Store
    const maxSize: nat

    constructor (maxSize: nat)
      ensures codes == map[] && this.maxSize == maxSize
    {
      codes, this.maxSize := map[], maxSize;
    }

    /** Deletes expired codes one at a time, in any order. */
    method RemoveExpiredPairs(now: int)
      modifies this`codes
      ensures codes == Purge(old(codes), now)
    {
      var pending := codes.Keys;
      while pending != {}
        invariant pending <= codes.Keys <= old(codes).Keys
        invariant forall k :: k in codes ==> codes[k] == old(codes)[k]
        invariant forall k :: k in old(codes) && k !in pending ==> (k in codes <==> !Expired(old(codes)[k], now))
      {
        var k :| k in pending;
        pending := pending - {k};
        if Expired(codes[k], now) {
          codes := codes - {k};
        }
      }
    }

    method Register(key: string, code: string, purpose: string, now: int, purgeAt: int)
      modifies this`codes
      ensures codes == Put(old(codes), MapKey(purpose, key), Issue(code, now), maxSize, purgeAt)
    {
      codes := codes[purpose + key := Issue(code, now)];
      if |codes| > maxSize {
        RemoveExpiredPairs(purgeAt);
      }
    }

    /** The generated code is a parameter; it is only used when there is no live code. */
    method GetOrCreate(key: string, purpose: string, generated: string, now: int, purgeAt: int)
      returns (code: string, created: bool)
      modifies this`codes
      ensures created <==> !Live(old(codes), MapKey(purpose, key), now)
      ensures code == if created then generated else old(codes)[MapKey(purpose, key)].code
      ensures codes == if created then Put(old(codes), MapKey(purpose, key), Issue(generated, now), maxSize, purgeAt)
                       else old(codes)
    {
      var mapKey := purpose + key;
      if mapKey in codes && (now - codes[mapKey].time) / NANOS_PER_SECOND < VALID_MINUTES * 60 {
        return codes[mapKey].code, false;
      }
      codes := codes[mapKey := Issue(generated, now)];
      if |codes| > maxSize {
        RemoveExpiredPairs(purgeAt);
      }
      return generated, true;
    }

    method Verify(key: string, code: string, purpose: string, now: int) returns (ok: bool)
      modifies this`codes
      ensures ok <==> Verifies(old(codes), MapKey(purpose, key), code, now)
      ensures codes == if ok then old(codes) - {MapKey(purpose, key)} else old(codes)
    {
      var mapKey := purpose + key;
      if mapKey !in codes || (now - codes[mapKey].time) / NANOS_PER_SECOND >= VALID_MINUTES * 60 {
        return false;
      }
      if code != codes[mapKey].code {
        return false;
      }
      codes := codes - {mapKey};
      return true;
    }

    method DeleteKey(key: string, purpose: string)
      modifies this`codes
      ensures codes == old(codes) - {MapKey(purpose, key)}
    {
      codes := codes - {purpose + key};
    }
  }

  // ----- histories -----

  datatype Event =
    | Register(purpose: string, key: string, code: string, now: int, purgeAt: int)
    | GetOrCreate(purpose: string, key: string, code: string, now: int, purgeAt: int)
    | Verify(purpose: string, key: string, code: string, now: int)
    | Delete(purpose: string, key: string, now: int)
  {
    function End(): int { if Register? || GetOrCreate? then purgeAt else now }
    predicate Concerns(p: string, k: string) { purpose == p && key == k }
  }

  /** The clock never runs backwards. */
  ghost predicate Timely(h: seq<Event>) {
    && (forall i :: 0 <= i < |h| ==> h[i].now <= h[i].End())
    && (forall i, j :: 0 <= i < j < |h| ==> h[i].End() <= h[j].now)
  }

  ghost predicate Uses(purposes: set<string>, h: seq<Event>) {
    forall i :: 0 <= i < |h| ==> h[i].purpose in purposes
  }

  function CodesAfter(maxSize: nat, h: seq<Event>): Store {
    if h == [] then map[] else
      var before := CodesAfter(maxSize, h[..|h| - 1]);
      var e := h[|h| - 1];
      var mapKey := MapKey(e.purpose, e.key);
      match e
      case Register(_, _, code, now, purgeAt) => Put(before, mapKey, Issue(code, now), maxSize, purgeAt)
      case GetOrCreate(_, _, code, now, purgeAt) =>
        if Live(before, mapKey, now) then before else Put(before, mapKey, Issue(code, now), maxSize, purgeAt)
      case Verify(_, _, code, now) => if Verifies(before, mapKey, code, now) then before - {mapKey} else before
      case Delete(_, _, _) => before - {mapKey}
  }

  /** The answer to a verification that follows history h. */
  predicate Accepts(maxSize: nat, h: seq<Event>, purpose: string, key: string, code: string, now: int) {
    Verifies(CodesAfter(maxSize, h), MapKey(purpose, key), code, now)
  }

  // ----- the specification -----

  predicate Good(issue: Option<Issue>, code: string, now: int) {
    issue.Some? && !Expired(issue.value, now) && issue.value.code == code
  }

  /** The latest issue for this purpose and key that has been neither consumed nor deleted. */
  function Outstanding(h: seq<Event>, p: string, k: string): Option<Issue> {
    if h == [] then None else
      var before := Outstanding(h[..|h| - 1], p, k);
      var e := h[|h| - 1];
      if !e.Concerns(p, k) then before
      else match e
        case Register(_, _, code, now, _) => Some(Issue(code, now))
        case GetOrCreate(_, _, code, now, _) =>
          if before.Some? && !Expired(before.value, now) then before else Some(Issue(code, now))
        case Verify(_, _, code, now) => if Good(before, code, now) then None else before
        case Delete(_, _, _) => None
  }

  /** Distinct purposes never look alike once the key is appended to them. */
  ghost predicate PrefixFree(purposes: set<string>) {
    forall p, q :: p in purposes && q in purposes && p != q ==> !(p <= q)
  }

  lemma MapKeyInjective(purposes: set<string>, p: string, k: string, q: string, l: string)
    requires PrefixFree(purposes) && p in purposes && q in purposes
    ensures MapKey(p, k) == MapKey(q, l) <==> p == q && k == l
  {
    if p + k == q + l {
      if |p| <= |q| {
        ShorterIsPrefix(p, k, q, l);
      } else {
        ShorterIsPrefix(q, l, p, k);
      }
      assert k == (p + k)[|p|..] && l == (q + l)[|q|..];
    }
  }

  lemma ShorterIsPrefix(p: string, k: string, q: string, l: string)
    requires p + k == q + l && |p| <= |q|
    ensures p <= q
  {
    assert p == (p + k)[..|p|] && q[..|p|] == (q + l)[..|p|];
  }

  /** The map holds the outstanding issue, or has dropped it after it expired. */
  predicate Agrees(codes: Store, mapKey: string, issue: Option<Issue>, now: int) {
    if mapKey in codes then issue == Some(codes[mapKey]) else issue.None? || Expired(issue.value, now)
  }

  lemma ExpiredLater(issue: Issue, now: int, later: int)
    requires now <= later && Expired(issue, now)
    ensures Expired(issue, later)
  {
  }

  lemma PutAgrees(codes: Store, target: string, issue: Issue, maxSize: nat, purgeAt: int, mapKey: string,
      was: Option<Issue>)
    requires Agrees(codes, mapKey, was, purgeAt)
    ensures var now := if mapKey == target then Some(issue) else was;
            Agrees(Put(codes, target, issue, maxSize, purgeAt), mapKey, now, purgeAt)
  {
  }

  lemma {:induction false} HistoryAgrees(maxSize: nat, h: seq<Event>, purposes: set<string>, p: string, k: string,
      now: int)
    requires PrefixFree(purposes) && p in purposes && Uses(purposes, h)
    requires Timely(h) && forall i :: 0 <= i < |h| ==> h[i].End() <= now
    ensures Agrees(CodesAfter(maxSize, h), MapKey(p, k), Outstanding(h, p, k), now)
    decreases |h|
  {
    if h != [] {
      var before, e := h[..|h| - 1], h[|h| - 1];
      HistoryAgrees(maxSize, before, purposes, p, k, e.now);
      MapKeyInjective(purposes, p, k, e.purpose, e.key);
      var codes, was := CodesAfter(maxSize, before), Outstanding(before, p, k);
      var mapKey := MapKey(p, k);
      AgreesLater(codes, mapKey, was, e.now, e.End());
      if e.Register? || e.GetOrCreate? {
        PutAgrees(codes, MapKey(e.purpose, e.key), Issue(e.code, e.now), maxSize, e.purgeAt, mapKey, was);
      }
      AgreesLater(CodesAfter(maxSize, h), mapKey, Outstanding(h, p, k), e.End(), now);
    }
  }

  lemma AgreesLater(codes: Store, mapKey: string, issue: Option<Issue>, now: int, later: int)
    requires now <= later && Agrees(codes, mapKey, issue, now)
    ensures Agrees(codes, mapKey, issue, later)
  {
    if mapKey !in codes && issue.Some? {
      ExpiredLater(issue.value, now, later);
    }
  }

  // ----- main results -----

  lemma TimelyPrefix(h: seq<Event>, e: Event)
    requires Timely(h + [e])
    ensures Timely(h) && forall i :: 0 <= i < |h| ==> h[i].End() <= e.now
  {
    var all := h + [e];
    assert all[|h|] == e;
    forall i | 0 <= i < |h|
      ensures h[i].End() <= e.now && h[i].now <= h[i].End()
    {
      assert all[i] == h[i];
    }
    forall i, j | 0 <= i < j < |h|
      ensures h[i].End() <= h[j].now
    {
      assert all[i] == h[i] && all[j] == h[j];
    }
  }

  /** A verification succeeds exactly if the latest unconsumed issue has that code and is still valid. */
  lemma VerificationFollowsHistory(maxSize: nat, h: seq<Event>, purposes: set<string>, p: string, k: string,
      code: string, now: int)
    requires PrefixFree(purposes)
    requires Uses(purposes, h + [Verify(p, k, code, now)]) && Timely(h + [Verify(p, k, code, now)])
    ensures Accepts(maxSize, h, p, k, code, now) <==> Good(Outstanding(h, p, k), code, now)
  {
    UsesPrefix(purposes, h, Verify(p, k, code, now));
    TimelyPrefix(h, Verify(p, k, code, now));
    HistoryAgrees(maxSize, h, purposes, p, k, now);
  }

  /** A request for a code reuses the latest valid one, and creates a new one exactly if there is none. */
  lemma CreationFollowsHistory(maxSize: nat, h: seq<Event>, purposes: set<string>, e: Event)
    requires e.GetOrCreate? && PrefixFree(purposes) && Uses(purposes, h + [e]) && Timely(h + [e])
    ensures var issue := Outstanding(h, e.purpose, e.key);
            var codes, mapKey := CodesAfter(maxSize, h), MapKey(e.purpose, e.key);
            && (Live(codes, mapKey, e.now) <==> issue.Some? && !Expired(issue.value, e.now))
            && (Live(codes, mapKey, e.now) ==> codes[mapKey] == issue.value)
  {
    UsesPrefix(purposes, h, e);
    TimelyPrefix(h, e);
    HistoryAgrees(maxSize, h, purposes, e.purpose, e.key, e.now);
  }

  lemma UsesPrefix(purposes: set<string>, h: seq<Event>, e: Event)
    requires Uses(purposes, h + [e])
    ensures Uses(purposes, h) && e.purpose in purposes
  {
    var all := h + [e];
    assert all[|h|] == e;
    assert forall i :: 0 <= i < |h| ==> all[i] == h[i];
  }

  /** Every verification of every timely history over these purposes is answered as specified. */
  ghost predicate Faithful(maxSize: nat, purposes: set<string>) {
    forall h: seq<Event>, p, k, code, now ::
      Uses(purposes, h + [Verify(p, k, code, now)]) && Timely(h + [Verify(p, k, code, now)]) ==>
      (Accepts(maxSize, h, p, k, code, now) <==> Good(Outstanding(h, p, k), code, now))
  }

  /** Answers follow the history exactly when no purpose is a prefix of another. */
  lemma FaithfulIffPrefixFree(maxSize: nat, purposes: set<string>)
    ensures Faithful(maxSize, purposes) <==> PrefixFree(purposes)
  {
    if PrefixFree(purposes) {
      forall h: seq<Event>, p, k, code, now |
        Uses(purposes, h + [Verify(p, k, code, now)]) && Timely(h + [Verify(p, k, code, now)])
        ensures Accepts(maxSize, h, p, k, code, now) <==> Good(Outstanding(h, p, k), code, now)
      {
        VerificationFollowsHistory(maxSize, h, purposes, p, k, code, now);
      }
    } else {
      var p, q :| p in purposes && q in purposes && p != q && p <= q;
      CodeCrossesPurposes(maxSize, p, q);
      var h := [Register(q, "", "c", 0, 0)];
      assert Timely(h + [Verify(p, q[|p|..], "c", 0)]);
      assert Uses(purposes, h + [Verify(p, q[|p|..], "c", 0)]);
    }
  }

  /** A code issued for one purpose is accepted for another purpose that is a prefix of it. */
  lemma CodeCrossesPurposes(maxSize: nat, p: string, q: string)
    requires p <= q && p != q
    ensures var h := [Register(q, "", "c", 0, 0)];
            Accepts(maxSize, h, p, q[|p|..], "c", 0) && Outstanding(h, p, q[|p|..]) == None
  {
    var h := [Register(q, "", "c", 0, 0)];
    assert h[..0] == [];
    assert p + q[|p|..] == q == q + "";
    assert CodesAfter(maxSize, []) == map[] && Outstanding([], p, q[|p|..]) == None;
    assert !h[0].Concerns(p, q[|p|..]);
  }

  // ----- no more successes than issues -----

  function Issues(maxSize: nat, h: seq<Event>, p: string, k: string): nat {
    if h == [] then 0 else
      var before, e := h[..|h| - 1], h[|h| - 1];
      Issues(maxSize, before, p, k) +
      if e.Concerns(p, k)
         && (e.Register? || (e.GetOrCreate? && !Live(CodesAfter(maxSize, before), MapKey(p, k), e.now)))
      then 1 else 0
  }

  function Successes(maxSize: nat, h: seq<Event>, p: string, k: string): nat {
    if h == [] then 0 else
      var before, e := h[..|h| - 1], h[|h| - 1];
      Successes(maxSize, before, p, k) +
      if e.Concerns(p, k) && e.Verify? && Accepts(maxSize, before, p, k, e.code, e.now) then 1 else 0
  }

  /** Every success uses up an issue of its own. */
  lemma {:induction false} SuccessesUseUpIssues(maxSize: nat, h: seq<Event>, purposes: set<string>, p: string,
      k: string)
    requires PrefixFree(purposes) && p in purposes && Uses(purposes, h)
    ensures var stored := if MapKey(p, k) in CodesAfter(maxSize, h) then 1 else 0;
            Successes(maxSize, h, p, k) + stored <= Issues(maxSize, h, p, k)
    decreases |h|
  {
    if h != [] {
      var before, e := h[..|h| - 1], h[|h| - 1];
      SuccessesUseUpIssues(maxSize, before, purposes, p, k);
      MapKeyInjective(purposes, p, k, e.purpose, e.key);
    }
  }

  /** The two purposes in use are prefix-free. */
  lemma PurposesInUse()
    ensures PrefixFree({"v", "r"})
  {
    assert "v"[0] != "r"[0];
  }

  // ----- expiry and purging -----

  /** A code expires ten minutes after it was issued. */
  lemma ExpiryMeaning(issue: Issue, now: int)
    ensures Expired(issue, now) <==> now >= issue.time + 600 * 1_000_000_000
  {
  }

  /**
   Storing a code replaces the one for the same key.  If the map is then over its limit, exactly
   the expired codes are dropped; otherwise none.
   */
  lemma PutMeaning(codes: Store, mapKey: string, issue: Issue, maxSize: nat, purgeAt: int, k: string)
    ensures var after := Put(codes, mapKey, issue, maxSize, purgeAt);
            var size := |codes| + if mapKey in codes then 0 else 1;
            var held := if k == mapKey then Some(issue) else if k in codes then Some(codes[k]) else None;
            && (k in after <==> held.Some? && (size > maxSize ==> !Expired(held.value, purgeAt)))
            && (k in after ==> after[k] == held.value)
  {
    var grown := codes[mapKey := issue];
    if mapKey in codes {
      assert grown.Keys == codes.Keys;
    } else {
      assert grown.Keys == codes.Keys + {mapKey};
    }
    assert |grown| == |grown.Keys| && |codes| == |codes.Keys|;
  }
}
