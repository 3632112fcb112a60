/** The in-memory translation memory, the cache and the store in front of them, as classes. */
module StoreClasses {
  import opened Wrappers
  import opened Memory
  import opened TieredStore
  import opened Audit

  class InMemoryTM {
    var versions: map<nat, Version>
    var segments: map<Key, string>
    var reviews: map<Key, ReviewItem>
    var hits: set<(string, Key, string)>
    var next: nat

    ghost function Model(): TM
      reads this
    {
      TM(versions, segments, reviews, hits, next)
    }

    constructor ()
      ensures Model() == EMPTY
    {
      versions, segments, reviews, hits, next := map[], map[], map[], {}, 1;
    }

    /** The state a transaction starts from. */
    method Snapshot() returns (was: TM)
      ensures was == Model()
    {
      was := TM(versions, segments, reviews, hits, next);
    }

    /** A transaction that did not commit. */
    method Rollback(was: TM)
      modifies this
      ensures Model() == was
    {
      versions, segments, reviews, hits, next := was.versions, was.segments, was.reviews, was.hits, was.next;
    }

    /** Add a version and the glossary hits it depends on. */
    method Add(v: Version, source: string, terms: set<string>)
      requires v.id == next
      modifies this
      ensures Model() == AddVersion(old(Model()), v, source, terms)
    {
      if v.segment !in segments {
        segments := segments[v.segment := source];
      }
      versions := versions[v.id := v];
      next := next + 1;
      var todo := terms;
      while todo != {}
        invariant todo <= terms
        invariant hits == old(hits) + (set t | t in terms - todo :: (t, v.segment, v.gfp))
        invariant segments == old(Model()).segments[v.segment := if v.segment in old(segments) then old(segments)[v.segment] else source]
        invariant versions == old(versions)[v.id := v] && next == old(next) + 1 && reviews == old(reviews)
      {
        var t :| t in todo;
        hits := hits + {(t, v.segment, v.gfp)};
        todo := todo - {t};
      }
      assert terms - todo == terms;
    }

    method StoreMachine(keys: SegmentKeys, m: Machine, now: Time) returns (r: Stored)
      modifies this
      ensures (Model(), r) == Memory.StoreMachine(old(Model()), keys, m, now)
    {
      var v := Version(next, keys.segment, keys.machine, MT, m.target, keys.gfp, Some(m.model), None,
                       m.tagIntegrity, now, None);
      Add(v, m.source, m.terms);
      r := Stored(v.id, MT, m.target, false);
    }

    method Approve(keys: SegmentKeys, a: Approval, now: Time) returns (r: Stored)
      modifies this
      ensures (Model(), r) == Memory.Approve(old(Model()), keys, a, now)
      ensures r.version == old(next)
    {
      var v := Version(next, keys.segment, keys.approved, HUMAN, a.target, keys.gfp, None, Some(a.author),
                       Some(true), now, None);
      Add(v, a.source, a.terms);
      var site, created, raised := a.site, now, OPERATOR;
      if keys.segment in reviews {
        var previous := reviews[keys.segment];
        site := if a.site.Some? then a.site else previous.site;
        created, raised := previous.createdAt, previous.raisedBy;
      }
      reviews := reviews[keys.segment :=
        ReviewItem(keys.segment, Some(keys.approved), APPROVED, v.id, site, now, created, raised)];
      r := Stored(v.id, HUMAN, a.target, false);
    }

    /** Count what the site has opened since `since`. */
    method CountOpened(site: string, since: Time) returns (count: nat)
      ensures count == |OpenedBy(Model(), site, since)|
    {
      var todo := reviews.Keys;
      var counted: set<Key> := {};
      while todo != {}
        invariant todo <= reviews.Keys
        invariant counted == OpenedBy(Model(), site, since) - todo
      {
        var s :| s in todo;
        var item := reviews[s];
        if item.site == Some(site) && item.raisedBy.REQUEST? && !item.state.OWED? && item.createdAt >= since {
          counted := counted + {s};
        }
        todo := todo - {s};
      }
      assert counted == OpenedBy(Model(), site, since);
      count := |counted|;
    }

    method FlagForReview(f: Flagging, now: Time) returns (r: FlagOutcome)
      modifies this
      ensures (Model(), r) == Memory.FlagForReview(old(Model()), f, now)
    {
      if f.segment in reviews {
        var existing := reviews[f.segment];
        if IsOpen(existing.state) && existing.current < f.version {
          reviews := reviews[f.segment := existing.(current := f.version, updatedAt := now)];
        }
        return EXISTS;
      }
      var state := PENDING_REVIEW;
      if f.cap.Some? {
        var count := CountOpened(f.site, f.since);
        if count >= f.cap.value {
          state := OWED;
        }
      }
      reviews := reviews[f.segment :=
        ReviewItem(f.segment, None, state, f.version, Some(f.site), now, now, f.raisedBy)];
      r := if state.OWED? then STILL_OWED else CREATED;
    }

    /** Invalidate the versions in `ids`, and collect their lookup keys. */
    method Invalidate(ids: set<nat>, now: Time) returns (keys: set<Key>)
      modifies this`versions
      ensures versions == Invalidated(old(versions), ids, now)
      ensures keys == LookupKeys(old(versions), ids)
    {
      keys := {};
      var todo := versions.Keys;
      while todo != {}
        invariant todo <= old(versions).Keys
        invariant versions == Invalidated(old(versions), ids - todo, now)
        invariant keys == LookupKeys(old(versions), ids - todo)
      {
        var id :| id in todo;
        if id in ids {
          keys := keys + {versions[id].lookup};
          versions := versions[id := versions[id].(invalidatedAt := Some(now))];
        }
        todo := todo - {id};
      }
      assert ids - todo == ids;
    }

    /** The review items of invalidated versions, unless someone has decided them, go. */
    method CloseInvalidated()
      modifies this`reviews
      ensures Model() == Memory.CloseInvalidated(old(Model()))
    {
      var todo := reviews.Keys;
      var kept: map<Key, ReviewItem> := map[];
      while todo != {}
        invariant todo <= reviews.Keys && reviews == old(reviews)
        invariant kept == map s | s in reviews && s !in todo && !AsksNothing(versions, reviews[s]) :: reviews[s]
      {
        var s :| s in todo;
        if !AsksNothing(versions, reviews[s]) {
          kept := kept[s := reviews[s]];
        }
        todo := todo - {s};
      }
      reviews := kept;
    }

    /** Send the approvals of `segments` to recheck, and collect their keys. */
    method SendToRecheck(segments: set<Key>, now: Time) returns (keys: set<Key>)
      modifies this`reviews
      ensures reviews == Recheck(old(reviews), segments, now)
      ensures keys == ApprovedKeys(old(reviews), segments)
    {
      keys := {};
      var todo := reviews.Keys;
      while todo != {}
        invariant todo <= old(reviews).Keys
        invariant reviews == Recheck(old(reviews), segments - todo, now)
        invariant keys == ApprovedKeys(old(reviews), segments - todo)
      {
        var s :| s in todo;
        if s in segments {
          var item := reviews[s];
          keys := keys + {if item.approvedKey.Some? then item.approvedKey.value else ""};
          reviews := reviews[s := item.(state := NEEDS_RECHECK, updatedAt := now)];
        }
        todo := todo - {s};
      }
      assert segments - todo == segments;
    }

    method InvalidateTerms(terms: set<string>, now: Time) returns (r: Invalidation)
      modifies this
      ensures (Model(), r) == Memory.InvalidateTerms(old(Model()), terms, now)
    {
      var affected := set h | h in hits && h.0 in terms :: (h.1, h.2);
      var stale := set id | id in versions && versions[id].origin.MT? && versions[id].invalidatedAt.None?
                            && (versions[id].segment, versions[id].gfp) in affected;
      var recheck := set s | s in reviews && reviews[s].state.APPROVED? && reviews[s].current in versions
                             && (s, versions[reviews[s].current].gfp) in affected;
      var machine := Invalidate(stale, now);
      var approved := SendToRecheck(recheck, now);
      CloseInvalidated();
      r := Invalidation(machine, approved, recheck);
    }

    method ExpireMachine(before: Time, now: Time) returns (keys: set<Key>)
      modifies this
      ensures (Model(), keys) == Memory.ExpireMachine(old(Model()), before, now)
    {
      var ids := set id | id in versions && Expirable(versions[id], before);
      keys := Invalidate(ids, now);
      CloseInvalidated();
    }

    /** What stands approved under some keys. */
    method LookupApproved(approvedKeys: set<Key>) returns (approved: map<Key, Stored>)
      ensures forall key :: key in approvedKeys ==> (key in approved <==> ApprovedOf(Model(), key).Some?)
      ensures forall key :: key in approved ==> exists s :: Approves(Model(), s, key) && approved[key] == ApprovalOf(Model(), s)
    {
      approved := map[];
      var todo := reviews.Keys;
      while todo != {}
        invariant todo <= reviews.Keys
        invariant forall key :: key in approved ==>
                    exists s :: Approves(Model(), s, key) && approved[key] == ApprovalOf(Model(), s)
        invariant forall s, key :: Approves(Model(), s, key) && key in approvedKeys && s !in todo ==> key in approved
      {
        var s :| s in todo;
        var item := reviews[s];
        if item.state.APPROVED? && item.approvedKey.Some? && item.approvedKey.value in approvedKeys
           && item.current in versions {
          var v := versions[item.current];
          assert Approves(Model(), s, item.approvedKey.value);
          approved := approved[item.approvedKey.value := Stored(v.id, v.origin, v.target, true)];
        }
        todo := todo - {s};
      }
    }

    /** The latest live machine version of some keys. */
    method LookupMachine(machineKeys: set<Key>) returns (machine: map<Key, Stored>)
      ensures forall key :: key in machineKeys ==> (key in machine <==> MachineOf(Model(), key).Some?)
      ensures forall key :: key in machineKeys && key in machine ==> machine[key] == MachineOf(Model(), key).value
    {
      machine := map[];
      for id := 0 to next
        invariant forall key :: key in machine <==> key in machineKeys && Latest(Model(), key, id).Some?
        invariant forall key :: key in machine ==>
                    var l := Latest(Model(), key, id).value;
                    machine[key] == Stored(l, MT, versions[l].target, versions[l].segment in reviews)
      {
        if id in versions && versions[id].origin.MT? && versions[id].lookup in machineKeys
           && versions[id].invalidatedAt.None? {
          var v := versions[id];
          machine := machine[v.lookup := Stored(id, MT, v.target, v.segment in reviews)];
        }
      }
    }

    /** One batched read of both. */
    method Lookup(approvedKeys: set<Key>, machineKeys: set<Key>)
      returns (approved: map<Key, Stored>, machine: map<Key, Stored>)
      ensures forall key :: key in approvedKeys ==> (key in approved <==> ApprovedOf(Model(), key).Some?)
      ensures forall key :: key in approved ==> exists s :: Approves(Model(), s, key) && approved[key] == ApprovalOf(Model(), s)
      ensures forall key :: key in machineKeys ==> (key in machine <==> MachineOf(Model(), key).Some?)
      ensures forall key :: key in machineKeys && key in machine ==> machine[key] == MachineOf(Model(), key).value
    {
      hide *;
      approved := LookupApproved(approvedKeys);
      machine := LookupMachine(machineKeys);
    }
  }

  class InMemoryCache {
    var data: Cache

    constructor ()
      ensures data == map[]
    {
      data := map[];
    }

    /** What was last set for each key and not deleted since. */
    method GetMany(keys: seq<CacheKey>) returns (out: Cache)
      ensures forall k :: k in out <==> k in keys && k in data
      ensures forall k :: k in out ==> out[k] == data[k]
    {
      out := map[];
      for i := 0 to |keys|
        invariant forall k :: k in out <==> k in keys[..i] && k in data
        invariant forall k :: k in out ==> out[k] == data[k]
      {
        if keys[i] in data {
          out := out[keys[i] := data[keys[i]]];
        }
      }
    }

    method Set(key: CacheKey, value: Stored)
      modifies this
      ensures data == old(data)[key := value]
    {
      data := data[key := value];
    }

    method DeleteMany(keys: seq<CacheKey>)
      modifies this
      ensures data == old(data) - set k | k in keys
    {
      for i := 0 to |keys|
        invariant data == old(data) - set k | k in keys[..i]
      {
        data := data - {keys[i]};
      }
    }
  }

  /** The keys of some entries in a namespace, one after the other. */
  method InNamespace(keys: set<Key>, namespace: Key -> CacheKey) returns (entries: seq<CacheKey>)
    ensures forall e :: e in entries <==> exists k :: k in keys && e == namespace(k)
  {
    entries := [];
    var todo := keys;
    while todo != {}
      invariant todo <= keys
      invariant forall e :: e in entries <==> exists k :: k in keys - todo && e == namespace(k)
    {
      var k :| k in todo;
      entries := entries + [namespace(k)];
      todo := todo - {k};
    }
  }

  /** The first `n` answers of a batch are final, the others are what the cache has. */
  ghost predicate Answered(s: Store, items: seq<LookupItem>, results: seq<Option<Hit>>, n: nat) {
    && |results| == |items|
    && (forall j :: 0 <= j < n && j < |items| ==> results[j] == HitOf(s, items[j].keys, GateTier(items[j].tier)))
    && (forall j :: n <= j < |items| ==> results[j] == CachedHit(s.cache, items[j].keys, GateTier(items[j].tier)))
  }

  /** A cached answer stands and is not put back; without one the memory answers. */
  lemma AnswerIs(s: Store, items: seq<LookupItem>, results: seq<Option<Hit>>, n: nat, cache: Cache)
    requires |results| == |items| && Answered(s, items, results, n) && n < |items|
    ensures var keys, tier := items[n].keys, GateTier(items[n].tier);
            && (results[n].None? ==> HitOf(s, keys, tier) == MemoryHit(s.tm, keys, tier)
                                     && Answered(s, items, results[n := MemoryHit(s.tm, keys, tier)], n + 1))
            && (results[n].Some? ==> Answered(s, items, results, n + 1) && Backfill(cache, keys, HitOf(s, keys, tier)) == cache)
  {
    hide MemoryHit;
  }

  lemma AllAnswered(s: Store, items: seq<LookupItem>, results: seq<Option<Hit>>)
    requires Answered(s, items, results, |items|)
    ensures |results| == |items|
    ensures forall i :: 0 <= i < |items| ==> results[i] == HitOf(s, items[i].keys, GateTier(items[i].tier))
  {
  }

  class TranslationStore {
    const tm: InMemoryTM
    const cache: InMemoryCache
    /** Whether a change and its record are one database transaction. */
    const transactional: bool
    var trail: seq<AuditEvent>

    ghost function State(): Store
      reads this, tm, cache
    {
      Store(tm.Model(), cache.data)
    }

    ghost function Audited(): Audited
      reads this, tm, cache
    {
      Audit.Audited(State(), trail)
    }

    constructor (transactional: bool)
      ensures Audited() == Audit.Audited(NEW, []) && fresh(tm) && fresh(cache)
      ensures this.transactional == transactional
    {
      tm := new InMemoryTM();
      cache := new InMemoryCache();
      this.transactional, trail := transactional, [];
    }

    /** The log takes a record it admits, unless it is down. */
    method Write(e: AuditEvent, admits: Admits, down: bool) returns (ok: bool)
      modifies this`trail
      ensures ok <==> admits(e) && !down
      ensures trail == if ok then old(trail) + [e] else old(trail)
    {
      ok := admits(e) && !down;
      if ok {
        trail := trail + [e];
      }
    }

    /** At most one segment is approved under a key. */
    ghost predicate OneApproval()
      reads tm
    {
      forall s, t, key :: Approves(tm.Model(), s, key) && Approves(tm.Model(), t, key) ==> s == t
    }

    /** The answer for a miss, once the memory was read: no version id differs from the model's. */
    method FromMemory(keys: SegmentKeys, tier: int, approved: map<Key, Stored>, machine: map<Key, Stored>)
      returns (r: Option<Hit>)
      requires keys.approved in approved <==> ApprovedOf(tm.Model(), keys.approved).Some?
      requires keys.approved in approved ==> approved[keys.approved] == ApprovedOf(tm.Model(), keys.approved).value
      requires tier >= 2 ==> (keys.machine in machine <==> MachineOf(tm.Model(), keys.machine).Some?)
      requires tier >= 2 && keys.machine in machine ==> machine[keys.machine] == MachineOf(tm.Model(), keys.machine).value
      modifies cache
      ensures r == MemoryHit(tm.Model(), keys, tier)
      ensures cache.data == Backfill(old(cache.data), keys, r)
    {
      if keys.approved in approved && approved[keys.approved].origin.HUMAN? {
        r := Some(Hit(approved[keys.approved], FROM_TM));
        cache.Set(ApprovedKey(keys.approved), approved[keys.approved]);
      } else if tier >= 2 && keys.machine in machine {
        r := Some(Hit(machine[keys.machine], FROM_TM));
        cache.Set(MachineKey(keys.machine), machine[keys.machine]);
      } else {
        r := None;
      }
    }

    /** The cache entries a batch asks for: every approved key, and machine keys where the tier allows. */
    method Asked(items: seq<LookupItem>) returns (keys: seq<CacheKey>)
      ensures forall i :: 0 <= i < |items| ==>
                ApprovedKey(items[i].keys.approved) in keys && (GateTier(items[i].tier) >= 2 ==> MachineKey(items[i].keys.machine) in keys)
    {
      var approved, machine: seq<CacheKey> := [], [];
      for n := 0 to |items|
        invariant forall i :: 0 <= i < n ==> ApprovedKey(items[i].keys.approved) in approved
        invariant forall i :: 0 <= i < n && GateTier(items[i].tier) >= 2 ==> MachineKey(items[i].keys.machine) in machine
      {
        approved := approved + [ApprovedKey(items[n].keys.approved)];
        if GateTier(items[n].tier) >= 2 {
          machine := machine + [MachineKey(items[n].keys.machine)];
        }
      }
      keys := approved + machine;
    }

    /** The first pass: answers from the cache, and the keys the memory must be asked for. */
    method FromCache(items: seq<LookupItem>)
      returns (results: seq<Option<Hit>>, needA: set<Key>, needM: set<Key>)
      ensures |results| == |items|
      ensures forall i :: 0 <= i < |items| ==> results[i] == CachedHit(cache.data, items[i].keys, GateTier(items[i].tier))
      ensures forall i :: 0 <= i < |items| && results[i].None? ==>
                items[i].keys.approved in needA && (GateTier(items[i].tier) >= 2 ==> items[i].keys.machine in needM)
    {
      var keys := Asked(items);
      var cached := cache.GetMany(keys);
      results, needA, needM := [], {}, {};
      for i := 0 to |items|
        invariant |results| == i
        invariant forall j :: 0 <= j < i ==> results[j] == CachedHit(cache.data, items[j].keys, GateTier(items[j].tier))
        invariant forall j :: 0 <= j < i && results[j].None? ==>
                    items[j].keys.approved in needA && (GateTier(items[j].tier) >= 2 ==> items[j].keys.machine in needM)
      {
        var hit := CachedHit(cached, items[i].keys, GateTier(items[i].tier));
        if hit.None? {
          if GateTier(items[i].tier) >= 2 {
            needM := needM + {items[i].keys.machine};
          }
          needA := needA + {items[i].keys.approved};
        }
        results := results + [hit];
      }
    }

    /** The batched read, with one approval per key. */
    method ReadMemory(needA: set<Key>, needM: set<Key>) returns (approved: map<Key, Stored>, machine: map<Key, Stored>)
      requires OneApproval()
      ensures forall key :: key in needA ==> (key in approved <==> ApprovedOf(tm.Model(), key).Some?)
      ensures forall key :: key in approved ==> ApprovedOf(tm.Model(), key).Some? && approved[key] == ApprovedOf(tm.Model(), key).value
      ensures forall key :: key in needM ==> (key in machine <==> MachineOf(tm.Model(), key).Some?)
      ensures forall key :: key in needM && key in machine ==> machine[key] == MachineOf(tm.Model(), key).value
    {
      hide MachineOf, ApprovalOf;
      approved, machine := tm.Lookup(needA, needM);
      forall key | key in approved
        ensures ApprovedOf(tm.Model(), key).Some? && approved[key] == ApprovedOf(tm.Model(), key).value
      {
        var s :| Approves(tm.Model(), s, key) && approved[key] == ApprovalOf(tm.Model(), s);
        var t :| Approves(tm.Model(), t, key) && ApprovedOf(tm.Model(), key).value == ApprovalOf(tm.Model(), t);
      }
    }

    method Lookup(items: seq<LookupItem>) returns (results: seq<Option<Hit>>)
      requires OneApproval()
      modifies cache
      ensures |results| == |items|
      ensures forall i :: 0 <= i < |items| ==> results[i] == HitOf(old(State()), items[i].keys, GateTier(items[i].tier))
      ensures State() == Store(old(tm.Model()), CacheAfter(old(State()), items, |items|))
    {
      var needA, needM;
      results, needA, needM := FromCache(items);
      var approved, machine := ReadMemory(needA, needM);
      ghost var start := State();
      assert Answered(start, items, results, 0);
      hide ApprovedOf, MachineOf, OneApproval, GateTier, CachedHit, MemoryHit, HitOf, Backfill, Answered;
      for i := 0 to |items|
        invariant tm.Model() == start.tm && |results| == |items| && Answered(start, items, results, i)
        invariant forall j :: i <= j < |items| && results[j].None? ==>
                    items[j].keys.approved in needA && (GateTier(items[j].tier) >= 2 ==> items[j].keys.machine in needM)
        invariant cache.data == CacheAfter(start, items, i)
      {
        AnswerIs(start, items, results, i, cache.data);
        if results[i].None? {
          var keys := items[i].keys;
          var hit := FromMemory(keys, GateTier(items[i].tier), approved, machine);
          results := results[i := hit];
        }
      }
      AllAnswered(start, items, results);
    }

    /** Machine output and its review item, both or neither; a memory without transactions is never down. */
    method Record(keys: SegmentKeys, m: Machine, review: Option<ReviewRequest>, now: Time, down: bool) returns (r: Option<Stored>)
      requires down ==> transactional
      modifies tm, cache
      ensures r.None? <==> review.Some? && down
      ensures State() == if r.None? then old(State()) else RecordMachine(old(State()), keys, m, review, now)
      ensures r.Some? ==> r.value.version == old(tm.Model()).next && r.value.review == review.Some?
    {
      var was := tm.Snapshot();
      var stored := tm.StoreMachine(keys, m, now);
      if review.Some? {
        if down {
          tm.Rollback(was);
          return None;
        }
        var outcome := tm.FlagForReview(FlaggingOf(keys, stored, review.value, now), now);
        stored := stored.(review := true);
      }
      cache.Set(MachineKey(keys.machine), stored);
      r := Some(stored);
    }

    /** Never fails: with the review queue down it leaves everything as it is, and no flag says otherwise. */
    method EnsureReview(keys: SegmentKeys, stored: Stored, site: string, now: Time, down: bool)
      modifies tm, cache
      ensures State() == if down then old(State()) else TieredStore.EnsureReview(old(State()), keys, stored, site, now)
    {
      if !stored.origin.MT? || stored.review {
        return;
      }
      if down {
        return;
      }
      var outcome := tm.FlagForReview(FlaggingOf(keys, stored, ReviewRequest(site, REQUEST), now), now);
      cache.Set(MachineKey(keys.machine), stored.(review := true));
    }

    /** An approval with its record, or neither: the record is checked first, and written with the change. */
    method Approve(keys: SegmentKeys, a: Approval, action: Action, now: Time, admits: Admits, down: bool)
      returns (r: Option<Stored>)
      requires NumbersPass(admits) && (down ==> transactional)
      modifies this`trail, tm, cache
      ensures r.Some? <==> admits(ApprovalRecord(old(State()), keys.segment, a, action)) && !down
      ensures Audited() == if r.Some? then ApproveRecorded(old(Audited()), keys, a, action, now) else old(Audited())
    {
      hide Memory.Approve;
      var event := ApprovalEvent(a.author, action, keys.segment, 0, a.site);
      assert admits(event) <==> admits(event.(version := tm.next));
      if !admits(event) {
        return None;
      }
      var was := tm.Snapshot();
      var stored := tm.Approve(keys, a, now);
      var written := Write(event.(version := stored.version), admits, down);
      if !written {
        assert transactional;
        tm.Rollback(was);
        return None;
      }
      cache.Set(ApprovedKey(keys.approved), stored);
      cache.DeleteMany([MachineKey(keys.machine)]);
      r := Some(stored);
    }

    method InvalidateTerms(terms: set<string>, actor: string, termbase: string, now: Time, admits: Admits, down: bool)
      returns (r: Option<Invalidation>)
      requires NumbersPass(admits) && (down ==> transactional)
      modifies this`trail, tm, cache
      ensures r.Some? <==> admits(PublishRecord(old(State()), terms, actor, termbase, now)) && !down
      ensures Audited() == if r.Some? then PublishRecorded(old(Audited()), terms, actor, termbase, now) else old(Audited())
    {
      hide Memory.InvalidateTerms;
      var event := PublishEvent(actor, termbase, terms, 0, 0);
      ghost var record := PublishRecord(State(), terms, actor, termbase, now);
      assert record == event.(machine := record.machine, recheck := record.recheck);
      if !admits(event) {
        return None;
      }
      var was := tm.Snapshot();
      var gone := tm.InvalidateTerms(terms, now);
      var written := Write(event.(machine := |gone.machine|, recheck := |gone.recheck|), admits, down);
      if !written {
        assert transactional;
        tm.Rollback(was);
        return None;
      }
      Evict(gone.machine, gone.approved);
      r := Some(gone);
    }

    /** Drop the machine and the approved entries of some keys. */
    method Evict(machine: set<Key>, approved: set<Key>)
      modifies cache
      ensures cache.data == old(cache.data) - Entries(machine, approved)
    {
      var first := InNamespace(machine, k => MachineKey(k));
      var second := InNamespace(approved, k => ApprovedKey(k));
      assert (set e | e in first + second) == Entries(machine, approved);
      cache.DeleteMany(first + second);
    }

    method ExpireMachine(before: Time, now: Time) returns (count: nat)
      modifies tm, cache
      ensures State() == Expire(old(State()), before, now)
    {
      var keys := tm.ExpireMachine(before, now);
      Evict(keys, {});
      count := |keys|;
    }

    /** Serve a page: one batched lookup, then flag machine output shown at Tier 2. */
    method ServePage(k: KeysOf, page: seq<PageItem>, site: string, now: Time) returns (hits: seq<Option<Hit>>)
      requires OneApproval()
      modifies tm, cache
      ensures |hits| == |page| && forall i :: 0 <= i < |page| ==> hits[i] == PageHit(k, old(State()), page[i])
      ensures State() == Serve(k, old(State()), page, site, now)
    {
      hide HitOf, CacheAfter, TieredStore.EnsureReview, Approves;
      ghost var start := State();
      hits := Lookup(LookupItems(k, page));
      for n := 0 to |page|
        invariant State() == ServedUpTo(k, start, page, site, now, n)
      {
        var item := page[n];
        if hits[n].Some? && item.passes && GateTier(item.tier) == 2 {
          EnsureReview(k(item.segment), hits[n].value.stored, site, now, item.down);
        }
      }
    }
  }
}
