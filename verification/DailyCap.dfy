/** Review items: when a new one is owed under the daily cap, and what becomes of one that is there. */
module DailyCap {
  import opened Wrappers
  import opened Memory
  import opened TieredStore

  /** An item a site's pages counted since some moment; items still owed do not count. */
  ghost predicate Counts(tm: TM, s: Key, site: string, since: Time) {
    && s in tm.reviews
    && var item := tm.reviews[s];
       item.site == Some(site) && item.raisedBy == REQUEST && item.state != OWED && since <= item.createdAt
  }

  ghost predicate AllCount(tm: TM, segments: set<Key>, site: string, since: Time) {
    forall s :: s in segments ==> Counts(tm, s, site, since)
  }

  /** So many different segments count. */
  ghost predicate AtLeast(tm: TM, site: string, since: Time, n: nat) {
    exists segments: set<Key> :: |segments| == n && AllCount(tm, segments, site, since)
  }

  lemma {:induction false} SmallerSet<T>(s: set<T>, n: nat) returns (r: set<T>)
    requires n <= |s|
    ensures r <= s && |r| == n
    decreases s
  {
    if n == |s| {
      r := s;
    } else {
      var x :| x in s;
      r := SmallerSet(s - {x}, n);
    }
  }

  lemma {:induction false} SubsetIsNoLarger<T>(a: set<T>, b: set<T>)
    requires a <= b
    ensures |a| <= |b|
    decreases a
  {
    if a != {} {
      var x :| x in a;
      SubsetIsNoLarger(a - {x}, b - {x});
    }
  }

  lemma OpenedIs(tm: TM, site: string, since: Time, n: nat)
    ensures |OpenedBy(tm, site, since)| >= n <==> AtLeast(tm, site, since, n)
  {
    var counted := OpenedBy(tm, site, since);
    forall s ensures s in counted <==> Counts(tm, s, site, since) {}
    if |counted| >= n {
      var some := SmallerSet(counted, n);
      assert AllCount(tm, some, site, since);
    }
    if AtLeast(tm, site, since, n) {
      var segments: set<Key> :| |segments| == n && AllCount(tm, segments, site, since);
      SubsetIsNoLarger(segments, counted);
    }
  }

  /**
   A segment without an item gets one: owed if and only if there is a cap and at least so many items
   count against it, waiting for a reviewer otherwise.
   */
  lemma OwedIff(tm: TM, f: Flagging, now: Time)
    requires f.segment !in tm.reviews
    ensures var (b, outcome) := FlagForReview(tm, f, now);
            && f.segment in b.reviews
            && b.reviews[f.segment].current == f.version && b.reviews[f.segment].site == Some(f.site)
            && b.reviews[f.segment].raisedBy == f.raisedBy && b.reviews[f.segment].createdAt == now
            && b.reviews[f.segment].state ==
                 (if f.cap.Some? && AtLeast(tm, f.site, f.since, f.cap.value) then OWED else PENDING_REVIEW)
            && outcome == if b.reviews[f.segment].state == OWED then STILL_OWED else CREATED
  {
    if f.cap.Some? { OpenedIs(tm, f.site, f.since, f.cap.value); }
  }

  /** Flagging never takes the items that count past the cap, and leaves every other site's alone. */
  lemma CapIsKept(tm: TM, f: Flagging, now: Time, site: string, since: Time, n: nat)
    requires site == f.site && f.raisedBy == REQUEST ==> f.cap == Some(n) && since == f.since
    requires !AtLeast(tm, site, since, n + 1)
    ensures !AtLeast(FlagForReview(tm, f, now).0, site, since, n + 1)
  {
    var b := FlagForReview(tm, f, now).0;
    OpenedIs(tm, site, since, n + 1);
    OpenedIs(b, site, since, n + 1);
    var before, after := OpenedBy(tm, site, since), OpenedBy(b, site, since);
    if f.segment !in tm.reviews && f.segment in after {
      assert after <= before + {f.segment};
      SubsetIsNoLarger(after, before + {f.segment});
    } else {
      assert after <= before;
      SubsetIsNoLarger(after, before);
    }
  }

  // ---- items that are there ----

  /** An open item moves on to newer output; an older version, or a decided item, changes nothing. */
  lemma ExistingItem(tm: TM, f: Flagging, now: Time)
    requires f.segment in tm.reviews
    ensures var (b, outcome) := FlagForReview(tm, f, now);
            var item := tm.reviews[f.segment];
            && outcome == EXISTS && b == tm.(reviews := b.reviews) && b.reviews.Keys == tm.reviews.Keys
            && (forall s :: s in tm.reviews && s != f.segment ==> b.reviews[s] == tm.reviews[s])
            && b.reviews[f.segment] == item.(current := b.reviews[f.segment].current, updatedAt := b.reviews[f.segment].updatedAt)
            && b.reviews[f.segment].current == (if IsOpen(item.state) && f.version > item.current then f.version else item.current)
            && b.reviews[f.segment].updatedAt == (if IsOpen(item.state) && f.version > item.current then now else item.updatedAt)
  {
  }

  /** Owed items that are released wait for a reviewer, as opened when they were; nothing else changes. */
  lemma ReleasedItem(tm: TM, segments: set<Key>, now: Time, s: Key)
    requires s in tm.reviews
    ensures var b := Release(tm, segments, now);
            && b == tm.(reviews := b.reviews) && b.reviews.Keys == tm.reviews.Keys
            && (tm.reviews[s].state == OWED && s in segments ==>
                  b.reviews[s] == tm.reviews[s].(state := PENDING_REVIEW, updatedAt := now))
            && (tm.reviews[s].state != OWED || s !in segments ==> b.reviews[s] == tm.reviews[s])
  {
  }

  /** An approval keeps when and by whom the item was opened, and its site unless it names one. */
  lemma ApprovedItem(tm: TM, keys: SegmentKeys, a: Approval, now: Time)
    ensures var b := Approve(tm, keys, a, now).0;
            && keys.segment in b.reviews
            && (keys.segment in tm.reviews ==>
                  var was, item := tm.reviews[keys.segment], b.reviews[keys.segment];
                  item.createdAt == was.createdAt && item.raisedBy == was.raisedBy
                  && item.site == if a.site == None then was.site else a.site)
            && (keys.segment !in tm.reviews ==>
                  var item := b.reviews[keys.segment];
                  item.createdAt == now && item.raisedBy == OPERATOR && item.site == a.site)
  {
  }

  // ---- pages and operators ----

  /** A page opens an item within the cap of the last twenty-four hours, and past it an owed one. */
  lemma PageItemOwedIff(s: Store, keys: SegmentKeys, stored: Stored, site: string, now: Time)
    requires stored.origin.MT? && !stored.review && keys.segment !in s.tm.reviews
    ensures var b := EnsureReview(s, keys, stored, site, now).tm;
            && keys.segment in b.reviews && b.reviews[keys.segment].current == stored.version
            && (b.reviews[keys.segment].state == OWED <==> AtLeast(s.tm, site, now - 24 * 60 * 60, 500))
            && (b.reviews[keys.segment].state == OWED || b.reviews[keys.segment].state == PENDING_REVIEW)
  {
    OwedIff(s.tm, FlaggingOf(keys, stored, ReviewRequest(site, REQUEST), now), now);
  }

  /** What an operator has translated is never owed. */
  lemma OperatorIsNotCapped(s: Store, keys: SegmentKeys, m: Machine, site: string, now: Time)
    requires keys.segment !in s.tm.reviews
    ensures var b := RecordMachine(s, keys, m, Some(ReviewRequest(site, OPERATOR)), now).tm;
            keys.segment in b.reviews && b.reviews[keys.segment].state == PENDING_REVIEW
  {
    var (tm, stored) := StoreMachine(s.tm, keys, m, now);
    OwedIff(tm, FlaggingOf(keys, stored, ReviewRequest(site, OPERATOR), now), now);
  }
}
