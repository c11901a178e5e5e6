/** The server's session store: sessions expire, and two limits evict the least recently active. */
module SessionCache {

  /** Times are in nanoseconds of a clock that does not go back. */
  datatype Session = Session(fingerprint: string, createdAt: nat, lastActivity: nat)

  type Store = map<string, Session>

  const SECOND := 1_000_000_000

  /** The whole seconds from `t` to `now`. */
  function Elapsed(now: nat, t: nat): nat { if t <= now then (now - t) / SECOND else 0 }

  function Group(s: Store, fingerprint: string): set<string> {
    set id | id in s && s[id].fingerprint == fingerprint
  }

  function Fingerprints(s: Store): set<string> { set id | id in s :: s[id].fingerprint }

  function Least(a: nat, b: nat): nat { if a <= b then a else b }

  ghost predicate Part(after: Store, before: Store) {
    after.Keys <= before.Keys && forall id :: id in after ==> after[id] == before[id]
  }

  /**
   `after` is `before` without the excess of `group` over `max`: exactly so
   many are gone, and none of them was active more recently than one that stays.
   */
  ghost predicate Trimmed(before: Store, after: Store, group: set<string>, max: nat) {
    && Part(after, before)
    && before.Keys - group <= after.Keys
    && |group * after.Keys| == Least(|group|, max)
    && forall gone, kept :: gone in group && gone in before && gone !in after && kept in group && kept in after ==>
         before[gone].lastActivity <= before[kept].lastActivity
  }

  ghost predicate SameOwner(s: Store, a: string, b: string) {
    a in s && b in s && s[a].fingerprint == s[b].fingerprint
  }

  /** No session is gone that was active more recently than one of the same fingerprint that stays. */
  ghost predicate OldestGone(before: Store, after: Store)
    requires Part(after, before)
  {
    forall gone, kept :: SameOwner(before, gone, kept) && gone !in after && kept in after ==>
                           before[gone].lastActivity <= before[kept].lastActivity
  }

  /** Every fingerprint's sessions are trimmed to the limit. */
  ghost predicate TrimmedByFingerprint(before: Store, after: Store, max: nat) {
    && Part(after, before) && OldestGone(before, after)
    && forall f: string :: |Group(after, f)| == Least(|Group(before, f)|, max)
  }

  // ---------- Sorting ----------

  predicate Sorted(s: Store, ids: seq<string>)
    requires AllIn(s, ids)
  {
    forall i, j :: 0 <= i < j < |ids| ==> s[ids[i]].lastActivity <= s[ids[j]].lastActivity
  }

  predicate Distinct(ids: seq<string>) {
    forall i, j :: 0 <= i < j < |ids| ==> ids[i] != ids[j]
  }

  ghost function Elements(ids: seq<string>): set<string> { set i | 0 <= i < |ids| :: ids[i] }

  /** Where a session belongs among the sorted ones. */
  method Position(s: Store, ids: seq<string>, id: string) returns (k: nat)
    requires id in s && AllIn(s, ids) && Sorted(s, ids)
    ensures k <= |ids|
    ensures forall i :: 0 <= i < k ==> s[ids[i]].lastActivity <= s[id].lastActivity
    ensures forall i :: k <= i < |ids| ==> s[id].lastActivity <= s[ids[i]].lastActivity
  {
    k := 0;
    while k < |ids| && s[ids[k]].lastActivity <= s[id].lastActivity
      invariant 0 <= k <= |ids|
      invariant forall i :: 0 <= i < k ==> s[ids[i]].lastActivity <= s[id].lastActivity
    {
      k := k + 1;
    }
  }

  predicate AllIn(s: Store, ids: seq<string>) { forall i :: 0 <= i < |ids| ==> ids[i] in s }

  /** The ids of a group, least recently active first. */
  method SortedIds(s: Store, group: set<string>) returns (ids: seq<string>)
    requires group <= s.Keys
    ensures AllIn(s, ids) && Elements(ids) == group && Distinct(ids) && Sorted(s, ids)
  {
    hide Elements, Distinct, Sorted, AllIn;
    ids := [];
    NoElements(s);
    var rest := group;
    while rest != {}
      invariant rest <= group && Elements(ids) == group - rest
      invariant AllIn(s, ids) && Distinct(ids) && Sorted(s, ids)
      decreases |rest|
    {
      var id :| id in rest;
      var k := Position(s, ids, id);
      Inserted(s, ids, k, id);
      ids := Insertion(ids, k, id);
      rest := rest - {id};
    }
  }

  lemma NoElements(s: Store)
    ensures AllIn(s, []) && Elements([]) == {} && Distinct([]) && Sorted(s, [])
  {
  }

  function Insertion(ids: seq<string>, k: nat, id: string): (more: seq<string>)
    requires k <= |ids|
    ensures |more| == |ids| + 1 && more[k] == id
    ensures forall i :: 0 <= i < k ==> more[i] == ids[i]
    ensures forall i :: k < i < |more| ==> more[i] == ids[i - 1]
  {
    ids[..k] + [id] + ids[k..]
  }

  lemma InsertedElements(ids: seq<string>, k: nat, id: string)
    requires k <= |ids|
    ensures Elements(Insertion(ids, k, id)) == Elements(ids) + {id}
  {
    hide Insertion;
    var more := Insertion(ids, k, id);
    forall i | 0 <= i < |ids|
      ensures ids[i] in Elements(more)
    {
      assert more[if i < k then i else i + 1] == ids[i];
    }
    forall i | 0 <= i < |more|
      ensures more[i] in Elements(ids) + {id}
    {
      if i != k {
        assert more[i] == ids[if i < k then i else i - 1];
      }
    }
    assert id == more[k];
  }

  lemma InsertedDistinct(ids: seq<string>, k: nat, id: string)
    requires k <= |ids| && Distinct(ids) && id !in Elements(ids)
    ensures Distinct(Insertion(ids, k, id))
  {
    hide Insertion;
    assert forall i :: 0 <= i < |ids| ==> ids[i] in Elements(ids);
  }

  lemma Inserted(s: Store, ids: seq<string>, k: nat, id: string)
    requires k <= |ids| && id in s && AllIn(s, ids) && Distinct(ids) && Sorted(s, ids) && id !in Elements(ids)
    requires forall i :: 0 <= i < k ==> s[ids[i]].lastActivity <= s[id].lastActivity
    requires forall i :: k <= i < |ids| ==> s[id].lastActivity <= s[ids[i]].lastActivity
    ensures var more := Insertion(ids, k, id);
            AllIn(s, more) && Elements(more) == Elements(ids) + {id} && Distinct(more) && Sorted(s, more)
  {
    hide Insertion, Distinct, Elements;
    InsertedElements(ids, k, id);
    InsertedDistinct(ids, k, id);
  }

  lemma {:induction false} ElementCount(ids: seq<string>)
    requires Distinct(ids)
    ensures |Elements(ids)| == |ids|
  {
    if ids != [] {
      var front, last := ids[..|ids| - 1], ids[|ids| - 1];
      ElementCount(front);
      assert Elements(ids) == Elements(front) + {last};
      assert last !in Elements(front);
    }
  }

  // ---------- The store ----------

  class Sessions {
    const idleTimeout: nat         // seconds; 0 means none
    const maxLifetime: nat         // seconds; 0 means none
    const maxPerFingerprint: nat   // 0 means no limit
    const maxTotal: nat            // 0 means no limit
    var store: Store

    predicate Expired(s: Session, now: nat) {
      || (idleTimeout > 0 && Elapsed(now, s.lastActivity) > idleTimeout)
      || (maxLifetime > 0 && Elapsed(now, s.createdAt) > maxLifetime)
    }

    /** The seconds are cut off, so that a session lives until the whole second behind its limit is over. */
    lemma ExpiredExactly(s: Session, now: nat)
      ensures Expired(s, now) <==>
              || (idleTimeout > 0 && now >= s.lastActivity + (idleTimeout + 1) * 1_000_000_000)
              || (maxLifetime > 0 && now >= s.createdAt + (maxLifetime + 1) * 1_000_000_000)
    {
    }

    function Unexpired(s: Store, now: nat): Store { map id | id in s && !Expired(s[id], now) :: s[id] }

    method Expire(now: nat)
      modifies this
      ensures store == Unexpired(old(store), now)
    {
      if idleTimeout == 0 && maxLifetime == 0 {
        return;
      }
      var rest := store.Keys;
      while rest != {}
        invariant rest <= store.Keys <= old(store).Keys
        invariant forall id :: id in store ==> store[id] == old(store)[id]
        invariant forall id :: id in old(store) && id !in rest ==> (id in store <==> !Expired(old(store)[id], now))
        decreases |rest|
      {
        var id :| id in rest;
        var expired := false;
        if idleTimeout > 0 && Elapsed(now, store[id].lastActivity) > idleTimeout {
          expired := true;
        }
        if !expired && maxLifetime > 0 && Elapsed(now, store[id].createdAt) > maxLifetime {
          expired := true;
        }
        rest := rest - {id};
        if expired {
          store := store - {id};
        }
      }
    }

    /** Sorts a group and erases its first sessions. */
    method Trim(group: set<string>, max: nat)
      requires group <= store.Keys
      modifies this
      ensures Trimmed(old(store), store, group, max)
    {
      if |group| <= max {
        assert group * store.Keys == group;
        return;
      }
      var ids := SortedIds(store, group);
      ElementCount(ids);
      var excess := |ids| - max;
      for i := 0 to excess
        invariant store == old(store) - Elements(ids[..i])
      {
        assert Elements(ids[..i + 1]) == Elements(ids[..i]) + {ids[i]};
        store := store - {ids[i]};
      }
      TailStays(old(store), store, group, ids, excess);
    }

    lemma TailStays(before: Store, after: Store, group: set<string>, ids: seq<string>, excess: nat)
      requires group <= before.Keys && Elements(ids) == group && Distinct(ids) && excess <= |ids|
      requires AllIn(before, ids) && Sorted(before, ids)
      requires after == before - Elements(ids[..excess])
      ensures Trimmed(before, after, group, |ids| - excess) && |ids| == |group|
    {
      hide Distinct, Sorted, AllIn, Elements;
      ElementCount(ids);
      WhoStays(before, after, ids, excess);
      TailCount(ids, excess);
      HeadAndTail(ids, excess);
      forall gone, kept | gone in group && gone !in after && kept in group && kept in after
        ensures before[gone].lastActivity <= before[kept].lastActivity
      {
        OldBeforeNew(before, ids, excess, gone, kept);
      }
    }

    lemma TailCount(ids: seq<string>, excess: nat)
      requires Distinct(ids) && excess <= |ids|
      ensures |Elements(ids[excess..])| == |ids| - excess
    {
      ElementCount(ids[excess..]);
    }

    lemma WhoStays(before: Store, after: Store, ids: seq<string>, excess: nat)
      requires AllIn(before, ids) && Distinct(ids) && excess <= |ids|
      requires after == before - Elements(ids[..excess])
      ensures Elements(ids) * after.Keys == Elements(ids[excess..])
      ensures Elements(ids) - after.Keys == Elements(ids[..excess])
    {
      HeadAndTail(ids, excess);
      assert Elements(ids) <= before.Keys;
    }

    lemma HeadAndTail(ids: seq<string>, excess: nat)
      requires Distinct(ids) && excess <= |ids|
      ensures Elements(ids) == Elements(ids[..excess]) + Elements(ids[excess..])
      ensures Elements(ids[..excess]) !! Elements(ids[excess..])
    {
      forall i | 0 <= i < |ids|
        ensures ids[i] in Elements(ids[..excess]) + Elements(ids[excess..])
      {
        if i < excess {
          assert ids[..excess][i] == ids[i];
        } else {
          assert ids[excess..][i - excess] == ids[i];
        }
      }
    }

    lemma OldBeforeNew(s: Store, ids: seq<string>, excess: nat, gone: string, kept: string)
      requires AllIn(s, ids) && Sorted(s, ids) && excess <= |ids|
      requires gone in Elements(ids[..excess]) && kept in Elements(ids[excess..])
      ensures gone in s && kept in s && s[gone].lastActivity <= s[kept].lastActivity
    {
      var i :| 0 <= i < excess && ids[..excess][i] == gone;
      var j :| 0 <= j < |ids| - excess && ids[excess..][j] == kept;
      assert ids[i] == gone && ids[excess + j] == kept;
    }

    /** The fingerprints `done` are trimmed, the others are as they were. */
    ghost predicate Progress(before: Store, now: Store, done: set<string>) {
      && Part(now, before) && OldestGone(before, now)
      && (forall f :: f in done ==> |Group(now, f)| == Least(|Group(before, f)|, maxPerFingerprint))
      && (forall id :: id in before && before[id].fingerprint !in done ==> id in now)
    }

    method LimitPerFingerprint()
      modifies this
      ensures maxPerFingerprint == 0 ==> store == old(store)
      ensures maxPerFingerprint > 0 ==> TrimmedByFingerprint(old(store), store, maxPerFingerprint)
    {
      hide Sessions.Progress, Trimmed, OldestGone, TrimmedByFingerprint, Part, Group, Fingerprints;
      if maxPerFingerprint == 0 {
        return;
      }
      ghost var before := store;
      var rest := Fingerprints(store);
      ghost var done: set<string> := {};
      NothingDone(before);
      while rest != {}
        invariant done + rest == Fingerprints(before) && done !! rest && Progress(before, store, done)
        decreases |rest|
      {
        var f :| f in rest;
        ghost var mid := store;
        GroupPresent(store, f);
        Trim(Group(store, f), maxPerFingerprint);
        OneMoreGroup(before, mid, store, f, done);
        rest, done := rest - {f}, done + {f};
      }
      AllDone(before, store, done);
    }

    lemma GroupPresent(s: Store, f: string)
      ensures Group(s, f) <= s.Keys
    {
    }

    lemma NothingDone(before: Store)
      ensures Progress(before, before, {})
    {
    }

    lemma AllDone(before: Store, now: Store, done: set<string>)
      requires Progress(before, now, done) && done == Fingerprints(before)
      ensures TrimmedByFingerprint(before, now, maxPerFingerprint)
    {
      hide OldestGone;
      forall f: string
        ensures |Group(now, f)| == Least(|Group(before, f)|, maxPerFingerprint)
      {
        if f !in done {
          assert Group(before, f) == {};
          assert Group(now, f) == {};
        }
      }
    }

    lemma OneMoreGroup(before: Store, mid: Store, after: Store, f: string, done: set<string>)
      requires Progress(before, mid, done) && f !in done
      requires Trimmed(mid, after, Group(mid, f), maxPerFingerprint)
      ensures Progress(before, after, done + {f})
    {
      assert Group(mid, f) == Group(before, f);
      OtherGroups(mid, after, f, maxPerFingerprint);
      forall gone, kept | SameOwner(before, gone, kept) && gone !in after && kept in after
        ensures before[gone].lastActivity <= before[kept].lastActivity
      {
        if before[gone].fingerprint == f {
          assert gone in Group(mid, f) && kept in Group(mid, f);
        } else {
          assert gone in Group(mid, before[gone].fingerprint) <==> gone in Group(after, before[gone].fingerprint);
        }
      }
    }

    lemma OtherGroups(before: Store, after: Store, f: string, max: nat)
      requires Trimmed(before, after, Group(before, f), max)
      ensures Group(after, f) == Group(before, f) * after.Keys
      ensures |Group(after, f)| == Least(|Group(before, f)|, max)
      ensures forall g :: g != f ==> Group(after, g) == Group(before, g)
    {
      assert Group(after, f) == Group(before, f) * after.Keys;
      forall g | g != f
        ensures Group(after, g) == Group(before, g)
      {
      }
    }

    method LimitTotal()
      modifies this
      ensures maxTotal == 0 ==> store == old(store)
      ensures maxTotal > 0 ==> Trimmed(old(store), store, old(store).Keys, maxTotal)
    {
      if maxTotal > 0 {
        Trim(store.Keys, maxTotal);
      }
    }

    /** No session has expired, and no limit is exceeded. */
    ghost predicate WithinLimits(s: Store, now: nat) {
      && (forall id :: id in s ==> !Expired(s[id], now))
      && (maxPerFingerprint > 0 ==> forall f: string :: |Group(s, f)| <= maxPerFingerprint)
      && (maxTotal > 0 ==> |s| <= maxTotal)
    }

    /**
     PruneSessionsLocked: first the expired sessions go, then exactly the excess of
     each fingerprint, then exactly the excess of what is left.
     */
    method PruneSessionsLocked(now: nat) returns (ghost limited: Store)
      modifies this
      ensures WithinLimits(store, now)
      ensures var live := Unexpired(old(store), now);
              && (if maxPerFingerprint == 0 then limited == live
                  else TrimmedByFingerprint(live, limited, maxPerFingerprint))
              && (if maxTotal == 0 then store == limited else Trimmed(limited, store, limited.Keys, maxTotal))
      ensures Part(store, Unexpired(old(store), now)) && OldestGone(Unexpired(old(store), now), store)
    {
      Expire(now);
      ghost var live := store;
      LimitPerFingerprint();
      limited := store;
      LimitTotal();
      assert limited.Keys * store.Keys == store.Keys;
      forall f: string
        ensures |Group(store, f)| <= |Group(limited, f)|
      {
        Smaller(Group(store, f), Group(limited, f));
      }
    }

    lemma Smaller(a: set<string>, b: set<string>)
      requires a <= b
      ensures |a| <= |b|
    {
      assert b == a + (b - a);
    }

    method AddSession(id: string, info: Session, now: nat) returns (ghost limited: Store)
      modifies this
      ensures WithinLimits(store, now)
      ensures var live := Unexpired(old(store)[id := info], now);
              && Part(store, live) && OldestGone(live, store)
              && (if maxPerFingerprint == 0 then limited == live
                  else TrimmedByFingerprint(live, limited, maxPerFingerprint))
              && (if maxTotal == 0 then store == limited else Trimmed(limited, store, limited.Keys, maxTotal))
    {
      store := store[id := info];
      limited := PruneSessionsLocked(now);
    }
  }
}
