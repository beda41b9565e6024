// When a live entry can be missing from the cache although nobody invalidated
// it: only after an eviction, or after a lookup that had seen an older entry
// expire.
module CacheLosses {
  import opened Wrappers
  import opened CacheLifetimes
  import opened Cache
  import opened CacheInterleaving

  // After `seen` actions, the entry under the key had expired.
  ghost predicate SawStale(history: seq<Action>, now: Time, key: string, seen: nat) {
    && seen <= |history|
    && Stored(history[..seen], key).Some? && !IsLive(Stored(history[..seen], key).value, now)
  }

  ghost predicate DropFits(history: seq<Action>, now: Time, j: nat)
    requires j < |history|
  {
    history[j].Dropped? && history[j].cause.Stale? ==>
      history[j].cause.seen <= j && SawStale(history, now, history[j].key, history[j].cause.seen)
  }

  ghost predicate DropsFit(s: State) {
    forall j :: 0 <= j < |s.history| ==> DropFits(s.history, s.now, j)
  }

  ghost predicate PhaseFits(s: State, phase: Phase) {
    phase.Expiring? ==> SawStale(s.history, s.now, phase.key, phase.seen)
  }

  ghost predicate Justified(s: State) {
    DropsFit(s) && forall t :: t in s.tasks ==> PhaseFits(s, s.tasks[t])
  }

  lemma SawStaleStays(history: seq<Action>, more: seq<Action>, now: Time, later: Time, key: string, seen: nat)
    requires SawStale(history, now, key, seen) && now <= later
    ensures SawStale(history + more, later, key, seen)
  {
    assert (history + more)[..seen] == history[..seen];
  }

  lemma ActKeepsJustified(s: State, action: Action)
    requires Justified(s)
    requires action.Dropped? && action.cause.Stale? ==> SawStale(s.history, s.now, action.key, action.cause.seen)
    ensures Justified(Act(s, action))
  {
    var s' := Act(s, action);
    forall j | 0 <= j < |s'.history| ensures DropFits(s'.history, s'.now, j) {
      if j < |s.history| {
        assert DropFits(s.history, s.now, j);
      }
      var a := s'.history[j];
      if a.Dropped? && a.cause.Stale? {
        SawStaleStays(s.history, [action], s.now, s.now, a.key, a.cause.seen);
      }
    }
    forall t | t in s'.tasks ensures PhaseFits(s', s'.tasks[t]) {
      var phase := s.tasks[t];
      assert PhaseFits(s, phase);
      if phase.Expiring? {
        SawStaleStays(s.history, [action], s.now, s.now, phase.key, phase.seen);
      }
    }
  }

  lemma TickKeepsJustified(s: State, d: Duration)
    requires Justified(s)
    ensures Justified(s.(now := s.now + d))
  {
    var s' := s.(now := s.now + d);
    assert s.history + [] == s.history;
    forall j | 0 <= j < |s'.history| ensures DropFits(s'.history, s'.now, j) {
      assert DropFits(s.history, s.now, j);
      var a := s.history[j];
      if a.Dropped? && a.cause.Stale? {
        SawStaleStays(s.history, [], s.now, s'.now, a.key, a.cause.seen);
      }
    }
    forall t | t in s'.tasks ensures PhaseFits(s', s'.tasks[t]) {
      var phase := s.tasks[t];
      assert PhaseFits(s, phase);
      if phase.Expiring? {
        SawStaleStays(s.history, [], s.now, s'.now, phase.key, phase.seen);
      }
    }
  }

  // Another phase for one task, or none.
  lemma MoveKeepsJustified(s: State, s': State)
    requires Justified(s) && s'.history == s.history && s'.now == s.now
    requires forall t :: t in s'.tasks ==> (t in s.tasks && s'.tasks[t] == s.tasks[t]) || PhaseFits(s, s'.tasks[t])
    ensures Justified(s')
  {
    forall j | 0 <= j < |s'.history| ensures DropFits(s'.history, s'.now, j) {
      assert DropFits(s.history, s.now, j);
    }
    forall t | t in s'.tasks ensures PhaseFits(s', s'.tasks[t]) {
      assert PhaseFits(s, s'.tasks[t]);
    }
  }

  lemma LookKeepsJustified(s: State, t: TaskId, key: string)
    requires Holds(s.entries, s.history) && Justified(s)
    ensures Justified(ApplyLook(s, t, key))
  {
    assert EntryAt(s.entries, key) == Stored(s.history, key);
    assert s.history[..|s.history|] == s.history;
    MoveKeepsJustified(s, ApplyLook(s, t, key));
  }

  lemma RemoveNextKeepsJustified(s: State, t: TaskId, keys: seq<string>)
    requires Justified(s) && keys != []
    ensures Justified(ApplyRemoveNext(s, t, keys))
  {
    var after := Act(s, Invalidated(keys[0]));
    ActKeepsJustified(s, Invalidated(keys[0]));
    MoveKeepsJustified(after, ApplyRemoveNext(s, t, keys));
  }

  // The action a step performs on the map, if it performs one.
  function ActionOf(s: State, e: Event): Option<Action>
    requires Enabled(s, e)
  {
    match e
    case Expire(t) => Some(Dropped(s.tasks[t].key, Stale(s.tasks[t].seen)))
    case Evict(t) => Some(Dropped(s.tasks[t].victim, ForRoom))
    case Store(t) => Some(Put(s.tasks[t].key, s.tasks[t].entry))
    case Invalidate(key) => Some(Invalidated(key))
    case ClearKey(_, key) => Some(Invalidated(key))
    case _ => None
  }

  lemma ActingStepKeepsJustified(s: State, e: Event)
    requires Justified(s) && Enabled(s, e) && ActionOf(s, e).Some?
    ensures Justified(Apply(s, e))
  {
    var action := ActionOf(s, e).value;
    if e.Expire? { assert PhaseFits(s, s.tasks[e.t]); }
    ActKeepsJustified(s, action);
    MoveKeepsJustified(Act(s, action), Apply(s, e));
  }

  lemma StepKeepsJustified(s: State, e: Event)
    requires Holds(s.entries, s.history) && Justified(s) && Enabled(s, e)
    ensures Justified(Apply(s, e))
  {
    if ActionOf(s, e).Some? {
      ActingStepKeepsJustified(s, e);
    } else if e.Tick? {
      TickKeepsJustified(s, e.d);
    } else if e.Look? {
      LookKeepsJustified(s, e.t, s.tasks[e.t].key);
    } else if e.RemoveNext? {
      RemoveNextKeepsJustified(s, e.t, s.tasks[e.t].keys);
    } else {
      MoveKeepsJustified(s, Apply(s, e));
    }
  }

  lemma {:induction false} RunKeepsJustified(s: State, events: seq<Event>)
    requires Inv(s) && Justified(s) && Run(s, events).Some?
    ensures Justified(Run(s, events).value)
    decreases |events|
  {
    if events != [] {
      StepKeepsInv(s, events[0]);
      StepKeepsJustified(s, events[0]);
      RunKeepsJustified(Apply(s, events[0]), events[1..]);
    }
  }

  // ----- The first removal after an insert -----

  ghost predicate IsDrop(history: seq<Action>, key: string, j: nat) {
    j < |history| && history[j].Dropped? && history[j].key == key
  }

  lemma {:induction false} StoredIsUndropped(history: seq<Action>, key: string, entry: Entry, i: nat)
    requires LatestPut(history, key, entry, i) && Stored(history, key).Some?
    ensures forall j :: i < j ==> !IsDrop(history, key, j)
  {
    var n := |history| - 1;
    if i < n {
      var init := history[..n];
      StoredIsUndropped(init, key, entry, i);
      forall j: nat | i < j ensures !IsDrop(history, key, j) {
        assert !IsDrop(init, key, j);
      }
    }
  }

  lemma {:induction false} FirstDrop(history: seq<Action>, key: string, entry: Entry, i: nat) returns (j: nat)
    requires LatestPut(history, key, entry, i) && Stored(history, key).None?
    ensures i < j && IsDrop(history, key, j)
    ensures forall k :: i < k < j ==> !IsDrop(history, key, k)
  {
    var n := |history| - 1;
    var init := history[..n];
    assert i < n && LatestPut(init, key, entry, i);
    if Stored(init, key).None? {
      j := FirstDrop(init, key, entry, i);
      forall k: nat | i < k < j ensures !IsDrop(history, key, k) {
        assert !IsDrop(init, key, k);
      }
    } else {
      j := n;
      StoredIsUndropped(init, key, entry, i);
      forall k: nat | i < k < j ensures !IsDrop(history, key, k) {
        assert !IsDrop(init, key, k);
      }
    }
  }

  // A live entry was not the one a lookup saw expired.
  lemma StaleDropWasEarlier(history: seq<Action>, now: Time, key: string, entry: Entry, i: nat, j: nat)
    requires LatestPut(history, key, entry, i) && IsLive(entry, now)
    requires i < j && IsDrop(history, key, j) && history[j].cause.Stale? && DropFits(history, now, j)
    ensures history[j].cause.seen <= i
  {
    var seen := history[j].cause.seen;
    if i < seen {
      var earlier := history[..seen];
      assert LatestPut(earlier, key, entry, i);
      IdealIsLatestPut(earlier, key, entry);
      StoredIsIdeal(earlier, key);
      assert false;
    }
  }

  // What became of a live entry that is not there.
  ghost predicate Lost(history: seq<Action>, key: string, entry: Entry, i: nat, j: nat) {
    && LatestPut(history, key, entry, i) && i < j && IsDrop(history, key, j)
    && (forall k :: i < k < j ==> !IsDrop(history, key, k))
    && (history[j].cause.Stale? ==> history[j].cause.seen <= i)
  }

  lemma LostIsMissing(s: State, key: string, entry: Entry, i: nat, j: nat)
    requires Holds(s.entries, s.history) && Lost(s.history, key, entry, i, j)
    ensures key !in s.entries
  {
    assert EntryAt(s.entries, key) == Stored(s.history, key);
    if Stored(s.history, key).Some? {
      StoredIsUndropped(s.history, key, entry, i);
    }
  }

  // In every reachable state, an entry that the ideal map holds live is missing
  // from the cache if and only if it was first removed, after its insert,
  // either by an eviction or on account of a lookup that had taken place before
  // the insert. So without either, the cache has what the ideal map has.
  lemma MissingEntryWasDropped(config: CacheConfig, s: State, key: string, entry: Entry)
    requires Reachable(config, s)
    requires Ideal(s.history, key) == Some(entry) && IsLive(entry, s.now)
    ensures key !in s.entries <==> exists i, j :: Lost(s.history, key, entry, i, j)
  {
    ReachableInv(config, s);
    if key !in s.entries {
      MissingIsLost(config, s, key, entry);
    }
    if i: nat, j: nat :| Lost(s.history, key, entry, i, j) {
      LostIsMissing(s, key, entry, i, j);
    }
  }

  lemma MissingIsLost(config: CacheConfig, s: State, key: string, entry: Entry)
    requires Reachable(config, s)
    requires Ideal(s.history, key) == Some(entry) && IsLive(entry, s.now) && key !in s.entries
    ensures exists i, j :: Lost(s.history, key, entry, i, j)
  {
    var events :| Run(New(config), events) == Some(s);
    RunKeepsJustified(New(config), events);
    ReachableInv(config, s);
    assert EntryAt(s.entries, key) == Stored(s.history, key);
    IdealIsLatestPut(s.history, key, entry);
    var i: nat :| LatestPut(s.history, key, entry, i);
    var j := FirstDrop(s.history, key, entry, i);
    assert DropFits(s.history, s.now, j);
    if s.history[j].cause.Stale? {
      StaleDropWasEarlier(s.history, s.now, key, entry, i, j);
    }
    assert Lost(s.history, key, entry, i, j);
  }
}
