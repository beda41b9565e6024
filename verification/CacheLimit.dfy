// The size limit when calls interleave. One insert at a time keeps it, whatever
// lookups and invalidations come in between; two inserts at a time do not, and
// no number of inserts in flight bounds the excess.
module CacheLimit {
  import opened Wrappers
  import opened CacheLifetimes
  import opened Cache
  import opened CacheInterleaving

  predicate IsInserting(phase: Phase) {
    phase.Sizing? || phase.Choosing? || phase.Evicting? || phase.Stamping? || phase.Storing?
  }

  // The verdicts of the size check and of the search for a victim are right.
  predicate IsAccurate(s: State, e: Event) {
    match e
    case CheckSize(_, full) => full <==> |s.entries| >= s.config.maxSize
    case FindNoVictim(_) => s.entries == map[]
    case _ => true
  }

  // No insert starts while another is under way.
  ghost predicate StartsAlone(s: State, e: Event) {
    e.BeginInsert? ==> forall t :: t in s.tasks ==> !IsInserting(s.tasks[t])
  }

  ghost predicate IsOrderly(s: State, events: seq<Event>)
    decreases |events|
  {
    events != [] && Enabled(s, events[0]) ==>
      IsAccurate(s, events[0]) && StartsAlone(s, events[0]) && IsOrderly(Apply(s, events[0]), events[1..])
  }

  // An insert past its size check has room, or is about to make some.
  predicate HasRoom(s: State, phase: Phase) {
    match phase
    case Evicting(victim, _) => victim in s.entries || |s.entries| < SizeLimit(s.config)
    case Stamping(_) => |s.entries| < SizeLimit(s.config)
    case Storing(_, _) => |s.entries| < SizeLimit(s.config)
    case _ => true
  }

  ghost predicate Limited(s: State) {
    && |s.entries| <= SizeLimit(s.config)
    && (forall t :: t in s.tasks ==> HasRoom(s, s.tasks[t]))
    && (forall t, u :: t in s.tasks && u in s.tasks && IsInserting(s.tasks[t]) && IsInserting(s.tasks[u]) ==> t == u)
  }

  lemma RemovalKeepsLimited(s: State, action: Action)
    requires Limited(s) && !action.Put?
    ensures Limited(Act(s, action))
    ensures action.key in s.entries ==> |Act(s, action).entries| < SizeLimit(s.config)
    ensures |Act(s, action).entries| <= |s.entries|
  {
    var s' := Act(s, action);
    SmallerWithout(s.entries, action.key);
    forall t | t in s'.tasks ensures HasRoom(s', s'.tasks[t]) {
      assert HasRoom(s, s.tasks[t]);
    }
  }

  // One task moves: to no insert at all, or on within its insert.
  lemma MoveKeepsLimited(s: State, t: TaskId, phase: Phase)
    requires Limited(s) && HasRoom(s, phase)
    requires IsInserting(phase) ==> forall u :: u in s.tasks && IsInserting(s.tasks[u]) ==> u == t
    ensures Limited(Goto(s, t, phase))
  {
    var s' := Goto(s, t, phase);
    forall u | u in s'.tasks ensures HasRoom(s', s'.tasks[u]) {
      assert u != t ==> HasRoom(s, s.tasks[u]);
    }
  }

  lemma EndKeepsLimited(s: State, t: TaskId)
    requires Limited(s)
    ensures Limited(Done(s, t))
  {
    var s' := Done(s, t);
    forall u | u in s'.tasks ensures HasRoom(s', s'.tasks[u]) {
      assert HasRoom(s, s.tasks[u]);
    }
  }

  // Storing needs the room: no other insert can have counted on it.
  lemma StoreKeepsLimited(s: State, t: TaskId)
    requires Limited(s) && Enabled(s, Store(t))
    ensures Limited(Apply(s, Store(t)))
  {
    var s' := Apply(s, Store(t));
    assert HasRoom(s, s.tasks[t]);
    LargerWith(s.entries, s.tasks[t].key, s.tasks[t].entry);
    forall u | u in s'.tasks ensures HasRoom(s', s'.tasks[u]) {
      assert u != t && !IsInserting(s.tasks[u]);
    }
  }

  lemma InsertStepKeepsLimited(s: State, e: Event)
    requires Limited(s) && Enabled(s, e) && IsAccurate(s, e)
    requires e.CheckSize? || e.PickVictim? || e.FindNoVictim? || e.Evict? || e.StampEntry?
    ensures Limited(Apply(s, e))
  {
    assert HasRoom(s, s.tasks[e.t]) && IsInserting(s.tasks[e.t]);
    match e
    case CheckSize(t, full) =>
      MoveKeepsLimited(s, t, if full then Choosing(s.tasks[t].pending) else Stamping(s.tasks[t].pending));
    case PickVictim(t, key) => MoveKeepsLimited(s, t, Evicting(key, s.tasks[t].pending));
    case FindNoVictim(t) => MoveKeepsLimited(s, t, Stamping(s.tasks[t].pending));
    case Evict(t) =>
      var action := Dropped(s.tasks[t].victim, ForRoom);
      RemovalKeepsLimited(s, action);
      MoveKeepsLimited(Act(s, action), t, Stamping(s.tasks[t].pending));
    case StampEntry(t) => MoveKeepsLimited(s, t, Storing(s.tasks[t].pending.key, Stamped(s.tasks[t].pending, s.now)));
  }

  lemma StartKeepsLimited(s: State, e: Event)
    requires Limited(s) && Enabled(s, e) && StartsAlone(s, e)
    requires e.BeginGet? || e.BeginInsert? || e.BeginInvalidateUrl? || e.BeginClear? || e.Collect?
    ensures Limited(Apply(s, e))
  {
    match e
    case BeginGet(t, verb, url) => MoveKeepsLimited(s, t, Looking(CacheKey(verb, url)));
    case BeginInsert(t, verb, response) => MoveKeepsLimited(s, t, Sizing(PendingOf(s.config, verb, response)));
    case BeginInvalidateUrl(t, url) => MoveKeepsLimited(s, t, Collecting(url, []));
    case BeginClear(t) => MoveKeepsLimited(s, t, Clearing);
    case Collect(t, key) => MoveKeepsLimited(s, t, Collecting(s.tasks[t].url, s.tasks[t].keys + [key]));
  }

  lemma ExpireKeepsLimited(s: State, t: TaskId)
    requires Limited(s) && Enabled(s, Expire(t))
    ensures Limited(Apply(s, Expire(t)))
  {
    var action := Dropped(s.tasks[t].key, Stale(s.tasks[t].seen));
    RemovalKeepsLimited(s, action);
    EndKeepsLimited(Act(s, action), t);
  }

  lemma EndCollectKeepsLimited(s: State, t: TaskId)
    requires Limited(s) && Enabled(s, EndCollect(t))
    ensures Limited(Apply(s, EndCollect(t)))
  {
    if s.tasks[t].keys == [] {
      EndKeepsLimited(s, t);
    } else {
      MoveKeepsLimited(s, t, Removing(s.tasks[t].keys));
    }
  }

  lemma OtherStepKeepsLimited(s: State, e: Event)
    requires Limited(s) && Enabled(s, e)
    requires e.Tick? || e.Look? || e.Expire? || e.Invalidate?
    ensures Limited(Apply(s, e))
  {
    match e
    case Tick(d) => TickKeepsLimited(s, d);
    case Look(t) => LookKeepsLimited(s, t, s.tasks[t].key);
    case Expire(t) => ExpireKeepsLimited(s, t);
    case Invalidate(key) => RemovalKeepsLimited(s, Invalidated(key));
  }

  lemma SweepKeepsLimited(s: State, e: Event)
    requires Limited(s) && Enabled(s, e)
    requires e.EndCollect? || e.RemoveNext? || e.ClearKey? || e.EndClear?
    ensures Limited(Apply(s, e))
  {
    match e
    case EndCollect(t) => EndCollectKeepsLimited(s, t);
    case RemoveNext(t) => RemoveNextKeepsLimited(s, t, s.tasks[t].keys);
    case ClearKey(t, key) => RemovalKeepsLimited(s, Invalidated(key));
    case EndClear(t) => EndKeepsLimited(s, t);
  }

  lemma TickKeepsLimited(s: State, d: Duration)
    requires Limited(s)
    ensures Limited(s.(now := s.now + d))
  {
    var s' := s.(now := s.now + d);
    forall u | u in s'.tasks ensures HasRoom(s', s'.tasks[u]) {
      assert HasRoom(s, s.tasks[u]);
    }
  }

  lemma LookKeepsLimited(s: State, t: TaskId, key: string)
    requires Limited(s)
    ensures Limited(ApplyLook(s, t, key))
  {
    EndKeepsLimited(s, t);
    if key in s.entries {
      if IsExpired(s.entries[key], s.now) {
        MoveKeepsLimited(s, t, Expiring(key, |s.history|));
      } else {
        HitsKeepLimited(Done(s, t), s.hits + [Hit(key, s.entries[key], s.now, |s.history|)]);
      }
    }
  }

  lemma HitsKeepLimited(s: State, hits: seq<Hit>)
    requires Limited(s)
    ensures Limited(s.(hits := hits))
  {
    var s' := s.(hits := hits);
    forall u | u in s'.tasks ensures HasRoom(s', s'.tasks[u]) {
      assert HasRoom(s, s.tasks[u]);
    }
  }

  lemma RemoveNextKeepsLimited(s: State, t: TaskId, keys: seq<string>)
    requires Limited(s) && keys != []
    ensures Limited(ApplyRemoveNext(s, t, keys))
  {
    var after := Act(s, Invalidated(keys[0]));
    RemovalKeepsLimited(s, Invalidated(keys[0]));
    if |keys| == 1 {
      EndKeepsLimited(after, t);
    } else {
      MoveKeepsLimited(after, t, Removing(keys[1..]));
    }
  }

  lemma StepKeepsLimited(s: State, e: Event)
    requires Limited(s) && Enabled(s, e) && IsAccurate(s, e) && StartsAlone(s, e)
    ensures Limited(Apply(s, e))
  {
    if e.Store? {
      StoreKeepsLimited(s, e.t);
    } else if e.CheckSize? || e.PickVictim? || e.FindNoVictim? || e.Evict? || e.StampEntry? {
      InsertStepKeepsLimited(s, e);
    } else if e.BeginGet? || e.BeginInsert? || e.BeginInvalidateUrl? || e.BeginClear? || e.Collect? {
      StartKeepsLimited(s, e);
    } else if e.EndCollect? || e.RemoveNext? || e.ClearKey? || e.EndClear? {
      SweepKeepsLimited(s, e);
    } else {
      OtherStepKeepsLimited(s, e);
    }
  }

  lemma {:induction false} RunKeepsLimited(s: State, events: seq<Event>)
    requires Limited(s) && IsOrderly(s, events) && Run(s, events).Some?
    ensures Limited(Run(s, events).value)
    decreases |events|
  {
    if events != [] {
      StepKeepsLimited(s, events[0]);
      RunKeepsLimited(Apply(s, events[0]), events[1..]);
    }
  }

  // With one insert at a time and right verdicts, the limit holds in every
  // state of every run, whatever lookups, invalidations and clearings are
  // interleaved with the inserts.
  lemma OneInsertAtATimeKeepsLimit(config: CacheConfig, events: seq<Event>)
    requires IsOrderly(New(config), events) && Run(New(config), events).Some?
    ensures |Run(New(config), events).value.entries| <= SizeLimit(config)
  {
    RunKeepsLimited(New(config), events);
    RunKeepsConfig(New(config), events);
  }

  // ----- Two inserts at a time -----

  // A run from one state to another, with right verdicts only.
  ghost predicate Leads(s: State, events: seq<Event>, end: State)
    decreases |events|
  {
    if events == [] then s == end
    else Enabled(s, events[0]) && IsAccurate(s, events[0]) && Leads(Apply(s, events[0]), events[1..], end)
  }

  lemma {:induction false} LeadsRuns(s: State, events: seq<Event>, end: State)
    requires Leads(s, events, end)
    ensures Run(s, events) == Some(end)
    decreases |events|
  {
    if events != [] {
      LeadsRuns(Apply(s, events[0]), events[1..], end);
    }
  }

  lemma LeadsCons(s: State, e: Event, next: State, events: seq<Event>, end: State)
    requires Enabled(s, e) && IsAccurate(s, e) && Apply(s, e) == next && Leads(next, events, end)
    ensures Leads(s, [e] + events, end)
  {
    assert ([e] + events)[1..] == events;
  }

  // The state with two inserts in these phases.
  function Both(s: State, x: Phase, y: Phase): State {
    s.(tasks := s.tasks[0 := x][1 := y])
  }

  lemma BothGoto(s: State, x: Phase, y: Phase, z: Phase)
    ensures Goto(Both(s, x, y), 0, z) == Both(s, z, y) && Goto(Both(s, x, y), 1, z) == Both(s, x, z)
  {
    assert s.tasks[0 := x][1 := y][0 := z] == s.tasks[0 := z][1 := y];
  }

  lemma BothBegin(s: State, verb: string, a: Response, b: Response, tail: seq<Event>, end: State)
    returns (events: seq<Event>)
    requires 0 !in s.tasks && 1 !in s.tasks && ResolveTtl(s.config, a) > 0 && ResolveTtl(s.config, b) > 0
    requires Leads(Both(s, Sizing(PendingOf(s.config, verb, a)), Sizing(PendingOf(s.config, verb, b))), tail, end)
    ensures Leads(s, events, end)
  {
    var x, y := Sizing(PendingOf(s.config, verb, a)), Sizing(PendingOf(s.config, verb, b));
    LeadsCons(Goto(s, 0, x), BeginInsert(1, verb, b), Both(s, x, y), tail, end);
    LeadsCons(s, BeginInsert(0, verb, a), Goto(s, 0, x), [BeginInsert(1, verb, b)] + tail, end);
    events := [BeginInsert(0, verb, a)] + ([BeginInsert(1, verb, b)] + tail);
  }

  lemma BothSize(s: State, p: Pending, r: Pending, tail: seq<Event>, end: State) returns (events: seq<Event>)
    requires |s.entries| >= s.config.maxSize && Leads(Both(s, Choosing(p), Choosing(r)), tail, end)
    ensures Leads(Both(s, Sizing(p), Sizing(r)), events, end)
  {
    BothGoto(s, Sizing(p), Sizing(r), Choosing(p));
    BothGoto(s, Choosing(p), Sizing(r), Choosing(r));
    LeadsCons(Both(s, Choosing(p), Sizing(r)), CheckSize(1, true), Both(s, Choosing(p), Choosing(r)), tail, end);
    LeadsCons(Both(s, Sizing(p), Sizing(r)), CheckSize(0, true), Both(s, Choosing(p), Sizing(r)),
              [CheckSize(1, true)] + tail, end);
    events := [CheckSize(0, true)] + ([CheckSize(1, true)] + tail);
  }

  lemma BothPick(s: State, p: Pending, r: Pending, v: string, tail: seq<Event>, end: State)
    returns (events: seq<Event>)
    requires v in s.entries && Leads(Both(s, Evicting(v, p), Evicting(v, r)), tail, end)
    ensures Leads(Both(s, Choosing(p), Choosing(r)), events, end)
  {
    var x, y := Evicting(v, p), Evicting(v, r);
    BothGoto(s, Choosing(p), Choosing(r), x);
    BothGoto(s, x, Choosing(r), y);
    LeadsCons(Both(s, x, Choosing(r)), PickVictim(1, v), Both(s, x, y), tail, end);
    LeadsCons(Both(s, Choosing(p), Choosing(r)), PickVictim(0, v), Both(s, x, Choosing(r)),
              [PickVictim(1, v)] + tail, end);
    events := [PickVictim(0, v)] + ([PickVictim(1, v)] + tail);
  }

  // Both evict the same entry, the second in vain.
  lemma BothEvict(s: State, p: Pending, r: Pending, v: string, tail: seq<Event>, end: State)
    returns (events: seq<Event>)
    requires var s2 := Act(Act(s, Dropped(v, ForRoom)), Dropped(v, ForRoom));
             Leads(Both(s2, Stamping(p), Stamping(r)), tail, end)
    ensures Leads(Both(s, Evicting(v, p), Evicting(v, r)), events, end)
  {
    var action := Dropped(v, ForRoom);
    var s1 := Act(s, action);
    BothGoto(s1, Evicting(v, p), Evicting(v, r), Stamping(p));
    BothGoto(Act(s1, action), Stamping(p), Evicting(v, r), Stamping(r));
    LeadsCons(Both(s1, Stamping(p), Evicting(v, r)), Evict(1), Both(Act(s1, action), Stamping(p), Stamping(r)),
              tail, end);
    LeadsCons(Both(s, Evicting(v, p), Evicting(v, r)), Evict(0), Both(s1, Stamping(p), Evicting(v, r)),
              [Evict(1)] + tail, end);
    events := [Evict(0)] + ([Evict(1)] + tail);
  }

  lemma BothStamp(s: State, p: Pending, r: Pending, tail: seq<Event>, end: State) returns (events: seq<Event>)
    requires Leads(Both(s, Storing(p.key, Stamped(p, s.now)), Storing(r.key, Stamped(r, s.now))), tail, end)
    ensures Leads(Both(s, Stamping(p), Stamping(r)), events, end)
  {
    var x, y := Storing(p.key, Stamped(p, s.now)), Storing(r.key, Stamped(r, s.now));
    BothGoto(s, Stamping(p), Stamping(r), x);
    BothGoto(s, x, Stamping(r), y);
    LeadsCons(Both(s, x, Stamping(r)), StampEntry(1), Both(s, x, y), tail, end);
    LeadsCons(Both(s, Stamping(p), Stamping(r)), StampEntry(0), Both(s, x, Stamping(r)), [StampEntry(1)] + tail, end);
    events := [StampEntry(0)] + ([StampEntry(1)] + tail);
  }

  lemma BothStore(s: State, k: string, e: Entry, l: string, f: Entry) returns (events: seq<Event>)
    requires 0 !in s.tasks && 1 !in s.tasks
    ensures Leads(Both(s, Storing(k, e), Storing(l, f)), events, Act(Act(s, Put(k, e)), Put(l, f)))
  {
    var one, end := Goto(Act(s, Put(k, e)), 1, Storing(l, f)), Act(Act(s, Put(k, e)), Put(l, f));
    events := LastStores(Act(s, Put(k, e)), l, f);
    assert Both(s, Storing(k, e), Storing(l, f)).tasks - {0} == one.tasks;
    LeadsCons(Both(s, Storing(k, e), Storing(l, f)), Store(0), one, events, end);
    events := [Store(0)] + events;
  }

  lemma LastStores(s: State, l: string, f: Entry) returns (events: seq<Event>)
    requires 1 !in s.tasks
    ensures Leads(Goto(s, 1, Storing(l, f)), events, Act(s, Put(l, f)))
  {
    var one := Goto(s, 1, Storing(l, f));
    assert one.tasks - {1} == s.tasks;
    LeadsCons(one, Store(1), Act(s, Put(l, f)), [], Act(s, Put(l, f)));
    events := [Store(1)] + [];
  }

  function AfterBoth(s: State, p: Pending, r: Pending, v: string): State {
    var s2 := Act(Act(s, Dropped(v, ForRoom)), Dropped(v, ForRoom));
    Act(Act(s2, Put(p.key, Stamped(p, s.now))), Put(r.key, Stamped(r, s.now)))
  }

  lemma AfterBothIsLarger(s: State, p: Pending, r: Pending, v: string)
    requires v in s.entries && p.key !in s.entries && r.key !in s.entries && p.key != r.key
    ensures |AfterBoth(s, p, r, v).entries| == |s.entries| + 1
  {
    var dropped := s.entries - {v};
    SmallerWithout(s.entries, v);
    assert dropped - {v} == dropped;
    LargerWith(dropped, p.key, Stamped(p, s.now));
    LargerWith(dropped[p.key := Stamped(p, s.now)], r.key, Stamped(r, s.now));
  }

  // Two inserts that pick the same victim leave a full cache one entry larger
  // and ready for two more, so nothing bounds its size.
  lemma SharedVictimGrowsMap(s: State, verb: string, a: Response, b: Response, victim: string)
    returns (events: seq<Event>, end: State)
    requires 0 !in s.tasks && 1 !in s.tasks
    requires ResolveTtl(s.config, a) > 0 && ResolveTtl(s.config, b) > 0
    requires |s.entries| >= s.config.maxSize && Victim(s.entries, s.now, victim)
    requires CacheKey(verb, a.url) !in s.entries && CacheKey(verb, b.url) !in s.entries
    requires CacheKey(verb, a.url) != CacheKey(verb, b.url)
    ensures Leads(s, events, end) && Run(s, events) == Some(end)
    ensures end.tasks == s.tasks && end.config == s.config && |end.entries| == |s.entries| + 1
  {
    var p, r := PendingOf(s.config, verb, a), PendingOf(s.config, verb, b);
    var s2 := Act(Act(s, Dropped(victim, ForRoom)), Dropped(victim, ForRoom));
    end := AfterBoth(s, p, r, victim);
    events := BothStore(s2, p.key, Stamped(p, s.now), r.key, Stamped(r, s.now));
    events := BothStamp(s2, p, r, events, end);
    events := BothEvict(s, p, r, victim, events, end);
    events := BothPick(s, p, r, victim, events, end);
    events := BothSize(s, p, r, events, end);
    events := BothBegin(s, verb, a, b, events, end);
    LeadsRuns(s, events, end);
    AfterBothIsLarger(s, p, r, victim);
  }
}
