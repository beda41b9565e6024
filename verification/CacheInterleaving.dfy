// The cache shared by several tasks. A call is several atomic steps on the
// concurrent map, and between any two of them other calls take theirs and time
// passes. In particular a lookup that finds an expired entry removes whatever
// is under the key later on, and an insert checks the size, picks a victim,
// removes it, stamps the entry and stores it in five separate steps.
module CacheInterleaving {
  import opened Wrappers
  import opened CacheLifetimes
  import opened Cache

  type TaskId = nat

  // An insert before its entry is stamped.
  datatype Pending = Pending(key: string, response: Response, ttl: Duration, etag: Option<string>)

  datatype Phase =
    | Looking(key: string)
    | Expiring(key: string, seen: nat)           // saw an expired entry after so many actions, about to remove the key
    | Sizing(pending: Pending)
    | Choosing(pending: Pending)                 // found the cache full
    | Evicting(victim: string, pending: Pending)
    | Stamping(pending: Pending)
    | Storing(key: string, entry: Entry)
    | Collecting(url: string, keys: seq<string>) // gathers the keys of a URL
    | Removing(keys: seq<string>)
    | Clearing

  // A lookup that returned an entry, after so many actions.
  datatype Hit = Hit(key: string, entry: Entry, at: Time, actions: nat)

  datatype State = State(
    config: CacheConfig, entries: map<string, Entry>, tasks: map<TaskId, Phase>, now: Time,
    history: seq<Action>, hits: seq<Hit>)

  datatype Event =
    | Tick(d: Duration)
    | BeginGet(t: TaskId, verb: string, url: string)
    | Look(t: TaskId)
    | Expire(t: TaskId)
    | BeginInsert(t: TaskId, verb: string, response: Response)
    | CheckSize(t: TaskId, full: bool)           // the count walks the shards, so any verdict may result
    | PickVictim(t: TaskId, key: string)
    | FindNoVictim(t: TaskId)
    | Evict(t: TaskId)
    | StampEntry(t: TaskId)
    | Store(t: TaskId)
    | Invalidate(key: string)
    | BeginInvalidateUrl(t: TaskId, url: string)
    | Collect(t: TaskId, key: string)
    | EndCollect(t: TaskId)
    | RemoveNext(t: TaskId)
    | BeginClear(t: TaskId)
    | ClearKey(t: TaskId, key: string)
    | EndClear(t: TaskId)

  predicate In(s: State, t: TaskId) {
    t in s.tasks
  }

  predicate Enabled(s: State, e: Event) {
    match e
    case Tick(_) => true
    case BeginGet(t, _, _) => !In(s, t)
    case Look(t) => In(s, t) && s.tasks[t].Looking?
    case Expire(t) => In(s, t) && s.tasks[t].Expiring?
    case BeginInsert(t, _, _) => !In(s, t)
    case CheckSize(t, _) => In(s, t) && s.tasks[t].Sizing?
    case PickVictim(t, key) => In(s, t) && s.tasks[t].Choosing? && key in s.entries
    case FindNoVictim(t) => In(s, t) && s.tasks[t].Choosing?
    case Evict(t) => In(s, t) && s.tasks[t].Evicting?
    case StampEntry(t) => In(s, t) && s.tasks[t].Stamping?
    case Store(t) => In(s, t) && s.tasks[t].Storing?
    case Invalidate(_) => true
    case BeginInvalidateUrl(t, _) => !In(s, t)
    case Collect(t, key) => In(s, t) && s.tasks[t].Collecting? && key in s.entries && IsOfUrl(key, s.tasks[t].url)
    case EndCollect(t) => In(s, t) && s.tasks[t].Collecting?
    case RemoveNext(t) => In(s, t) && s.tasks[t].Removing? && s.tasks[t].keys != []
    case BeginClear(t) => !In(s, t)
    case ClearKey(t, _) => In(s, t) && s.tasks[t].Clearing?
    case EndClear(t) => In(s, t) && s.tasks[t].Clearing?
  }

  function Act(s: State, action: Action): State {
    s.(entries := Perform(s.entries, action), history := s.history + [action])
  }

  function Goto(s: State, t: TaskId, phase: Phase): State {
    s.(tasks := s.tasks[t := phase])
  }

  function Done(s: State, t: TaskId): State {
    s.(tasks := s.tasks - {t})
  }

  function ApplyLook(s: State, t: TaskId, key: string): State {
    if key !in s.entries then Done(s, t)
    else if IsExpired(s.entries[key], s.now) then Goto(s, t, Expiring(key, |s.history|))
    else Done(s, t).(hits := s.hits + [Hit(key, s.entries[key], s.now, |s.history|)])
  }

  function ApplyBeginInsert(s: State, t: TaskId, verb: string, response: Response): State {
    var ttl := ResolveTtl(s.config, response);
    if ttl == 0 then s
    else Goto(s, t, Sizing(Pending(CacheKey(verb, response.url), response, ttl, EtagOf(s.config, response))))
  }

  function Stamped(p: Pending, now: Time): Entry {
    Entry(p.response, now, p.ttl, p.etag)
  }

  function ApplyRemoveNext(s: State, t: TaskId, keys: seq<string>): State
    requires keys != []
  {
    var after := Act(s, Invalidated(keys[0]));
    if |keys| == 1 then Done(after, t) else Goto(after, t, Removing(keys[1..]))
  }

  function Apply(s: State, e: Event): State
    requires Enabled(s, e)
  {
    match e
    case Tick(d) => s.(now := s.now + d)
    case BeginGet(t, verb, url) => Goto(s, t, Looking(CacheKey(verb, url)))
    case Look(t) => ApplyLook(s, t, s.tasks[t].key)
    case Expire(t) => Done(Act(s, Dropped(s.tasks[t].key, Stale(s.tasks[t].seen))), t)
    case BeginInsert(t, verb, response) => ApplyBeginInsert(s, t, verb, response)
    case CheckSize(t, full) =>
      Goto(s, t, if full then Choosing(s.tasks[t].pending) else Stamping(s.tasks[t].pending))
    case PickVictim(t, key) => Goto(s, t, Evicting(key, s.tasks[t].pending))
    case FindNoVictim(t) => Goto(s, t, Stamping(s.tasks[t].pending))
    case Evict(t) => Goto(Act(s, Dropped(s.tasks[t].victim, ForRoom)), t, Stamping(s.tasks[t].pending))
    case StampEntry(t) =>
      Goto(s, t, Storing(s.tasks[t].pending.key, Stamped(s.tasks[t].pending, s.now)))
    case Store(t) => Done(Act(s, Put(s.tasks[t].key, s.tasks[t].entry)), t)
    case Invalidate(key) => Act(s, Invalidated(key))
    case BeginInvalidateUrl(t, url) => Goto(s, t, Collecting(url, []))
    case Collect(t, key) => Goto(s, t, Collecting(s.tasks[t].url, s.tasks[t].keys + [key]))
    case EndCollect(t) =>
      if s.tasks[t].keys == [] then Done(s, t) else Goto(s, t, Removing(s.tasks[t].keys))
    case RemoveNext(t) => ApplyRemoveNext(s, t, s.tasks[t].keys)
    case BeginClear(t) => Goto(s, t, Clearing)
    case ClearKey(t, key) => Act(s, Invalidated(key))
    case EndClear(t) => Done(s, t)
  }

  function New(config: CacheConfig): State {
    State(config, map[], map[], 0, [], [])
  }

  function Run(s: State, events: seq<Event>): Option<State>
    decreases |events|
  {
    if events == [] then Some(s)
    else if Enabled(s, events[0]) then Run(Apply(s, events[0]), events[1..])
    else None
  }

  // ----- What every step keeps -----

  // An entry on its way into the map has a lifetime, and one of the tags and
  // lifetimes its response calls for.
  ghost predicate WellMade(config: CacheConfig, key: string, entry: Entry) {
    && IsLifetime(config, entry.response.headers, entry.ttl) && entry.ttl > 0
    && IsTag(config, entry.response.headers, entry.etag)
    && IsOfUrl(key, entry.response.url)
  }

  ghost predicate PendingWellMade(config: CacheConfig, p: Pending) {
    WellMade(config, p.key, Stamped(p, 0))
  }

  ghost predicate PhaseWellMade(config: CacheConfig, now: Time, phase: Phase) {
    match phase
    case Sizing(p) => PendingWellMade(config, p)
    case Choosing(p) => PendingWellMade(config, p)
    case Evicting(_, p) => PendingWellMade(config, p)
    case Stamping(p) => PendingWellMade(config, p)
    case Storing(key, entry) => WellMade(config, key, entry) && entry.storedAt <= now
    case _ => true
  }

  ghost predicate TasksWellMade(s: State) {
    forall t :: t in s.tasks ==> PhaseWellMade(s.config, s.now, s.tasks[t])
  }

  ghost predicate ActionWellMade(config: CacheConfig, now: Time, action: Action) {
    action.Put? ==> WellMade(config, action.key, action.entry) && action.entry.storedAt <= now
  }

  ghost predicate HistoryWellMade(s: State) {
    forall i :: 0 <= i < |s.history| ==> ActionWellMade(s.config, s.now, s.history[i])
  }

  // A hit returned what the ideal map held at that moment, within its lifetime.
  ghost predicate HitIsIdeal(s: State, hit: Hit) {
    && hit.actions <= |s.history|
    && Ideal(s.history[..hit.actions], hit.key) == Some(hit.entry)
    && hit.entry.storedAt <= hit.at && hit.at - hit.entry.storedAt < hit.entry.ttl
  }

  ghost predicate HitsAreIdeal(s: State) {
    forall i :: 0 <= i < |s.hits| ==> HitIsIdeal(s, s.hits[i])
  }

  ghost predicate Inv(s: State) {
    Holds(s.entries, s.history) && TasksWellMade(s) && HistoryWellMade(s) && HitsAreIdeal(s)
  }

  lemma ActKeepsInv(s: State, action: Action)
    requires Inv(s) && ActionWellMade(s.config, s.now, action)
    ensures Inv(Act(s, action))
  {
    var s' := Act(s, action);
    ActionHolds(s.entries, s.history, action);
    forall i | 0 <= i < |s'.hits| ensures HitIsIdeal(s', s'.hits[i]) {
      var hit := s.hits[i];
      assert HitIsIdeal(s, hit);
      assert s'.history[..hit.actions] == s.history[..hit.actions];
    }
    forall i | 0 <= i < |s'.history| ensures ActionWellMade(s'.config, s'.now, s'.history[i]) {
      if i < |s.history| { assert ActionWellMade(s.config, s.now, s.history[i]); }
    }
  }

  lemma TasksKeepInv(s: State, tasks: map<TaskId, Phase>)
    requires Inv(s)
    requires forall t :: t in tasks ==>
               (t in s.tasks && s.tasks[t] == tasks[t]) || PhaseWellMade(s.config, s.now, tasks[t])
    ensures Inv(s.(tasks := tasks))
  {
    var s' := s.(tasks := tasks);
    forall i | 0 <= i < |s'.hits| ensures HitIsIdeal(s', s'.hits[i]) {
      assert HitIsIdeal(s, s.hits[i]);
    }
  }

  lemma GotoKeepsInv(s: State, t: TaskId, phase: Phase)
    requires Inv(s) && PhaseWellMade(s.config, s.now, phase)
    ensures Inv(Goto(s, t, phase))
  {
    TasksKeepInv(s, s.tasks[t := phase]);
  }

  lemma DoneKeepsInv(s: State, t: TaskId)
    requires Inv(s)
    ensures Inv(Done(s, t))
  {
    TasksKeepInv(s, s.tasks - {t});
  }

  lemma EntryIsWellMade(s: State, key: string)
    requires Inv(s) && key in s.entries
    ensures WellMade(s.config, key, s.entries[key]) && s.entries[key].storedAt <= s.now
    ensures exists i :: LatestPut(s.history, key, s.entries[key], i)
  {
    assert EntryAt(s.entries, key) == Stored(s.history, key);
    StoredIsIdeal(s.history, key);
    IdealIsLatestPut(s.history, key, s.entries[key]);
    var i: nat :| LatestPut(s.history, key, s.entries[key], i);
    assert ActionWellMade(s.config, s.now, s.history[i]);
  }

  lemma LookKeepsInv(s: State, t: TaskId, key: string)
    requires Inv(s)
    ensures Inv(ApplyLook(s, t, key))
  {
    var s', done := ApplyLook(s, t, key), Done(s, t);
    DoneKeepsInv(s, t);
    if key in s.entries {
      if IsExpired(s.entries[key], s.now) {
        GotoKeepsInv(s, t, Expiring(key, |s.history|));
      } else {
        var hit := Hit(key, s.entries[key], s.now, |s.history|);
        assert EntryAt(s.entries, key) == Stored(s.history, key);
        StoredIsIdeal(s.history, key);
        EntryIsWellMade(s, key);
        assert s.history[..|s.history|] == s.history;
        assert HitIsIdeal(s', hit);
        forall i | 0 <= i < |s'.hits| ensures HitIsIdeal(s', s'.hits[i]) {
          if i < |s.hits| { assert HitIsIdeal(done, done.hits[i]); }
        }
      }
    }
  }

  lemma KeyIsOfUrl(verb: string, url: string)
    ensures IsOfUrl(CacheKey(verb, url), url)
  {
    assert CacheKey(verb, url)[|verb|..] == " " + url;
  }

  lemma BeginInsertKeepsInv(s: State, t: TaskId, verb: string, response: Response)
    requires Inv(s)
    ensures Inv(ApplyBeginInsert(s, t, verb, response))
  {
    var ttl := ResolveTtl(s.config, response);
    KeyIsOfUrl(verb, response.url);
    LifetimeIsRight(s.config, response);
    TagIsRight(s.config, response);
    if ttl > 0 {
      GotoKeepsInv(s, t, Sizing(Pending(CacheKey(verb, response.url), response, ttl, EtagOf(s.config, response))));
    }
  }

  lemma InsertStepKeepsInv(s: State, e: Event)
    requires Inv(s) && Enabled(s, e)
    requires e.CheckSize? || e.PickVictim? || e.FindNoVictim? || e.Evict? || e.StampEntry? || e.Store?
    ensures Inv(Apply(s, e))
  {
    assert PhaseWellMade(s.config, s.now, s.tasks[e.t]);
    match e
    case CheckSize(t, full) =>
      GotoKeepsInv(s, t, if full then Choosing(s.tasks[t].pending) else Stamping(s.tasks[t].pending));
    case PickVictim(t, key) => GotoKeepsInv(s, t, Evicting(key, s.tasks[t].pending));
    case FindNoVictim(t) => GotoKeepsInv(s, t, Stamping(s.tasks[t].pending));
    case Evict(t) =>
      var action := Dropped(s.tasks[t].victim, ForRoom);
      ActKeepsInv(s, action);
      GotoKeepsInv(Act(s, action), t, Stamping(s.tasks[t].pending));
    case StampEntry(t) => GotoKeepsInv(s, t, Storing(s.tasks[t].pending.key, Stamped(s.tasks[t].pending, s.now)));
    case Store(t) =>
      var action := Put(s.tasks[t].key, s.tasks[t].entry);
      ActKeepsInv(s, action);
      DoneKeepsInv(Act(s, action), t);
  }

  lemma RemovalStepKeepsInv(s: State, e: Event)
    requires Inv(s) && Enabled(s, e)
    requires e.Expire? || e.Invalidate? || e.BeginInvalidateUrl? || e.Collect? || e.EndCollect? || e.RemoveNext?
    ensures Inv(Apply(s, e))
  {
    match e
    case Expire(t) =>
      var action := Dropped(s.tasks[t].key, Stale(s.tasks[t].seen));
      ActKeepsInv(s, action);
      DoneKeepsInv(Act(s, action), t);
    case Invalidate(key) => ActKeepsInv(s, Invalidated(key));
    case BeginInvalidateUrl(t, url) => GotoKeepsInv(s, t, Collecting(url, []));
    case Collect(t, key) => GotoKeepsInv(s, t, Collecting(s.tasks[t].url, s.tasks[t].keys + [key]));
    case EndCollect(t) =>
      DoneKeepsInv(s, t);
      GotoKeepsInv(s, t, Removing(s.tasks[t].keys));
    case RemoveNext(t) =>
      var keys := s.tasks[t].keys;
      var after := Act(s, Invalidated(keys[0]));
      ActKeepsInv(s, Invalidated(keys[0]));
      DoneKeepsInv(after, t);
      GotoKeepsInv(after, t, Removing(keys[1..]));
  }

  lemma TickKeepsInv(s: State, d: Duration)
    requires Inv(s)
    ensures Inv(s.(now := s.now + d))
  {
    var s' := s.(now := s.now + d);
    forall i | 0 <= i < |s'.hits| ensures HitIsIdeal(s', s'.hits[i]) {
      assert HitIsIdeal(s, s.hits[i]);
    }
    forall i | 0 <= i < |s'.history| ensures ActionWellMade(s'.config, s'.now, s'.history[i]) {
      assert ActionWellMade(s.config, s.now, s.history[i]);
    }
    forall t | t in s'.tasks ensures PhaseWellMade(s'.config, s'.now, s'.tasks[t]) {
      assert PhaseWellMade(s.config, s.now, s.tasks[t]);
    }
  }

  lemma StepKeepsInv(s: State, e: Event)
    requires Inv(s) && Enabled(s, e)
    ensures Inv(Apply(s, e))
  {
    match e
    case Tick(d) => TickKeepsInv(s, d);
    case BeginGet(t, verb, url) => GotoKeepsInv(s, t, Looking(CacheKey(verb, url)));
    case Look(t) => LookKeepsInv(s, t, s.tasks[t].key);
    case BeginInsert(t, verb, response) => BeginInsertKeepsInv(s, t, verb, response);
    case BeginClear(t) => GotoKeepsInv(s, t, Clearing);
    case ClearKey(t, key) => ActKeepsInv(s, Invalidated(key));
    case EndClear(t) => DoneKeepsInv(s, t);
    case CheckSize(_, _) => InsertStepKeepsInv(s, e);
    case PickVictim(_, _) => InsertStepKeepsInv(s, e);
    case FindNoVictim(_) => InsertStepKeepsInv(s, e);
    case Evict(_) => InsertStepKeepsInv(s, e);
    case StampEntry(_) => InsertStepKeepsInv(s, e);
    case Store(_) => InsertStepKeepsInv(s, e);
    case _ => RemovalStepKeepsInv(s, e);
  }

  lemma {:induction false} RunKeepsInv(s: State, events: seq<Event>)
    requires Inv(s) && Run(s, events).Some?
    ensures Inv(Run(s, events).value)
    decreases |events|
  {
    if events != [] {
      StepKeepsInv(s, events[0]);
      RunKeepsInv(Apply(s, events[0]), events[1..]);
    }
  }

  ghost predicate Reachable(config: CacheConfig, s: State) {
    exists events :: Run(New(config), events) == Some(s)
  }

  lemma ReachableInv(config: CacheConfig, s: State)
    requires Reachable(config, s)
    ensures Inv(s) && s.config == config
  {
    var events :| Run(New(config), events) == Some(s);
    RunKeepsInv(New(config), events);
    RunKeepsConfig(New(config), events);
  }

  lemma {:induction false} RunKeepsConfig(s: State, events: seq<Event>)
    requires Run(s, events).Some?
    ensures Run(s, events).value.config == s.config
    decreases |events|
  {
    if events != [] {
      RunKeepsConfig(Apply(s, events[0]), events[1..]);
    }
  }

  // ----- The results -----

  // However the steps interleave, what is stored under a key is the latest
  // insert for it that has not been invalidated, and that insert had a
  // lifetime and belongs to the URL of its response.
  lemma EntriesAreLatestInserts(config: CacheConfig, s: State, key: string)
    requires Reachable(config, s) && key in s.entries
    ensures Ideal(s.history, key) == Some(s.entries[key])
    ensures exists i :: LatestPut(s.history, key, s.entries[key], i)
    ensures WellMade(config, key, s.entries[key])
  {
    ReachableInv(config, s);
    assert EntryAt(s.entries, key) == Stored(s.history, key);
    StoredIsIdeal(s.history, key);
    EntryIsWellMade(s, key);
  }

  // Every response a lookup has ever returned was then the latest insert for
  // its key, not invalidated, and younger than its lifetime.
  lemma HitsAreFreshInserts(config: CacheConfig, s: State, i: nat)
    requires Reachable(config, s) && i < |s.hits|
    ensures var hit := s.hits[i];
            && hit.actions <= |s.history|
            && (exists k :: LatestPut(s.history[..hit.actions], hit.key, hit.entry, k))
            && hit.entry.storedAt <= hit.at && hit.at - hit.entry.storedAt < hit.entry.ttl
            && IsLifetime(config, hit.entry.response.headers, hit.entry.ttl)
  {
    ReachableInv(config, s);
    var hit := s.hits[i];
    assert HitIsIdeal(s, hit);
    IdealIsLatestPut(s.history[..hit.actions], hit.key, hit.entry);
    var k: nat :| LatestPut(s.history[..hit.actions], hit.key, hit.entry, k);
    assert ActionWellMade(s.config, s.now, s.history[k]);
  }

  // ----- Calls that nothing disturbs -----

  lemma {:induction false} RunAppend(s: State, a: seq<Event>, b: seq<Event>)
    requires Run(s, a).Some?
    ensures Run(s, a + b) == Run(Run(s, a).value, b)
    decreases |a|
  {
    if a == [] {
      assert a + b == b;
    } else {
      assert (a + b)[0] == a[0] && (a + b)[1..] == a[1..] + b;
      RunAppend(Apply(s, a[0]), a[1..], b);
    }
  }

  lemma RunCons(s: State, e: Event, events: seq<Event>)
    requires Enabled(s, e)
    ensures Run(s, [e] + events) == Run(Apply(s, e), events)
  {
    assert ([e] + events)[1..] == events;
  }

  // The steps of one call taken together are the call as the cache class has
  // it: the same response, the same actions.
  lemma UndisturbedGet(s: State, t: TaskId, verb: string, url: string) returns (events: seq<Event>)
    requires t !in s.tasks
    ensures var key := CacheKey(verb, url);
            var live := key in s.entries && IsLive(s.entries[key], s.now);
            var stale := key in s.entries && !live;
            Run(s, events) == Some(
              (if stale then Act(s, Dropped(key, Stale(|s.history|))) else s).(
                hits := if live then s.hits + [Hit(key, s.entries[key], s.now, |s.history|)] else s.hits))
  {
    var key := CacheKey(verb, url);
    var looking := Goto(s, t, Looking(key));
    var looked := ApplyLook(looking, t, key);
    assert s.tasks[t := Looking(key)] - {t} == s.tasks;
    if key in s.entries && IsExpired(s.entries[key], s.now) {
      assert looking.tasks[t := Expiring(key, |s.history|)] - {t} == s.tasks;
      events := [BeginGet(t, verb, url)] + ([Look(t)] + ([Expire(t)] + []));
      RunCons(looked, Expire(t), []);
      RunCons(looking, Look(t), [Expire(t)] + []);
      RunCons(s, BeginGet(t, verb, url), [Look(t)] + ([Expire(t)] + []));
    } else {
      events := [BeginGet(t, verb, url)] + ([Look(t)] + []);
      RunCons(looking, Look(t), []);
      RunCons(s, BeginGet(t, verb, url), [Look(t)] + []);
    }
  }

  lemma InsertWithRoom(s: State, t: TaskId, verb: string, response: Response) returns (events: seq<Event>)
    requires t !in s.tasks && ResolveTtl(s.config, response) > 0 && |s.entries| < s.config.maxSize
    ensures Run(s, events) == Some(Act(s, PutOf(s, verb, response)))
  {
    var p := PendingOf(s.config, verb, response);
    var sizing, stamping := Goto(s, t, Sizing(p)), Goto(s, t, Stamping(p));
    assert Goto(sizing, t, Stamping(p)) == stamping;
    var tail := StampAndStore(s, t, p);
    events := [BeginInsert(t, verb, response)] + ([CheckSize(t, false)] + tail);
    RunCons(sizing, CheckSize(t, false), tail);
    RunCons(s, BeginInsert(t, verb, response), [CheckSize(t, false)] + tail);
  }

  // An insert that finds the map full and picks a victim as the class does.
  lemma InsertWhenFull(s: State, t: TaskId, verb: string, response: Response, victim: string)
    returns (events: seq<Event>)
    requires t !in s.tasks && ResolveTtl(s.config, response) > 0
    requires |s.entries| >= s.config.maxSize && Victim(s.entries, s.now, victim)
    ensures Run(s, events) == Some(Act(Act(s, Dropped(victim, ForRoom)), PutOf(s, verb, response)))
  {
    var p := PendingOf(s.config, verb, response);
    var sizing, choosing, evicting := Goto(s, t, Sizing(p)), Goto(s, t, Choosing(p)), Goto(s, t, Evicting(victim, p));
    assert Goto(sizing, t, Choosing(p)) == choosing && Goto(choosing, t, Evicting(victim, p)) == evicting;
    var dropped := Act(s, Dropped(victim, ForRoom));
    var stamping := Goto(dropped, t, Stamping(p));
    assert Apply(evicting, Evict(t)) == stamping;
    var tail := StampAndStore(dropped, t, p);
    var evict := [PickVictim(t, victim)] + ([Evict(t)] + tail);
    events := [BeginInsert(t, verb, response)] + ([CheckSize(t, true)] + evict);
    RunCons(evicting, Evict(t), tail);
    RunCons(choosing, PickVictim(t, victim), [Evict(t)] + tail);
    RunCons(sizing, CheckSize(t, true), evict);
    RunCons(s, BeginInsert(t, verb, response), [CheckSize(t, true)] + evict);
  }

  // An insert with a limit of zero, into an empty map.
  lemma InsertWhenEmpty(s: State, t: TaskId, verb: string, response: Response) returns (events: seq<Event>)
    requires t !in s.tasks && ResolveTtl(s.config, response) > 0 && s.config.maxSize == 0 && s.entries == map[]
    ensures Run(s, events) == Some(Act(s, PutOf(s, verb, response)))
  {
    var p := PendingOf(s.config, verb, response);
    var sizing, choosing, stamping := Goto(s, t, Sizing(p)), Goto(s, t, Choosing(p)), Goto(s, t, Stamping(p));
    assert Goto(sizing, t, Choosing(p)) == choosing && Goto(choosing, t, Stamping(p)) == stamping;
    var tail := StampAndStore(s, t, p);
    var find := [CheckSize(t, true)] + ([FindNoVictim(t)] + tail);
    RunCons(choosing, FindNoVictim(t), tail);
    RunCons(sizing, CheckSize(t, true), [FindNoVictim(t)] + tail);
    RunCons(s, BeginInsert(t, verb, response), find);
    events := [BeginInsert(t, verb, response)] + find;
  }

  // The end of an insert.
  lemma StampAndStore(s: State, t: TaskId, p: Pending) returns (events: seq<Event>)
    requires t !in s.tasks
    ensures Run(Goto(s, t, Stamping(p)), events) == Some(Act(s, Put(p.key, Stamped(p, s.now))))
  {
    var entry := Stamped(p, s.now);
    var stamping, storing := Goto(s, t, Stamping(p)), Goto(s, t, Storing(p.key, entry));
    assert Goto(stamping, t, Storing(p.key, entry)) == storing;
    assert storing.tasks - {t} == s.tasks;
    events := [StampEntry(t)] + ([Store(t)] + []);
    RunCons(storing, Store(t), []);
    RunCons(stamping, StampEntry(t), [Store(t)] + []);
  }

  function PendingOf(config: CacheConfig, verb: string, response: Response): Pending {
    Pending(CacheKey(verb, response.url), response, ResolveTtl(config, response), EtagOf(config, response))
  }

  function PutOf(s: State, verb: string, response: Response): Action {
    Put(CacheKey(verb, response.url), Stamped(PendingOf(s.config, verb, response), s.now))
  }

  // The keys of a URL, one after the other.
  lemma CollectAll(s: State, t: TaskId, url: string, found: seq<string>, left: set<string>)
    returns (events: seq<Event>, keys: seq<string>)
    requires t in s.tasks && s.tasks[t] == Collecting(url, found)
    requires forall k :: k in left ==> k in s.entries && IsOfUrl(k, url)
    ensures Run(s, events) == Some(Goto(s, t, Collecting(url, keys)))
    ensures forall k :: k in keys <==> k in found || k in left
    decreases |left|
  {
    if left == {} {
      assert s.tasks[t := Collecting(url, found)] == s.tasks;
      events, keys := [], found;
    } else {
      var key :| key in left;
      var next := Goto(s, t, Collecting(url, found + [key]));
      var rest;
      rest, keys := CollectAll(next, t, url, found + [key], left - {key});
      events := [Collect(t, key)] + rest;
      assert next.tasks[t := Collecting(url, keys)] == s.tasks[t := Collecting(url, keys)];
      RunCons(s, Collect(t, key), rest);
    }
  }

  ghost predicate Without(entries: map<string, Entry>, keys: seq<string>, left: map<string, Entry>) {
    forall k :: EntryAt(left, k) == if k in keys then None else EntryAt(entries, k)
  }

  lemma {:induction false} RemoveAll(s: State, t: TaskId, keys: seq<string>) returns (events: seq<Event>, end: State)
    requires t in s.tasks && s.tasks[t] == Removing(keys) && keys != []
    ensures Run(s, events) == Some(end) && end.tasks == s.tasks - {t} && Without(s.entries, keys, end.entries)
    decreases |keys|
  {
    var next := ApplyRemoveNext(s, t, keys);
    assert keys == [keys[0]] + keys[1..];
    if |keys| == 1 {
      events, end := [RemoveNext(t)] + [], next;
      RunCons(s, RemoveNext(t), []);
    } else {
      var rest;
      rest, end := RemoveAll(next, t, keys[1..]);
      assert next.tasks - {t} == s.tasks - {t};
      events := [RemoveNext(t)] + rest;
      RunCons(s, RemoveNext(t), rest);
    }
  }

  // Dropping a URL's entries undisturbed removes exactly those.
  lemma UndisturbedInvalidateUrl(s: State, t: TaskId, url: string) returns (events: seq<Event>, end: State)
    requires t !in s.tasks
    ensures Run(s, events) == Some(end) && end.tasks == s.tasks
    ensures forall k :: EntryAt(end.entries, k) == if IsOfUrl(k, url) then None else EntryAt(s.entries, k)
  {
    var begun := Goto(s, t, Collecting(url, []));
    var gather, keys := CollectAll(begun, t, url, [], set k | k in s.entries && IsOfUrl(k, url));
    var gathered := Goto(begun, t, Collecting(url, keys));
    assert gathered.tasks[t] == Collecting(url, keys);
    var last;
    if keys == [] {
      end, last := Done(gathered, t), [];
    } else {
      last, end := RemoveAll(Goto(gathered, t, Removing(keys)), t, keys);
    }
    assert end.tasks == s.tasks;
    assert Without(s.entries, keys, end.entries);
    WithoutUrl(s.entries, url, keys, end.entries);
    RunCons(gathered, EndCollect(t), last);
    RunAppend(begun, gather, [EndCollect(t)] + last);
    RunCons(s, BeginInvalidateUrl(t, url), gather + ([EndCollect(t)] + last));
    events := [BeginInvalidateUrl(t, url)] + (gather + ([EndCollect(t)] + last));
  }

  lemma WithoutUrl(entries: map<string, Entry>, url: string, keys: seq<string>, left: map<string, Entry>)
    requires Without(entries, keys, left) && forall k :: k in keys <==> k in entries && IsOfUrl(k, url)
    ensures forall k :: EntryAt(left, k) == if IsOfUrl(k, url) then None else EntryAt(entries, k)
  {
    forall k ensures EntryAt(left, k) == if IsOfUrl(k, url) then None else EntryAt(entries, k) {
      assert EntryAt(left, k) == if k in keys then None else EntryAt(entries, k);
    }
  }

  // The history of a run only grows.
  lemma StepKeepsHistory(s: State, e: Event)
    requires Enabled(s, e)
    ensures s.history <= Apply(s, e).history
  {}

  lemma {:induction false} RunKeepsHistory(s: State, events: seq<Event>)
    requires Run(s, events).Some?
    ensures s.history <= Run(s, events).value.history
    decreases |events|
  {
    if events != [] {
      StepKeepsHistory(s, events[0]);
      RunKeepsHistory(Apply(s, events[0]), events[1..]);
    }
  }

  // The step removes the entry for good: by a call for this key, by one for
  // its URL, or by one for all entries.
  ghost predicate Invalidates(s: State, e: Event, key: string)
    requires Enabled(s, e)
  {
    || e == Invalidate(key)
    || (e.RemoveNext? && s.tasks[e.t].keys[0] == key)
    || (e.ClearKey? && e.key == key)
  }

  // Right after such a step the key is gone, and whatever is under it later on
  // was put there later, however the steps interleave.
  lemma InvalidationHolds(config: CacheConfig, s: State, e: Event, key: string, events: seq<Event>)
    requires Reachable(config, s) && Enabled(s, e) && Invalidates(s, e, key)
    requires Run(Apply(s, e), events).Some?
    ensures key !in Apply(s, e).entries
    ensures var end := Run(Apply(s, e), events).value;
            key in end.entries ==> exists i :: |s.history| < i && LatestPut(end.history, key, end.entries[key], i)
  {
    var next, end := Apply(s, e), Run(Apply(s, e), events).value;
    assert next.history[|s.history|] == Invalidated(key);
    RunKeepsHistory(next, events);
    if key in end.entries {
      ReachedLater(config, s, e, events);
      EntriesAreLatestInserts(config, end, key);
      var i: nat :| LatestPut(end.history, key, end.entries[key], i);
      assert end.history[|s.history|] == Invalidated(key);
    }
  }

  lemma ReachedLater(config: CacheConfig, s: State, e: Event, events: seq<Event>)
    requires Reachable(config, s) && Enabled(s, e) && Run(Apply(s, e), events).Some?
    ensures Reachable(config, Run(Apply(s, e), events).value)
  {
    var before :| Run(New(config), before) == Some(s);
    RunCons(s, e, events);
    RunAppend(New(config), before, [e] + events);
  }

  // ----- What interleaving costs -----

  // A lookup that found an expired entry removes it only after an insert has
  // replaced it.
  lemma ExpiryAcrossInsert(s: State, verb: string, response: Response) returns (events: seq<Event>)
    requires s.tasks == map[] && ResolveTtl(s.config, response) > 0 && |s.entries| < s.config.maxSize
    requires var key := CacheKey(verb, response.url); key in s.entries && !IsLive(s.entries[key], s.now)
    ensures var late := Dropped(CacheKey(verb, response.url), Stale(|s.history|));
            Run(s, events) == Some(Act(Act(s, PutOf(s, verb, response)), late))
  {
    var key := CacheKey(verb, response.url);
    var looking, expiring := Goto(s, 1, Looking(key)), Goto(s, 1, Expiring(key, |s.history|));
    assert Goto(looking, 1, Expiring(key, |s.history|)) == expiring;
    var inserted := Act(expiring, PutOf(s, verb, response));
    assert inserted.tasks - {1} == s.tasks;
    var insert := InsertWithRoom(expiring, 0, verb, response);
    RunCons(inserted, Expire(1), []);
    var tail := insert + ([Expire(1)] + []);
    RunAppend(expiring, insert, [Expire(1)] + []);
    RunCons(looking, Look(1), tail);
    RunCons(s, BeginGet(1, verb, response.url), [Look(1)] + tail);
    events := [BeginGet(1, verb, response.url)] + ([Look(1)] + tail);
  }

  // So the cache may hold less than the ideal map even when nothing was
  // evicted. Started from an empty cache with room for both inserts, this
  // leaves the later one, still live, out of the map.
  lemma LateExpiryDropsFreshEntry(config: CacheConfig, verb: string, response: Response) returns (s: State)
    requires ResolveTtl(config, response) > 0 && config.maxSize > 1
    ensures Reachable(config, s)
    ensures var key := CacheKey(verb, response.url);
            && key !in s.entries
            && Ideal(s.history, key).Some? && IsLive(Ideal(s.history, key).value, s.now)
  {
    var key, ttl := CacheKey(verb, response.url), ResolveTtl(config, response);
    var first := Act(New(config), PutOf(New(config), verb, response));
    LargerWith(map[], key, PutOf(New(config), verb, response).entry);
    var aged := first.(now := ttl);
    var begin := InsertWithRoom(New(config), 0, verb, response);
    var end := ExpiryAcrossInsert(aged, verb, response);
    RunCons(first, Tick(ttl), end);
    RunAppend(New(config), begin, [Tick(ttl)] + end);
    var put := Act(aged, PutOf(aged, verb, response));
    s := Act(put, Dropped(key, Stale(1)));
    assert s.history[..|s.history| - 1] == put.history;
    assert put.history[..|put.history| - 1] == aged.history;
  }

  // Two inserts that both find room.
  lemma InsertAcrossInsert(s: State, verb: string, a: Response, b: Response) returns (events: seq<Event>)
    requires s.tasks == map[] && |s.entries| < s.config.maxSize
    requires ResolveTtl(s.config, a) > 0 && ResolveTtl(s.config, b) > 0
    ensures Run(s, events) == Some(Act(Act(s, PutOf(s, verb, b)), PutOf(s, verb, a)))
  {
    var p := PendingOf(s.config, verb, a);
    var sizing, stamping := Goto(s, 0, Sizing(p)), Goto(s, 0, Stamping(p));
    assert Goto(sizing, 0, Stamping(p)) == stamping;
    var inserted := Act(s, PutOf(s, verb, b));
    assert Act(stamping, PutOf(s, verb, b)) == Goto(inserted, 0, Stamping(p));
    var insert := InsertWithRoom(stamping, 1, verb, b);
    var last := StampAndStore(inserted, 0, p);
    RunAppend(stamping, insert, last);
    RunCons(sizing, CheckSize(0, false), insert + last);
    RunCons(s, BeginInsert(0, verb, a), [CheckSize(0, false)] + (insert + last));
    events := [BeginInsert(0, verb, a)] + ([CheckSize(0, false)] + (insert + last));
  }

  // So the size limit holds for calls made one after the other, not side by
  // side: two inserts that both find the cache empty exceed a limit of one.
  lemma ConcurrentInsertsExceedLimit(config: CacheConfig, verb: string, a: Response, b: Response) returns (s: State)
    requires config.maxSize == 1 && ResolveTtl(config, a) > 0 && ResolveTtl(config, b) > 0
    requires CacheKey(verb, a.url) != CacheKey(verb, b.url)
    ensures Reachable(config, s) && |s.entries| == 2
  {
    var s0 := New(config);
    var putA, putB := PutOf(s0, verb, a), PutOf(s0, verb, b);
    var events := InsertAcrossInsert(s0, verb, a, b);
    s := Act(Act(s0, putB), putA);
    LargerWith(map[], putB.key, putB.entry);
    LargerWith(map[putB.key := putB.entry], putA.key, putA.entry);
  }
}
