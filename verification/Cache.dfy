// The response cache (src/cache.rs): keys, lifetimes, and the operations as
// they act on the map one call at a time. CacheInterleaving has them run
// side by side.
module Cache {
  import opened Wrappers
  import opened Text
  import opened CacheLifetimes

  datatype Entry = Entry(response: Response, storedAt: Time, ttl: Duration, etag: Option<string>)

  function Age(e: Entry, now: Time): Duration {
    if e.storedAt <= now then now - e.storedAt else 0
  }

  predicate IsExpired(e: Entry, now: Time) {
    Age(e, now) >= e.ttl
  }

  // ----- Keys -----

  function UpperChar(c: char): char {
    if 'a' <= c <= 'z' then (c as int - 32) as char else c
  }

  function Upper(s: string): (r: string)
    ensures |r| == |s| && forall i :: 0 <= i < |s| ==> r[i] == UpperChar(s[i])
  {
    seq(|s|, i requires 0 <= i < |s| => UpperChar(s[i]))
  }

  function CacheKey(verb: string, url: string): string {
    Upper(verb) + " " + url
  }

  predicate IsOfUrl(key: string, url: string) {
    EndsWith(key, " " + url)
  }

  lemma UpperKeepsSpaceFree(verb: string)
    requires ' ' !in verb
    ensures ' ' !in Upper(verb)
  {}

  lemma SameCharInEitherCase(c: char, d: char)
    ensures UpperChar(c) == UpperChar(d) <==> LowerChar(c) == LowerChar(d)
  {}

  lemma SameInEitherCase(s: string, t: string)
    ensures Upper(s) == Upper(t) <==> Lower(s) == Lower(t)
  {
    if |s| == |t| {
      forall i | 0 <= i < |s| ensures Upper(s)[i] == Upper(t)[i] <==> Lower(s)[i] == Lower(t)[i] {
        SameCharInEitherCase(s[i], t[i]);
      }
    }
  }

  lemma SplitAtFirstSpace(a: string, b: string, c: string, d: string)
    requires ' ' !in a && ' ' !in c && a + " " + b == c + " " + d
    ensures a == c && b == d
  {
    var s, t := a + " " + b, c + " " + d;
    assert s[|a|] == ' ' && t[|c|] == ' ';
    assert forall i :: 0 <= i < |a| ==> s[i] == a[i] && s[i] != ' ';
    assert forall i :: 0 <= i < |c| ==> t[i] == c[i] && t[i] != ' ';
    assert |a| == |c|;
    assert s[..|a|] == a && t[..|c|] == c && s[|a| + 1..] == b && t[|c| + 1..] == d;
  }

  // Two requests share a key exactly when their methods agree up to case and
  // their URLs are equal, given that a method holds no space.
  lemma KeysAreFaithful(v: string, url: string, v': string, url': string)
    requires ' ' !in v && ' ' !in v'
    ensures CacheKey(v, url) == CacheKey(v', url') <==> Lower(v) == Lower(v') && url == url'
  {
    UpperKeepsSpaceFree(v);
    UpperKeepsSpaceFree(v');
    SameInEitherCase(v, v');
    if CacheKey(v, url) == CacheKey(v', url') {
      SplitAtFirstSpace(Upper(v), url, Upper(v'), url');
    }
  }

  lemma SuffixPastSpace(a: string, b: string, url: string)
    requires ' ' !in a
    ensures EndsWith(a + " " + b, " " + url) <==> b == url || EndsWith(b, " " + url)
  {
    var s, t := a + " " + b, " " + url;
    if EndsWith(s, t) {
      var at := |s| - |t|;
      assert s[at..] == t && s[at] == ' ';
      assert forall i :: 0 <= i < |a| ==> s[i] == a[i] && s[i] != ' ';
      if at == |a| {
        assert s[at + 1..] == t[1..] == url;
      } else {
        assert s[at..] == b[at - |a| - 1..];
      }
    }
    if EndsWith(b, t) {
      var k := |b| - |t|;
      assert s[|a| + 1 + k..] == b[k..];
    }
    if b == url {
      assert s[|a|..] == t;
    }
  }

  // Dropping by suffix hits the entries of the URL, whatever their method, and
  // no others: URLs hold no spaces either.
  lemma SuffixFindsUrl(verb: string, stored: string, url: string)
    requires ' ' !in verb
    ensures IsOfUrl(CacheKey(verb, stored), url) <==> stored == url || EndsWith(stored, " " + url)
    ensures ' ' !in stored ==> (IsOfUrl(CacheKey(verb, stored), url) <==> stored == url)
  {
    UpperKeepsSpaceFree(verb);
    SuffixPastSpace(Upper(verb), stored, url);
    if EndsWith(stored, " " + url) {
      assert stored[|stored| - |url| - 1] == (" " + url)[0];
    }
  }

  // ----- The ideal map -----

  // What happened to the map. `Dropped` is a removal that only makes room or
  // clears out an entry seen to have expired, after so many actions; an ideal
  // map would not do it.
  datatype Action = Put(key: string, entry: Entry) | Invalidated(key: string) | Dropped(key: string, cause: Cause)

  datatype Cause = ForRoom | Stale(seen: nat)

  // What is in the map after these actions.
  ghost function Stored(history: seq<Action>, key: string): Option<Entry> {
    if history == [] then None
    else
      var last, init := history[|history| - 1], history[..|history| - 1];
      if last.key != key then Stored(init, key) else if last.Put? then Some(last.entry) else None
  }

  // What would be in a map without a size limit or clean-up.
  ghost function Ideal(history: seq<Action>, key: string): Option<Entry> {
    if history == [] then None
    else
      var last, init := history[|history| - 1], history[..|history| - 1];
      if last.key != key || last.Dropped? then Ideal(init, key) else if last.Put? then Some(last.entry) else None
  }

  ghost predicate LatestPut(history: seq<Action>, key: string, entry: Entry, i: nat) {
    && i < |history| && history[i] == Put(key, entry)
    && forall j :: i < j < |history| ==> history[j].key != key || history[j].Dropped?
  }

  // The ideal map holds the latest insert that has not been invalidated.
  lemma {:induction false} IdealIsLatestPut(history: seq<Action>, key: string, entry: Entry)
    ensures Ideal(history, key) == Some(entry) <==> exists i :: LatestPut(history, key, entry, i)
  {
    if history != [] {
      var n := |history| - 1;
      var init, last := history[..n], history[n];
      IdealIsLatestPut(init, key, entry);
      if i: nat :| LatestPut(history, key, entry, i) {
        if i < n { assert LatestPut(init, key, entry, i); }
      }
      if Ideal(history, key) == Some(entry) {
        if last.key != key || last.Dropped? {
          var i :| LatestPut(init, key, entry, i);
          assert LatestPut(history, key, entry, i);
        } else {
          assert LatestPut(history, key, entry, n);
        }
      }
    }
  }

  lemma {:induction false} StoredIsIdeal(history: seq<Action>, key: string)
    ensures Stored(history, key).Some? ==> Ideal(history, key) == Stored(history, key)
  {
    if history != [] {
      StoredIsIdeal(history[..|history| - 1], key);
    }
  }

  ghost predicate Holds(entries: map<string, Entry>, history: seq<Action>) {
    forall k :: EntryAt(entries, k) == Stored(history, k)
  }

  function EntryAt(entries: map<string, Entry>, key: string): Option<Entry> {
    if key in entries then Some(entries[key]) else None
  }

  lemma ActionHolds(entries: map<string, Entry>, history: seq<Action>, action: Action)
    requires Holds(entries, history)
    ensures Holds(Perform(entries, action), history + [action])
  {
    var longer := history + [action];
    assert longer[..|history|] == history;
    forall k ensures EntryAt(Perform(entries, action), k) == Stored(longer, k) {
      assert EntryAt(entries, k) == Stored(history, k);
    }
  }

  function Perform(entries: map<string, Entry>, action: Action): map<string, Entry> {
    match action
    case Put(key, entry) => entries[key := entry]
    case Invalidated(key) => entries - {key}
    case Dropped(key, _) => entries - {key}
  }

  // ----- The cache, one call at a time -----

  // An entry lives for its lifetime, counted from when it was stored.
  predicate IsLive(e: Entry, now: Time) {
    0 < e.ttl && now < e.storedAt + e.ttl
  }

  function Live(entry: Option<Entry>, now: Time): Option<Response> {
    if entry.Some? && IsLive(entry.value, now) then Some(entry.value.response) else None
  }

  ghost predicate AnyExpired(entries: map<string, Entry>, now: Time) {
    exists k :: k in entries && !IsLive(entries[k], now)
  }

  // One entry is evicted, if there is any: an expired one if there is one.
  ghost predicate Victim(entries: map<string, Entry>, now: Time, key: string) {
    key in entries && (IsLive(entries[key], now) ==> !AnyExpired(entries, now))
  }

  function SizeLimit(config: CacheConfig): nat {
    if config.maxSize == 0 then 1 else config.maxSize
  }

  class InMemoryCache {
    const config: CacheConfig
    var entries: map<string, Entry>
    ghost var history: seq<Action>

    ghost predicate Valid()
      reads this
    {
      Holds(entries, history) && |entries| <= SizeLimit(config)
    }

    constructor (config: CacheConfig)
      ensures Valid() && entries == map[] && history == [] && this.config == config
    {
      this.config := config;
      entries, history := map[], [];
    }

    // Keeps the ghost history in step with one change of the map.
    ghost method Note(action: Action, before: map<string, Entry>)
      requires Holds(before, history) && entries == Perform(before, action)
      modifies this`history
      ensures history == old(history) + [action] && Holds(entries, history)
    {
      ActionHolds(before, history, action);
      history := history + [action];
    }

    // A hit is what the ideal map holds, still within its lifetime.
    method Get(verb: string, url: string, now: Time) returns (r: Option<Response>)
      requires Valid()
      modifies this
      ensures Valid()
      ensures var key := CacheKey(verb, url);
              && r == Live(Stored(old(history), key), now)
              && (r.Some? ==> r == Live(Ideal(old(history), key), now))
              && history == (if key in old(entries) && r.None? then old(history) + [Dropped(key, Stale(|old(history)|))]
                             else old(history))
    {
      var key := CacheKey(verb, url);
      assert EntryAt(entries, key) == Stored(history, key);
      StoredIsIdeal(history, key);
      if key !in entries {
        return None;
      }
      if IsExpired(entries[key], now) {
        ghost var before := entries;
        SmallerWithout(entries, key);
        entries := entries - {key};
        Note(Dropped(key, Stale(|history|)), before);
        return None;
      }
      return Some(entries[key].response);
    }

    // The tag is handed out whether or not the entry has expired.
    method GetEtag(verb: string, url: string) returns (r: Option<string>)
      requires Valid()
      ensures var stored := Stored(history, CacheKey(verb, url));
              r == if config.useEtags && stored.Some? then stored.value.etag else None
    {
      var key := CacheKey(verb, url);
      assert EntryAt(entries, key) == Stored(history, key);
      if !config.useEtags || key !in entries {
        return None;
      }
      return entries[key].etag;
    }

    method EvictOne(now: Time)
      requires Valid()
      modifies this
      ensures Valid()
      ensures old(entries) == map[] ==> entries == map[] && history == old(history)
      ensures old(entries) != map[] ==> exists k ::
                && Victim(old(entries), now, k)
                && entries == old(entries) - {k} && history == old(history) + [Dropped(k, ForRoom)]
                && |entries| == |old(entries)| - 1
    {
      if exists k :: k in entries && IsExpired(entries[k], now) {
        var k :| k in entries && IsExpired(entries[k], now);
        Remove(k);
      } else if entries != map[] {
        var k :| k in entries;
        Remove(k);
      }
    }

    method Remove(key: string)
      requires Valid() && key in entries
      modifies this
      ensures Valid() && entries == old(entries) - {key} && history == old(history) + [Dropped(key, ForRoom)]
      ensures |entries| == |old(entries)| - 1
    {
      ghost var before := entries;
      SmallerWithout(entries, key);
      entries := entries - {key};
      Note(Dropped(key, ForRoom), before);
    }

    // An insert whose response asks for no lifetime changes nothing. Any other
    // makes room if the cache is full, and then the entry is there, with the
    // lifetime and the tag that its response asks for.
    method Insert(verb: string, response: Response, now: Time)
      requires Valid()
      modifies this
      ensures Valid()
      ensures exists ttl, etag | IsLifetime(config, response.headers, ttl) && IsTag(config, response.headers, etag) ::
              var put := Put(CacheKey(verb, response.url), Entry(response, now, ttl, etag));
              if ttl == 0 then entries == old(entries) && history == old(history)
              else if |old(entries)| < config.maxSize || old(entries) == map[] then
                entries == Perform(old(entries), put) && history == old(history) + [put]
              else exists k ::
                && Victim(old(entries), now, k)
                && entries == Perform(old(entries) - {k}, put)
                && history == old(history) + [Dropped(k, ForRoom), put]
    {
      var ttl := ResolveTtl(config, response);
      LifetimeIsRight(config, response);
      TagIsRight(config, response);
      if ttl == 0 {
        return;
      }
      var etag := EtagOf(config, response);
      ghost var start := history;
      if |entries| >= config.maxSize {
        EvictOne(now);
      }
      var key := CacheKey(verb, response.url);
      var entry := Entry(response, now, ttl, etag);
      ghost var before := entries;
      LargerWith(entries, key, entry);
      entries := entries[key := entry];
      Note(Put(key, entry), before);
    }

    method Invalidate(verb: string, url: string)
      requires Valid()
      modifies this
      ensures Valid()
      ensures entries == old(entries) - {CacheKey(verb, url)}
      ensures history == old(history) + [Invalidated(CacheKey(verb, url))]
    {
      var key := CacheKey(verb, url);
      ghost var before := entries;
      SmallerWithout(entries, key);
      entries := entries - {key};
      Note(Invalidated(key), before);
    }

    // Every entry of the URL goes, no other does.
    method InvalidateUrl(url: string)
      requires Valid()
      modifies this
      ensures Valid()
      ensures entries == map k | k in old(entries) && !IsOfUrl(k, url) :: old(entries)[k]
      ensures forall k :: IsOfUrl(k, url) ==> Stored(history, k).None?
      ensures forall k :: !IsOfUrl(k, url) ==> Stored(history, k) == Stored(old(history), k)
    {
      var keys := set k | k in entries && IsOfUrl(k, url);
      while keys != {}
        invariant Valid()
        invariant keys == set k | k in entries && IsOfUrl(k, url)
        invariant forall k :: k in entries ==> k in old(entries) && entries[k] == old(entries)[k]
        invariant forall k :: k in old(entries) && !IsOfUrl(k, url) ==> k in entries
        decreases |keys|
      {
        var key :| key in keys;
        ghost var before := entries;
        SmallerWithout(entries, key);
        entries := entries - {key};
        keys := keys - {key};
        Note(Invalidated(key), before);
      }
      forall k
        ensures if IsOfUrl(k, url) then Stored(history, k).None? else Stored(history, k) == Stored(old(history), k)
      {
        assert EntryAt(entries, k) == Stored(history, k);
        assert EntryAt(old(entries), k) == Stored(old(history), k);
        assert k in entries && IsOfUrl(k, url) ==> k in keys;
      }
    }

    method Clear()
      requires Valid()
      modifies this
      ensures Valid() && entries == map[] && forall k :: Stored(history, k).None?
    {
      while entries != map[]
        invariant Valid()
        decreases |entries|
      {
        var key :| key in entries;
        ghost var before := entries;
        SmallerWithout(entries, key);
        entries := entries - {key};
        Note(Invalidated(key), before);
      }
      forall k ensures Stored(history, k).None? {
        assert EntryAt(entries, k) == Stored(history, k);
      }
    }
  }

  lemma SmallerWithout(entries: map<string, Entry>, key: string)
    ensures |entries - {key}| == if key in entries then |entries| - 1 else |entries|
  {
    assert (entries - {key}).Keys == entries.Keys - {key};
    assert |entries.Keys| == |entries| && |(entries - {key}).Keys| == |entries - {key}|;
  }

  lemma LargerWith(entries: map<string, Entry>, key: string, entry: Entry)
    ensures |entries[key := entry]| == if key in entries then |entries| else |entries| + 1
  {
    assert entries[key := entry].Keys == entries.Keys + {key};
    assert |entries.Keys| == |entries| && |entries[key := entry].Keys| == |entries[key := entry]|;
  }
}
