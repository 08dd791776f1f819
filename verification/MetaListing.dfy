/**
 Directory listings that stop and resume, answered from the directory cache or
 by the backend.
 */
module MetaListing {
  import opened BlockDevice
  import opened Callback
  import opened MetaDir
  import opened MetaCache

  /** How a call of a listing ends: at the end of the directory, because the
      callback refused an entry, or because the backend failed. */
  datatype End = Finished | Stopped | Failed

  predicate Tagged(cookie: nat) {
    cookie >= COOKIE_TAG
  }

  /** The number of entries past that a cookie stands for. */
  function PlaceOf(backend: Backend, key: Key, cookie: nat): nat {
    if Tagged(cookie) then cookie - COOKIE_TAG else backend.position(key, cookie)
  }

  /** A cookie that a listing may be resumed with after j entries. */
  ghost predicate Issued(backend: Backend, key: Key, cookie: nat, j: nat) {
    j == PlaceOf(backend, key, cookie) <= |backend.list(key)|
  }

  /** The entries that a call can get past: all of a directory that the cache
      answers for, or those that the backend gets past in this very request. */
  ghost function Reach(cache: Cache, backend: Backend, key: Key, cookie: nat): nat
    reads cache`dirs, cache`oversize, backend`asked
  {
    if (cookie != 0 && !Tagged(cookie)) || !cache.Cacheable(key) then backend.reply(backend.asked).reach
    else if cache.Serves(backend, key) then |backend.list(key)|
    else backend.reply(backend.asked + cache.Tries(key)).reach
  }

  /** One call of a listing that starts j entries into a directory and ends k
      entries into it. */
  ghost predicate Listed(backend: Backend, listener: Listener<Node>, key: Key, before: seq<Node>, cookie: nat, cookie': nat,
                         j: nat, k: nat, err: Error, end: End, reach: nat)
    reads listener
  {
    var nodes := backend.list(key);
    && j <= k <= |nodes| && listener.got == before + nodes[j..k]
    && (cookie > 0 ==> (Tagged(cookie) <==> Tagged(cookie')))
    && (forall n :: |before| <= n < |listener.got| - (if end.Stopped? then 1 else 0) ==> listener.answers(n) == Ok)
    && match end
       case Finished => err == Ok && k == |nodes| <= reach && Issued(backend, key, cookie', k) && (nodes != [] ==> cookie' != 0)
       case Stopped => err != Ok && j < k <= reach && err == listener.answers(|listener.got| - 1)
                       && Issued(backend, key, cookie', k) && cookie' != 0
       case Failed => err != Ok && reach < |nodes| && k == (if reach < j then j else reach)
                      && cookie' == if Tagged(cookie) then COOKIE_TAG + reach else cookie
  }

  /** Entries j to k were told, and all of them accepted. */
  ghost predicate Telling(nodes: seq<Node>, answers: nat -> Error, before: seq<Node>, got: seq<Node>, j: nat, k: nat) {
    && j <= k <= |nodes| && got == before + nodes[j..k]
    && forall n :: |before| <= n < |got| ==> answers(n) == Ok
  }

  lemma {:induction false} StartTelling(nodes: seq<Node>, answers: nat -> Error, before: seq<Node>, j: nat)
    requires j <= |nodes|
    ensures Telling(nodes, answers, before, before, j, j)
  {
    assert nodes[j..j] == [];
  }

  lemma {:induction false} TellOne(backend: Backend, listener: Listener<Node>, key: Key, before: seq<Node>, got: seq<Node>, j: nat, k: nat)
    requires k < |backend.list(key)| && Telling(backend.list(key), listener.answers, before, got, j, k)
    requires listener.got == got + [backend.list(key)[k]]
    ensures listener.answers(|got|) == Ok ==> Telling(backend.list(key), listener.answers, before, listener.got, j, k + 1)
  {
    var nodes := backend.list(key);
    assert nodes[j..k + 1] == nodes[j..k] + [nodes[k]];
  }

  lemma {:induction false} StopTelling(backend: Backend, listener: Listener<Node>, key: Key, before: seq<Node>, got: seq<Node>,
                                       cookie: nat, cookie': nat, j: nat, k: nat, reach: nat)
    requires 0 < k <= |backend.list(key)| && k <= reach && Telling(backend.list(key), listener.answers, before, got, j, k - 1)
    requires listener.got == got + [backend.list(key)[k - 1]] && listener.answers(|got|) != Ok
    requires (cookie > 0 ==> (Tagged(cookie) <==> Tagged(cookie'))) && cookie' != 0 && Issued(backend, key, cookie', k)
    ensures Listed(backend, listener, key, before, cookie, cookie', j, k, listener.answers(|got|), Stopped, reach)
  {
    var nodes := backend.list(key);
    assert nodes[j..k] == nodes[j..k - 1] + [nodes[k - 1]];
  }

  lemma {:induction false} EndTelling(backend: Backend, listener: Listener<Node>, key: Key, before: seq<Node>, cookie: nat, cookie': nat,
                                      j: nat, k: nat, reach: nat, err: Error)
    requires Telling(backend.list(key), listener.answers, before, listener.got, j, k)
    requires cookie > 0 ==> (Tagged(cookie) <==> Tagged(cookie'))
    ensures err == Ok && k == |backend.list(key)| <= reach && Issued(backend, key, cookie', k) && (k > 0 ==> cookie' != 0) ==>
              Listed(backend, listener, key, before, cookie, cookie', j, k, err, Finished, reach)
    ensures err != Ok && reach < |backend.list(key)| && k == (if reach < j then j else reach)
            && cookie' == (if Tagged(cookie) then COOKIE_TAG + reach else cookie) ==>
              Listed(backend, listener, key, before, cookie, cookie', j, k, err, Failed, reach)
  {
  }

  /** Replay a cached directory from a cookie on. */
  method Replay(d: Dir, backend: Backend, listener: Listener<Node>, ghost key: Key, cookie: nat, ghost j: nat)
    returns (err: Error, cookie': nat, ghost k: nat, ghost end: End)
    requires backend.Valid() && d.Sound() && d.nodes == backend.list(key)
    requires Issued(backend, key, cookie, j) && (cookie == 0 || Tagged(cookie))
    modifies listener
    ensures Listed(backend, listener, key, old(listener.got), cookie, cookie', j, k, err, end, |backend.list(key)|) && !end.Failed?
  {
    hide Telling, Listed;
    var i := 0;
    if cookie != 0 {
      i := cookie - COOKIE_TAG;
    }
    err, k, end := Ok, j, Finished;
    ghost var before := listener.got;
    StartTelling(d.nodes, listener.answers, before, j);
    while i < |d.entries|
      invariant j <= i <= |d.entries| && k == i && end == Finished
      invariant Telling(d.nodes, listener.answers, before, listener.got, j, i)
    {
      assert Holds(d.entries[i], d.pool, d.nodes[i]);
      var node := EntryToNode(d.entries[i], d.pool, d.nodes[i]);
      ghost var got := listener.got;
      err := listener.Accept(node);
      TellOne(backend, listener, key, before, got, j, i);
      k := i + 1;
      if err != Ok {
        cookie', end := COOKIE_TAG + (i + 1), Stopped;
        StopTelling(backend, listener, key, before, got, cookie, cookie', j, k, |d.nodes|);
        return;
      }
      i := i + 1;
    }
    err, cookie' := Ok, COOKIE_TAG + |d.entries|;
    EndTelling(backend, listener, key, before, cookie, cookie', j, k, |d.nodes|, err);
  }

  /** Enumerate through the backend and skip the entries delivered before: what
      a tagged cookie means when its directory can no longer be cached. */
  method Reenumerate(backend: Backend, listener: Listener<Node>, key: Key, cookie: nat, ghost j: nat)
    returns (err: Error, cookie': nat, ghost k: nat, ghost end: End)
    requires backend.Valid() && Issued(backend, key, cookie, j) && Tagged(cookie)
    requires forall n :: listener.answers(n) != Unsupported
    modifies backend, listener
    ensures err != Unsupported
    ensures Listed(backend, listener, key, old(listener.got), cookie, cookie', j, k, err, end, backend.reply(old(backend.asked)).reach)
  {
    hide Telling, Listed;
    var skip, index := cookie - COOKIE_TAG, 0;
    ghost var reach := backend.reply(backend.asked).reach;
    var n, error, _ := backend.Enumerate(key);
    ghost var before, nodes := listener.got, backend.list(key);
    k := j;
    StartTelling(nodes, listener.answers, before, j);
    while index < n
      invariant index <= n && k == (if index < j then j else index)
      invariant Telling(nodes, listener.answers, before, listener.got, j, k)
    {
      index := index + 1;
      if index - 1 >= skip {
        ghost var got := listener.got;
        err := listener.Accept(backend.list(key)[index - 1]);
        TellOne(backend, listener, key, before, got, j, index - 1);
        k := index;
        if err != Ok {
          cookie', end := COOKIE_TAG + index, Stopped;
          StopTelling(backend, listener, key, before, got, cookie, cookie', j, k, reach);
          return;
        }
      }
    }
    err, cookie' := error, COOKIE_TAG + index;
    end := if error == Ok then Finished else Failed;
    EndTelling(backend, listener, key, before, cookie, cookie', j, k, reach, err);
  }

  /** The backend's own listing, with its own cookies. */
  method BackendReadDir(backend: Backend, listener: Listener<Node>, key: Key, cookie: nat, ghost j: nat)
    returns (err: Error, cookie': nat, ghost k: nat, ghost end: End)
    requires backend.Valid() && Issued(backend, key, cookie, j) && !Tagged(cookie)
    modifies backend, listener
    ensures Listed(backend, listener, key, old(listener.got), cookie, cookie', j, k, err, end, backend.reply(old(backend.asked)).reach)
  {
    hide Telling, Listed;
    var start, index := PlaceOf(backend, key, cookie), 0;
    ghost var reach := backend.reply(backend.asked).reach;
    var n, error, _ := backend.Enumerate(key);
    ghost var before, nodes := listener.got, backend.list(key);
    cookie', k := cookie, j;
    StartTelling(nodes, listener.answers, before, j);
    while index < n
      invariant index <= n && k == (if index < j then j else index)
      invariant Telling(nodes, listener.answers, before, listener.got, j, k)
      invariant cookie' == cookie
    {
      index := index + 1;
      if index > start {
        ghost var got := listener.got;
        err := listener.Accept(backend.list(key)[index - 1]);
        TellOne(backend, listener, key, before, got, j, index - 1);
        k := index;
        if err != Ok {
          cookie', end := backend.stopCookie(key, index), Stopped;
          StopTelling(backend, listener, key, before, got, cookie, cookie', j, k, reach);
          return;
        }
      }
    }
    err, end := error, if error == Ok then Finished else Failed;
    if error == Ok {
      cookie' := backend.endCookie(key);
    }
    EndTelling(backend, listener, key, before, cookie, cookie', j, k, reach, err);
  }

  /** Answer from the cache; Unsupported leaves the listing to the backend. */
  method CachedReadDir(cache: Cache, backend: Backend, listener: Listener<Node>, key: Key, cookie: nat, ghost j: nat)
    returns (err: Error, cookie': nat, ghost k: nat, ghost end: End)
    requires cache.Valid(backend.list) && backend.Valid() && Issued(backend, key, cookie, j)
    requires forall n :: listener.answers(n) != Unsupported
    modifies cache, cache.dirs, backend, listener
    ensures cache.Valid(backend.list)
    ensures forall i {:trigger cache.dirs[i]} :: 0 <= i < |cache.dirs| ==> cache.dirs[i] in old(cache.dirs) || fresh(cache.dirs[i])
    ensures err == Unsupported ==> !Tagged(cookie) && listener.got == old(listener.got)
                                   && backend.reply(backend.asked).reach == old(Reach(cache, backend, key, cookie))
    ensures err != Unsupported ==>
              Listed(backend, listener, key, old(listener.got), cookie, cookie', j, k, err, end, old(Reach(cache, backend, key, cookie)))
  {
    hide cache.Valid, Listed, Dir.Sound, Dir.Hashed, Cache.Serves, Cache.Tries;
    cookie', k, end := cookie, j, Finished;
    if cookie != 0 && !Tagged(cookie) {
      return Unsupported, cookie, k, end;
    }
    var d: Dir?, orphan := null, false;
    if !cache.Cacheable(key) {
      if !Tagged(cookie) {
        return Unsupported, cookie, k, end;
      }
    } else {
      d, orphan := cache.Get(backend, key);
    }
    if d != null {
      err, cookie', k, end := Replay(d, backend, listener, key, cookie, j);
      NotUnsupported(backend, listener, key, old(listener.got), cookie, cookie', j, k, err, end, |backend.list(key)|);
      return;
    }
    if !Tagged(cookie) {
      return Unsupported, cookie, k, end;
    }
    err, cookie', k, end := Reenumerate(backend, listener, key, cookie, j);
  }

  lemma {:induction false} NotUnsupported(backend: Backend, listener: Listener<Node>, key: Key, before: seq<Node>,
                                          cookie: nat, cookie': nat, j: nat, k: nat, err: Error, end: End, reach: nat)
    requires Listed(backend, listener, key, before, cookie, cookie', j, k, err, end, reach) && !end.Failed?
    requires forall n :: listener.answers(n) != Unsupported
    ensures err != Unsupported
  {
  }

  /** One call of a listing. */
  method ReadDir(cache: Cache, backend: Backend, listener: Listener<Node>, dir: Node, cookie: nat, ghost j: nat)
    returns (err: Error, cookie': nat, ghost k: nat, ghost end: End)
    requires cache.Valid(backend.list) && backend.Valid() && Issued(backend, dir.place, cookie, j)
    requires forall n :: listener.answers(n) != Unsupported
    modifies cache, cache.dirs, backend, listener
    ensures cache.Valid(backend.list)
    ensures forall i {:trigger cache.dirs[i]} :: 0 <= i < |cache.dirs| ==> cache.dirs[i] in old(cache.dirs) || fresh(cache.dirs[i])
    ensures if dir.kind == Directory
            then Listed(backend, listener, dir.place, old(listener.got), cookie, cookie', j, k, err, end,
                        old(Reach(cache, backend, dir.place, cookie)))
            else err == NotDir && cookie' == cookie && listener.got == old(listener.got)
  {
    hide cache.Valid, Listed, Reach;
    if dir.kind != Directory {
      return NotDir, cookie, j, Stopped;
    }
    err, cookie', k, end := CachedReadDir(cache, backend, listener, dir.place, cookie, j);
    if err == Unsupported {
      err, cookie', k, end := BackendReadDir(backend, listener, dir.place, cookie, j);
    }
  }

  // ----- failures -----

  /** A call fails only when fewer entries can be got past than there are. Then
      its cookie stands for the entries delivered so far exactly when those
      delivered before can be got past, for a tagged cookie, or no more can, for another. */
  lemma {:induction false} FailureKeepsPlace(backend: Backend, listener: Listener<Node>, key: Key, before: seq<Node>,
                                             cookie: nat, cookie': nat, j: nat, k: nat, err: Error, end: End, reach: nat)
    requires backend.Valid() && Issued(backend, key, cookie, j)
    requires Listed(backend, listener, key, before, cookie, cookie', j, k, err, end, reach)
    ensures end.Failed? ==> (PlaceOf(backend, key, cookie') == k <==> if Tagged(cookie) then j <= reach else reach <= j)
    ensures reach >= |backend.list(key)| ==> !end.Failed?
    ensures reach < j || (reach == j < |backend.list(key)|) ==> end.Failed? && listener.got == before
  {
    assert backend.list(key)[j..j] == [];
  }

  /** Two of three entries were delivered, and the backend gets past one: the
      cookie moves back to the place after the first. */
  lemma {:induction false} CookieMovesBack(backend: Backend, listener: Listener<Node>, key: Key, before: seq<Node>,
                                           cookie': nat, k: nat, err: Error, end: End)
    requires backend.Valid() && |backend.list(key)| == 3
    requires Listed(backend, listener, key, before, COOKIE_TAG + 2, cookie', 2, k, err, end, 1)
    ensures Issued(backend, key, COOKIE_TAG + 2, 2) && listener.got == before && err != Ok
    ensures cookie' == COOKIE_TAG + 1 && PlaceOf(backend, key, cookie') == 1
  {
    FailureKeepsPlace(backend, listener, key, before, COOKIE_TAG + 2, cookie', 2, k, err, end, 1);
  }

  // ----- whole listings -----

  /** One call, as seen by its caller. */
  datatype Call = Call(cookie: nat, cookie': nat, told: seq<Node>, finished: bool)

  /** The call told the entries between its cookies, up to the last when it finished. */
  ghost predicate Faithful(backend: Backend, key: Key, c: Call) {
    var nodes := backend.list(key);
    var j, k := PlaceOf(backend, key, c.cookie), PlaceOf(backend, key, c.cookie');
    && j <= k <= |nodes| && c.told == nodes[j..k] && (c.finished ==> k == |nodes|)
    && (nodes != [] ==> c.cookie' != 0) && (c.cookie != 0 ==> (Tagged(c.cookie) <==> Tagged(c.cookie')))
  }

  /** A call that no backend failure cuts short is faithful. */
  lemma {:induction false} ListedIsFaithful(backend: Backend, listener: Listener<Node>, key: Key, before: seq<Node>,
                                            cookie: nat, cookie': nat, j: nat, k: nat, err: Error, end: End, reach: nat)
    requires Issued(backend, key, cookie, j) && !end.Failed?
    requires Listed(backend, listener, key, before, cookie, cookie', j, k, err, end, reach)
    ensures |before| <= |listener.got| && (err == Ok <==> end.Finished?)
    ensures Faithful(backend, key, Call(cookie, cookie', listener.got[|before|..], err == Ok))
  {
  }

  /** After a call whose cookie moved back the entries it moved over are told twice. */
  lemma {:induction false} ToldTwice(backend: Backend, listener: Listener<Node>, key: Key, before: seq<Node>,
                                     cookie: nat, cookie': nat, j: nat, k: nat, err: Error, end: End, reach: nat, next: Call)
    requires backend.Valid() && Issued(backend, key, cookie, j) && Tagged(cookie) && reach < j
    requires Listed(backend, listener, key, before, cookie, cookie', j, k, err, end, reach)
    requires Faithful(backend, key, next) && next.cookie == cookie' && next.finished
    ensures var nodes := backend.list(key);
            listener.got == before && nodes[..j] + next.told == nodes[..reach] + nodes[reach..j] + nodes[reach..j] + nodes[j..]
  {
    hide Listed;
    FailureKeepsPlace(backend, listener, key, before, cookie, cookie', j, k, err, end, reach);
    FailedCookie(backend, listener, key, before, cookie, cookie', j, k, err, end, reach);
    var nodes := backend.list(key);
    assert nodes[reach..] == nodes[reach..j] + nodes[j..] && nodes[..j] == nodes[..reach] + nodes[reach..j];
    assert next.told == nodes[reach..];
  }

  lemma {:induction false} FailedCookie(backend: Backend, listener: Listener<Node>, key: Key, before: seq<Node>,
                                        cookie: nat, cookie': nat, j: nat, k: nat, err: Error, end: End, reach: nat)
    requires Listed(backend, listener, key, before, cookie, cookie', j, k, err, end, reach) && end.Failed? && Tagged(cookie)
    ensures PlaceOf(backend, key, cookie') == reach
  {
  }

  /** Every call is faithful and starts with the cookie of the one before. */
  ghost predicate Resumed(backend: Backend, key: Key, cookie: nat, calls: seq<Call>)
    decreases |calls|
  {
    calls != [] ==> Faithful(backend, key, calls[0]) && calls[0].cookie == cookie && Resumed(backend, key, calls[0].cookie', calls[1..])
  }

  function Told(calls: seq<Call>): seq<Node>
    decreases |calls|
  {
    if calls == [] then [] else calls[0].told + Told(calls[1..])
  }

  function LastCookie(cookie: nat, calls: seq<Call>): nat
    decreases |calls|
  {
    if calls == [] then cookie else LastCookie(calls[0].cookie', calls[1..])
  }

  /** Whatever happens to the cache between calls, a resumed listing tells every
      entry once, in order, keeps to one kind of cookie, and has told all that
      were left when a call finishes it. */
  lemma {:induction false} ResumedListing(backend: Backend, key: Key, cookie: nat, calls: seq<Call>)
    requires Resumed(backend, key, cookie, calls) && PlaceOf(backend, key, cookie) <= |backend.list(key)|
    ensures var j, k := PlaceOf(backend, key, cookie), PlaceOf(backend, key, LastCookie(cookie, calls));
            j <= k <= |backend.list(key)| && Told(calls) == backend.list(key)[j..k]
    ensures calls != [] && calls[|calls| - 1].finished ==> Told(calls) == backend.list(key)[PlaceOf(backend, key, cookie)..]
    ensures backend.list(key) != [] && cookie != 0 ==> forall i :: 0 <= i < |calls| ==> (Tagged(calls[i].cookie') <==> Tagged(cookie))
    ensures backend.list(key) != [] ==> forall a, b :: 0 <= a < b < |calls| ==> (Tagged(calls[a].cookie') <==> Tagged(calls[b].cookie'))
    decreases |calls|
  {
    hide PlaceOf;
    if calls == [] {
      var j := PlaceOf(backend, key, cookie);
      assert backend.list(key)[j..j] == [];
    } else {
      var next := calls[0].cookie';
      ResumedListing(backend, key, next, calls[1..]);
      var j, m, k := PlaceOf(backend, key, cookie), PlaceOf(backend, key, next), PlaceOf(backend, key, LastCookie(cookie, calls));
      assert backend.list(key)[j..k] == backend.list(key)[j..m] + backend.list(key)[m..k];
      assert backend.list(key)[j..] == backend.list(key)[j..m] + backend.list(key)[m..];
      if |calls| == 1 {
        assert Told(calls[1..]) == [];
      } else {
        assert calls[1..][|calls| - 2] == calls[|calls| - 1];
      }
      forall i | 0 < i < |calls|
        ensures backend.list(key) != [] ==> (Tagged(calls[i].cookie') <==> Tagged(next))
      {
        assert calls[i] == calls[1..][i - 1];
      }
    }
  }

  /** What may happen to the cache between two calls. */
  datatype Event = Flushed | Fetched(key: Key)

  method Happen(cache: Cache, backend: Backend, events: seq<Event>)
    requires cache.Valid(backend.list) && backend.Valid()
    modifies cache, cache.dirs, backend
    ensures cache.Valid(backend.list)
    ensures forall i {:trigger cache.dirs[i]} :: 0 <= i < |cache.dirs| ==> cache.dirs[i] in old(cache.dirs) || fresh(cache.dirs[i])
  {
    hide cache.Valid, Cache.Serves, Cache.Tries;
    for n := 0 to |events|
      invariant cache.Valid(backend.list)
      invariant forall i {:trigger cache.dirs[i]} :: 0 <= i < |cache.dirs| ==> cache.dirs[i] in old(cache.dirs) || fresh(cache.dirs[i])
    {
      match events[n] {
        case Flushed => FlushAll(cache, backend.list);
        case Fetched(key) =>
          if cache.Cacheable(key) {
            var _, _ := cache.Get(backend, key);
          }
      }
    }
  }

  method FlushAll(cache: Cache, ghost list: Key -> seq<Node>)
    requires cache.Valid(list)
    modifies cache, cache.dirs
    ensures cache.Valid(list) && cache.dirs == []
  {
    cache.Flush();
  }

  /** List a directory with a callback that may refuse any entry and is called
      again after it, while anything happens to the cache between the calls:
      without a failure every entry is delivered once, in order, and before a
      failure as many as were told. */
  method ListToEnd(cache: Cache, backend: Backend, listener: Listener<Node>, dir: Node, events: nat -> seq<Event>)
    returns (err: Error, ghost told: nat)
    requires cache.Valid(backend.list) && backend.Valid() && dir.kind == Directory
    requires forall n :: listener.answers(n) != Unsupported
    modifies cache, cache.dirs, backend, listener
    ensures cache.Valid(backend.list)
    ensures told <= |backend.list(dir.place)| && listener.got == old(listener.got) + backend.list(dir.place)[..told]
    ensures err == Ok ==> told == |backend.list(dir.place)|
    ensures (forall n: nat :: backend.reply(n).reach >= |backend.list(dir.place)|) ==> err == Ok
  {
    hide cache.Valid, Reach, Listed, Issued, backend.Valid;
    ghost var nodes, before := backend.list(dir.place), listener.got;
    var cookie, calls := 0, 0;
    told := 0;
    AtStart(backend, dir.place);
    while true
      invariant cache.Valid(backend.list)
      invariant forall i {:trigger cache.dirs[i]} :: 0 <= i < |cache.dirs| ==> cache.dirs[i] in old(cache.dirs) || fresh(cache.dirs[i])
      invariant told <= |nodes| && Issued(backend, dir.place, cookie, told) && listener.got == before + nodes[..told]
      decreases |nodes| - told
    {
      Happen(cache, backend, events(calls));
      var had := |listener.got|;
      ghost var j, k, end, reach, got, from := told, 0, Finished, Reach(cache, backend, dir.place, cookie), listener.got, cookie;
      ReachesAll(cache, backend, dir.place, cookie);
      err, cookie, k, end := ReadDir(cache, backend, listener, dir, cookie, told);
      Outcome(backend, listener, dir.place, got, from, cookie, j, k, err, end, reach);
      ToldFurther(before, nodes, j, k);
      told := k;
      if err == Ok || |listener.got| == had || listener.answers(|listener.got| - 1) == Ok {
        return;
      }
      calls := calls + 1;
    }
  }

  /** What a caller sees of a call: whether its callback refused an entry is
      told by the last answer. */
  lemma {:induction false} Outcome(backend: Backend, listener: Listener<Node>, key: Key, before: seq<Node>,
                                   cookie: nat, cookie': nat, j: nat, k: nat, err: Error, end: End, reach: nat)
    requires Listed(backend, listener, key, before, cookie, cookie', j, k, err, end, reach)
    ensures j <= k <= |backend.list(key)| && listener.got == before + backend.list(key)[j..k]
    ensures err == Ok ==> k == |backend.list(key)|
    ensures var refused := |listener.got| > |before| && listener.answers(|listener.got| - 1) != Ok;
            && (err != Ok && refused ==> j < k && Issued(backend, key, cookie', k))
            && (err != Ok && reach >= |backend.list(key)| ==> refused)
  {
  }

  lemma {:induction false} AtStart(backend: Backend, key: Key)
    requires backend.Valid()
    ensures Issued(backend, key, 0, 0)
  {
  }

  lemma {:induction false} ToldFurther(before: seq<Node>, nodes: seq<Node>, j: nat, k: nat)
    requires j <= k <= |nodes|
    ensures (before + nodes[..j]) + nodes[j..k] == before + nodes[..k]
  {
  }

  lemma {:induction false} ReachesAll(cache: Cache, backend: Backend, key: Key, cookie: nat)
    ensures (forall n: nat :: backend.reply(n).reach >= |backend.list(key)|) ==> Reach(cache, backend, key, cookie) >= |backend.list(key)|
  {
  }
}
