/** The registry of remote watchers: a concurrent map from watch keys to cancel tokens,
    first under interleaved starts and stops, then as the bulk stop and restart of a
    federation use it. */
module Watchers {
  import opened Basics

  type Token = nat

  /** Both halves are Kubernetes names, which hold no slash. */
  function WatchKey(namespace: string, name: string): string {
    namespace + "/" + name
  }

  lemma WatchKeyInjective(ns1: string, n1: string, ns2: string, n2: string)
    requires '/' !in ns1 && '/' !in ns2
    ensures WatchKey(ns1, n1) == WatchKey(ns2, n2) <==> ns1 == ns2 && n1 == n2
  {
    var k1, k2 := WatchKey(ns1, n1), WatchKey(ns2, n2);
    assert k1[|ns1|] == '/' && k2[|ns2|] == '/';
    assert |ns1| < |ns2| ==> k2[|ns1|] == ns2[|ns1|] && ns2[|ns1|] in ns2;
    assert |ns2| < |ns1| ==> k1[|ns2|] == ns1[|ns2|] && ns1[|ns2|] in ns1;
    if k1 == k2 {
      assert k1[..|ns1|] == ns1 && k2[..|ns2|] == ns2;
      assert k1[|ns1| + 1..] == n1 && k2[|ns2| + 1..] == n2;
    }
  }

  // ---------------------------------------------------------------- interleavings

  /** Shared state plus the two places where an operation can be interrupted: a start
      that lost and has yet to cancel its own token, and a stop that took a token out
      of the map and has yet to cancel it. `winners` records the key of every token
      that won its insertion. */
  datatype Registry = Registry(
    active: map<string, Token>, cancelled: set<Token>, next: Token,
    losing: set<Token>, stopping: set<Token>, winners: map<Token, string>)

  datatype Action =
    | LoadOrStore(key: string)    // first half of a start, with a fresh token
    | CancelLoser(token: Token)   // second half of a start that found an entry
    | LoadAndDelete(key: string)  // first half of a stop
    | CancelTaken(token: Token)   // second half of a stop that found an entry

  const EMPTY := Registry(map[], {}, 0, {}, {}, map[])

  function Act(s: Registry, a: Action): Registry {
    match a
    case LoadOrStore(key) =>
      if key in s.active then s.(next := s.next + 1, losing := s.losing + {s.next})
      else s.(next := s.next + 1, active := s.active[key := s.next], winners := s.winners[s.next := key])
    case CancelLoser(t) =>
      if t in s.losing then s.(losing := s.losing - {t}, cancelled := s.cancelled + {t}) else s
    case LoadAndDelete(key) =>
      if key in s.active then s.(active := s.active - {key}, stopping := s.stopping + {s.active[key]}) else s
    case CancelTaken(t) =>
      if t in s.stopping then s.(stopping := s.stopping - {t}, cancelled := s.cancelled + {t}) else s
  }

  function Actions(acts: seq<Action>): Registry {
    if acts == [] then EMPTY else Act(Actions(acts[..|acts| - 1]), acts[|acts| - 1])
  }

  /** Every token ever made is in exactly one place. */
  ghost predicate Accounted(s: Registry) {
    && (forall k :: k in s.active ==> s.active[k] in s.winners && s.winners[s.active[k]] == k)
    && (forall t: Token :: t in s.winners ==> t < s.next && t !in s.losing)
    && (forall t: Token :: t in s.losing ==> t < s.next && t !in s.cancelled)
    && (forall t: Token :: t in s.stopping ==> t in s.winners && t !in s.cancelled)
    && (forall t: Token :: t in s.cancelled ==> t < s.next)
    && (forall k :: k in s.active ==> s.active[k] !in s.stopping && s.active[k] !in s.cancelled)
    && (forall t: Token :: t in s.winners && t !in s.cancelled && t !in s.stopping ==>
          s.winners[t] in s.active && s.active[s.winners[t]] == t)
    && (forall t: Token :: t < s.next && t !in s.winners && t !in s.losing ==> t in s.cancelled)
  }

  lemma ActKeeps(s: Registry, a: Action)
    requires Accounted(s)
    ensures Accounted(Act(s, a))
  {
    var s' := Act(s, a);
    forall t: Token | t < s'.next && t !in s'.winners && t !in s'.losing ensures t in s'.cancelled {
      assert t < s.next;
      assert t !in s.winners;
      if t !in s.losing {
        assert t in s.cancelled;
      }
    }
  }

  lemma {:induction false} AlwaysAccounted(acts: seq<Action>)
    ensures Accounted(Actions(acts))
  {
    if acts != [] {
      AlwaysAccounted(acts[..|acts| - 1]);
      ActKeeps(Actions(acts[..|acts| - 1]), acts[|acts| - 1]);
    }
  }

  predicate Live(s: Registry, t: Token, key: string) {
    t in s.winners && s.winners[t] == key && t !in s.cancelled
  }

  /** Under any interleaving: a live winner is the entry under its key unless a stop has
      just taken it out; a losing token is cancelled as soon as its start is over; an
      entry is always live. */
  lemma WinnersAreEntries(acts: seq<Action>, t: Token, key: string)
    ensures var s := Actions(acts);
      && (Live(s, t, key) <==>
            (key in s.active && s.active[key] == t) || (t in s.stopping && t in s.winners && s.winners[t] == key))
      && (t < s.next && t !in s.winners && t !in s.losing ==> t in s.cancelled)
  {
    AlwaysAccounted(acts);
  }

  /** At most one watcher of this key is live. */
  ghost predicate One(s: Registry, key: string) {
    forall t: Token, u: Token :: Live(s, t, key) && Live(s, u, key) ==> t == u
  }

  /** A start on a key while a stop of that key is between its two halves. */
  predicate Overlaps(s: Registry, a: Action, key: string) {
    a == LoadOrStore(key) && exists t :: t in s.stopping && t in s.winners && s.winners[t] == key
  }

  lemma LiveIff(s: Registry, t: Token, key: string)
    requires Accounted(s)
    ensures Live(s, t, key) <==>
      (key in s.active && s.active[key] == t) || (t in s.stopping && t in s.winners && s.winners[t] == key)
  {
  }

  /** A step brings a second live watcher exactly when it is such a start. */
  lemma StepKeepsOne(s: Registry, a: Action, key: string)
    requires Accounted(s) && One(s, key)
    ensures One(Act(s, a), key) <==> !Overlaps(s, a, key)
  {
    var s' := Act(s, a);
    ActKeeps(s, a);
    if Overlaps(s, a, key) {
      var t :| t in s.stopping && t in s.winners && s.winners[t] == key;
      LiveIff(s, t, key);
      assert key !in s.active by {
        if key in s.active {
          LiveIff(s, s.active[key], key);
        }
      }
      assert Live(s', t, key) && Live(s', s.next, key) && t != s.next;
    } else {
      forall t: Token, u: Token | Live(s', t, key) && Live(s', u, key) ensures t == u {
        LiveBefore(s, a, t, key);
        LiveBefore(s, a, u, key);
      }
    }
  }

  /** A watcher that is live after a step was live before, or is started by it on a key
      without live watchers. */
  lemma LiveBefore(s: Registry, a: Action, t: Token, key: string)
    requires Accounted(s) && !Overlaps(s, a, key) && Live(Act(s, a), t, key)
    ensures Live(s, t, key) || (t == s.next && forall u: Token :: !Live(s, u, key))
  {
    if !Live(s, t, key) {
      forall u: Token ensures !Live(s, u, key) {
        LiveIff(s, u, key);
      }
    }
  }

  /** In every state of a run. */
  ghost predicate AlwaysOne(acts: seq<Action>, key: string) {
    One(Actions(acts), key) && (acts != [] ==> AlwaysOne(acts[..|acts| - 1], key))
  }

  ghost predicate NeverOverlaps(acts: seq<Action>, key: string) {
    acts != [] ==>
      var front := acts[..|acts| - 1];
      !Overlaps(Actions(front), acts[|acts| - 1], key) && NeverOverlaps(front, key)
  }

  /** Over every interleaving: a key has at most one live watcher in every state exactly
      when no start on it overlaps a stop of it. */
  lemma {:induction false} OneWinner(acts: seq<Action>, key: string)
    ensures AlwaysOne(acts, key) <==> NeverOverlaps(acts, key)
  {
    if acts != [] {
      var front := acts[..|acts| - 1];
      OneWinner(front, key);
      AlwaysAccounted(front);
      if AlwaysOne(front, key) {
        StepKeepsOne(Actions(front), acts[|acts| - 1], key);
      }
    }
  }

  /** The shortest run with two: a start, the first half of a stop, another start. */
  lemma TwoWinnersInFlight(key: string)
    ensures !One(Actions([LoadOrStore(key), LoadAndDelete(key), LoadOrStore(key)]), key)
  {
    var start, stop := LoadOrStore(key), LoadAndDelete(key);
    ActionsSnoc([], start);
    ActionsSnoc([start], stop);
    ActionsSnoc([start, stop], start);
    assert [] + [start] == [start] && [start] + [stop] == [start, stop];
    assert [start, stop] + [start] == [start, stop, start];
    var s := Actions([start, stop]);
    AlwaysAccounted([start, stop]);
    assert s.stopping == {0} && s.winners == map[0 := key] && s.active == map[];
    assert Overlaps(s, start, key) by {
      assert 0 in s.stopping;
    }
    StepKeepsOne(s, start, key);
  }

  lemma ActionsSnoc(acts: seq<Action>, a: Action)
    ensures Actions(acts + [a]) == Act(Actions(acts), a)
  {
    assert (acts + [a])[..|acts|] == acts;
  }

  /** Each stop that finds an entry cancels exactly one token, each start makes exactly
      one, and no other half of an operation cancels anything. */
  lemma CancelsOne(acts: seq<Action>, a: Action)
    ensures var s := Actions(acts); var s' := Act(s, a);
      match a
      case CancelTaken(t) => t in s.stopping ==> s'.cancelled == s.cancelled + {t} && t !in s.cancelled
      case CancelLoser(t) => t in s.losing ==> s'.cancelled == s.cancelled + {t} && t !in s.cancelled
      case LoadAndDelete(key) =>
        s'.cancelled == s.cancelled && |s'.stopping| == |s.stopping| + (if key in s.active then 1 else 0)
      case LoadOrStore(key) => s'.cancelled == s.cancelled && s'.next == s.next + 1
  {
    AlwaysAccounted(acts);
  }

  // ---------------------------------------------------------------- bulk operations

  /** A custom resource as the bulk operations see it. Each list has one kind; the key of
      a watcher does not say which. */
  datatype Object = Object(kind: string, name: string, ctx: string)

  /** The keys of the listed resources of a context; `None` is a list call that failed. */
  function Keys(lists: seq<Option<seq<Object>>>, namespace: string, ctx: string): set<string> {
    set l, o | l in lists && l.Some? && o in l.value && o.ctx == ctx :: WatchKey(namespace, o.name)
  }

  /** The listed resources of a context. */
  function Listed(lists: seq<Option<seq<Object>>>, ctx: string): set<Object> {
    set l, o | l in lists && l.Some? && o in l.value && o.ctx == ctx :: o
  }

  /** A cancel token, and the resource its watcher was started for. */
  datatype Entry = Entry(token: Token, obj: Object)

  function ListedIn(objs: seq<Object>, ctx: string): set<Object> {
    set o | o in objs && o.ctx == ctx
  }

  class WatcherRegistry {
    var active: map<string, Entry>
    var cancelled: set<Token>
    var next: Token
    var stoppedForLock: bool  // annotations on the federation
    var notStopped: bool

    predicate Valid()
      reads this
    {
      && (forall k :: k in active ==> active[k].token < next && active[k].token !in cancelled)
      && (forall t: Token :: t in cancelled ==> t < next)
      && (forall k, m :: k in active && m in active && active[k].token == active[m].token ==> k == m)
    }

    constructor ()
      ensures Valid() && active == map[] && cancelled == {} && notStopped
    {
      active, cancelled, next := map[], {}, 0;
      stoppedForLock, notStopped := false, true;
    }

    method HasActiveWatcher(namespace: string, name: string) returns (ok: bool)
      ensures ok <==> WatchKey(namespace, name) in active
    {
      ok := WatchKey(namespace, name) in active;
    }

    /** An uninterrupted start: the entry that was there stays, the loser is cancelled. */
    method Start(namespace: string, obj: Object)
      requires Valid()
      modifies this`active, this`cancelled, this`next
      ensures Valid() && next == old(next) + 1
      ensures var key := WatchKey(namespace, obj.name);
        if key in old(active)
        then active == old(active) && cancelled == old(cancelled) + {old(next)}
        else active == old(active)[key := Entry(old(next), obj)] && cancelled == old(cancelled)
    {
      var watchKey := WatchKey(namespace, obj.name);
      var token := next;
      next := next + 1;
      if watchKey in active {
        cancelled := cancelled + {token};
        return;
      }
      active := active[watchKey := Entry(token, obj)];
    }

    /** An uninterrupted stop. */
    method Stop(namespace: string, name: string) returns (stopped: bool)
      requires Valid()
      modifies this`active, this`cancelled
      ensures Valid()
      ensures var key := WatchKey(namespace, name);
        && (stopped <==> key in old(active))
        && active == old(active) - {key}
        && cancelled == old(cancelled) + (if stopped then {old(active)[key].token} else {})
    {
      var watchKey := WatchKey(namespace, name);
      if watchKey in active {
        var token := active[watchKey].token;
        active := active - {watchKey};
        cancelled := cancelled + {token};
        stopped := true;
      } else {
        stopped := false;
      }
    }

    /** Exactly the given keys are stopped. */
    twostate predicate StoppedExactly(keys: set<string>)
      reads this
    {
      && active == old(active) - keys
      && next == old(next)
      && cancelled == old(cancelled) + TokensOf(old(active), keys)
    }

    /** The entries of these keys are new and their old tokens cancelled, the others stayed. */
    twostate predicate Refreshed(keys: set<string>)
      reads this
    {
      forall k :: k in active && k in old(active) ==>
        if k in keys then active[k].token >= old(next) && old(active)[k].token in cancelled
        else active[k] == old(active)[k]
    }

    /** One turn of the bulk stop. */
    method StopObject(obj: Object, namespace: string, ctx: string)
      requires Valid()
      modifies this`active, this`cancelled
      ensures Valid() && StoppedExactly(if obj.ctx == ctx then {WatchKey(namespace, obj.name)} else {})
    {
      if obj.ctx == ctx {
        var _ := Stop(namespace, obj.name);
      }
    }

    /** The inner loop of the bulk stop. */
    method StopListed(objs: seq<Object>, namespace: string, ctx: string)
      requires Valid()
      modifies this`active, this`cancelled
      ensures Valid() && StoppedExactly(KeysIn(objs, namespace, ctx))
    {
      for j := 0 to |objs|
        invariant Valid() && StoppedExactly(KeysIn(objs[..j], namespace, ctx))
      {
        KeysInNext(objs, j, namespace, ctx);
        ghost var before, kept := active, cancelled;
        StopObject(objs[j], namespace, ctx);
        StopsCompose(old(active), before, active, old(cancelled), kept, cancelled, KeysIn(objs[..j], namespace, ctx),
                     if objs[j].ctx == ctx then {WatchKey(namespace, objs[j].name)} else {});
      }
      assert objs[..|objs|] == objs;
    }

    /** The outer loop of the bulk stop; a failing list ends it. */
    method StopLists(lists: seq<Option<seq<Object>>>, namespace: string, ctx: string) returns (ok: bool)
      requires Valid()
      modifies this`active, this`cancelled
      ensures Valid() && (ok <==> AllListed(lists))
      ensures StoppedExactly(Keys(Successful(lists), namespace, ctx))
    {
      for i := 0 to |lists|
        invariant Valid() && AllListed(lists[..i])
        invariant StoppedExactly(Keys(lists[..i], namespace, ctx))
      {
        SuccessfulPrefix(lists, i);
        if lists[i].None? {
          return false;
        }
        KeysNext(lists, i, namespace, ctx);
        ghost var before, kept := active, cancelled;
        StopListed(lists[i].value, namespace, ctx);
        StopsCompose(old(active), before, active, old(cancelled), kept, cancelled,
                     Keys(lists[..i], namespace, ctx), KeysIn(lists[i].value, namespace, ctx));
      }
      SuccessfulPrefix(lists, |lists|);
      ok := true;
    }

    /** Stops the watchers of all listed resources of a context. On success none is left
        and nothing else changed; a failing list leaves what was done before it. */
    method StopAll(lists: seq<Option<seq<Object>>>, namespace: string, ctx: string, updateOk: bool) returns (ok: bool)
      requires Valid()
      modifies this`active, this`cancelled, this`stoppedForLock
      ensures Valid()
      ensures ok <==> AllListed(lists) && (updateOk || old(stoppedForLock))
      ensures StoppedExactly(Keys(Successful(lists), namespace, ctx))
      ensures stoppedForLock == (AllListed(lists) || old(stoppedForLock))
    {
      ok := StopLists(lists, namespace, ctx);
      if ok && !stoppedForLock {
        stoppedForLock := true;
        ok := updateOk;
      }
    }

    /** Exactly the given keys were added, with fresh tokens, each for one of the given
        resources; no token was cancelled. */
    twostate predicate Restarted(keys: set<string>, objs: set<Object>, namespace: string)
      reads this
    {
      && Added(old(active), old(next), active, keys, objs, namespace)
      && cancelled == old(cancelled)
      && next >= old(next)
    }

    twostate predicate Untouched()
      reads this
    {
      active == old(active) && next == old(next) && cancelled == old(cancelled)
    }

    /** One turn of the bulk restart. The host client is built when first needed. */
    method RestartObject(obj: Object, namespace: string, ctx: string, client: bool) returns (ok: bool)
      requires Valid()
      modifies this`active, this`cancelled, this`next
      ensures Valid()
      ensures ok <==> client || obj.ctx != ctx || WatchKey(namespace, obj.name) in old(active)
      ensures !client ==> Untouched()
      ensures ok ==> Restarted(if obj.ctx == ctx then {WatchKey(namespace, obj.name)} else {},
                               if obj.ctx == ctx then {obj} else {}, namespace)
    {
      ok := true;
      if obj.ctx == ctx {
        var has := HasActiveWatcher(namespace, obj.name);
        if !has {
          if !client {
            return false;
          }
          Start(namespace, obj);
        }
      }
    }

    /** The inner loop of the bulk restart; without the client it stops at the first
        resource that has no watcher. */
    method RestartListed(objs: seq<Object>, namespace: string, ctx: string, client: bool) returns (ok: bool)
      requires Valid()
      modifies this`active, this`cancelled, this`next
      ensures Valid()
      ensures ok <==> client || KeysIn(objs, namespace, ctx) <= old(active).Keys
      ensures !client ==> Untouched()
      ensures ok ==> Restarted(KeysIn(objs, namespace, ctx), ListedIn(objs, ctx), namespace)
    {
      for j := 0 to |objs|
        invariant Valid() && Restarted(KeysIn(objs[..j], namespace, ctx), ListedIn(objs, ctx), namespace)
        invariant client || (KeysIn(objs[..j], namespace, ctx) <= old(active).Keys && Untouched())
      {
        KeysInNext(objs, j, namespace, ctx);
        KeysInPrefix(objs, j + 1, namespace, ctx);
        ghost var before, from := active, next;
        ok := RestartObject(objs[j], namespace, ctx, client);
        if !ok {
          return;
        }
        AddsCompose(old(active), old(next), before, from, active, KeysIn(objs[..j], namespace, ctx),
                    if objs[j].ctx == ctx then {WatchKey(namespace, objs[j].name)} else {},
                    ListedIn(objs, ctx), if objs[j].ctx == ctx then {objs[j]} else {}, namespace);
      }
      assert objs[..|objs|] == objs;
      ok := true;
    }

    /** The outer loop of the bulk restart; a failing list or client ends it. */
    method RestartLists(lists: seq<Option<seq<Object>>>, namespace: string, ctx: string, client: bool)
      returns (ok: bool, ghost upTo: nat)
      requires Valid()
      modifies this`active, this`cancelled, this`next
      ensures Valid() && upTo <= |lists| && (ok ==> upTo == |lists|)
      ensures ok <==> AllListed(lists) && (client || Keys(lists, namespace, ctx) <= old(active).Keys)
      ensures Restarted(Keys(lists[..upTo], namespace, ctx), Listed(lists, ctx), namespace)
    {
      upTo := 0;
      for i := 0 to |lists|
        invariant Valid() && AllListed(lists[..i]) && upTo == i
        invariant Restarted(Keys(lists[..i], namespace, ctx), Listed(lists, ctx), namespace)
        invariant client || Keys(lists[..i], namespace, ctx) <= old(active).Keys
      {
        SuccessfulPrefix(lists, i);
        if lists[i].None? {
          return false, upTo;
        }
        KeysNext(lists, i, namespace, ctx);
        KeysPrefix(lists, i + 1, namespace, ctx);
        ghost var before, from := active, next;
        ok := RestartListed(lists[i].value, namespace, ctx, client);
        if !ok {
          return;
        }
        ListedOne(lists, i, ctx);
        AddsCompose(old(active), old(next), before, from, active, Keys(lists[..i], namespace, ctx),
                    KeysIn(lists[i].value, namespace, ctx), Listed(lists, ctx), ListedIn(lists[i].value, ctx),
                    namespace);
        upTo := i + 1;
      }
      SuccessfulPrefix(lists, |lists|);
      ok := true;
    }

    /** Starts a watcher for each listed resource of a context that has none. On success
        every one has an entry; entries that were there, and all tokens, are untouched.
        `client` says whether the host client can be built, `updateOk` whether the
        federation can be updated. */
    method RestartAll(lists: seq<Option<seq<Object>>>, namespace: string, ctx: string, client: bool, updateOk: bool)
      returns (ok: bool)
      requires Valid()
      modifies this`active, this`cancelled, this`next, this`stoppedForLock
      ensures Valid()
      ensures ok <==> AllListed(lists) && (client || Keys(lists, namespace, ctx) <= old(active).Keys)
                      && (updateOk || !old(stoppedForLock))
      ensures ok ==> Restarted(Keys(lists, namespace, ctx), Listed(lists, ctx), namespace)
      ensures stoppedForLock <==>
        old(stoppedForLock) && !(AllListed(lists) && (client || Keys(lists, namespace, ctx) <= old(active).Keys))
      ensures !ok ==>
        exists i :: 0 <= i <= |lists| && Restarted(Keys(lists[..i], namespace, ctx), Listed(lists, ctx), namespace)
    {
      ghost var upTo;
      ok, upTo := RestartLists(lists, namespace, ctx, client);
      assert lists[..|lists|] == lists;
      assert Restarted(Keys(lists[..upTo], namespace, ctx), Listed(lists, ctx), namespace);
      if ok && stoppedForLock {
        stoppedForLock := false;
        ok := updateOk;
      }
    }

    /** Locking and unlocking a federation: stop then restart gives back the watched keys
        when all resources of the context were watched before, with fresh live tokens
        for them and the old ones elsewhere. */
    method StopThenRestart(lists: seq<Option<seq<Object>>>, namespace: string, ctx: string, client: bool,
                           updateOk: bool)
      returns (ok: bool)
      requires Valid() && Keys(lists, namespace, ctx) <= active.Keys
      modifies this
      ensures Valid()
      ensures ok <==> AllListed(lists) && updateOk && (client || Keys(lists, namespace, ctx) == {})
      ensures notStopped == old(notStopped)
      ensures ok ==> active.Keys == old(active).Keys
      ensures ok ==> Refreshed(Keys(lists, namespace, ctx))
    {
      ok := StopAll(lists, namespace, ctx, updateOk);
      if ok {
        assert lists[..|lists|] == lists;
        SuccessfulPrefix(lists, |lists|);
        ghost var keys := Keys(lists, namespace, ctx);
        ok := RestartAll(lists, namespace, ctx, client, updateOk);
        if ok {
          Renews(old(active), old(next), active, keys, Listed(lists, ctx), namespace);
        }
      }
    }

    /** The part of a guest federation's reconcile that looks after its watchers: a locked
        one stops them if its annotation still says so, an available one starts those that
        are missing. Either way the annotation is used up; `storeOk` says whether the
        deferred write-back stored it. */
    method ReconcileWatchers(phase: Phase, lists: seq<Option<seq<Object>>>, namespace: string, ctx: string,
                             client: bool, updateOk: bool, storeOk: bool) returns (ok: bool)
      requires Valid()
      modifies this
      ensures Valid()
      ensures notStopped == MarkAfter(old(notStopped), Turn(phase, ok, storeOk))
      ensures phase == Locked && old(notStopped) ==> StoppedExactly(Keys(Successful(lists), namespace, ctx))
      ensures phase == Locked && old(notStopped) ==> (ok <==> AllListed(lists) && (updateOk || old(stoppedForLock)))
      ensures phase == Available ==>
        exists i :: 0 <= i <= |lists| && Restarted(Keys(lists[..i], namespace, ctx), Listed(lists, ctx), namespace)
      ensures phase == Available && ok ==> Restarted(Keys(lists, namespace, ctx), Listed(lists, ctx), namespace)
      ensures phase == Other || (phase == Locked && !old(notStopped)) ==>
        ok && active == old(active) && cancelled == old(cancelled)
    {
      ok := true;
      match phase
      case Locked =>
        if notStopped {
          ok := StopAll(lists, namespace, ctx, updateOk);
          if ok && storeOk {
            notStopped := false;
          }
        }
      case Available =>
        ok := RestartAll(lists, namespace, ctx, client, updateOk);
        assert lists[..|lists|] == lists;
        if ok && notStopped && storeOk {
          notStopped := false;
        }
      case Other =>
    }
  }

  // ---------------------------------------------------------------- the stop at a lock

  datatype Phase = Locked | Available | Other

  /** One reconcile of a guest federation, as far as its watchers go. */
  datatype Turn = Turn(phase: Phase, done: bool, stored: bool)

  /** The annotation after a reconcile: it is used up by the first one that is locked or
      available, does its work and is stored. */
  function MarkAfter(notStopped: bool, t: Turn): bool {
    notStopped && !(t.phase != Other && t.done && t.stored)
  }

  function Mark(turns: seq<Turn>): bool {
    turns == [] || MarkAfter(Mark(turns[..|turns| - 1]), turns[|turns| - 1])
  }

  lemma {:induction false} MarkLasts(turns: seq<Turn>)
    ensures Mark(turns) <==> forall j :: 0 <= j < |turns| ==> MarkAfter(true, turns[j])
  {
    if turns != [] {
      MarkLasts(turns[..|turns| - 1]);
    }
  }

  /** A locked federation stops its watchers in exactly the reconciles before which none,
      locked or available, did its work and was stored. */
  predicate Stops(turns: seq<Turn>, i: nat)
    requires i < |turns|
  {
    turns[i].phase == Locked && Mark(turns[..i])
  }

  lemma LockStopsOnlyFirst(turns: seq<Turn>, i: nat)
    requires i < |turns|
    ensures Stops(turns, i) <==>
      turns[i].phase == Locked &&
      forall j :: 0 <= j < i ==> turns[j].phase == Other || !turns[j].done || !turns[j].stored
  {
    MarkLasts(turns[..i]);
    assert forall j :: 0 <= j < i ==> turns[..i][j] == turns[j];
  }

  /** So a federation that was seen available once keeps its watchers when it is locked. */
  lemma NoStopAfterAvailable(turns: seq<Turn>, i: nat, j: nat)
    requires i < j < |turns| && turns[i] == Turn(Available, true, true)
    ensures !Stops(turns, j)
  {
    LockStopsOnlyFirst(turns, j);
  }

  /** The keys of a bulk operation: partner namespace, slash, name, for each resource in a list
      that could be read whose context is the given one, and no others. */
  lemma KeysExactly(lists: seq<Option<seq<Object>>>, namespace: string, ctx: string, k: string)
    ensures k in Keys(lists, namespace, ctx) <==>
      exists i, j :: 0 <= i < |lists| && lists[i].Some? && 0 <= j < |lists[i].value|
                     && lists[i].value[j].ctx == ctx && k == namespace + "/" + lists[i].value[j].name
  {
    if k in Keys(lists, namespace, ctx) {
      var l, o :| l in lists && l.Some? && o in l.value && o.ctx == ctx && WatchKey(namespace, o.name) == k;
      var i :| 0 <= i < |lists| && lists[i] == l;
      var j :| 0 <= j < |l.value| && l.value[j] == o;
      assert lists[i].value[j] == o;
    }
    if i, j :| 0 <= i < |lists| && lists[i].Some? && 0 <= j < |lists[i].value|
               && lists[i].value[j].ctx == ctx && k == namespace + "/" + lists[i].value[j].name {
      assert lists[i] in lists && lists[i].value[j] in lists[i].value;
      assert WatchKey(namespace, lists[i].value[j].name) == k;
    }
  }

  /** Each of these resources has an entry started for itself. */
  predicate OwnWatcherEach(objs: set<Object>, active: map<string, Entry>, namespace: string) {
    forall o :: o in objs ==>
      WatchKey(namespace, o.name) in active && active[WatchKey(namespace, o.name)].obj == o
  }

  predicate DistinctNames(objs: set<Object>) {
    forall o, p :: o in objs && p in objs && o.name == p.name ==> o == p
  }

  lemma KeysOfListed(lists: seq<Option<seq<Object>>>, namespace: string, ctx: string)
    ensures forall k :: k in Keys(lists, namespace, ctx) <==>
              exists o :: o in Listed(lists, ctx) && WatchKey(namespace, o.name) == k
    ensures forall o :: o in Listed(lists, ctx) ==> WatchKey(namespace, o.name) in Keys(lists, namespace, ctx)
  {
    forall o | o in Listed(lists, ctx) ensures WatchKey(namespace, o.name) in Keys(lists, namespace, ctx) {
      var l :| l in lists && l.Some? && o in l.value;
    }
    forall k | k in Keys(lists, namespace, ctx)
      ensures exists o :: o in Listed(lists, ctx) && WatchKey(namespace, o.name) == k
    {
      var l, o :| l in lists && l.Some? && o in l.value && o.ctx == ctx && WatchKey(namespace, o.name) == k;
      assert o in Listed(lists, ctx);
    }
  }

  /** After a restart that had every watcher to start, each listed resource has a watcher of
      its own exactly when no two of them, of different kinds, have one name. */
  lemma OwnWatchers(a0: map<string, Entry>, next0: Token, a1: map<string, Entry>, lists: seq<Option<seq<Object>>>,
                    namespace: string, ctx: string)
    requires Added(a0, next0, a1, Keys(lists, namespace, ctx), Listed(lists, ctx), namespace)
    requires a0.Keys !! Keys(lists, namespace, ctx)
    ensures OwnWatcherEach(Listed(lists, ctx), a1, namespace) <==> DistinctNames(Listed(lists, ctx))
  {
    KeysOfListed(lists, namespace, ctx);
    var objs := Listed(lists, ctx);
    forall o | o in objs
      ensures var key := WatchKey(namespace, o.name); key in a1 && a1[key].obj in objs && a1[key].obj.name == o.name
    {
      var p := a1[WatchKey(namespace, o.name)].obj;
      assert WatchKey(namespace, p.name)[|namespace| + 1..] == p.name;
      assert WatchKey(namespace, o.name)[|namespace| + 1..] == o.name;
    }
    if !DistinctNames(objs) {
      var o, p :| o in objs && p in objs && o.name == p.name && o != p;
      var key := WatchKey(namespace, o.name);
      assert a1[key].obj != o || a1[key].obj != p;
    }
  }

  function KeysIn(objs: seq<Object>, namespace: string, ctx: string): set<string> {
    set o | o in objs && o.ctx == ctx :: WatchKey(namespace, o.name)
  }

  /** Between two registries exactly the given keys were added, with tokens made since, each
      for one of the given resources; other entries stayed. */
  predicate Added(a0: map<string, Entry>, next0: Token, a1: map<string, Entry>, keys: set<string>, objs: set<Object>,
                  namespace: string)
  {
    && a1.Keys == a0.Keys + keys
    && (forall k :: k in a0 ==> a1[k] == a0[k])
    && (forall k :: k in a1 && k !in a0 ==>
          a1[k].token >= next0 && a1[k].obj in objs && WatchKey(namespace, a1[k].obj.name) == k)
  }

  lemma AddsCompose(a0: map<string, Entry>, next0: Token, a1: map<string, Entry>, next1: Token, a2: map<string, Entry>,
                    keys: set<string>, more: set<string>, objs: set<Object>, some: set<Object>, namespace: string)
    requires Added(a0, next0, a1, keys, objs, namespace) && Added(a1, next1, a2, more, some, namespace)
    requires next0 <= next1 && some <= objs
    ensures Added(a0, next0, a2, keys + more, objs, namespace)
  {
  }

  lemma ListedOne(lists: seq<Option<seq<Object>>>, i: nat, ctx: string)
    requires i < |lists| && lists[i].Some?
    ensures ListedIn(lists[i].value, ctx) <= Listed(lists, ctx)
  {
  }

  function TokensOf(active: map<string, Entry>, keys: set<string>): set<Token> {
    set k | k in keys && k in active :: active[k].token
  }

  lemma TokensUnion(active: map<string, Entry>, keys: set<string>, more: set<string>)
    ensures TokensOf(active, keys + more) == TokensOf(active, keys) + TokensOf(active - keys, more)
  {
    forall t | t in TokensOf(active, keys + more) ensures t in TokensOf(active, keys) + TokensOf(active - keys, more) {
      var k :| k in keys + more && k in active && active[k].token == t;
      if k !in keys {
        assert k in active - keys;
      }
    }
  }

  /** Keys that are stopped and added again have fresh tokens, the others their old entry. */
  lemma Renews(a0: map<string, Entry>, next0: Token, a1: map<string, Entry>, keys: set<string>, objs: set<Object>,
               namespace: string)
    requires keys <= a0.Keys && Added(a0 - keys, next0, a1, keys, objs, namespace)
    ensures a1.Keys == a0.Keys
    ensures forall k :: k in a1 ==>
      if k in keys then a1[k].token >= next0 && a0[k].token in TokensOf(a0, keys) else a1[k] == a0[k]
  {
  }

  /** Stopping some keys and then more stops all of them. */
  lemma StopsCompose(a0: map<string, Entry>, a1: map<string, Entry>, a2: map<string, Entry>,
                     c0: set<Token>, c1: set<Token>, c2: set<Token>, keys: set<string>, more: set<string>)
    requires a1 == a0 - keys && c1 == c0 + TokensOf(a0, keys)
    requires a2 == a1 - more && c2 == c1 + TokensOf(a1, more)
    ensures a2 == a0 - (keys + more) && c2 == c0 + TokensOf(a0, keys + more)
  {
    TokensUnion(a0, keys, more);
  }

  predicate AllListed(lists: seq<Option<seq<Object>>>) {
    forall l :: l in lists ==> l.Some?
  }

  /** The lists before the first failing one. */
  function Successful(lists: seq<Option<seq<Object>>>): seq<Option<seq<Object>>> {
    if lists == [] || lists[0].None? then [] else [lists[0]] + Successful(lists[1..])
  }

  lemma {:induction false} SuccessfulPrefix(lists: seq<Option<seq<Object>>>, i: nat)
    requires i <= |lists| && AllListed(lists[..i])
    ensures i < |lists| && lists[i].None? ==> Successful(lists) == lists[..i] && !AllListed(lists)
    ensures i == |lists| ==> Successful(lists) == lists == lists[..i] && AllListed(lists)
  {
    if i == 0 {
      if lists != [] {
        assert lists[0] in lists;
      }
    } else {
      assert lists[1..][..i - 1] == lists[..i][1..];
      assert lists[..i][0] in lists[..i];
      SuccessfulPrefix(lists[1..], i - 1);
      if i < |lists| {
        assert lists[i] in lists;
      }
    }
  }

  lemma KeysInNext(objs: seq<Object>, j: nat, namespace: string, ctx: string)
    requires j < |objs|
    ensures KeysIn(objs[..j + 1], namespace, ctx) ==
            KeysIn(objs[..j], namespace, ctx) + (if objs[j].ctx == ctx then {WatchKey(namespace, objs[j].name)} else {})
  {
    assert objs[..j + 1] == objs[..j] + [objs[j]];
  }

  lemma KeysInPrefix(objs: seq<Object>, j: nat, namespace: string, ctx: string)
    requires j <= |objs|
    ensures KeysIn(objs[..j], namespace, ctx) <= KeysIn(objs, namespace, ctx)
  {
  }

  lemma KeysPrefix(lists: seq<Option<seq<Object>>>, i: nat, namespace: string, ctx: string)
    requires i <= |lists|
    ensures Keys(lists[..i], namespace, ctx) <= Keys(lists, namespace, ctx)
  {
  }

  lemma KeysNext(lists: seq<Option<seq<Object>>>, i: nat, namespace: string, ctx: string)
    requires i < |lists| && lists[i].Some?
    ensures Keys(lists[..i + 1], namespace, ctx) ==
            Keys(lists[..i], namespace, ctx) + KeysIn(lists[i].value, namespace, ctx)
    ensures AllListed(lists[..i]) ==> AllListed(lists[..i + 1])
  {
    var more := lists[..i + 1];
    assert more == lists[..i] + [lists[i]];
    forall k | k in KeysIn(lists[i].value, namespace, ctx) ensures k in Keys(more, namespace, ctx) {
      var o :| o in lists[i].value && o.ctx == ctx && WatchKey(namespace, o.name) == k;
      assert lists[i] in more;
    }
    forall k | k in Keys(lists[..i], namespace, ctx) ensures k in Keys(more, namespace, ctx) {
      var l, o :| l in lists[..i] && l.Some? && o in l.value && o.ctx == ctx && WatchKey(namespace, o.name) == k;
      assert l in more;
    }
  }
}
