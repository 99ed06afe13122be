/** The cooldown map of one process, and its copy in etcd. */
module Suppression {
  import opened Checker
  import opened Keys

  const KEY_PREFIX := "/gowatch/suppressor/"

  /** A write that has been started in the background; whether and when it arrives is not up to the suppressor. */
  datatype Put = Put(key: string, value: int)

  /** One stored entry; the value is absent when it does not decode. */
  datatype Kv = Kv(key: string, value: Option<int>)

  function Key(ruleName: string, target: string): string {
    Join(':', ruleName, target)
  }

  /** May a rule fire now? The clock is read once to look at the age of the entry. */
  predicate MayFire(fired: map<string, int>, key: string, cooldown: int, checkAt: int) {
    cooldown <= 0 || key !in fired || checkAt - fired[key] >= cooldown
  }

  /** The map after one call; the clock is read a second time for the new entry. */
  function AfterAllow(fired: map<string, int>, key: string, cooldown: int, checkAt: int, markAt: int)
    : map<string, int>
  {
    if cooldown > 0 && MayFire(fired, key, cooldown, checkAt) then fired[key := markAt] else fired
  }

  /** Stored entries laid over a map, in the order of the response; undecodable ones are skipped. */
  function Loaded(fired: map<string, int>, kvs: seq<Kv>): map<string, int>
    requires forall kv :: kv in kvs ==> KEY_PREFIX <= kv.key
  {
    if kvs == [] then fired else
    var m := Loaded(fired, kvs[..|kvs| - 1]);
    var last := kvs[|kvs| - 1];
    if last.value.None? then m else m[last.key[|KEY_PREFIX|..] := last.value.value]
  }

  class Suppressor {
    var lastFired: map<string, int>

    constructor ()
      ensures lastFired == map[]
    {
      lastFired := map[];
    }

    method Allow(ruleName: string, target: string, cooldown: int, checkAt: int, markAt: int) returns (allowed: bool)
      modifies this
      ensures allowed == MayFire(old(lastFired), Key(ruleName, target), cooldown, checkAt)
      ensures lastFired == AfterAllow(old(lastFired), Key(ruleName, target), cooldown, checkAt, markAt)
      ensures var key := ruleName + ":" + target;
              && (allowed <==> cooldown <= 0 || key !in old(lastFired) || checkAt - old(lastFired)[key] >= cooldown)
              && lastFired == if allowed && cooldown > 0 then old(lastFired)[key := markAt] else old(lastFired)
    {
      if cooldown <= 0 {
        return true;
      }
      var key := ruleName + ":" + target;
      if key !in lastFired || checkAt - lastFired[key] >= cooldown {
        lastFired := lastFired[key := markAt];
        return true;
      }
      return false;
    }

    /** On success the Put is started, with a clock reading of its own. */
    method AllowAndPersist(hasClient: bool, ruleName: string, target: string, cooldown: int,
                           checkAt: int, markAt: int, stampAt: int)
      returns (allowed: bool, put: Option<Put>)
      modifies this
      ensures allowed == MayFire(old(lastFired), Key(ruleName, target), cooldown, checkAt)
      ensures lastFired == AfterAllow(old(lastFired), Key(ruleName, target), cooldown, checkAt, markAt)
      ensures put == if allowed && hasClient then Some(Put(KEY_PREFIX + Key(ruleName, target), stampAt)) else None
      ensures put == if allowed && hasClient then Some(Put("/gowatch/suppressor/" + (ruleName + ":" + target), stampAt))
                     else None
    {
      allowed := Allow(ruleName, target, cooldown, checkAt, markAt);
      if !allowed || !hasClient {
        return allowed, None;
      }
      put := Some(Put(KEY_PREFIX + ruleName + ":" + target, stampAt));
      assert KEY_PREFIX + ruleName + ":" + target == KEY_PREFIX + Key(ruleName, target);
    }

    /** Lays what etcd holds over the memory; an absent response is a failed read and changes nothing. */
    method LoadFromEtcd(response: Option<seq<Kv>>) returns (ok: bool)
      requires response.Some? ==> forall kv :: kv in response.value ==> KEY_PREFIX <= kv.key
      modifies this
      ensures ok == response.Some?
      ensures lastFired == if response.Some? then Loaded(old(lastFired), response.value) else old(lastFired)
    {
      if response.None? {
        return false;
      }
      var kvs := response.value;
      for i := 0 to |kvs|
        invariant lastFired == Loaded(old(lastFired), kvs[..i])
      {
        assert kvs[..i + 1][..i] == kvs[..i];
        if kvs[i].value.None? {
          continue;
        }
        lastFired := lastFired[kvs[i].key[|KEY_PREFIX|..] := kvs[i].value.value];
      }
      assert kvs[..|kvs|] == kvs;
      return true;
    }
  }

  /** Every entry of a response is in the store, under the prefix that was asked for. */
  ghost predicate FromStore(kvs: seq<Kv>, store: map<string, int>) {
    forall i :: 0 <= i < |kvs| ==>
      KEY_PREFIX <= kvs[i].key && kvs[i].key in store && kvs[i].value == Some(store[kvs[i].key])
  }

  /** What the store holds, as a response in some key order. */
  ghost predicate ResponseOf(kvs: seq<Kv>, store: map<string, int>) {
    && FromStore(kvs, store)
    && (forall key :: key in store ==> exists i :: 0 <= i < |kvs| && kvs[i].key == key)
  }

  /** Every loaded entry is either a stored one or an untouched old one. */
  lemma {:induction false} LoadedFrom(fired: map<string, int>, kvs: seq<Kv>, store: map<string, int>, key: string)
    requires FromStore(kvs, store)
    ensures (exists i :: 0 <= i < |kvs| && kvs[i].key == KEY_PREFIX + key)
      ==> key in Loaded(fired, kvs) && Loaded(fired, kvs)[key] == store[KEY_PREFIX + key]
    ensures (forall i :: 0 <= i < |kvs| ==> kvs[i].key != KEY_PREFIX + key)
      ==> (key in Loaded(fired, kvs) <==> key in fired) && (key in fired ==> Loaded(fired, kvs)[key] == fired[key])
  {
    if kvs != [] {
      var front, last := kvs[..|kvs| - 1], kvs[|kvs| - 1];
      LoadedFrom(fired, front, store, key);
      assert last.key == KEY_PREFIX + last.key[|KEY_PREFIX|..];
      if last.key == KEY_PREFIX + key {
        assert last.key[|KEY_PREFIX|..] == key;
      } else {
        assert forall i :: 0 <= i < |kvs| && kvs[i].key == KEY_PREFIX + key ==> front[i].key == KEY_PREFIX + key;
      }
    }
  }

  /** Loading overwrites exactly the stored keys, even by an older value, and keeps every other entry. */
  lemma LoadOverlays(fired: map<string, int>, kvs: seq<Kv>, store: map<string, int>, key: string)
    requires ResponseOf(kvs, store)
    ensures KEY_PREFIX + key in store
      ==> key in Loaded(fired, kvs) && Loaded(fired, kvs)[key] == store[KEY_PREFIX + key]
    ensures KEY_PREFIX + key !in store
      ==> (key in Loaded(fired, kvs) <==> key in fired) && (key in fired ==> Loaded(fired, kvs)[key] == fired[key])
  {
    LoadedFrom(fired, kvs, store, key);
  }

  /** The value that the last decodable entry for a key has, if there is one. */
  function LastDecoded(kvs: seq<Kv>, key: string): Option<int> {
    if kvs == [] then None else
    var last := kvs[|kvs| - 1];
    if last.key == "/gowatch/suppressor/" + key && last.value.Some? then last.value
    else LastDecoded(kvs[..|kvs| - 1], key)
  }

  /** For each key the last entry that decodes decides, and without one the memory stays. */
  lemma {:induction false} LastDecodedWins(fired: map<string, int>, kvs: seq<Kv>, key: string)
    requires forall kv :: kv in kvs ==> KEY_PREFIX <= kv.key
    ensures var loaded, last := Loaded(fired, kvs), LastDecoded(kvs, key);
            if last.Some? then key in loaded && loaded[key] == last.value
            else (key in loaded <==> key in fired) && (key in fired ==> loaded[key] == fired[key])
  {
    if kvs != [] {
      var front, last := kvs[..|kvs| - 1], kvs[|kvs| - 1];
      LastDecodedWins(fired, front, key);
      assert last.key == KEY_PREFIX + last.key[|KEY_PREFIX|..];
      assert last.key == KEY_PREFIX + key ==> last.key[|KEY_PREFIX|..] == key;
    }
  }

  // ----- many callers of one suppressor -----

  /** One call, by whichever goroutine; the lock puts all calls into one order. */
  datatype Call = Call(key: string, cooldown: int, checkAt: int, markAt: int)

  function AfterCalls(calls: seq<Call>): map<string, int> {
    if calls == [] then map[] else
    var last := calls[|calls| - 1];
    AfterAllow(AfterCalls(calls[..|calls| - 1]), last.key, last.cooldown, last.checkAt, last.markAt)
  }

  /** The calls for a key that were allowed. */
  function Allowed(calls: seq<Call>, key: string): seq<Call> {
    if calls == [] then [] else
    var front, last := calls[..|calls| - 1], calls[|calls| - 1];
    if last.key == key && MayFire(AfterCalls(front), key, last.cooldown, last.checkAt)
    then Allowed(front, key) + [last] else Allowed(front, key)
  }

  ghost predicate SpacedCalls(calls: seq<Call>, cooldown: int) {
    forall i, j :: 0 <= i < j < |calls| ==> calls[j].checkAt - calls[i].markAt >= cooldown
  }

  /** The entry of a key is the newest mark of an allowed call, and all of them are spaced. */
  ghost predicate EntryIsNewest(fired: map<string, int>, allowed: seq<Call>, key: string, cooldown: int) {
    && (key in fired <==> allowed != [])
    && (forall i :: 0 <= i < |allowed| ==> allowed[i].markAt <= fired[key])
    && SpacedCalls(allowed, cooldown)
  }

  lemma OneMoreCall(fired: map<string, int>, allowed: seq<Call>, call: Call, key: string, cooldown: int)
    requires EntryIsNewest(fired, allowed, key, cooldown) && cooldown > 0
    requires call.key == key ==> call.cooldown == cooldown && call.checkAt <= call.markAt
    ensures EntryIsNewest(
      AfterAllow(fired, call.key, call.cooldown, call.checkAt, call.markAt),
      if call.key == key && MayFire(fired, key, call.cooldown, call.checkAt) then allowed + [call] else allowed,
      key, cooldown)
  {
  }

  /** However several collectors interleave their calls, the firings of a key are at least its cooldown apart. */
  lemma {:induction false} InterleavedCallsAreSpaced(calls: seq<Call>, key: string, cooldown: int)
    requires cooldown > 0
    requires forall c :: c in calls && c.key == key ==> c.cooldown == cooldown && c.checkAt <= c.markAt
    ensures EntryIsNewest(AfterCalls(calls), Allowed(calls, key), key, cooldown)
    ensures SpacedCalls(Allowed(calls, key), cooldown)
  {
    if calls != [] {
      var front, last := calls[..|calls| - 1], calls[|calls| - 1];
      assert last in calls;
      InterleavedCallsAreSpaced(front, key, cooldown);
      OneMoreCall(AfterCalls(front), Allowed(front, key), last, key, cooldown);
    }
  }
}
