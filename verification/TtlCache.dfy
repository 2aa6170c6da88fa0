/** A key-expiry cache with the interface that ingest uses of SparKV. */
module TtlCache {
  import opened Text

  type Expiries = map<string, nat>

  /** The entries whose time has not come yet. */
  function Live(data: Expiries, now: nat): Expiries {
    map k | k in data && now < data[k] :: data[k]
  }

  predicate Accepts(data: Expiries, key: string, maxItems: nat) {
    key in data || |data| < maxItems
  }

  function Put(data: Expiries, key: string, expiry: nat, maxItems: nat): Expiries {
    if Accepts(data, key, maxItems) then data[key := expiry] else data
  }

  // ---- histories of inserts ---------------------------------------------------

  datatype Insert = Insert(key: string, ttl: nat, now: nat)

  predicate IsAccepted(data: Expiries, i: Insert, maxItems: nat, maxTtl: nat) {
    i.ttl <= maxTtl && Accepts(Live(data, i.now), i.key, maxItems)
  }

  /** An insert clears what has expired, accepted or not. */
  function AfterInsert(data: Expiries, i: Insert, maxItems: nat, maxTtl: nat): Expiries {
    if i.ttl <= maxTtl then Put(Live(data, i.now), i.key, i.now + i.ttl, maxItems) else Live(data, i.now)
  }

  /** The key is kept until then, or there was no place for it. */
  predicate KeepsUntil(data: Expiries, key: string, until: nat, maxItems: nat) {
    if key in data then data[key] == until else maxItems <= |data|
  }

  /** What an insert does to the inserted key: it gets its time, unless the cache was full of others. */
  lemma InsertedKey(data: Expiries, i: Insert, maxItems: nat, maxTtl: nat)
    requires i.ttl <= maxTtl
    ensures KeepsUntil(AfterInsert(data, i, maxItems, maxTtl), i.key, i.now + i.ttl, maxItems)
  {
  }

  /** ... and to the others: those whose time has not come stay as they are, the rest goes. */
  lemma OtherKeys(data: Expiries, i: Insert, maxItems: nat, maxTtl: nat, k: string)
    requires k != i.key
    ensures var after := AfterInsert(data, i, maxItems, maxTtl);
      && (k in after <==> k in data && i.now < data[k])
      && (k in after ==> after[k] == data[k])
  {
  }

  function Data(history: seq<Insert>, maxItems: nat, maxTtl: nat): Expiries {
    if history == [] then map[]
    else AfterInsert(Data(history[..|history| - 1], maxItems, maxTtl), history[|history| - 1], maxItems, maxTtl)
  }

  /** When the last accepted insert of `key` expires. */
  function LastExpiry(history: seq<Insert>, key: string, maxItems: nat, maxTtl: nat): Option<nat> {
    if history == [] then None
    else
      var front, last := history[..|history| - 1], history[|history| - 1];
      if last.key == key && IsAccepted(Data(front, maxItems, maxTtl), last, maxItems, maxTtl)
          then Some(last.now + last.ttl)
      else LastExpiry(front, key, maxItems, maxTtl)
  }

  predicate InTime(history: seq<Insert>) {
    && (forall i, j :: 0 <= i < j < |history| ==> history[i].now <= history[j].now)
    && (forall i :: 0 <= i < |history| ==> history[i].ttl > 0)
  }

  /** What a lookup finds: a key is there from its last accepted insert until the first insert of
      any key after its time. So a live key is always found, and an expired one may be. */
  lemma {:induction false} LookupMeans(history: seq<Insert>, key: string, maxItems: nat, maxTtl: nat)
    requires InTime(history)
    ensures var expiry := LastExpiry(history, key, maxItems, maxTtl);
      && (key in Data(history, maxItems, maxTtl)
          <==> expiry.Some? && history != [] && history[|history| - 1].now < expiry.value)
      && (key in Data(history, maxItems, maxTtl) ==> Data(history, maxItems, maxTtl)[key] == expiry.value)
  {
    if history != [] {
      var front := history[..|history| - 1];
      assert forall i :: 0 <= i < |front| ==> front[i] == history[i];
      LookupMeans(front, key, maxItems, maxTtl);
    }
  }

  lemma {:induction false} OthersLeaveExpiry(history: seq<Insert>, more: seq<Insert>, key: string, maxItems: nat,
                                             maxTtl: nat)
    requires forall i :: 0 <= i < |more| ==> more[i].key != key
    ensures LastExpiry(history + more, key, maxItems, maxTtl) == LastExpiry(history, key, maxItems, maxTtl)
  {
    if more == [] {
      assert history + more == history;
    } else {
      var front := more[..|more| - 1];
      OthersLeaveExpiry(history, front, key, maxItems, maxTtl);
      assert (history + more)[..|history + more| - 1] == history + front;
    }
  }

  /** When a key is forgotten: while other keys are inserted, it is found up to the first of those
      inserts that comes at its time or later. */
  lemma ForgottenIff(history: seq<Insert>, more: seq<Insert>, key: string, maxItems: nat, maxTtl: nat)
    requires InTime(history + more) && more != []
    requires forall i :: 0 <= i < |more| ==> more[i].key != key
    ensures var expiry := LastExpiry(history, key, maxItems, maxTtl);
      key in Data(history + more, maxItems, maxTtl) <==> expiry.Some? && more[|more| - 1].now < expiry.value
  {
    hide *;
    var all := history + more;
    assert all[|all| - 1] == more[|more| - 1];
    LookupMeans(all, key, maxItems, maxTtl);
    OthersLeaveExpiry(history, more, key, maxItems, maxTtl);
  }

  class TtlCache {
    var data: Expiries
    const maxItems: nat
    const maxTtl: nat

    constructor (maxItems: nat, maxTtl: nat)
      ensures data == map[] && this.maxItems == maxItems && this.maxTtl == maxTtl
    {
      this.data := map[];
      this.maxItems := maxItems;
      this.maxTtl := maxTtl;
    }

    /** Expired keys may still be found: nothing clears them between two inserts. */
    method ContainsKey(key: string) returns (found: bool)
      ensures found <==> key in data
    {
      found := key in data;
    }

    /** Clears what has expired, then inserts unless the cache is full or the time is too long. */
    method SetWithTtl(key: string, ttl: nat, now: nat) returns (ok: bool)
      modifies this
      ensures ok <==> IsAccepted(old(data), Insert(key, ttl, now), maxItems, maxTtl)
      ensures data == AfterInsert(old(data), Insert(key, ttl, now), maxItems, maxTtl)
    {
      data := Live(data, now);
      if key !in data && maxItems <= |data| {
        return false;
      }
      if maxTtl < ttl {
        return false;
      }
      data := data[key := now + ttl];
      ok := true;
    }
  }
}
