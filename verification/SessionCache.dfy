/** The in-process cache of verified session counts, and the class that keeps it. */
module SessionCache {

  import opened Results
  import opened ReceiptChain

  const MAX_BYTES := 16 * 1024 * 1024
  const MAX_RECEIPTS := 8192
  const MAX_ENTRIES: nat := 128

  /** What the passport digest identifies: the grant id, and everything else that is hashed with it. */
  datatype Passport = Passport(jti: string, rest: string)

  /** An entry; `hashed` is the text its running hash has consumed. */
  datatype Entry = Entry(passport: Passport, hashed: string, size: nat, count: Count)

  /** The ordered dictionary: least recently used first. */
  datatype Cache = Cache(entries: map<string, Entry>, order: seq<string>)

  ghost predicate Ordered(c: Cache) {
    Distinct(c.order) && forall k :: k in c.order <==> k in c.entries
  }

  predicate Distinct(order: seq<string>) {
    forall i, j :: 0 <= i < j < |order| ==> order[i] != order[j]
  }

  function Dropped(order: seq<string>, key: string): (r: seq<string>)
    ensures forall k :: k in r <==> k in order && k != key
  {
    if order == [] then []
    else
      assert order == [order[0]] + order[1..];
      var rest := Dropped(order[1..], key);
      if order[0] == key then rest else [order[0]] + rest
  }

  lemma {:induction false} DroppedDistinct(order: seq<string>, key: string)
    requires Distinct(order)
    ensures Distinct(Dropped(order, key)) && |Dropped(order, key)| == if key in order then |order| - 1 else |order|
  {
    if order != [] {
      var tail := order[1..];
      assert order == [order[0]] + tail && order[0] !in tail;
      DroppedDistinct(tail, key);
      var rest := Dropped(tail, key);
      assert order[0] !in rest;
      assert forall i :: 0 <= i < |rest| ==> rest[i] in rest;
    }
  }

  function Touch(c: Cache, key: string): Cache {
    c.(order := Dropped(c.order, key) + [key])
  }

  function Put(c: Cache, key: string, e: Entry): Cache {
    Touch(c.(entries := c.entries[key := e]), key)
  }

  function Trim(c: Cache): Cache
    decreases |c.order|
  {
    if |c.order| <= MAX_ENTRIES then c
    else Trim(Cache(map k | k in c.entries && k != c.order[0] :: c.entries[k], c.order[1..]))
  }

  predicate Hit(c: Cache, path: string, content: string, passport: Passport) {
    && path in c.entries && c.entries[path].passport == passport
    && c.entries[path].size == |content| && c.entries[path].hashed == content
  }

  predicate WithinLimits(content: string) {
    |content| <= MAX_BYTES && |Lines(content)| <= MAX_RECEIPTS
  }

  /** The answer without a cache: verify the whole chain and recount it; None where it raises. */
  function FullLoad(key: Signer, content: string, passport: Passport): Option<Count> {
    if !WithinLimits(content) then None
    else match VerifyChain(key, Lines(content))
         case None => None
         case Some(claims) => Some(Recount(claims, passport.jti))
  }

  datatype Loaded = Loaded(cache: Cache, count: Option<Count>)

  /** `_verified_pretool_session_state_unlocked`: the new cache and the counts. */
  function Load(key: Signer, c: Cache, path: string, content: string, passport: Passport): Loaded {
    if !WithinLimits(content) then Loaded(c, None)
    else if Hit(c, path, content, passport) then Loaded(Touch(c, path), Some(c.entries[path].count))
    else match FullLoad(key, content, passport)
         case None => Loaded(c, None)
         case Some(n) => Loaded(Trim(Put(c, path, Entry(passport, content, |content|, n))), Some(n))
  }

  /** An entry after one more line, whose receipt it counts if it permits a call, whatever its grant. */
  function AdvancedTo(e: Entry, token: string, receipt: Claims): Entry {
    Entry(e.passport, e.hashed + token + "\n", e.size + |token| + 1, if Permits(receipt) then Add(e.count, receipt) else e.count)
  }

  /** `_advance_verified_session_cache_unlocked`. */
  function Advance(c: Cache, path: string, token: string, receipt: Claims): Cache {
    if path !in c.entries then c else Put(c, path, AdvancedTo(c.entries[path], token, receipt))
  }

  lemma PutOrdered(c: Cache, key: string, e: Entry)
    requires Ordered(c)
    ensures Ordered(Put(c, key, e)) && |Put(c, key, e).order| == if key in c.entries then |c.order| else |c.order| + 1
  {
    TouchDistinct(c.order, key);
  }

  lemma TouchDistinct(order: seq<string>, key: string)
    requires Distinct(order)
    ensures Distinct(Dropped(order, key) + [key])
    ensures forall k :: k in Dropped(order, key) + [key] <==> k in order || k == key
    ensures |Dropped(order, key) + [key]| == if key in order then |order| else |order| + 1
  {
    hide Dropped;
    DroppedDistinct(order, key);
    var d := Dropped(order, key);
    assert forall i :: 0 <= i < |d| ==> d[i] in d;
  }

  lemma {:induction false} TrimOrdered(c: Cache)
    requires Ordered(c)
    ensures Ordered(Trim(c)) && |Trim(c).order| <= MAX_ENTRIES
    ensures |Trim(c).order| == if |c.order| <= MAX_ENTRIES then |c.order| else MAX_ENTRIES
    ensures forall k :: k in Trim(c).entries ==> k in c.entries && Trim(c).entries[k] == c.entries[k]
    ensures Trim(c).order == c.order[|c.order| - |Trim(c).order|..]
    decreases |c.order|
  {
    if |c.order| > MAX_ENTRIES {
      var d := Cache(map k | k in c.entries && k != c.order[0] :: c.entries[k], c.order[1..]);
      assert c.order == [c.order[0]] + c.order[1..];
      TrimOrdered(d);
    }
  }

  ghost predicate Bounded(c: Cache) {
    Ordered(c) && |c.order| <= MAX_ENTRIES
  }

  /** Loading keeps the dictionary within its bound, changes no other entry, and never evicts the entry it used. */
  lemma LoadBounded(key: Signer, c: Cache, path: string, content: string, passport: Passport)
    requires Bounded(c)
    ensures var l := Load(key, c, path, content, passport);
            && Bounded(l.cache) && |l.cache.order| <= 128
            && (forall k :: k in l.cache.entries && k != path ==> k in c.entries && l.cache.entries[k] == c.entries[k])
            && (l.count.Some? ==> Hit(l.cache, path, content, passport) && l.cache.entries[path].count == l.count.value
                                  && l.cache.order[|l.cache.order| - 1] == path)
            && (l.count.None? ==> l.cache == c)
  {
    hide FullLoad, WithinLimits, Dropped, Trim, Distinct;
    TouchDistinct(c.order, path);
    if WithinLimits(content) && !Hit(c, path, content, passport) && FullLoad(key, content, passport).Some? {
      PutTrimmed(c, path, Entry(passport, content, |content|, FullLoad(key, content, passport).value));
    }
  }

  lemma PutTrimmed(c: Cache, path: string, e: Entry)
    requires Bounded(c)
    ensures var t := Trim(Put(c, path, e));
            && Bounded(t) && path in t.entries && t.entries[path] == e && t.order != [] && t.order[|t.order| - 1] == path
            && (forall k :: k in t.entries && k != path ==> k in c.entries && t.entries[k] == c.entries[k])
  {
    hide Dropped, Trim, Distinct;
    var d := Put(c, path, e);
    PutOrdered(c, path, e);
    TrimOrdered(d);
    var t := Trim(d);
    assert d.order[|d.order| - 1] == path && |t.order| > 0;
    assert t.order[|t.order| - 1] == path && path in t.order;
  }

  lemma AdvanceBounded(c: Cache, path: string, token: string, receipt: Claims)
    requires Bounded(c)
    ensures Bounded(Advance(c, path, token, receipt))
    ensures forall k :: k in Advance(c, path, token, receipt).entries <==> k in c.entries
    ensures forall k :: k in c.entries && k != path ==> Advance(c, path, token, receipt).entries[k] == c.entries[k]
  {
    if path in c.entries { PutOrdered(c, path, AdvancedTo(c.entries[path], token, receipt)); }
  }

  /** The module-level dictionary of one hook process. */
  class Sessions {
    var entries: map<string, Entry>
    var order: seq<string>

    ghost function View(): Cache
      reads this
    {
      Cache(entries, order)
    }

    ghost predicate Valid()
      reads this
    {
      Bounded(View())
    }

    constructor ()
      ensures Valid() && View() == Cache(map[], [])
    {
      entries, order := map[], [];
    }

    method MoveToEnd(path: string)
      modifies this`order
      ensures View() == Touch(old(View()), path)
    {
      order := Dropped(order, path) + [path];
    }

    method LoadState(key: Signer, path: string, content: string, passport: Passport) returns (r: Option<Count>)
      requires Valid()
      modifies this
      ensures Valid()
      ensures Loaded(View(), r) == Load(key, old(View()), path, content, passport)
    {
      LoadBounded(key, View(), path, content, passport);
      if |content| > MAX_BYTES { return None; }
      var tokens := Lines(content);
      if |tokens| > MAX_RECEIPTS { return None; }
      if path in entries && entries[path].passport == passport && entries[path].size == |content| && entries[path].hashed == content {
        var count := entries[path].count;
        MoveToEnd(path);
        return Some(count);
      }
      var claims := VerifyReceipts(key, tokens);
      if claims.None? { return None; }
      var n := CountPermitted(claims.value, passport.jti);
      entries := entries[path := Entry(passport, content, |content|, n)];
      MoveToEnd(path);
      ghost var put := View();
      while |order| > MAX_ENTRIES
        invariant Trim(View()) == Trim(put)
      {
        entries := map k | k in entries && k != order[0] :: entries[k];
        order := order[1..];
      }
      return Some(n);
    }

    method AdvanceState(path: string, token: string, receipt: Claims)
      requires Valid()
      modifies this
      ensures Valid() && View() == Advance(old(View()), path, token, receipt)
    {
      AdvanceBounded(View(), path, token, receipt);
      if path !in entries { return; }
      var e := entries[path];
      var count := e.count;
      if Permits(receipt) {
        count := Count(count.total + 1, Bump(count.byClass, receipt.sideEffect));
      }
      entries := entries[path := Entry(e.passport, e.hashed + token + "\n", e.size + |token| + 1, count)];
      MoveToEnd(path);
    }
  }
}
