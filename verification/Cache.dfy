/** The in-process LRU and TTL cache of rag-cache. */
module Cache {
  import opened Options

  /* The clock is a parameter: every operation is given the monotonic time at which it runs. The classes
     update their fields in place and are proved against functions on the ordered entries; the laws
     over whole traces are proved about those functions. */

  type Bytes = seq<bv8>

  /** An entry of the ordered dictionary; the least recently used entry comes first. */
  datatype Slot = Slot(key: string, value: Bytes, expiresAt: Option<real>)

  datatype Limits = Limits(maxItems: Option<nat>, maxBytes: Option<nat>, defaultTtl: Option<real>) {
    /** Constructor arguments that are None, zero or negative mean unbounded. */
    predicate Positive() {
      (maxItems.Some? ==> maxItems.value > 0) && (maxBytes.Some? ==> maxBytes.value > 0)
    }
  }

  // ----- Ordered entries ---------------------------------------------------------------------

  ghost predicate Distinct(d: seq<Slot>) {
    forall i, j :: 0 <= i < j < |d| ==> d[i].key != d[j].key
  }

  function Keys(d: seq<Slot>): set<string> { set i | 0 <= i < |d| :: d[i].key }

  function Lookup(d: seq<Slot>, key: string): (r: Option<Slot>)
    ensures r.Some? ==> r.value in d && r.value.key == key
    ensures r.None? <==> key !in Keys(d)
  {
    if d == [] then None
    else if d[0].key == key then Some(d[0])
    else
      assert d == [d[0]] + d[1..];
      Lookup(d[1..], key)
  }

  /** The entries in order, those with the key removed. */
  function Without(d: seq<Slot>, key: string): seq<Slot> {
    if d == [] then [] else (if d[0].key == key then [] else [d[0]]) + Without(d[1..], key)
  }

  function Total(d: seq<Slot>): nat {
    if d == [] then 0 else |d[0].value| + Total(d[1..])
  }

  function Expired(slot: Slot, now: real): bool { slot.expiresAt.Some? && now >= slot.expiresAt.value }

  function Expiry(lim: Limits, ttl: Option<real>, now: real): Option<real> {
    match if ttl.None? then lim.defaultTtl else ttl
    case None => None
    case Some(t) => Some(now + t)
  }

  // ----- Specification of the operations --------------------------------------------------------

  function TrimItems(d: seq<Slot>, maxItems: Option<nat>): seq<Slot> {
    if maxItems.Some? && |d| > maxItems.value then d[|d| - maxItems.value..] else d
  }

  function TrimBytes(d: seq<Slot>, maxBytes: Option<nat>): seq<Slot> {
    if maxBytes.Some? && Total(d) > maxBytes.value && d != [] then TrimBytes(d[1..], maxBytes) else d
  }

  function Trimmed(lim: Limits, d: seq<Slot>): seq<Slot> {
    TrimBytes(TrimItems(d, lim.maxItems), lim.maxBytes)
  }

  function Found(d: seq<Slot>, key: string, now: real): Option<Bytes> {
    match Lookup(d, key)
    case None => None
    case Some(slot) => if Expired(slot, now) then None else Some(slot.value)
  }

  function AfterGet(d: seq<Slot>, key: string, now: real): seq<Slot> {
    match Lookup(d, key)
    case None => d
    case Some(slot) => Without(d, key) + if Expired(slot, now) then [] else [slot]
  }

  function Stored(lim: Limits, d: seq<Slot>, key: string, value: Bytes, ttl: Option<real>, now: real): seq<Slot> {
    Without(d, key) + [Slot(key, value, Expiry(lim, ttl, now))]
  }

  function AfterSet(lim: Limits, d: seq<Slot>, key: string, value: Bytes, ttl: Option<real>, now: real): seq<Slot> {
    Trimmed(lim, Stored(lim, d, key, value, ttl, now))
  }

  datatype Op =
    | Get(key: string, now: real)
    | Set(key: string, value: Bytes, ttl: Option<real>, now: real)
    | Delete(key: string)
    | Clear

  function Next(lim: Limits, d: seq<Slot>, op: Op): seq<Slot> {
    match op
    case Get(key, now) => AfterGet(d, key, now)
    case Set(key, value, ttl, now) => AfterSet(lim, d, key, value, ttl, now)
    case Delete(key) => Without(d, key)
    case Clear => []
  }

  /** The entries after a trace on an empty cache. */
  function Run(lim: Limits, ops: seq<Op>): seq<Slot> {
    if ops == [] then [] else Next(lim, Run(lim, ops[..|ops| - 1]), ops[|ops| - 1])
  }

  // ----- Facts about ordered entries ---------------------------------------------------------------

  lemma {:induction false} WithoutKeys(d: seq<Slot>, key: string)
    ensures Keys(Without(d, key)) == Keys(d) - {key}
    ensures key !in Keys(d) ==> Without(d, key) == d
  {
    if d != [] {
      WithoutKeys(d[1..], key);
      KeysSplit([d[0]], d[1..]);
      assert d == [d[0]] + d[1..];
      KeysSplit(if d[0].key == key then [] else [d[0]], Without(d[1..], key));
    }
  }

  lemma {:induction false} WithoutSize(d: seq<Slot>, key: string)
    requires Distinct(d) && key in Keys(d)
    ensures |Without(d, key)| == |d| - 1
    ensures Total(Without(d, key)) == Total(d) - |Lookup(d, key).value.value|
  {
    HeadKeyIsFresh(d);
    if d[0].key == key {
      WithoutKeys(d[1..], key);
      assert Without(d, key) == d[1..];
    } else {
      assert key in Keys(d[1..]);
      WithoutSize(d[1..], key);
      assert ([d[0]] + Without(d[1..], key))[1..] == Without(d[1..], key);
    }
  }

  lemma {:induction false} WithoutDistinct(d: seq<Slot>, key: string)
    requires Distinct(d)
    ensures Distinct(Without(d, key))
  {
    if d != [] {
      WithoutDistinct(d[1..], key);
      WithoutKeys(d[1..], key);
      HeadKeyIsFresh(d);
      var rest := Without(d[1..], key);
      assert forall j :: 0 <= j < |rest| ==> rest[j].key in Keys(rest);
    }
  }

  lemma WithoutFacts(d: seq<Slot>, key: string)
    ensures Keys(Without(d, key)) == Keys(d) - {key}
    ensures key !in Keys(d) ==> Without(d, key) == d
    ensures Distinct(d) ==> Distinct(Without(d, key))
    ensures Distinct(d) && key in Keys(d) ==>
              |Without(d, key)| == |d| - 1 && Total(Without(d, key)) == Total(d) - |Lookup(d, key).value.value|
  {
    WithoutKeys(d, key);
    if Distinct(d) {
      WithoutDistinct(d, key);
      if key in Keys(d) {
        WithoutSize(d, key);
      }
    }
  }

  lemma HeadKeyIsFresh(d: seq<Slot>)
    requires d != [] && Distinct(d)
    ensures d[0].key !in Keys(d[1..]) && Distinct(d[1..])
  {
  }

  lemma KeysSplit(a: seq<Slot>, b: seq<Slot>)
    ensures Keys(a + b) == Keys(a) + Keys(b)
  {
    forall k | k in Keys(a) + Keys(b) ensures k in Keys(a + b) {
      if k in Keys(a) {
        var i :| 0 <= i < |a| && a[i].key == k;
        assert (a + b)[i].key == k;
      } else {
        var i :| 0 <= i < |b| && b[i].key == k;
        assert (a + b)[|a| + i].key == k;
      }
    }
  }

  lemma {:induction false} TotalSplit(a: seq<Slot>, b: seq<Slot>)
    ensures Total(a + b) == Total(a) + Total(b)
  {
    if a == [] {
      assert a + b == b;
    } else {
      assert (a + b)[1..] == a[1..] + b;
      TotalSplit(a[1..], b);
    }
  }

  lemma AppendDistinct(d: seq<Slot>, slot: Slot)
    requires Distinct(d) && slot.key !in Keys(d)
    ensures Distinct(d + [slot])
  {
    assert forall i :: 0 <= i < |d| ==> d[i].key in Keys(d);
  }

  /** Byte eviction removes the shortest run of oldest entries that makes the rest fit. */
  lemma {:induction false} TrimBytesFacts(d: seq<Slot>, maxBytes: Option<nat>)
    ensures var t := TrimBytes(d, maxBytes);
            && |t| <= |d| && t == d[|d| - |t|..]
            && (maxBytes.Some? ==> Total(t) <= maxBytes.value)
            && (forall k :: 0 <= k < |d| - |t| ==> maxBytes.Some? && Total(d[k..]) > maxBytes.value)
  {
    if maxBytes.Some? && Total(d) > maxBytes.value && d != [] {
      TrimBytesFacts(d[1..], maxBytes);
      var t := TrimBytes(d, maxBytes);
      assert t == d[1..][|d| - 1 - |t|..] == d[|d| - |t|..];
      forall k | 0 <= k < |d| - |t| ensures Total(d[k..]) > maxBytes.value {
        if k > 0 {
          assert d[k..] == d[1..][k - 1..];
        } else {
          assert d[0..] == d;
        }
      }
    } else {
      assert d[0..] == d;
    }
  }

  lemma TrimmedIsSuffix(lim: Limits, d: seq<Slot>)
    ensures var t := Trimmed(lim, d); |t| <= |d| && t == d[|d| - |t|..]
    ensures Distinct(d) ==> Distinct(Trimmed(lim, d))
  {
    TrimBytesFacts(TrimItems(d, lim.maxItems), lim.maxBytes);
  }

  lemma NextDistinct(lim: Limits, d: seq<Slot>, op: Op)
    requires Distinct(d)
    ensures Distinct(Next(lim, d, op))
  {
    if op.Get? || op.Set? || op.Delete? {
      WithoutFacts(d, op.key);
    }
    match op
    case Get(key, now) =>
      if Lookup(d, key).Some? {
        AppendDistinct(Without(d, key), Lookup(d, key).value);
      }
    case Set(key, value, ttl, now) =>
      var slot := Slot(key, value, Expiry(lim, ttl, now));
      AppendDistinct(Without(d, key), slot);
      TrimmedIsSuffix(lim, Without(d, key) + [slot]);
    case _ =>
  }

  lemma {:induction false} RunDistinct(lim: Limits, ops: seq<Op>)
    ensures Distinct(Run(lim, ops))
  {
    if ops != [] {
      RunDistinct(lim, ops[..|ops| - 1]);
      NextDistinct(lim, Run(lim, ops[..|ops| - 1]), ops[|ops| - 1]);
    }
  }

  // ----- Budgets and reads over traces ----------------------------------------------------------------

  /** After every trace both budgets hold. */
  lemma {:induction false} WithinBudgets(lim: Limits, ops: seq<Op>)
    ensures var d := Run(lim, ops);
            && (lim.maxItems.Some? ==> |d| <= lim.maxItems.value)
            && (lim.maxBytes.Some? ==> Total(d) <= lim.maxBytes.value)
  {
    if ops != [] {
      var before := Run(lim, ops[..|ops| - 1]);
      WithinBudgets(lim, ops[..|ops| - 1]);
      RunDistinct(lim, ops[..|ops| - 1]);
      match ops[|ops| - 1]
      case Get(key, now) =>
        WithoutFacts(before, key);
        assert Without(before, key) + [] == Without(before, key);
        if Lookup(before, key).Some? {
          TotalSplit(Without(before, key), [Lookup(before, key).value]);
          assert Total([Lookup(before, key).value]) == |Lookup(before, key).value.value|;
        }
      case Set(key, value, ttl, now) =>
        TrimBytesFacts(TrimItems(Stored(lim, before, key, value, ttl, now), lim.maxItems), lim.maxBytes);
      case Delete(key) => WithoutFacts(before, key);
      case Clear =>
    }
  }

  /** Value and expiry of the last set of the key, unless a delete or clear came after it. */
  function LastSet(lim: Limits, ops: seq<Op>, key: string): Option<(Bytes, Option<real>)> {
    if ops == [] then None
    else
      match ops[|ops| - 1]
      case Set(k, value, ttl, now) =>
        if k == key then Some((value, Expiry(lim, ttl, now))) else LastSet(lim, ops[..|ops| - 1], key)
      case Delete(k) => if k == key then None else LastSet(lim, ops[..|ops| - 1], key)
      case Clear => None
      case Get(_, _) => LastSet(lim, ops[..|ops| - 1], key)
  }

  /** An entry after an operation is the one just stored, or was there before and was not touched. */
  lemma EntryOrigin(lim: Limits, d: seq<Slot>, op: Op, slot: Slot)
    requires slot in Next(lim, d, op)
    ensures slot in d || (op.Set? && slot == Slot(op.key, op.value, Expiry(lim, op.ttl, op.now)))
    ensures slot in d ==> op.Get?
                          || (op.Set? && (slot.key != op.key || slot == Slot(op.key, op.value, Expiry(lim, op.ttl, op.now))))
                          || (op.Delete? && slot.key != op.key)
  {
    if !op.Clear? {
      WithoutKeeps(d, op.key);
    }
    if op.Set? {
      var full := Stored(lim, d, op.key, op.value, op.ttl, op.now);
      TrimmedIsSuffix(lim, full);
      assert slot in full;
    }
  }

  /** What the cache holds for a key is what was last set for it. */
  lemma {:induction false} HoldsLastSet(lim: Limits, ops: seq<Op>, slot: Slot)
    requires slot in Run(lim, ops)
    ensures LastSet(lim, ops, slot.key) == Some((slot.value, slot.expiresAt))
  {
    var before, op := ops[..|ops| - 1], ops[|ops| - 1];
    EntryOrigin(lim, Run(lim, before), op, slot);
    if !(op.Set? && slot == Slot(op.key, op.value, Expiry(lim, op.ttl, op.now))) {
      HoldsLastSet(lim, before, slot);
    }
  }

  lemma {:induction false} WithoutKeeps(d: seq<Slot>, key: string)
    ensures forall slot :: slot in Without(d, key) ==> slot in d && slot.key != key
  {
    if d != [] {
      WithoutKeeps(d[1..], key);
    }
  }

  /** A get returns None or the last value set for the key, and that one has not expired. */
  lemma GetReturnsLastSet(lim: Limits, ops: seq<Op>, key: string, now: real)
    ensures match Found(Run(lim, ops), key, now)
            case None => true
            case Some(v) =>
              && LastSet(lim, ops, key).Some? && LastSet(lim, ops, key).value.0 == v
              && var e := LastSet(lim, ops, key).value.1; (e.Some? ==> now < e.value)
  {
    var d := Run(lim, ops);
    if Found(d, key, now).Some? {
      HoldsLastSet(lim, ops, Lookup(d, key).value);
    }
  }

  lemma {:induction false} LookupLast(d: seq<Slot>, slot: Slot)
    requires slot.key !in Keys(d)
    ensures Lookup(d + [slot], slot.key) == Some(slot)
  {
    if d == [] {
      assert d + [slot] == [slot];
    } else {
      assert d[0].key in Keys(d);
      assert (d + [slot])[1..] == d[1..] + [slot];
      assert forall k :: k in Keys(d[1..]) ==> k in Keys(d) by {
        assert d == [d[0]] + d[1..];
        KeysSplit([d[0]], d[1..]);
      }
      LookupLast(d[1..], slot);
    }
  }

  /** Right after a set the entry is there exactly when the value by itself fits the byte budget. */
  lemma StoredUnlessTooLong(lim: Limits, d: seq<Slot>, key: string, value: Bytes, ttl: Option<real>, now: real)
    requires lim.Positive() && Distinct(d)
    ensures var fits := lim.maxBytes.Some? ==> |value| <= lim.maxBytes.value;
            Lookup(AfterSet(lim, d, key, value, ttl, now), key)
            == if fits then Some(Slot(key, value, Expiry(lim, ttl, now))) else None
  {
    var slot := Slot(key, value, Expiry(lim, ttl, now));
    var full := Stored(lim, d, key, value, ttl, now);
    WithoutFacts(d, key);
    AppendDistinct(Without(d, key), slot);
    TrimKeepsLast(lim, full);
    var t := Trimmed(lim, full);
    if t != [] {
      TrimmedIsSuffix(lim, full);
      var front := t[..|t| - 1];
      assert t == front + [slot];
      assert forall i :: 0 <= i < |front| ==> front[i] == full[|full| - |t| + i];
      LookupLast(front, slot);
    }
  }

  /** Right after a set, before its expiry, the key reads the value back exactly when the value by
      itself fits the byte budget. */
  lemma ReadableAfterSet(lim: Limits, d: seq<Slot>, key: string, value: Bytes, ttl: Option<real>, now: real, later: real)
    requires lim.Positive() && Distinct(d)
    requires var e := Expiry(lim, ttl, now); e.Some? ==> later < e.value
    ensures var fits := lim.maxBytes.Some? ==> |value| <= lim.maxBytes.value;
            Found(AfterSet(lim, d, key, value, ttl, now), key, later) == if fits then Some(value) else None
  {
    StoredUnlessTooLong(lim, d, key, value, ttl, now);
  }

  /** A value that fits the byte budget lives for its own time to live, counted from the set, or for
      the default one, or for ever when neither is given: a get later finds it exactly until then. */
  lemma LivesForItsTtl(lim: Limits, d: seq<Slot>, key: string, value: Bytes, ttl: Option<real>, now: real, later: real)
    requires lim.Positive() && Distinct(d) && (lim.maxBytes.Some? ==> |value| <= lim.maxBytes.value)
    ensures var found := Found(AfterSet(lim, d, key, value, ttl, now), key, later);
            && (ttl.Some? ==> found == if later < now + ttl.value then Some(value) else None)
            && (ttl.None? && lim.defaultTtl.Some? ==>
                  found == if later < now + lim.defaultTtl.value then Some(value) else None)
            && (ttl.None? && lim.defaultTtl.None? ==> found == Some(value))
  {
    StoredUnlessTooLong(lim, d, key, value, ttl, now);
  }

  /** Trimming keeps the newest entry exactly when it fits the byte budget alone. */
  lemma TrimKeepsLast(lim: Limits, d: seq<Slot>)
    requires lim.Positive() && d != []
    ensures Trimmed(lim, d) == [] <==> lim.maxBytes.Some? && |d[|d| - 1].value| > lim.maxBytes.value
  {
    var mid := TrimItems(d, lim.maxItems);
    var t := Trimmed(lim, d);
    TrimBytesFacts(mid, lim.maxBytes);
    var last := mid[|mid| - 1];
    assert mid[|mid| - 1..] == [last];
    assert Total([last]) == |last.value|;
    if t != [] {
      assert t == t[..|t| - 1] + [last];
      TotalSplit(t[..|t| - 1], [last]);
    }
  }

  // ----- Conservation -----------------------------------------------------------------------------------

  /** Where entries came from and where they went. */
  datatype Ledger = Ledger(inserted: nat, evicted: nat, deleted: nat, expired: nat, cleared: nat)

  function Book(lim: Limits, d: seq<Slot>, op: Op): Ledger {
    match op
    case Get(key, now) =>
      Ledger(0, 0, 0, if Lookup(d, key).Some? && Expired(Lookup(d, key).value, now) then 1 else 0, 0)
    case Set(key, value, ttl, now) =>
      TrimmedIsSuffix(lim, Stored(lim, d, key, value, ttl, now));
      Ledger(if Lookup(d, key).None? then 1 else 0, Evictions(lim, d, key, value, ttl, now), 0, 0, 0)
    case Delete(key) => Ledger(0, 0, if Lookup(d, key).Some? then 1 else 0, 0, 0)
    case Clear => Ledger(0, 0, 0, 0, |d|)
  }

  function Evictions(lim: Limits, d: seq<Slot>, key: string, value: Bytes, ttl: Option<real>, now: real): nat {
    TrimmedIsSuffix(lim, Stored(lim, d, key, value, ttl, now));
    |Stored(lim, d, key, value, ttl, now)| - |AfterSet(lim, d, key, value, ttl, now)|
  }

  function Ledgers(lim: Limits, ops: seq<Op>): Ledger {
    if ops == [] then Ledger(0, 0, 0, 0, 0)
    else
      var a := Ledgers(lim, ops[..|ops| - 1]);
      var b := Book(lim, Run(lim, ops[..|ops| - 1]), ops[|ops| - 1]);
      Ledger(a.inserted + b.inserted, a.evicted + b.evicted, a.deleted + b.deleted,
             a.expired + b.expired, a.cleared + b.cleared)
  }

  /** Over every trace, new keys inserted are the live entries plus the evicted, deleted, expired
      and cleared ones. */
  lemma {:induction false} Conservation(lim: Limits, ops: seq<Op>)
    ensures var g := Ledgers(lim, ops);
            g.inserted == |Run(lim, ops)| + g.evicted + g.deleted + g.expired + g.cleared
  {
    if ops != [] {
      var before := Run(lim, ops[..|ops| - 1]);
      Conservation(lim, ops[..|ops| - 1]);
      RunDistinct(lim, ops[..|ops| - 1]);
      var op := ops[|ops| - 1];
      if !op.Clear? {
        WithoutFacts(before, op.key);
      }
    }
  }

  // ----- LRU inclusion: two caches on one trace ---------------------------------------------------

  /** `small` is `large` with some entries left out: same LRU order, values and expiries. */
  ghost predicate Included(small: seq<Slot>, large: seq<Slot>) {
    small == [] ||
    (large != [] && ((small[0] == large[0] && Included(small[1..], large[1..])) || Included(small, large[1..])))
  }

  lemma {:induction false} IncludedEntries(small: seq<Slot>, large: seq<Slot>)
    requires Included(small, large)
    ensures |small| <= |large|
    ensures forall slot :: slot in small ==> slot in large
  {
    if small != [] {
      if small[0] == large[0] && Included(small[1..], large[1..]) {
        IncludedEntries(small[1..], large[1..]);
        assert small == [small[0]] + small[1..];
      } else {
        IncludedEntries(small, large[1..]);
      }
    }
  }

  lemma IncludedKeys(small: seq<Slot>, large: seq<Slot>)
    requires Included(small, large)
    ensures Keys(small) <= Keys(large)
  {
    IncludedEntries(small, large);
    forall k | k in Keys(small) ensures k in Keys(large) {
      var i :| 0 <= i < |small| && small[i].key == k;
      assert small[i] in large;
    }
  }

  lemma {:induction false} IncludedWithout(small: seq<Slot>, large: seq<Slot>, key: string)
    requires Included(small, large)
    ensures Included(Without(small, key), Without(large, key))
  {
    if small != [] {
      var rest := Without(large[1..], key);
      assert large[0].key != key ==> Without(large, key)[1..] == rest;
      assert [] + rest == rest;
      if small[0] == large[0] && Included(small[1..], large[1..]) {
        IncludedWithout(small[1..], large[1..], key);
        assert small[0].key != key ==> Without(small, key)[1..] == Without(small[1..], key);
        assert [] + Without(small[1..], key) == Without(small[1..], key);
      } else {
        IncludedWithout(small, large[1..], key);
      }
    }
  }

  lemma {:induction false} IncludedAppend(small: seq<Slot>, large: seq<Slot>, slot: Slot)
    requires Included(small, large)
    ensures Included(small + [slot], large + [slot])
    ensures Included(small, large + [slot])
  {
    if large == [] {
    } else if small == [] {
      IncludedAppend(small, large[1..], slot);
      assert (large + [slot])[1..] == large[1..] + [slot];
    } else {
      assert (large + [slot])[1..] == large[1..] + [slot];
      assert (small + [slot])[1..] == small[1..] + [slot];
      if small[0] == large[0] && Included(small[1..], large[1..]) {
        IncludedAppend(small[1..], large[1..], slot);
      } else {
        IncludedAppend(small, large[1..], slot);
      }
    }
  }

  /** The smaller cache may evict its oldest entry, alone or together with the larger one. */
  lemma {:induction false} IncludedEvict(small: seq<Slot>, large: seq<Slot>)
    requires Included(small, large) && small != []
    ensures Included(small[1..], large)
    ensures Included(small[1..], large[1..])
  {
    if !(small[0] == large[0] && Included(small[1..], large[1..])) {
      IncludedEvict(small, large[1..]);
    }
  }

  /** A key cached in both is cached as the same entry. */
  lemma SameEntry(small: seq<Slot>, large: seq<Slot>, key: string)
    requires Included(small, large) && Distinct(large)
    ensures key in Keys(small) ==> Lookup(small, key) == Lookup(large, key)
  {
    IncludedEntries(small, large);
  }

  /** The larger cache never has more than the difference of the capacities on top of the smaller. */
  ghost predicate Slack(small: seq<Slot>, large: seq<Slot>, m: Option<nat>, n: Option<nat>) {
    && (n.Some? ==> m.Some? && m.value <= n.value && |large| - |small| <= n.value - m.value)
    && (m.Some? ==> |small| <= m.value)
    && (n.Some? ==> |large| <= n.value)
  }

  lemma InclusionGet(small: seq<Slot>, large: seq<Slot>, m: Option<nat>, n: Option<nat>, key: string, now: real)
    requires Included(small, large) && Slack(small, large, m, n) && Distinct(large) && Distinct(small)
    ensures Included(AfterGet(small, key, now), AfterGet(large, key, now))
    ensures Slack(AfterGet(small, key, now), AfterGet(large, key, now), m, n)
    ensures Found(small, key, now).Some? ==> Found(large, key, now) == Found(small, key, now)
  {
    SameEntry(small, large, key);
    if Lookup(large, key).Some? {
      var slot := Lookup(large, key).value;
      var s, t := Without(small, key), Without(large, key);
      IncludedWithout(small, large, key);
      IncludedAppend(s, t, slot);
      WithoutFacts(small, key);
      WithoutFacts(large, key);
      assert t + [] == t && s + [] == s;
    } else {
      IncludedKeys(small, large);
    }
  }

  /** Storing a slot under its key grows the larger cache by no more than the smaller one. */
  lemma InclusionStore(small: seq<Slot>, large: seq<Slot>, slot: Slot)
    requires Included(small, large) && Distinct(large) && Distinct(small)
    ensures var s, t := Without(small, slot.key) + [slot], Without(large, slot.key) + [slot];
            && Included(s, t)
            && |t| - |s| <= |large| - |small| && |s| <= |small| + 1 && |t| <= |large| + 1
  {
    IncludedKeys(small, large);
    IncludedWithout(small, large, slot.key);
    IncludedAppend(Without(small, slot.key), Without(large, slot.key), slot);
    WithoutFacts(small, slot.key);
    WithoutFacts(large, slot.key);
  }

  /** If only one of the two caches evicts, it is the smaller one. */
  lemma InclusionTrim(lim: Limits, s: seq<Slot>, t: seq<Slot>, n: Option<nat>)
    requires lim.maxBytes.None? && Included(s, t) && s != []
    requires (lim.maxItems.Some? ==> |s| <= lim.maxItems.value + 1) && (n.Some? ==> |t| <= n.value + 1)
    requires n.Some? ==> lim.maxItems.Some? && lim.maxItems.value <= n.value && |t| - |s| <= n.value - lim.maxItems.value
    ensures var s', t' := Trimmed(lim, s), Trimmed(lim.(maxItems := n), t);
            Included(s', t') && Slack(s', t', lim.maxItems, n)
  {
    IncludedEvict(s, t);
    assert lim.maxItems.Some? && |s| > lim.maxItems.value ==> Trimmed(lim, s) == s[1..];
    assert n.Some? && |t| > n.value ==> Trimmed(lim.(maxItems := n), t) == t[1..];
  }

  lemma InclusionSet(lim: Limits, small: seq<Slot>, large: seq<Slot>, n: Option<nat>,
                     key: string, value: Bytes, ttl: Option<real>, now: real)
    requires lim.maxBytes.None?
    requires Included(small, large) && Slack(small, large, lim.maxItems, n) && Distinct(large) && Distinct(small)
    ensures var s := AfterSet(lim, small, key, value, ttl, now);
            var t := AfterSet(lim.(maxItems := n), large, key, value, ttl, now);
            Included(s, t) && Slack(s, t, lim.maxItems, n)
  {
    InclusionStore(small, large, Slot(key, value, Expiry(lim, ttl, now)));
    InclusionTrim(lim, Stored(lim, small, key, value, ttl, now), Stored(lim, large, key, value, ttl, now), n);
  }

  /** LRU inclusion. On the same trace of gets, sets, deletes and clears with the same clock and no
      byte budget, the entries of the cache with the smaller capacity are always a subsequence, in
      LRU order, of the entries of the larger one, with equal values and expiries; so a hit in the
      smaller cache is the same hit in the larger. (A capacity of None is unbounded.) */
  lemma {:induction false} LruInclusion(lim: Limits, n: Option<nat>, ops: seq<Op>, key: string, now: real)
    requires lim.maxBytes.None? && lim.Positive()
    requires n.Some? ==> lim.maxItems.Some? && lim.maxItems.value <= n.value
    ensures var small, large := Run(lim, ops), Run(lim.(maxItems := n), ops);
            && Included(small, large)
            && Slack(small, large, lim.maxItems, n)
            && (Found(small, key, now).Some? ==> Found(large, key, now) == Found(small, key, now))
  {
    var big := lim.(maxItems := n);
    var small, large := Run(lim, ops), Run(big, ops);
    if ops != [] {
      var before := ops[..|ops| - 1];
      var s, t := Run(lim, before), Run(big, before);
      LruInclusion(lim, n, before, key, now);
      RunDistinct(lim, before);
      RunDistinct(big, before);
      match ops[|ops| - 1]
      case Get(k, time) => InclusionGet(s, t, lim.maxItems, n, k, time);
      case Set(k, value, ttl, time) => InclusionSet(lim, s, t, n, k, value, ttl, time);
      case Delete(k) =>
        IncludedKeys(s, t);
        IncludedWithout(s, t, k);
        WithoutFacts(s, k);
        WithoutFacts(t, k);
      case Clear =>
    }
    RunDistinct(lim, ops);
    RunDistinct(big, ops);
    InclusionGet(small, large, lim.maxItems, n, key, now);
  }

  // ----- Inclusion under a shared byte budget ---------------------------------------------------

  lemma {:induction false} WithoutHas(d: seq<Slot>, slot: Slot, key: string)
    requires slot in d && slot.key != key
    ensures slot in Without(d, key)
  {
    if slot != d[0] {
      assert d == [d[0]] + d[1..];
      WithoutHas(d[1..], slot, key);
    }
  }

  lemma {:induction false} LookupOf(d: seq<Slot>, slot: Slot)
    requires Distinct(d) && slot in d
    ensures Lookup(d, slot.key) == Some(slot)
  {
    if slot != d[0] {
      assert d == [d[0]] + d[1..];
      LookupOf(d[1..], slot);
    }
  }

  lemma {:induction false} MemberIncluded(slot: Slot, large: seq<Slot>)
    requires slot in large
    ensures Included([slot], large)
  {
    if slot != large[0] {
      assert large == [large[0]] + large[1..];
      MemberIncluded(slot, large[1..]);
    }
  }

  lemma {:induction false} IncludedInItself(d: seq<Slot>)
    ensures Included(d, d)
  {
    if d != [] {
      IncludedInItself(d[1..]);
    }
  }

  /** At most one entry, and if there is one then the larger cache has it too. */
  ghost predicate OneShared(small: seq<Slot>, large: seq<Slot>) {
    small == [] || (|small| == 1 && small[0] in large)
  }

  lemma OneSharedWithout(small: seq<Slot>, large: seq<Slot>, key: string)
    requires OneShared(small, large)
    ensures OneShared(Without(small, key), Without(large, key))
    ensures small != [] ==> Without(small, key) == if small[0].key == key then [] else small
  {
    if small != [] {
      assert small[1..] == [] && small == [small[0]];
      if small[0].key != key {
        WithoutHas(large, small[0], key);
      }
    }
  }

  lemma OneSharedGet(small: seq<Slot>, large: seq<Slot>, key: string, now: real)
    requires OneShared(small, large) && Distinct(small) && Distinct(large)
    ensures OneShared(AfterGet(small, key, now), AfterGet(large, key, now))
  {
    OneSharedWithout(small, large, key);
    if small != [] {
      LookupOf(large, small[0]);
      LookupOf(small, small[0]);
      assert Keys(small) == {small[0].key};
    }
  }

  /** What trimming leaves, if anything, ends with the newest entry and is within the capacity. */
  lemma NewestKept(lim: Limits, d: seq<Slot>)
    requires lim.Positive() && d != []
    ensures var t := Trimmed(lim, d);
            && (t == [] <==> lim.maxBytes.Some? && |d[|d| - 1].value| > lim.maxBytes.value)
            && (t != [] ==> t[|t| - 1] == d[|d| - 1])
            && (lim.maxItems.Some? ==> |t| <= lim.maxItems.value)
  {
    TrimKeepsLast(lim, d);
    TrimmedIsSuffix(lim, d);
    TrimBytesFacts(TrimItems(d, lim.maxItems), lim.maxBytes);
  }

  /** With room for one entry, a set leaves the new one alone, or nothing if it is over the budget;
      a larger cache with the same budget keeps the new one in the same cases. */
  lemma OneSharedTrim(lim: Limits, n: Option<nat>, small: seq<Slot>, large: seq<Slot>)
    requires lim.Positive() && lim.maxItems == Some(1) && (n.Some? ==> 1 <= n.value)
    requires small != [] && large != [] && small[|small| - 1] == large[|large| - 1]
    ensures OneShared(Trimmed(lim, small), Trimmed(lim.(maxItems := n), large))
  {
    NewestKept(lim, small);
    NewestKept(lim.(maxItems := n), large);
  }

  lemma {:induction false} OneEntryShared(lim: Limits, n: Option<nat>, ops: seq<Op>)
    requires lim.Positive() && lim.maxItems == Some(1) && (n.Some? ==> 1 <= n.value)
    ensures OneShared(Run(lim, ops), Run(lim.(maxItems := n), ops))
  {
    if ops != [] {
      var before, big := ops[..|ops| - 1], lim.(maxItems := n);
      var s, t := Run(lim, before), Run(big, before);
      OneEntryShared(lim, n, before);
      match ops[|ops| - 1]
      case Get(k, time) =>
        RunDistinct(lim, before);
        RunDistinct(big, before);
        OneSharedGet(s, t, k, time);
      case Set(k, value, ttl, time) =>
        OneSharedTrim(lim, n, Stored(lim, s, k, value, ttl, time), Stored(big, t, k, value, ttl, time));
      case Delete(k) => OneSharedWithout(s, t, k);
      case Clear =>
    }
  }

  /** Distinct keys, by length. */
  function Name(i: nat): string { seq(i, _ => 'k') }

  function Padding(size: nat): Bytes { seq(size, _ => 0) }

  function Value(budget: nat, i: nat): Bytes { if i == 0 then Padding(budget) else [] }

  /** Sets one entry that takes the whole budget, then `j` empty ones. */
  function Fill(budget: nat, j: nat): seq<Op> {
    (if j == 0 then [] else Fill(budget, j - 1)) + [Op.Set(Name(j), Value(budget, j), Some(1.0), 0.0)]
  }

  function Filled(budget: nat, j: nat): (d: seq<Slot>)
    ensures |d| == j + 1
  {
    (if j == 0 then [] else Filled(budget, j - 1)) + [Slot(Name(j), Value(budget, j), Some(1.0))]
  }

  lemma {:induction false} FilledFacts(budget: nat, j: nat)
    ensures Total(Filled(budget, j)) == budget
    ensures forall i :: 0 <= i <= j ==> Filled(budget, j)[i] == Slot(Name(i), Value(budget, i), Some(1.0))
  {
    var last := Slot(Name(j), Value(budget, j), Some(1.0));
    assert Total([last]) == |last.value|;
    if j > 0 {
      FilledFacts(budget, j - 1);
      TotalSplit(Filled(budget, j - 1), [last]);
    }
  }

  lemma FreshName(budget: nat, j: nat)
    ensures Name(j + 1) !in Keys(Filled(budget, j)) && Distinct(Filled(budget, j))
  {
    FilledFacts(budget, j);
    var d := Filled(budget, j);
    forall i | 0 <= i < |d| ensures |d[i].key| == i {
    }
  }

  lemma RunSnoc(lim: Limits, ops: seq<Op>, op: Op)
    ensures Run(lim, ops + [op]) == Next(lim, Run(lim, ops), op)
  {
    assert (ops + [op])[..|ops|] == ops;
  }

  lemma {:induction false} FillRuns(lim: Limits, j: nat)
    requires lim.maxBytes.Some? && (lim.maxItems.Some? ==> j < lim.maxItems.value)
    ensures Run(lim, Fill(lim.maxBytes.value, j)) == Filled(lim.maxBytes.value, j)
  {
    var b := lim.maxBytes.value;
    var op := Op.Set(Name(j), Value(b, j), Some(1.0), 0.0);
    FilledFacts(b, j);
    if j == 0 {
      RunSnoc(lim, [], op);
      assert [] + [op] == [op];
    } else {
      FillRuns(lim, j - 1);
      FreshName(b, j - 1);
      WithoutKeys(Filled(b, j - 1), Name(j));
      RunSnoc(lim, Fill(b, j - 1), op);
    }
  }

  lemma {:induction false} NoBytes(d: seq<Slot>)
    requires forall slot :: slot in d ==> slot.value == []
    ensures Total(d) == 0
  {
    if d != [] {
      NoBytes(d[1..]);
    }
  }

  /** The trace that breaks inclusion: fill with one entry more than the smaller cache takes, read
      the first, store one byte. */
  function Breaking(budget: nat, m: nat): seq<Op> {
    Fill(budget, m) + [Op.Get(Name(0), 0.0)] + [Op.Set(Name(m + 1), [0], Some(1.0), 0.0)]
  }

  lemma BreakingRuns(lim: Limits, m: nat)
    requires lim.maxBytes.Some?
    ensures var d := Run(lim, Fill(lim.maxBytes.value, m));
            Run(lim, Breaking(lim.maxBytes.value, m))
            == AfterSet(lim, AfterGet(d, Name(0), 0.0), Name(m + 1), [0], Some(1.0), 0.0)
  {
    var b := lim.maxBytes.value;
    RunSnoc(lim, Fill(b, m), Op.Get(Name(0), 0.0));
    RunSnoc(lim, Fill(b, m) + [Op.Get(Name(0), 0.0)], Op.Set(Name(m + 1), [0], Some(1.0), 0.0));
  }

  lemma FullTrim(lim: Limits, d: seq<Slot>, last: Slot)
    requires lim.maxBytes.Some? && lim.maxItems == Some(|d|) && d != []
    requires (forall slot :: slot in d ==> slot.value == []) && |last.value| <= lim.maxBytes.value
    ensures Trimmed(lim, d + [last]) == d[1..] + [last]
  {
    assert (d + [last])[1..] == d[1..] + [last];
    NoBytes(d[1..]);
    TotalSplit(d[1..], [last]);
    assert Total([last]) == |last.value|;
  }

  /** The smaller cache has pushed the first entry out, so the read misses and the byte fits. */
  lemma SmallKeeps(lim: Limits, m: nat)
    requires lim.maxBytes.Some? && lim.maxBytes.value >= 1 && lim.maxItems == Some(m) && m >= 2
    ensures Found(Run(lim, Breaking(lim.maxBytes.value, m)), Name(2), 0.0) == Some([])
  {
    var b := lim.maxBytes.value;
    var d := Filled(b, m)[1..];
    var last := Slot(Name(m + 1), [0], Some(1.0));
    SmallFilled(lim, m);
    BreakingRuns(lim, m);
    FilledFacts(b, m);
    FreshName(b, m);
    TailFacts(Filled(b, m));
    WithoutKeys(d, Name(m + 1));
    FullTrim(lim, d, last);
    assert (d[1..] + [last])[0] == Slot(Name(2), [], Some(1.0));
  }

  lemma SmallFilled(lim: Limits, m: nat)
    requires lim.maxBytes.Some? && lim.maxItems == Some(m) && m >= 1
    ensures Run(lim, Fill(lim.maxBytes.value, m)) == Filled(lim.maxBytes.value, m)[1..]
  {
    var b := lim.maxBytes.value;
    var op := Op.Set(Name(m), Value(b, m), Some(1.0), 0.0);
    FillRuns(lim, m - 1);
    FreshName(b, m - 1);
    WithoutKeys(Filled(b, m - 1), Name(m));
    RunSnoc(lim, Fill(b, m - 1), op);
    FilledFacts(b, m);
    NoBytes(Filled(b, m)[1..]);
  }

  lemma TailFacts(d: seq<Slot>)
    requires d != [] && Distinct(d)
    ensures Lookup(d[1..], d[0].key) == None && Distinct(d[1..]) && Keys(d[1..]) <= Keys(d)
  {
    HeadKeyIsFresh(d);
    KeysSplit([d[0]], d[1..]);
    assert d == [d[0]] + d[1..];
  }

  /** The larger cache still has the first entry, the newest but one after the read; the byte does
      not fit beside it, so everything before goes. */
  lemma LargeLoses(lim: Limits, m: nat)
    requires lim.maxBytes.Some? && m >= 2 && (lim.maxItems.Some? ==> m < lim.maxItems.value)
    ensures Lookup(Run(lim, Breaking(lim.maxBytes.value, m)), Name(2)) == None
  {
    var b := lim.maxBytes.value;
    var all := Filled(b, m);
    FillRuns(lim, m);
    BreakingRuns(lim, m);
    FilledFacts(b, m);
    FreshName(b, m);
    LookupOf(all, all[0]);
    TailFacts(all);
    WithoutKeys(all[1..], Name(0));
    var front := all[1..] + [all[0]];
    assert AfterGet(all, Name(0), 0.0) == front;
    KeysSplit([all[0]], all[1..]);
    KeysSplit(all[1..], [all[0]]);
    assert [all[0]] + all[1..] == all;
    WithoutKeys(front, Name(m + 1));
    var last := Slot(Name(m + 1), [0], Some(1.0));
    OnlyLastFits(lim, all[1..], all[0], last);
    var t := Trimmed(lim, front + [last]);
    assert Keys(t) <= {Name(m + 1)};
    assert |Name(2)| == 2;
  }

  lemma OnlyLastFits(lim: Limits, d: seq<Slot>, first: Slot, last: Slot)
    requires lim.maxBytes.Some? && |first.value| + |last.value| > lim.maxBytes.value
    ensures var t := Trimmed(lim, d + [first] + [last]); t == [] || t == [last]
  {
    var full := d + [first] + [last];
    var t := Trimmed(lim, full);
    TrimmedIsSuffix(lim, full);
    TrimBytesFacts(TrimItems(full, lim.maxItems), lim.maxBytes);
    TotalAtLeast(t);
  }

  lemma {:induction false} TotalAtLeast(d: seq<Slot>)
    ensures |d| >= 2 ==> Total(d) >= |d[|d| - 2].value| + |d[|d| - 1].value|
  {
    if |d| > 2 {
      TotalAtLeast(d[1..]);
    }
  }

  /** Every hit of the cache with the smaller capacity is the same hit in the larger one. */
  ghost predicate HitsShared(lim: Limits, n: Option<nat>, ops: seq<Op>) {
    forall key, now :: Found(Run(lim, ops), key, now).Some?
                       ==> Found(Run(lim.(maxItems := n), ops), key, now) == Found(Run(lim, ops), key, now)
  }

  lemma SubsequenceKept(lim: Limits, n: Option<nat>, ops: seq<Op>)
    requires lim.Positive() && (n.Some? ==> lim.maxItems.Some? && lim.maxItems.value <= n.value)
    requires lim.maxBytes.None? || lim.maxItems == Some(1) || lim.maxItems == n
    ensures Included(Run(lim, ops), Run(lim.(maxItems := n), ops)) && HitsShared(lim, n, ops)
  {
    var s, t := Run(lim, ops), Run(lim.(maxItems := n), ops);
    if lim.maxItems == n {
      IncludedInItself(s);
    } else if lim.maxBytes.None? {
      LruInclusion(lim, n, ops, "", 0.0);
    } else {
      OneEntryShared(lim, n, ops);
      if s != [] {
        assert s == [s[0]];
        MemberIncluded(s[0], t);
      }
    }
    RunDistinct(lim.(maxItems := n), ops);
    forall key, now | Found(s, key, now).Some? ensures Found(t, key, now) == Found(s, key, now) {
      SameEntry(s, t, key);
    }
  }

  /** For two caches of at least two and unequal capacities, any shared byte budget breaks inclusion:
      the smaller one still has an entry that the larger one has lost. */
  lemma ByteBudgetBreaksInclusion(lim: Limits, n: Option<nat>) returns (ops: seq<Op>)
    requires lim.Positive() && lim.maxBytes.Some? && lim.maxItems.Some? && lim.maxItems.value >= 2
    requires n.Some? ==> lim.maxItems.value < n.value
    ensures !HitsShared(lim, n, ops) && !Included(Run(lim, ops), Run(lim.(maxItems := n), ops))
  {
    var m := lim.maxItems.value;
    ops := Breaking(lim.maxBytes.value, m);
    SmallKeeps(lim, m);
    LargeLoses(lim.(maxItems := n), m);
    assert Found(Run(lim, ops), Name(2), 0.0) == Some([]);
    assert Lookup(Run(lim, ops), Name(2)).Some?;
    if Included(Run(lim, ops), Run(lim.(maxItems := n), ops)) {
      IncludedKeys(Run(lim, ops), Run(lim.(maxItems := n), ops));
    }
  }

  /** The exact condition for inclusion, of the entries and of the hits. With a byte budget shared by
      both caches it is lost: holding more, the larger cache can lose to the budget what the smaller
      one keeps. It survives only when the smaller cache has room for a single entry or the two
      capacities are equal. */
  lemma InclusionExactly(lim: Limits, n: Option<nat>)
    requires lim.Positive() && (n.Some? ==> lim.maxItems.Some? && lim.maxItems.value <= n.value)
    ensures var exact := lim.maxBytes.None? || lim.maxItems == Some(1) || lim.maxItems == n;
            && ((forall ops :: Included(Run(lim, ops), Run(lim.(maxItems := n), ops))) <==> exact)
            && ((forall ops :: HitsShared(lim, n, ops)) <==> exact)
  {
    if lim.maxBytes.None? || lim.maxItems == Some(1) || lim.maxItems == n {
      forall ops ensures Included(Run(lim, ops), Run(lim.(maxItems := n), ops)) && HitsShared(lim, n, ops) {
        SubsequenceKept(lim, n, ops);
      }
    } else {
      var ops := ByteBudgetBreaksInclusion(lim, n);
    }
  }

  // ----- The classes ---------------------------------------------------------------------------------

  class CacheStats {
    var hits: nat
    var misses: nat
    var sets: nat
    var deletes: nat
    var evictions: nat

    constructor ()
      ensures hits == misses == sets == deletes == evictions == 0
    {
      hits, misses, sets, deletes, evictions := 0, 0, 0, 0, 0;
    }
  }

  /** `onEvict` is the eviction callback: the statistics object it counts into, if it is wired. */
  class MemoryCache {
    const limits: Limits
    var data: seq<Slot>
    var bytes: int
    var onEvict: CacheStats?

    /** The ordered dictionary has distinct keys and `bytes` is the sum of the stored lengths. */
    ghost predicate Valid()
      reads this
    {
      Distinct(data) && bytes == Total(data) && limits.Positive()
    }

    ghost function Counter(): set<object>
      reads this
    {
      if onEvict == null then {} else {onEvict}
    }

    /** Of the statistics object, the callback touches the eviction counter alone. */
    twostate predicate OnlyEvictions()
      reads this, Counter()
    {
      && onEvict == old(onEvict)
      && (onEvict != null ==> unchanged(onEvict`hits, onEvict`misses, onEvict`sets, onEvict`deletes))
    }

    constructor (maxItems: int, maxBytes: Option<int>, defaultTtl: Option<real>)
      ensures Valid() && data == [] && onEvict == null
      ensures limits == Limits(if maxItems > 0 then Some(maxItems) else None,
                               if maxBytes.Some? && maxBytes.value > 0 then Some(maxBytes.value) else None,
                               defaultTtl)
    {
      limits := Limits(if maxItems > 0 then Some(maxItems) else None,
                       if maxBytes.Some? && maxBytes.value > 0 then Some(maxBytes.value) else None,
                       defaultTtl);
      data := [];
      bytes := 0;
      onEvict := null;
    }

    method Get(key: string, now: real) returns (r: Option<Bytes>)
      requires Valid()
      modifies this`data, this`bytes
      ensures Valid()
      ensures r == Found(old(data), key, now) && data == AfterGet(old(data), key, now)
    {
      var entry := Lookup(data, key);
      if entry.None? {
        return None;
      }
      WithoutFacts(data, key);
      if Expired(entry.value, now) {
        data := Without(data, key);
        bytes := bytes - |entry.value.value|;
        return None;
      }
      AppendDistinct(Without(data, key), entry.value);
      TotalSplit(Without(data, key), [entry.value]);
      data := Without(data, key) + [entry.value];
      return Some(entry.value.value);
    }

    method Set(key: string, value: Bytes, ttl: Option<real>, now: real)
      requires Valid()
      modifies this`data, this`bytes, Counter()
      ensures Valid() && OnlyEvictions()
      ensures data == AfterSet(limits, old(data), key, value, ttl, now)
      ensures onEvict != null ==>
                onEvict.evictions == old(onEvict.evictions) + Evictions(limits, old(data), key, value, ttl, now)
    {
      var expiresAt := Expiry(limits, ttl, now);
      var existing := Lookup(data, key);
      WithoutFacts(data, key);
      if existing.Some? {
        bytes := bytes - |existing.value.value|;
      }
      var slot := Slot(key, value, expiresAt);
      AppendDistinct(Without(data, key), slot);
      TotalSplit(Without(data, key), [slot]);
      data := Without(data, key) + [slot];
      bytes := bytes + |value|;
      Trim();
    }

    method Delete(key: string)
      requires Valid()
      modifies this`data, this`bytes
      ensures Valid() && data == Without(old(data), key)
    {
      var entry := Lookup(data, key);
      WithoutFacts(data, key);
      if entry.Some? {
        data := Without(data, key);
        bytes := bytes - |entry.value.value|;
      }
    }

    method Clear()
      requires Valid()
      modifies this`data, this`bytes
      ensures Valid() && data == []
    {
      data := [];
      bytes := 0;
    }

    /** Evicts from the front until both budgets hold. */
    method Trim()
      requires Valid()
      modifies this`data, this`bytes, Counter()
      ensures Valid() && data == Trimmed(limits, old(data)) && OnlyEvictions()
      ensures onEvict != null ==> onEvict.evictions == old(onEvict.evictions) + (|old(data)| - |data|)
    {
      while limits.maxItems.Some? && |data| > limits.maxItems.value
        invariant Valid() && |data| <= |old(data)| && OnlyEvictions()
        invariant TrimItems(data, limits.maxItems) == TrimItems(old(data), limits.maxItems)
        invariant onEvict != null ==> onEvict.evictions == old(onEvict.evictions) + (|old(data)| - |data|)
        decreases |data|
      {
        PopOldest();
      }
      while limits.maxBytes.Some? && bytes > limits.maxBytes.value
        invariant Valid() && |data| <= |old(data)| && OnlyEvictions()
        invariant TrimBytes(data, limits.maxBytes) == Trimmed(limits, old(data))
        invariant onEvict != null ==> onEvict.evictions == old(onEvict.evictions) + (|old(data)| - |data|)
        decreases |data|
      {
        PopOldest();
      }
    }

    method PopOldest()
      requires Valid()
      modifies this`data, this`bytes, Counter()
      ensures Valid() && OnlyEvictions()
      ensures old(data) == [] ==> data == []
      ensures old(data) != [] ==> data == old(data)[1..]
      ensures onEvict != null ==> onEvict.evictions == old(onEvict.evictions) + (|old(data)| - |data|)
    {
      if data == [] {
        return;
      }
      bytes := bytes - |data[0].value|;
      data := data[1..];
      if onEvict != null {
        onEvict.evictions := onEvict.evictions + 1;
      }
    }
  }

  /** Counts every operation; evictions reach it through the callback when it is the one wired. */
  class InstrumentedCache {
    const inner: MemoryCache
    const stats: CacheStats

    ghost predicate Valid()
      reads this, inner
    {
      inner.Valid()
    }

    /** Counts into the statistics object given, or into a new one with all counters at zero. */
    constructor (inner: MemoryCache, given: CacheStats?)
      requires inner.Valid()
      modifies inner`onEvict
      ensures Valid() && this.inner == inner
      ensures inner.data == old(inner.data)
      ensures inner.onEvict == if old(inner.onEvict) == null then stats else old(inner.onEvict)
      ensures given != null ==> stats == given
      ensures given == null ==>
                fresh(stats) && stats.hits == stats.misses == stats.sets == stats.deletes == stats.evictions == 0
    {
      this.inner := inner;
      if given == null {
        stats := new CacheStats();
      } else {
        stats := given;
      }
      new;
      if inner.onEvict == null {
        inner.onEvict := stats;
      }
    }

    method Get(key: string, now: real) returns (r: Option<Bytes>)
      requires Valid()
      modifies inner`data, inner`bytes, stats`hits, stats`misses
      ensures Valid()
      ensures r == Found(old(inner.data), key, now) && inner.data == AfterGet(old(inner.data), key, now)
      ensures stats.hits == old(stats.hits) + (if r.Some? then 1 else 0)
      ensures stats.misses == old(stats.misses) + (if r.None? then 1 else 0)
    {
      r := inner.Get(key, now);
      if r.None? {
        stats.misses := stats.misses + 1;
      } else {
        stats.hits := stats.hits + 1;
      }
    }

    method Set(key: string, value: Bytes, ttl: Option<real>, now: real)
      requires Valid()
      modifies inner`data, inner`bytes, inner.Counter(), stats`sets
      ensures Valid() && inner.data == AfterSet(inner.limits, old(inner.data), key, value, ttl, now)
      ensures stats.sets == old(stats.sets) + 1
      ensures inner.onEvict == stats ==>
                stats.evictions == old(stats.evictions) + Evictions(inner.limits, old(inner.data), key, value, ttl, now)
    {
      inner.Set(key, value, ttl, now);
      stats.sets := stats.sets + 1;
    }

    method Delete(key: string)
      requires Valid()
      modifies inner`data, inner`bytes, stats`deletes
      ensures Valid() && inner.data == Without(old(inner.data), key)
      ensures stats.deletes == old(stats.deletes) + 1
    {
      inner.Delete(key);
      stats.deletes := stats.deletes + 1;
    }

    /** Any trace on an empty instrumented cache: the entries are the trace's, and the eviction
        counter goes up by the ledger's `evicted`. */
    method Replay(ops: seq<Op>)
      requires Valid() && inner.data == [] && inner.onEvict == stats
      modifies inner, stats
      ensures Valid() && inner.data == Run(inner.limits, ops)
      ensures stats.evictions == old(stats.evictions) + Ledgers(inner.limits, ops).evicted
    {
      assert ops[..0] == [];
      for i := 0 to |ops|
        invariant Valid() && inner.onEvict == stats
        invariant inner.data == Run(inner.limits, ops[..i])
        invariant stats.evictions == old(stats.evictions) + Ledgers(inner.limits, ops[..i]).evicted
      {
        assert ops[..i + 1][..i] == ops[..i];
        match ops[i] {
          case Get(key, now) => var _ := Get(key, now);
          case Set(key, value, ttl, now) => Set(key, value, ttl, now);
          case Delete(key) => Delete(key);
          case Clear => inner.Clear();
        }
      }
      assert ops[..|ops|] == ops;
    }
  }
}
