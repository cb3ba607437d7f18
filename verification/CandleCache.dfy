/** Cache keys of candle loads (internal/api/candle_cache.go, candleKey). */
module CandleKeys {
  import opened Decimal

  datatype Date = Date(year: nat, month: nat, day: nat)

  /** An instant as its civil date and the rest of the day. */
  datatype Time = Time(date: Date, clock: nat)

  predicate ValidDate(d: Date) {
    1 <= d.month <= 12 && 1 <= d.day <= 31
  }

  /** Format("2006-01-02"). */
  function FormatDay(d: Date): string {
    Padded(d.year, 4) + "-" + Padded(d.month, 2) + "-" + Padded(d.day, 2)
  }

  /** The two loaders the adapter caches; the plain one has no timeframe. */
  datatype Query =
    | Plain(symbols: seq<string>, start: Time, end: Time, source: string)
    | Timeframed(symbols: seq<string>, start: Time, end: Time, timeframe: string, source: string)

  function TimeframeOf(q: Query): string {
    if q.Plain? then "" else q.timeframe
  }

  function JoinSymbols(symbols: seq<string>): string {
    if symbols == [] then "" else symbols[0] + "," + JoinSymbols(symbols[1..])
  }

  function CandleKey(symbols: seq<string>, start: Time, end: Time, timeframe: string, source: string): string {
    timeframe + "|" + (source + "|"
      + (FormatDay(start.date) + "|" + (FormatDay(end.date) + "|" + JoinSymbols(symbols))))
  }

  function KeyOf(q: Query): string {
    CandleKey(q.symbols, q.start, q.end, TimeframeOf(q), q.source)
  }

  /** No separator inside a component. */
  predicate Separable(q: Query) {
    && '|' !in TimeframeOf(q) && '|' !in q.source
    && ValidDate(q.start.date) && ValidDate(q.end.date)
    && forall i :: 0 <= i < |q.symbols| ==> ',' !in q.symbols[i]
  }

  lemma FormatDayInjective(d: Date, e: Date)
    requires ValidDate(d) && ValidDate(e) && FormatDay(d) == FormatDay(e)
    ensures d == e
  {
    hide Padded, Value;
    var d1, d2 := Padded(d.month, 2) + "-" + Padded(d.day, 2), Padded(e.month, 2) + "-" + Padded(e.day, 2);
    assert FormatDay(d) == Padded(d.year, 4) + ['-'] + d1;
    assert FormatDay(e) == Padded(e.year, 4) + ['-'] + d2;
    CutAtSeparator('-', Padded(d.year, 4), d1, Padded(e.year, 4), d2);
    CutAtSeparator('-', Padded(d.month, 2), Padded(d.day, 2), Padded(e.month, 2), Padded(e.day, 2));
    ValueOfPadded(d.year, 4);
    ValueOfPadded(e.year, 4);
    ValueOfPadded(d.month, 2);
    ValueOfPadded(e.month, 2);
    ValueOfPadded(d.day, 2);
    ValueOfPadded(e.day, 2);
  }

  lemma NoBarInDay(d: Date)
    ensures '|' !in FormatDay(d)
  {}

  /** The trailing commas make a symbol list uniquely readable. */
  lemma {:induction false} JoinSymbolsInjective(xs: seq<string>, ys: seq<string>)
    requires forall i :: 0 <= i < |xs| ==> ',' !in xs[i]
    requires forall i :: 0 <= i < |ys| ==> ',' !in ys[i]
    requires JoinSymbols(xs) == JoinSymbols(ys)
    ensures xs == ys
  {
    if xs != [] && ys != [] {
      CutAtSeparator(',', xs[0], JoinSymbols(xs[1..]), ys[0], JoinSymbols(ys[1..]));
      JoinSymbolsInjective(xs[1..], ys[1..]);
      assert xs == [xs[0]] + xs[1..] && ys == [ys[0]] + ys[1..];
    }
  }

  /** What the key keeps of a query: not the loader, and of the times only the day. */
  predicate SameUpToDay(p: Query, q: Query) {
    && p.symbols == q.symbols && p.source == q.source && TimeframeOf(p) == TimeframeOf(q)
    && p.start.date == q.start.date && p.end.date == q.end.date
  }

  /** Separable queries share a key exactly when they agree up to the time of day. */
  lemma KeysAgreeExactly(p: Query, q: Query)
    requires Separable(p) && Separable(q)
    ensures KeyOf(p) == KeyOf(q) <==> SameUpToDay(p, q)
  {
    if KeyOf(p) == KeyOf(q) {
      var p3 := FormatDay(p.end.date) + "|" + JoinSymbols(p.symbols);
      var q3 := FormatDay(q.end.date) + "|" + JoinSymbols(q.symbols);
      var p2 := FormatDay(p.start.date) + "|" + p3;
      var q2 := FormatDay(q.start.date) + "|" + q3;
      CutAtSeparator('|', TimeframeOf(p), p.source + "|" + p2, TimeframeOf(q), q.source + "|" + q2);
      CutAtSeparator('|', p.source, p2, q.source, q2);
      NoBarInDay(p.start.date);
      NoBarInDay(q.start.date);
      NoBarInDay(p.end.date);
      NoBarInDay(q.end.date);
      CutAtSeparator('|', FormatDay(p.start.date), p3, FormatDay(q.start.date), q3);
      CutAtSeparator('|', FormatDay(p.end.date), JoinSymbols(p.symbols), FormatDay(q.end.date), JoinSymbols(q.symbols));
      FormatDayInjective(p.start.date, q.start.date);
      FormatDayInjective(p.end.date, q.end.date);
      JoinSymbolsInjective(p.symbols, q.symbols);
    }
  }

  /** Whole days, and a timeframe that is not the empty one the plain loader uses. */
  predicate DayAligned(q: Query) {
    Separable(q) && q.start.clock == 0 && q.end.clock == 0 && (q.Timeframed? ==> q.timeframe != "")
  }

  lemma DayAlignedKeysInjective(p: Query, q: Query)
    requires DayAligned(p) && DayAligned(q) && KeyOf(p) == KeyOf(q)
    ensures p == q
  {
    KeysAgreeExactly(p, q);
  }
}

/** The bounded LRU cache (internal/api/candle_cache.go, get and put). */
module LruCache {
  import opened Common
  import opened CandleKeys

  datatype Slot<V> = Slot(key: string, value: V)

  /** Cache contents, most recently used first. */
  type Contents<V> = seq<Slot<V>>

  function Keys<V>(c: Contents<V>): (keys: seq<string>)
    ensures |keys| == |c| && forall i :: 0 <= i < |keys| ==> keys[i] == c[i].key
  {
    seq(|c|, i requires 0 <= i < |c| => c[i].key)
  }

  function Find<V>(c: Contents<V>, key: string): Option<V> {
    if c == [] then None else if c[0].key == key then Some(c[0].value) else Find(c[1..], key)
  }

  function Drop<V>(c: Contents<V>, key: string): (d: Contents<V>)
    ensures |d| <= |c|
  {
    if c == [] then [] else if c[0].key == key then c[1..] else [c[0]] + Drop(c[1..], key)
  }

  function First<T>(xs: seq<T>, n: int): seq<T> {
    if n <= 0 then [] else if n < |xs| then xs[..n] else xs
  }

  /** A hit moves the entry to the front. */
  function Touched<V>(c: Contents<V>, key: string): Contents<V> {
    if Find(c, key).Some? then [Slot(key, Find(c, key).value)] + Drop(c, key) else c
  }

  /** A present key is overwritten and moved to the front; a new one pushes out the back. */
  function Stored<V>(c: Contents<V>, cap: int, key: string, value: V): Contents<V> {
    if Find(c, key).Some? then [Slot(key, value)] + Drop(c, key)
    else First([Slot(key, value)] + c, cap)
  }

  /** One cached load: a hit is returned and moved to the front; on a miss the database's answer
      `loaded` (None for an error) is returned, and stored if it is not an error. */
  function AfterLoad<V>(c: Contents<V>, cap: int, key: string, loaded: Option<V>): Contents<V> {
    if Find(c, key).Some? then Touched(c, key)
    else if loaded.Some? then Stored(c, cap, key, loaded.value) else c
  }

  function LoadResult<V>(c: Contents<V>, key: string, loaded: Option<V>): Option<V> {
    if Find(c, key).Some? then Find(c, key) else loaded
  }

  lemma {:induction false} FindIsMembership<V>(c: Contents<V>, key: string)
    ensures Find(c, key).Some? <==> key in Keys(c)
    ensures Find(c, key).Some? ==> exists i :: 0 <= i < |c| && c[i] == Slot(key, Find(c, key).value)
  {
    if c != [] {
      FindIsMembership(c[1..], key);
      assert Keys(c) == [c[0].key] + Keys(c[1..]);
      if c[0].key != key && Find(c[1..], key).Some? {
        var i :| 0 <= i < |c[1..]| && c[1..][i] == Slot(key, Find(c[1..], key).value);
        assert c[i + 1] == Slot(key, Find(c, key).value);
      } else if c[0].key == key {
        assert c[0] == Slot(key, Find(c, key).value);
      }
    }
  }

  // ---------------------------------------------------------------- the linked list and the map

  /** A list element with its cache entry. */
  class Element<V> {
    const key: string
    var candle: V

    constructor (key: string, candle: V)
      ensures this.key == key && this.candle == candle
    {
      this.key, this.candle := key, candle;
    }
  }

  function SlotsOf<V>(ll: seq<Element<V>>): (c: Contents<V>)
    reads ll
    ensures |c| == |ll| && forall i :: 0 <= i < |c| ==> c[i] == Slot(ll[i].key, ll[i].candle)
  {
    seq(|ll|, i requires 0 <= i < |ll| reads ll => Slot(ll[i].key, ll[i].candle))
  }

  lemma SplitAt<T>(c: seq<T>, i: nat)
    requires i < |c|
    ensures i > 0 ==> c[1..][i - 1] == c[i] && [c[0]] + (c[1..][..i - 1] + c[1..][i..]) == c[..i] + c[i + 1..]
    ensures i == 0 ==> c[1..] == c[..i] + c[i + 1..]
  {}

  lemma {:induction false} DropAt<V>(c: Contents<V>, i: nat)
    requires i < |c| && Distinct(Keys(c))
    ensures Find(c, c[i].key) == Some(c[i].value)
    ensures Drop(c, c[i].key) == c[..i] + c[i + 1..]
  {
    if i > 0 {
      assert Keys(c)[0] != Keys(c)[i];
      assert Keys(c[1..]) == Keys(c)[1..];
      DropAt(c[1..], i - 1);
      assert c[0].key != c[i].key;
      hide Distinct, Keys;
    }
    SplitAt(c, i);
  }

  /** Map and list hold the same elements, each under its own key. */
  ghost predicate Linked<V>(ll: seq<Element<V>>, items: map<string, Element<V>>) {
    && (forall i, j :: 0 <= i < j < |ll| ==> ll[i].key != ll[j].key)
    && (forall i :: 0 <= i < |ll| ==> ll[i].key in items && items[ll[i].key] == ll[i])
    && (forall key :: key in items ==> items[key] in ll && items[key].key == key)
  }

  /** Where the j-th entry was before entry i moved to the front. */
  function Origin(i: nat, j: nat): nat {
    if j == 0 then i else if j <= i then j - 1 else j
  }

  function Front<T>(xs: seq<T>, i: nat): (ys: seq<T>)
    requires i < |xs|
    ensures |ys| == |xs|
    ensures forall j :: 0 <= j < |ys| ==> Origin(i, j) < |xs| && ys[j] == xs[Origin(i, j)]
  {
    [xs[i]] + xs[..i] + xs[i + 1..]
  }

  lemma FrontKeepsLinked<V>(ll: seq<Element<V>>, items: map<string, Element<V>>, i: nat)
    requires Linked(ll, items) && i < |ll|
    ensures Linked(Front(ll, i), items)
  {
    hide Front;
    var next := Front(ll, i);
    forall a, b | 0 <= a < b < |next|
      ensures next[a].key != next[b].key
    {
      var p, q := Origin(i, a), Origin(i, b);
      assert ll[if p < q then p else q].key != ll[if p < q then q else p].key;
    }
    forall key | key in items
      ensures items[key] in next
    {
      var j :| 0 <= j < |ll| && ll[j] == items[key];
      assert next[if j == i then 0 else if j < i then j + 1 else j] == items[key];
    }
  }

  lemma PushKeepsLinked<V>(ll: seq<Element<V>>, items: map<string, Element<V>>, el: Element<V>)
    requires Linked(ll, items) && el.key !in items
    ensures Linked([el] + ll, items[el.key := el])
  {
    var next := [el] + ll;
    forall key | key in items
      ensures items[key] in next
    {
      var j :| 0 <= j < |ll| && ll[j] == items[key];
      assert next[j + 1] == items[key];
    }
    assert next[0] == el;
  }

  function Removed<V>(items: map<string, Element<V>>, key: string): map<string, Element<V>> {
    map k | k in items && k != key :: items[k]
  }

  lemma PopKeepsLinked<V>(ll: seq<Element<V>>, items: map<string, Element<V>>)
    requires Linked(ll, items) && ll != []
    ensures Linked(ll[..|ll| - 1], Removed(items, ll[|ll| - 1].key))
  {
    var n := |ll| - 1;
    var next, left := ll[..n], Removed(items, ll[n].key);
    forall key | key in left
      ensures left[key] in next
    {
      var j :| 0 <= j < |ll| && ll[j] == items[key];
      assert j < n && next[j] == items[key];
    }
  }

  lemma LinkedKeys<V>(ll: seq<Element<V>>, items: map<string, Element<V>>, c: Contents<V>)
    requires Linked(ll, items) && |c| == |ll| && forall i :: 0 <= i < |c| ==> c[i].key == ll[i].key
    ensures Distinct(Keys(c))
    ensures forall key :: key in items <==> Find(c, key).Some?
    ensures forall key :: key in items ==> items[key] in ll && items[key].key == key
  {
    forall key
      ensures key in items <==> Find(c, key).Some?
    {
      FindIsMembership(c, key);
      if key in items {
        var i :| 0 <= i < |ll| && ll[i] == items[key];
        assert Keys(c)[i] == key;
      }
    }
  }

  lemma SlotsOfFront<V>(c: Contents<V>, d: Contents<V>, i: nat, value: V)
    requires i < |c| == |d| && Distinct(Keys(c))
    requires d[0] == Slot(c[i].key, value)
    requires forall j :: 0 < j < |d| ==> d[j] == c[Origin(i, j)]
    ensures d == [Slot(c[i].key, value)] + Drop(c, c[i].key)
    ensures Find(c, c[i].key) == Some(c[i].value)
  {
    DropAt(c, i);
    hide Drop, Find, Distinct;
    BehindFront(c, d, i);
  }

  lemma BehindFront<T>(c: seq<T>, d: seq<T>, i: nat)
    requires i < |c| == |d| && forall j :: 0 < j < |d| ==> d[j] == c[Origin(i, j)]
    ensures d == [d[0]] + (c[..i] + c[i + 1..])
  {
    var e := [d[0]] + (c[..i] + c[i + 1..]);
    assert |e| == |d|;
    forall j | 0 <= j < |d|
      ensures d[j] == e[j]
    {
    }
  }

  lemma SlotsOfPush<V>(ll: seq<Element<V>>, el: Element<V>)
    ensures SlotsOf([el] + ll) == [Slot(el.key, el.candle)] + SlotsOf(ll)
  {}

  lemma SlotsOfFirst<V>(ll: seq<Element<V>>, n: int)
    ensures SlotsOf(First(ll, n)) == First(SlotsOf(ll), n)
  {}

  class CachingRepoAdapter<V> {
    const cap: int
    var ll: seq<Element<V>>
    var items: map<string, Element<V>>

    ghost predicate Valid()
      reads this
    {
      Linked(ll, items)
    }

    ghost function Contents(): Contents<V>
      reads this, ll
    {
      SlotsOf(ll)
    }

    constructor (cap: int)
      ensures Valid() && Contents() == [] && this.cap == cap
    {
      this.cap := cap;
      ll, items := [], map[];
    }

    /** container/list's MoveToFront. */
    method MoveToFront(el: Element<V>) returns (ghost i: nat)
      requires Valid() && el in ll
      modifies `ll
      ensures Valid()
      ensures i < |old(ll)| && old(ll)[i] == el && ll == Front(old(ll), i)
    {
      hide Linked;
      var k := 0;
      while ll[k] != el
        invariant 0 <= k < |ll| && el in ll[k..]
        decreases |ll| - k
      {
        k := k + 1;
      }
      i := k;
      FrontKeepsLinked(ll, items, k);
      ll := [el] + ll[..k] + ll[k + 1..];
    }

    method Get(key: string) returns (v: Option<V>)
      requires Valid()
      modifies `ll
      ensures Valid()
      ensures v == Find(old(Contents()), key)
      ensures Contents() == Touched(old(Contents()), key)
      ensures forall j :: 0 <= j < |ll| ==> ll[j] in old(ll)
    {
      hide Linked, Find, Drop, Distinct;
      ghost var before := Contents();
      LinkedKeys(ll, items, before);
      if key in items {
        var el := items[key];
        ghost var i := MoveToFront(el);
        SlotsOfFront(before, Contents(), i, el.candle);
        return Some(el.candle);
      }
      return None;
    }

    method Put(key: string, v: V)
      requires Valid()
      modifies this, ll
      ensures Valid()
      ensures Contents() == Stored(old(Contents()), cap, key, v)
    {
      hide Linked, Find, Drop, Distinct, Front;
      ghost var before := Contents();
      LinkedKeys(ll, items, before);
      if key in items {
        var el := items[key];
        ghost var i := MoveToFront(el);
        el.candle := v;
        SlotsOfFront(before, Contents(), i, v);
      } else {
        PushNew(key, v);
      }
    }

    /** Lines 85-94: a new entry in front, and evictions from the back. */
    method PushNew(key: string, v: V)
      requires Valid() && key !in items
      modifies `ll, `items
      ensures Valid()
      ensures Contents() == First([Slot(key, v)] + old(Contents()), cap)
    {
      hide Linked;
      var el := new Element(key, v);
      PushKeepsLinked(ll, items, el);
      SlotsOfPush(ll, el);
      ll := [el] + ll;
      items := items[key := el];
      SlotsOfFirst(ll, cap);
      Trim();
    }

    /** The common shape of the two loaders; `loaded` is what the database would answer. */
    method Load(key: string, loaded: Option<V>) returns (result: Option<V>)
      requires Valid()
      modifies this, ll
      ensures Valid()
      ensures Contents() == AfterLoad(old(Contents()), cap, key, loaded)
      ensures result == LoadResult(old(Contents()), key, loaded)
    {
      hide Linked, Find, Drop;
      var v := Get(key);
      if v.Some? {
        return v;
      }
      if loaded.None? {
        return None;
      }
      Put(key, loaded.value);
      return loaded;
    }

    method LoadCandlesFiltered(symbols: seq<string>, start: Time, end: Time, source: string, loaded: Option<V>)
      returns (result: Option<V>)
      requires Valid()
      modifies this, ll
      ensures Valid()
      ensures Contents() == AfterLoad(old(Contents()), cap, KeyOf(Plain(symbols, start, end, source)), loaded)
      ensures result == LoadResult(old(Contents()), KeyOf(Plain(symbols, start, end, source)), loaded)
    {
      var key := CandleKey(symbols, start, end, "", source);
      result := Load(key, loaded);
    }

    method LoadCandlesTFFiltered(symbols: seq<string>, start: Time, end: Time, timeframe: string, source: string,
                                 loaded: Option<V>)
      returns (result: Option<V>)
      requires Valid()
      modifies this, ll
      ensures Valid()
      ensures Contents() == AfterLoad(old(Contents()), cap, KeyOf(Timeframed(symbols, start, end, timeframe, source)),
                                      loaded)
      ensures result == LoadResult(old(Contents()), KeyOf(Timeframed(symbols, start, end, timeframe, source)), loaded)
    {
      var key := CandleKey(symbols, start, end, timeframe, source);
      result := Load(key, loaded);
    }

    /** The eviction loop of put. */
    method Trim()
      requires Valid()
      modifies `ll, `items
      ensures Valid()
      ensures ll == First(old(ll), cap)
    {
      hide Linked;
      while |ll| > cap
        invariant Valid()
        invariant |ll| <= |old(ll)| && ll == old(ll)[..|ll|]
        invariant |ll| == |old(ll)| || |ll| >= cap
        decreases |ll|
      {
        if |ll| == 0 {
          break;
        }
        var back := ll[|ll| - 1];
        PopKeepsLinked(ll, items);
        ll := ll[..|ll| - 1];
        items := Removed(items, back.key);
      }
    }
  }
}

/** What a cache holds after a run of loads, against the mathematical LRU order. */
module LruOrder {
  import opened Common
  import opened LruCache

  /** The keys without the given one. */
  function Rm(keys: seq<string>, k: string): seq<string> {
    if keys == [] then [] else if keys[0] == k then keys[1..] else [keys[0]] + Rm(keys[1..], k)
  }

  /** The distinct keys used, most recent first. */
  function Recent(uses: seq<string>): seq<string> {
    if uses == [] then []
    else
      var k := uses[|uses| - 1];
      [k] + Rm(Recent(uses[..|uses| - 1]), k)
  }

  /** Position of the last use of k, or -1. */
  function LastUse(uses: seq<string>, k: string): int {
    if uses == [] then -1
    else if uses[|uses| - 1] == k then |uses| - 1
    else LastUse(uses[..|uses| - 1], k)
  }

  lemma {:induction false} RmKeeps(keys: seq<string>, k: string)
    requires Distinct(keys)
    ensures Distinct(Rm(keys, k))
    ensures forall x :: x in Rm(keys, k) <==> x in keys && x != k
    ensures |Rm(keys, k)| == |keys| - if k in keys then 1 else 0
  {
    if keys != [] {
      assert keys == [keys[0]] + keys[1..];
      RmKeeps(keys[1..], k);
      var rest := Rm(keys[1..], k);
      if keys[0] != k {
        assert keys[0] !in keys[1..];
        assert forall x :: x in [keys[0]] + rest <==> x == keys[0] || x in rest;
      }
    }
  }

  ghost predicate ByLastUse(uses: seq<string>, keys: seq<string>) {
    forall i, j :: 0 <= i < j < |keys| ==> LastUse(uses, keys[i]) > LastUse(uses, keys[j])
  }

  lemma {:induction false} RmByLastUse(uses: seq<string>, keys: seq<string>, k: string)
    requires ByLastUse(uses, keys) && Distinct(keys)
    ensures ByLastUse(uses, Rm(keys, k))
  {
    if keys != [] {
      assert ByLastUse(uses, keys[1..]) && Distinct(keys[1..]);
      RmByLastUse(uses, keys[1..], k);
      RmKeeps(keys[1..], k);
      var rest := Rm(keys[1..], k);
      if keys[0] != k {
        forall j | 0 <= j < |rest|
          ensures LastUse(uses, keys[0]) > LastUse(uses, rest[j])
        {
          assert rest[j] in rest && rest[j] in keys[1..];
          var i :| 0 <= i < |keys[1..]| && keys[1..][i] == rest[j];
          assert keys[i + 1] == rest[j];
        }
      }
    }
  }

  lemma {:induction false} LastUseBound(uses: seq<string>, k: string)
    ensures -1 <= LastUse(uses, k) < |uses|
    ensures LastUse(uses, k) >= 0 <==> k in uses
  {
    if uses != [] {
      LastUseBound(uses[..|uses| - 1], k);
      assert uses == uses[..|uses| - 1] + [uses[|uses| - 1]];
    }
  }

  /** Recent lists exactly the used keys, each once, in the order of their last uses. */
  lemma {:induction false} RecentIsLruOrder(uses: seq<string>)
    ensures Distinct(Recent(uses)) && ByLastUse(uses, Recent(uses))
    ensures forall k :: k in Recent(uses) <==> k in uses
  {
    if uses != [] {
      var front, k := uses[..|uses| - 1], uses[|uses| - 1];
      assert uses == front + [k];
      RecentIsLruOrder(front);
      RmKeeps(Recent(front), k);
      RmByLastUse(front, Recent(front), k);
      var rest := Rm(Recent(front), k);
      forall i | 0 <= i < |rest|
        ensures LastUse(uses, rest[i]) == LastUse(front, rest[i]) < |front|
      {
        assert rest[i] in rest;
        LastUseBound(front, rest[i]);
      }
      assert LastUse(uses, k) == |front|;
    }
  }

  // ---------------------------------------------------------------- cache contents as keys

  lemma {:induction false} KeysOfDrop<V>(c: Contents<V>, k: string)
    ensures Keys(Drop(c, k)) == Rm(Keys(c), k)
  {
    if c != [] {
      assert Keys(c)[1..] == Keys(c[1..]);
      KeysOfDrop(c[1..], k);
      if c[0].key != k {
        assert Keys([c[0]] + Drop(c[1..], k)) == [c[0].key] + Keys(Drop(c[1..], k));
      }
    }
  }

  function UsedKeys(keys: seq<string>, cap: int, k: string): seq<string> {
    if k in keys then [k] + Rm(keys, k) else First([k] + keys, cap)
  }

  lemma KeysAfterLoad<V>(c: Contents<V>, cap: int, k: string, loaded: Option<V>)
    ensures Keys(AfterLoad(c, cap, k, loaded))
         == if LoadResult(c, k, loaded).Some? then UsedKeys(Keys(c), cap, k) else Keys(c)
  {
    FindIsMembership(c, k);
    KeysOfDrop(c, k);
    hide Find, Drop, Rm;
    if k in Keys(c) {
      assert Keys([Slot(k, Find(c, k).value)] + Drop(c, k)) == [k] + Keys(Drop(c, k));
    } else if loaded.Some? {
      assert Keys([Slot(k, loaded.value)] + c) == [k] + Keys(c);
      KeysOfFirst([Slot(k, loaded.value)] + c, cap);
    }
  }

  lemma KeysOfFirst<V>(c: Contents<V>, n: int)
    ensures Keys(First(c, n)) == First(Keys(c), n)
  {}

  lemma {:induction false} RmOfFirst(keys: seq<string>, k: string, n: nat)
    requires Distinct(keys)
    ensures k in First(keys, n) ==> First(Rm(keys, k), n - 1) == Rm(First(keys, n), k)
    ensures k !in First(keys, n) ==> First(Rm(keys, k), n - 1) == First(keys, n - 1)
  {
    if keys != [] && n > 0 {
      var a, tail := keys[0], keys[1..];
      assert keys == [a] + tail;
      RmOfFirst(tail, k, n - 1);
      FirstOfCons(a, tail, n);
      RmOfCons(a, tail, k);
      RmOfCons(a, First(tail, n - 1), k);
      if a == k {
        assert forall x :: x in tail ==> x != k;
      } else if n >= 2 {
        FirstOfCons(a, Rm(tail, k), n - 1);
        FirstOfCons(a, tail, n - 1);
      }
      hide First, Rm;
    }
  }

  lemma RmOfCons(a: string, tail: seq<string>, k: string)
    ensures Rm([a] + tail, k) == if a == k then tail else [a] + Rm(tail, k)
  {
    assert ([a] + tail)[1..] == tail;
  }

  lemma UseKeepsOrder(recent: seq<string>, cap: int, k: string)
    requires Distinct(recent)
    ensures UsedKeys(First(recent, cap), cap, k) == First([k] + Rm(recent, k), cap)
  {
    if cap >= 1 {
      RmOfFirst(recent, k, cap);
      FirstOfCons(k, Rm(recent, k), cap);
      FirstOfCons(k, First(recent, cap), cap);
      FirstOfFirst(recent, cap - 1, cap);
    }
  }

  lemma FirstOfCons(k: string, keys: seq<string>, n: int)
    requires n >= 1
    ensures First([k] + keys, n) == [k] + First(keys, n - 1)
  {}

  lemma FirstOfFirst(keys: seq<string>, m: int, n: int)
    requires m <= n
    ensures First(First(keys, n), m) == First(keys, m)
  {}

  // ---------------------------------------------------------------- runs of loads

  datatype Request<V> = Request(key: string, loaded: Option<V>)

  /** Contents after the requests, and the keys that were returned, oldest first. */
  datatype Run<V> = Run(contents: Contents<V>, uses: seq<string>)

  function RunLoads<V>(cap: int, requests: seq<Request<V>>): Run<V> {
    if requests == [] then Run([], [])
    else
      var before := RunLoads(cap, requests[..|requests| - 1]);
      var r := requests[|requests| - 1];
      Run(AfterLoad(before.contents, cap, r.key, r.loaded),
          before.uses + if LoadResult(before.contents, r.key, r.loaded).Some? then [r.key] else [])
  }

  lemma RecentAppend(uses: seq<string>, k: string)
    ensures Recent(uses + [k]) == [k] + Rm(Recent(uses), k)
  {
    assert (uses + [k])[..|uses|] == uses;
  }

  /** After any run of loads the cache holds exactly the first `cap` keys of the distinct
      successfully loaded keys ordered by most recent use; failed loads leave no trace. */
  lemma {:induction false} CacheIsLruOrder<V>(cap: int, requests: seq<Request<V>>)
    ensures var run := RunLoads(cap, requests); Keys(run.contents) == First(Recent(run.uses), cap)
  {
    if requests == [] {
      assert Keys<V>([]) == [] == First(Recent([]), cap);
    } else {
      var r := requests[|requests| - 1];
      var before := RunLoads(cap, requests[..|requests| - 1]);
      CacheIsLruOrder(cap, requests[..|requests| - 1]);
      KeysAfterLoad(before.contents, cap, r.key, r.loaded);
      RecentIsLruOrder(before.uses);
      UseKeepsOrder(Recent(before.uses), cap, r.key);
      RecentAppend(before.uses, r.key);
      hide AfterLoad, LoadResult, UsedKeys, Keys, First, Distinct, Recent, Rm;
      assert before.uses + [] == before.uses;
    }
  }

  // ---------------------------------------------------------------- larger caches hold more

  /** s is a subsequence of l. */
  ghost predicate Sub(s: seq<string>, l: seq<string>) {
    s == [] || (l != [] && ((s[0] == l[0] && Sub(s[1..], l[1..])) || Sub(s, l[1..])))
  }

  lemma {:induction false} SubReflexive(s: seq<string>)
    ensures Sub(s, s)
  {
    if s != [] {
      SubReflexive(s[1..]);
    }
  }

  lemma {:induction false} SubMembers(s: seq<string>, l: seq<string>)
    requires Sub(s, l)
    ensures |s| <= |l| && forall x :: x in s ==> x in l
  {
    if s != [] {
      assert s == [s[0]] + s[1..] && l == [l[0]] + l[1..];
      if s[0] == l[0] && Sub(s[1..], l[1..]) {
        SubMembers(s[1..], l[1..]);
      } else {
        SubMembers(s, l[1..]);
      }
    }
  }

  lemma {:induction false} SubRmBoth(s: seq<string>, l: seq<string>, k: string)
    requires Sub(s, l) && Distinct(l) && Distinct(s)
    ensures Sub(Rm(s, k), Rm(l, k))
  {
    if s != [] {
      SubMembers(s, l);
      if s[0] == l[0] && Sub(s[1..], l[1..]) {
        SubRmBoth(s[1..], l[1..], k);
        assert ([s[0]] + Rm(s[1..], k))[1..] == Rm(s[1..], k);
        assert ([l[0]] + Rm(l[1..], k))[1..] == Rm(l[1..], k);
      } else {
        SubMembers(s, l[1..]);
        SubRmBoth(s, l[1..], k);
        if l[0] == k {
          assert k !in l[1..];
          assert k !in s;
          RmAbsent(s, k);
        } else {
          assert ([l[0]] + Rm(l[1..], k))[1..] == Rm(l[1..], k);
        }
      }
    }
  }

  lemma {:induction false} RmAbsent(s: seq<string>, k: string)
    requires k !in s
    ensures Rm(s, k) == s
  {
    if s != [] {
      RmAbsent(s[1..], k);
      assert s == [s[0]] + s[1..];
    }
  }

  lemma SubCons(s: seq<string>, l: seq<string>, k: string)
    requires Sub(s, l)
    ensures Sub([k] + s, [k] + l) && Sub(s, [k] + l)
  {
    assert ([k] + s)[1..] == s && ([k] + l)[1..] == l;
  }

  /** Dropping the last of both keeps a subsequence, as does dropping the last of s alone. */
  lemma {:induction false} SubFronts(s: seq<string>, l: seq<string>)
    requires Sub(s, l) && s != []
    ensures l != [] && Sub(s[..|s| - 1], l[..|l| - 1]) && Sub(s[..|s| - 1], l)
  {
    var s0, l0 := s[..|s| - 1], l[..|l| - 1];
    if s[0] == l[0] && Sub(s[1..], l[1..]) {
      if |s| > 1 {
        SubFronts(s[1..], l[1..]);
        assert s0[1..] == s[1..][..|s| - 2];
        assert l0[1..] == l[1..][..|l| - 2];
      }
    } else {
      SubFronts(s, l[1..]);
      assert l0[1..] == l[1..][..|l| - 2];
    }
  }

  function Capacity(cap: int): nat {
    if cap < 0 then 0 else cap
  }

  /** The small cache's keys against the large one's: a subsequence, and the same sequence while
      the small cache has never been full. */
  ghost predicate Nested(s: seq<string>, l: seq<string>, small: int, large: int) {
    && Distinct(s) && Distinct(l) && Sub(s, l)
    && |s| <= Capacity(small) && |l| <= Capacity(large)
    && (|s| < Capacity(small) ==> s == l)
  }

  lemma DistinctUse(keys: seq<string>, cap: int, k: string)
    requires Distinct(keys) && |keys| <= Capacity(cap)
    ensures Distinct(UsedKeys(keys, cap, k)) && |UsedKeys(keys, cap, k)| <= Capacity(cap)
  {
    RmKeeps(keys, k);
    hide Rm;
  }

  lemma UseBothNested(s: seq<string>, l: seq<string>, small: int, large: int, k: string)
    requires small <= large && Nested(s, l, small, large)
    ensures Nested(UsedKeys(s, small, k), UsedKeys(l, large, k), small, large)
  {
    DistinctUse(s, small, k);
    DistinctUse(l, large, k);
    SubMembers(s, l);
    if k in s {
      SubRmBoth(s, l, k);
      SubCons(Rm(s, k), Rm(l, k), k);
      RmKeeps(s, k);
    } else if k in l {
      SubRmBoth(s, l, k);
      RmAbsent(s, k);
      hide Rm, Sub;
      FirstUse(s, l, Rm(l, k), small, k);
    } else {
      hide Rm;
      NewKeyNested(s, l, small, large, k);
    }
  }

  lemma FirstUse(s: seq<string>, l: seq<string>, rest: seq<string>, small: int, k: string)
    requires Sub(s, rest) && |s| == Capacity(small)
    ensures Sub(First([k] + s, small), [k] + rest) && |First([k] + s, small)| == Capacity(small)
  {
    if small >= 1 {
      SubFronts(s, rest);
      SubCons(s[..|s| - 1], rest, k);
      assert First([k] + s, small) == [k] + s[..|s| - 1];
    }
  }

  lemma NewKeyNested(s: seq<string>, l: seq<string>, small: int, large: int, k: string)
    requires small <= large && Nested(s, l, small, large) && k !in l && k !in s
    ensures Sub(First([k] + s, small), First([k] + l, large))
    ensures |First([k] + s, small)| < Capacity(small) ==> First([k] + s, small) == First([k] + l, large)
  {
    if small >= 1 {
      if |s| < small {
        SubReflexive([k] + s);
      } else {
        SubFronts(s, l);
        var s0 := s[..|s| - 1];
        assert First([k] + s, small) == [k] + s0;
        if |l| < large {
          SubCons(s0, l, k);
        } else {
          SubCons(s0, l[..|l| - 1], k);
          assert First([k] + l, large) == [k] + l[..|l| - 1];
        }
      }
    }
  }

  /** Under the same requests a larger cache holds every key a smaller one holds, even when
      loads fail that only the larger cache can still answer. */
  lemma {:induction false} LargerCacheHoldsMore<V>(small: int, large: int, requests: seq<Request<V>>)
    requires small <= large
    ensures Nested(Keys(RunLoads(small, requests).contents), Keys(RunLoads(large, requests).contents), small, large)
    ensures forall k :: k in Keys(RunLoads(small, requests).contents) ==> k in Keys(RunLoads(large, requests).contents)
  {
    if requests != [] {
      var front, r := requests[..|requests| - 1], requests[|requests| - 1];
      LargerCacheHoldsMore(small, large, front);
      var s, l := RunLoads(small, front).contents, RunLoads(large, front).contents;
      KeysAfterLoad(s, small, r.key, r.loaded);
      KeysAfterLoad(l, large, r.key, r.loaded);
      FindIsMembership(s, r.key);
      FindIsMembership(l, r.key);
      hide AfterLoad, UsedKeys, Keys, First, Sub;
      UseBothNested(Keys(s), Keys(l), small, large, r.key);
      UseLargeNested(Keys(s), Keys(l), small, large, r.key);
    }
    SubMembers(Keys(RunLoads(small, requests).contents), Keys(RunLoads(large, requests).contents));
  }

  /** A load that fails on the small cache but hits the large one. */
  lemma UseLargeNested(s: seq<string>, l: seq<string>, small: int, large: int, k: string)
    requires small <= large && Nested(s, l, small, large)
    ensures k in l && k !in s ==> Nested(s, UsedKeys(l, large, k), small, large)
  {
    if k in l && k !in s {
      DistinctUse(l, large, k);
      SubRmBoth(s, l, k);
      RmAbsent(s, k);
      SubCons(s, Rm(l, k), k);
    }
  }
}

/** Concurrent cached loads.  get and put are atomic (they hold the mutex); the database call
    between them is not, so the loads of several workers interleave at those steps. */
module CandleLoads {
  import opened Common
  import opened CandleKeys
  import opened LruCache

  /** A deterministic database: every query has one answer, None for an error. */
  type Database<!V> = Query -> Option<V>

  /** Where a worker is inside a load: after a miss, or holding the database's answer. */
  datatype Worker<V> = Missed(query: Query) | Fetched(query: Query, value: V)

  datatype Answer<V> = Answer(query: Query, result: Option<V>)

  datatype System<V> = System(cache: Contents<V>, workers: map<nat, Worker<V>>, answers: seq<Answer<V>>)

  /** One atomic step of worker t. */
  datatype Event = Get(t: nat, query: Query) | Fetch(t: nat) | Store(t: nat)

  function Step<V>(s: System<V>, e: Event, cap: int, db: Database<V>): System<V> {
    match e
    case Get(t, q) =>
      if t in s.workers then s
      else if Find(s.cache, KeyOf(q)).Some? then
        s.(cache := Touched(s.cache, KeyOf(q)), answers := s.answers + [Answer(q, Find(s.cache, KeyOf(q)))])
      else s.(workers := s.workers[t := Missed(q)])
    case Fetch(t) =>
      if t !in s.workers || !s.workers[t].Missed? then s
      else
        var q := s.workers[t].query;
        if db(q).None? then s.(workers := s.workers - {t}, answers := s.answers + [Answer(q, None)])
        else s.(workers := s.workers[t := Fetched(q, db(q).value)])
    case Store(t) =>
      if t !in s.workers || !s.workers[t].Fetched? then s
      else
        var q, v := s.workers[t].query, s.workers[t].value;
        System(Stored(s.cache, cap, KeyOf(q), v), s.workers - {t}, s.answers + [Answer(q, Some(v))])
  }

  function RunEvents<V>(events: seq<Event>, cap: int, db: Database<V>): System<V> {
    if events == [] then System([], map[], [])
    else Step(RunEvents(events[..|events| - 1], cap, db), events[|events| - 1], cap, db)
  }

  ghost predicate Asks(events: seq<Event>, queries: iset<Query>) {
    forall i :: 0 <= i < |events| && events[i].Get? ==> events[i].query in queries
  }

  /** Queries that share a key have the same answer, unless all of them are errors. */
  ghost predicate KeysDetermine<V(!new)>(queries: iset<Query>, db: Database<V>) {
    forall p, q :: p in queries && q in queries && KeyOf(p) == KeyOf(q) && db(p).Some? ==> db(q) == db(p)
  }

  /** Everything cached or held is what the database says, for every query of its key. */
  ghost predicate Sound<V(!new)>(s: System<V>, queries: iset<Query>, db: Database<V>) {
    && (forall i, q :: 0 <= i < |s.cache| && q in queries && KeyOf(q) == s.cache[i].key ==>
          db(q) == Some(s.cache[i].value))
    && (forall t :: t in s.workers ==> s.workers[t].query in queries)
    && (forall t :: t in s.workers && s.workers[t].Fetched? ==> db(s.workers[t].query) == Some(s.workers[t].value))
    && (forall i :: 0 <= i < |s.answers| ==> s.answers[i].result == db(s.answers[i].query))
  }

  lemma {:induction false} DropKeepsSlots<V>(c: Contents<V>, key: string)
    ensures forall i :: 0 <= i < |Drop(c, key)| ==> Drop(c, key)[i] in c
  {
    if c != [] {
      DropKeepsSlots(c[1..], key);
    }
  }

  lemma StoredSlots<V>(c: Contents<V>, cap: int, key: string, value: V)
    ensures forall i :: 0 <= i < |Stored(c, cap, key, value)| ==>
              Stored(c, cap, key, value)[i] in c || Stored(c, cap, key, value)[i] == Slot(key, value)
  {
    DropKeepsSlots(c, key);
  }

  lemma TouchedSlots<V>(c: Contents<V>, key: string)
    ensures forall i :: 0 <= i < |Touched(c, key)| ==> Touched(c, key)[i] in c
  {
    DropKeepsSlots(c, key);
    FindIsMembership(c, key);
  }

  lemma StepKeepsSound<V(!new)>(s: System<V>, e: Event, cap: int, queries: iset<Query>, db: Database<V>)
    requires Sound(s, queries, db) && KeysDetermine(queries, db) && (e.Get? ==> e.query in queries)
    ensures Sound(Step(s, e, cap, db), queries, db)
  {
    hide KeyOf, Find, Drop, First;
    match e
    case Get(t, q) =>
      TouchedSlots(s.cache, KeyOf(q));
      FindIsMembership(s.cache, KeyOf(q));
      hide Touched, Stored;
    case Fetch(t) =>
      hide Touched, Stored;
    case Store(t) =>
      if t in s.workers && s.workers[t].Fetched? {
        StoredSlots(s.cache, cap, KeyOf(s.workers[t].query), s.workers[t].value);
      }
      hide Touched, Stored;
  }

  lemma {:induction false} RunsAreSound<V(!new)>(events: seq<Event>, cap: int, queries: iset<Query>, db: Database<V>)
    requires KeysDetermine(queries, db) && Asks(events, queries)
    ensures Sound(RunEvents(events, cap, db), queries, db)
  {
    if events != [] {
      var front := events[..|events| - 1];
      RunsAreSound(front, cap, queries, db);
      StepKeepsSound(RunEvents(front, cap, db), events[|events| - 1], cap, queries, db);
    }
  }

  /** Every answer given in any interleaving is the database's own. */
  ghost predicate Transparent<V(!new)>(cap: int, queries: iset<Query>, db: Database<V>) {
    forall events :: Asks(events, queries) ==>
      forall i :: 0 <= i < |RunEvents(events, cap, db).answers| ==>
        var a := RunEvents(events, cap, db).answers[i]; a.result == db(a.query)
  }

  /** The cache is invisible to all runs over a set of queries exactly when queries that share a
      key share their answer. */
  lemma TransparentExactly<V(!new)>(cap: int, queries: iset<Query>, db: Database<V>)
    requires cap >= 1
    ensures Transparent(cap, queries, db) <==> KeysDetermine(queries, db)
  {
    if KeysDetermine(queries, db) {
      hide KeysDetermine, RunEvents, KeyOf;
      forall events | Asks(events, queries)
        ensures forall i :: 0 <= i < |RunEvents(events, cap, db).answers| ==>
                  RunEvents(events, cap, db).answers[i].result == db(RunEvents(events, cap, db).answers[i].query)
      {
        RunsAreSound(events, cap, queries, db);
      }
    }
    if Transparent(cap, queries, db) {
      hide Transparent, KeyOf;
      forall p, q | p in queries && q in queries && KeyOf(p) == KeyOf(q) && db(p).Some?
        ensures db(q) == db(p)
      {
        TransparentPair(cap, queries, p, q, db);
      }
    }
  }

  lemma TransparentPair<V(!new)>(cap: int, queries: iset<Query>, p: Query, q: Query, db: Database<V>)
    requires cap >= 1 && Transparent(cap, queries, db)
    requires p in queries && q in queries && KeyOf(p) == KeyOf(q) && db(p).Some?
    ensures db(q) == db(p)
  {
    hide KeyOf, RunEvents;
    SecondReaderGetsFirst(cap, p, q, db);
    assert Asks(LoadThenGet(p, q), queries);
    var last := RunEvents(LoadThenGet(p, q), cap, db);
    assert last.answers[1].result == db(last.answers[1].query);
  }

  /** One worker loads p; then another asks for q. */
  function LoadThenGet(p: Query, q: Query): seq<Event> {
    [Get(0, p), Fetch(0), Store(0), Get(1, q)]
  }

  lemma SecondReaderGetsFirst<V>(cap: int, p: Query, q: Query, db: Database<V>)
    requires cap >= 1 && KeyOf(p) == KeyOf(q) && db(p).Some?
    ensures RunEvents(LoadThenGet(p, q), cap, db).answers == [Answer(p, db(p)), Answer(q, db(p))]
  {
    hide KeyOf;
    var e := LoadThenGet(p, q);
    var s0: System<V> := System([], map[], []);
    assert e[..4] == e && e[..3][..2] == e[..2] && e[..2][..1] == e[..1] && e[..1][..0] == [];
    assert e[..4][..3] == e[..3];
    var s1 := Step(s0, Get(0, p), cap, db);
    assert RunEvents(e[..1], cap, db) == s1;
    var s2 := Step(s1, Fetch(0), cap, db);
    assert RunEvents(e[..2], cap, db) == s2;
    assert s2.workers[0] == Fetched(p, db(p).value) && s2.cache == [];
    var s3 := Step(s2, Store(0), cap, db);
    assert RunEvents(e[..3], cap, db) == s3;
    assert First([Slot(KeyOf(p), db(p).value)] + [], cap) == [Slot(KeyOf(p), db(p).value)];
    assert s3.cache == [Slot(KeyOf(p), db(p).value)];
    assert 1 !in s3.workers;
    assert s3.answers == [Answer(p, db(p))];
  }

  /** With whole-day, separator-free queries and named timeframes every cached load returns what
      the uncached load would, whatever the database, the capacity and the interleaving. */
  lemma DayAlignedLoadsTransparent<V(!new)>(cap: int, db: Database<V>, events: seq<Event>, i: nat)
    requires Asks(events, iset q | DayAligned(q))
    requires i < |RunEvents(events, cap, db).answers|
    ensures RunEvents(events, cap, db).answers[i].result == db(RunEvents(events, cap, db).answers[i].query)
  {
    var queries := iset q | DayAligned(q);
    forall p, q | p in queries && q in queries && KeyOf(p) == KeyOf(q) && db(p).Some?
      ensures db(q) == db(p)
    {
      DayAlignedKeysInjective(p, q);
    }
    hide KeyOf, DayAligned;
    RunsAreSound(events, cap, queries, db);
  }

  lemma SharedKeyExposed(cap: int, queries: iset<Query>, p: Query, q: Query) returns (db: Database<int>)
    requires cap >= 1 && p in queries && q in queries && KeyOf(p) == KeyOf(q) && p != q
    ensures !Transparent(cap, queries, db)
  {
    hide KeyOf, Transparent;
    db := (x: Query) => Some(if x == p then 1 else 2);
    TransparentExactly(cap, queries, db);
    assert db(p).Some? && db(q) != db(p);
  }

  /** Every query has a key of its own. */
  ghost predicate KeysTellApart(queries: iset<Query>) {
    forall p, q :: p in queries && q in queries && KeyOf(p) == KeyOf(q) ==> p == q
  }

  /** Over a set of queries the cache is invisible whatever the database answers exactly when
      each query has a key of its own: for separable queries, when no two agree up to the time
      of day and the loader. */
  lemma CollisionExactly(cap: int, queries: iset<Query>)
    requires cap >= 1
    ensures (forall db: Database<int> :: Transparent(cap, queries, db)) <==> KeysTellApart(queries)
    ensures (forall q :: q in queries ==> Separable(q)) ==>
              (KeysTellApart(queries) <==>
               forall p, q :: p in queries && q in queries && SameUpToDay(p, q) ==> p == q)
  {
    hide KeyOf, Separable, SameUpToDay, Transparent;
    if KeysTellApart(queries) {
      forall db: Database<int>
        ensures Transparent(cap, queries, db)
      {
        TransparentExactly(cap, queries, db);
      }
    } else {
      var p, q :| p in queries && q in queries && KeyOf(p) == KeyOf(q) && p != q;
      var db := SharedKeyExposed(cap, queries, p, q);
    }
    if forall q :: q in queries ==> Separable(q) {
      forall p, q | p in queries && q in queries
        ensures KeyOf(p) == KeyOf(q) <==> SameUpToDay(p, q)
      {
        KeysAgreeExactly(p, q);
      }
    }
  }
}
