/** The dictionary of gwlib/dict.c: an array of buckets refining a map, for any hash function. A NULL value is
    None; a NULL bucket is None too. */
module Dictionary {
  import opened Common

  datatype Item<V> = Item(key: string, value: V)

  // ---------------------------------------------------------------------------
  // The map and what each operation does to it
  // ---------------------------------------------------------------------------

  datatype Op<V> = Put(key: string, value: Option<V>) | PutOnce(key: string, value: Option<V>) | Remove(key: string)

  function Get<V>(m: map<string, V>, key: string): Option<V> { if key in m then Some(m[key]) else None }

  function After<V>(m: map<string, V>, op: Op<V>): map<string, V> {
    match op
    case Put(k, Some(v)) => m[k := v]
    case PutOnce(k, Some(v)) => if k in m then m else m[k := v]
    case _ => m - {op.key}
  }

  /** What the operation lets go of: these are the arguments of destroy_value, if there is one. */
  function LetGo<V>(m: map<string, V>, op: Op<V>): seq<Option<V>> {
    match op
    case Put(k, Some(v)) => if k in m then [Some(m[k])] else []
    case PutOnce(k, Some(v)) => if k in m then [Some(v)] else []
    case Remove(_) => []
    case _ => [Get(m, op.key)]
  }

  /** What the caller gets back, and what it put in. */
  function HandedBack<V>(m: map<string, V>, op: Op<V>): Option<V> { if op.Remove? then Get(m, op.key) else None }

  function PutIn<V>(op: Op<V>): Option<V> { if op.Remove? then None else op.value }

  // ---------------------------------------------------------------------------
  // Conservation of values
  // ---------------------------------------------------------------------------

  datatype Run<V> = Start | Then(before: Run<V>, op: Op<V>)

  ghost function Contents<V>(r: Run<V>): map<string, V> {
    match r
    case Start => map[]
    case Then(b, op) => After(Contents(b), op)
  }

  /** How often a value was put in, handed back, let go, and is stored. */
  ghost function TimesIn<V>(r: Run<V>, v: V): nat {
    match r case Start => 0 case Then(b, op) => TimesIn(b, v) + One(PutIn(op) == Some(v))
  }

  ghost function TimesBack<V>(r: Run<V>, v: V): nat {
    match r case Start => 0 case Then(b, op) => TimesBack(b, v) + One(HandedBack(Contents(b), op) == Some(v))
  }

  ghost function TimesGone<V>(r: Run<V>, v: V): nat {
    match r case Start => 0 case Then(b, op) => TimesGone(b, v) + One(LetGo(Contents(b), op) == [Some(v)])
  }

  ghost function Stored<V>(m: map<string, V>, v: V): set<string> { set k | k in m && m[k] == v }

  lemma StoredPut<V>(m: map<string, V>, k: string, w: V, v: V)
    ensures |Stored(m[k := w], v)| == |Stored(m - {k}, v)| + One(w == v)
  {
    var s := Stored(m - {k}, v);
    assert Stored(m[k := w], v) == if w == v then s + {k} else s;
  }

  lemma StoredRemove<V>(m: map<string, V>, k: string, v: V)
    ensures |Stored(m, v)| == |Stored(m - {k}, v)| + One(Get(m, k) == Some(v))
  {
    var s := Stored(m - {k}, v);
    assert Stored(m, v) == if Get(m, k) == Some(v) then s + {k} else s;
  }

  /** In every run, every value put in is stored, has been handed back, or has been let go, each time exactly once. */
  lemma {:induction false} Conserved<V>(r: Run<V>, v: V)
    ensures TimesIn(r, v) == |Stored(Contents(r), v)| + TimesBack(r, v) + TimesGone(r, v)
  {
    match r
    case Start => assert Stored(Contents(r), v) == {};
    case Then(b, op) =>
      Conserved(b, v);
      var m := Contents(b);
      StoredRemove(m, op.key, v);
      if !op.Remove? && op.value.Some? {
        StoredPut(m, op.key, op.value.value, v);
      }
  }

  // ---------------------------------------------------------------------------
  // The table
  // ---------------------------------------------------------------------------

  function Items<V>(b: Option<seq<Item<V>>>): seq<Item<V>> { if b.None? then [] else b.value }

  function Slot(hash: string -> nat, n: nat, key: string): (r: nat)
    requires n > 0
    ensures r < n
  {
    hash(key) % n
  }

  /** The position of a key in a bucket, or -1: gwlist_search with item_has_key. */
  ghost function Position<V>(b: seq<Item<V>>, key: string): (r: int)
    ensures -1 <= r < |b|
    ensures r >= 0 ==> b[r].key == key && forall j :: 0 <= j < r ==> b[j].key != key
    ensures r == -1 ==> forall j :: 0 <= j < |b| ==> b[j].key != key
  {
    if b == [] then -1
    else
      var r := Position(b[..|b| - 1], key);
      if r >= 0 then r else if b[|b| - 1].key == key then |b| - 1 else -1
  }

  /** Bucket i holds exactly the entries of the map whose keys hash to i, each once. */
  ghost predicate Fits<V>(b: seq<Item<V>>, i: nat, n: nat, hash: string -> nat, m: map<string, V>)
    requires n > 0
  {
    && (forall j :: 0 <= j < |b| ==> Slot(hash, n, b[j].key) == i && Get(m, b[j].key) == Some(b[j].value))
    && (forall j, k :: 0 <= j < k < |b| ==> b[j].key != b[k].key)
    && (forall key :: key in m && Slot(hash, n, key) == i ==> Position(b, key) >= 0)
  }

  ghost predicate Rep<V>(t: seq<Option<seq<Item<V>>>>, hash: string -> nat, m: map<string, V>) {
    |t| > 0 && forall i :: 0 <= i < |t| ==> Fits(Items(t[i]), i, |t|, hash, m)
  }

  /** A search in the right bucket answers for the map. */
  lemma SearchAnswers<V>(t: seq<Option<seq<Item<V>>>>, hash: string -> nat, m: map<string, V>, key: string)
    requires Rep(t, hash, m)
    ensures var b := Items(t[Slot(hash, |t|, key)]);
            var p := Position(b, key);
            (p >= 0 <==> key in m) && (p >= 0 ==> b[p].value == m[key])
  {
    var i := Slot(hash, |t|, key);
    assert Fits(Items(t[i]), i, |t|, hash, m);
  }

  /** Only the key's own bucket need change when only the key does. */
  lemma OneBucket<V>(t: seq<Option<seq<Item<V>>>>, hash: string -> nat, m: map<string, V>, key: string,
    b: seq<Item<V>>, m': map<string, V>)
    requires Rep(t, hash, m)
    requires m' - {key} == m - {key}
    requires Fits(b, Slot(hash, |t|, key), |t|, hash, m')
    ensures Rep(t[Slot(hash, |t|, key) := Some(b)], hash, m')
  {
    hide Fits, Slot;
    var i := Slot(hash, |t|, key);
    forall j | 0 <= j < |t| && j != i
      ensures Fits(Items(t[j]), j, |t|, hash, m')
    {
      OtherFits(Items(t[j]), j, |t|, hash, m, key, m');
    }
    var t' := t[i := Some(b)];
    forall j | 0 <= j < |t'|
      ensures Fits(Items(t'[j]), j, |t'|, hash, m')
    {
      assert t'[j] == if j == i then Some(b) else t[j];
    }
  }

  lemma OtherFits<V>(c: seq<Item<V>>, j: nat, n: nat, hash: string -> nat, m: map<string, V>, key: string, m': map<string, V>)
    requires n > 0 && Fits(c, j, n, hash, m) && m' - {key} == m - {key} && Slot(hash, n, key) != j
    ensures Fits(c, j, n, hash, m')
  {
    hide Slot;
    forall k | k != key
      ensures Get(m', k) == Get(m, k)
    {
      assert Get(m', k) == Get(m' - {key}, k) && Get(m, k) == Get(m - {key}, k);
    }
    forall k | k in m' && Slot(hash, n, k) == j
      ensures Position(c, k) >= 0
    {
      assert Get(m', k) == Get(m, k);
    }
  }

  lemma AppendFits<V>(b: seq<Item<V>>, i: nat, n: nat, hash: string -> nat, m: map<string, V>, key: string, v: V)
    requires n > 0 && Fits(b, i, n, hash, m) && Slot(hash, n, key) == i && key !in m
    ensures Fits(b + [Item(key, v)], i, n, hash, m[key := v])
  {
    hide Slot;
    var c := b + [Item(key, v)];
    assert c[..|b|] == b;
    forall j | 0 <= j < |b|
      ensures c[j] == b[j] && b[j].key != key
    {
      assert Get(m, b[j].key) == Some(b[j].value);
    }
  }

  lemma ReplaceFits<V>(b: seq<Item<V>>, i: nat, n: nat, hash: string -> nat, m: map<string, V>, p: nat, v: V)
    requires n > 0 && Fits(b, i, n, hash, m) && p < |b|
    ensures Fits(b[p := Item(b[p].key, v)], i, n, hash, m[b[p].key := v])
  {
    hide Slot;
    var c := b[p := Item(b[p].key, v)];
    forall key | key in m && Slot(hash, n, key) == i
      ensures Position(c, key) >= 0
    {
      var q := Position(b, key);
      assert c[q].key == key;
    }
  }

  lemma DeleteFits<V>(b: seq<Item<V>>, i: nat, n: nat, hash: string -> nat, m: map<string, V>, p: nat)
    requires n > 0 && Fits(b, i, n, hash, m) && p < |b|
    ensures Fits(b[..p] + b[p + 1..], i, n, hash, m - {b[p].key})
  {
    hide Slot;
    var c := b[..p] + b[p + 1..];
    Cut(b, p);
    forall key | key in m && key != b[p].key && Slot(hash, n, key) == i
      ensures Position(c, key) >= 0
    {
      CutPosition(b, p, key);
    }
  }

  lemma Cut<V>(b: seq<Item<V>>, p: nat)
    requires p < |b|
    ensures var c := b[..p] + b[p + 1..]; forall j :: 0 <= j < |c| ==> c[j] == b[if j < p then j else j + 1]
  {
  }

  lemma CutPosition<V>(b: seq<Item<V>>, p: nat, key: string)
    requires p < |b| && key != b[p].key && Position(b, key) >= 0
    ensures Position(b[..p] + b[p + 1..], key) >= 0
  {
    hide Position;
    var c := b[..p] + b[p + 1..];
    var q := Position(b, key);
    assert c[if q < p then q else q - 1].key == key;
  }

  /** Removal by extracting everything that matches: the two halves of gwlist_extract_matching. */
  ghost function Matching<V>(b: seq<Item<V>>, key: string, hit: bool): seq<Item<V>> {
    if b == [] then []
    else
      var n := |b| - 1;
      Matching(b[..n], key, hit) + (if (b[n].key == key) == hit then [b[n]] else [])
  }

  lemma {:induction false} MatchingNone<V>(b: seq<Item<V>>, key: string)
    requires forall j :: 0 <= j < |b| ==> b[j].key != key
    ensures Matching(b, key, true) == [] && Matching(b, key, false) == b
  {
    if b != [] {
      MatchingNone(b[..|b| - 1], key);
    }
  }

  /** With distinct keys at most one item matches. */
  lemma {:induction false} MatchingOne<V>(b: seq<Item<V>>, key: string, p: nat)
    requires p < |b| && b[p].key == key && forall j, k :: 0 <= j < k < |b| ==> b[j].key != b[k].key
    ensures Matching(b, key, true) == [b[p]] && Matching(b, key, false) == b[..p] + b[p + 1..]
    decreases |b|
  {
    var n := |b| - 1;
    if p == n {
      MatchingNone(b[..n], key);
    } else {
      assert b[n].key != key;
      MatchingOne(b[..n], key, p);
      assert b[..n][p + 1..] + [b[n]] == b[p + 1..];
      assert b[..n][..p] == b[..p];
    }
  }

  /** The number of keys follows the map. */
  lemma PutCounts<V>(m: map<string, V>, key: string, v: V)
    ensures |m[key := v]| == |m| + One(key !in m)
  {
    assert m[key := v].Keys == m.Keys + {key};
    assert |m[key := v]| == |m[key := v].Keys| && |m| == |m.Keys|;
  }

  method Search<V>(b: seq<Item<V>>, key: string) returns (p: int)
    ensures p == Position(b, key)
  {
    for j := 0 to |b|
      invariant forall k :: 0 <= k < j ==> b[k].key != key
    {
      if b[j].key == key {
        return j;
      }
    }
    p := -1;
  }

  method ExtractMatching<V>(b: seq<Item<V>>, key: string) returns (hits: seq<Item<V>>, rest: seq<Item<V>>)
    ensures hits == Matching(b, key, true) && rest == Matching(b, key, false)
  {
    hits, rest := [], [];
    for j := 0 to |b|
      invariant hits == Matching(b[..j], key, true) && rest == Matching(b[..j], key, false)
    {
      assert b[..j + 1][..j] == b[..j];
      if b[j].key == key {
        hits := hits + [b[j]];
      } else {
        rest := rest + [b[j]];
      }
    }
    assert b[..|b|] == b;
  }

  /** The items of the first n buckets, in order. */
  ghost function Flat<V>(t: seq<Option<seq<Item<V>>>>, n: nat): seq<Item<V>>
    requires n <= |t|
  {
    if n == 0 then [] else Flat(t, n - 1) + Items(t[n - 1])
  }

  /** These are the entries of the map whose keys hash below n, each once. */
  ghost predicate Covers<V>(f: seq<Item<V>>, n: nat, size: nat, hash: string -> nat, m: map<string, V>)
    requires size > 0
  {
    && (forall j :: 0 <= j < |f| ==> Slot(hash, size, f[j].key) < n && Get(m, f[j].key) == Some(f[j].value))
    && (forall j, k :: 0 <= j < k < |f| ==> f[j].key != f[k].key)
    && (forall key :: key in m && Slot(hash, size, key) < n ==> Position(f, key) >= 0)
  }

  lemma CoversMore<V>(f: seq<Item<V>>, n: nat, size: nat, hash: string -> nat, m: map<string, V>, b: seq<Item<V>>)
    requires size > 0 && Covers(f, n, size, hash, m) && Fits(b, n, size, hash, m)
    ensures Covers(f + b, n + 1, size, hash, m)
  {
    hide Slot;
    var g := f + b;
    forall j | 0 <= j < |g|
      ensures g[j] == if j < |f| then f[j] else b[j - |f|]
    {
    }
    forall j, k | 0 <= j < k < |g|
      ensures g[j].key != g[k].key
    {
      if j < |f| <= k {
        assert Slot(hash, size, g[j].key) < n == Slot(hash, size, g[k].key);
      }
    }
    forall key | key in m && Slot(hash, size, key) < n + 1
      ensures Position(g, key) >= 0
    {
      if Slot(hash, size, key) < n {
        assert g[Position(f, key)].key == key;
      } else {
        assert g[|f| + Position(b, key)].key == key;
      }
    }
  }

  lemma {:induction false} FlatCovers<V>(t: seq<Option<seq<Item<V>>>>, hash: string -> nat, m: map<string, V>, n: nat)
    requires Rep(t, hash, m) && n <= |t|
    ensures Covers(Flat(t, n), n, |t|, hash, m)
  {
    hide Slot, Fits, Covers;
    if n == 0 {
      CoversNothing(|t|, hash, m);
    } else {
      FlatCovers(t, hash, m, n - 1);
      CoversMore(Flat(t, n - 1), n - 1, |t|, hash, m, Items(t[n - 1]));
    }
  }

  lemma CoversNothing<V>(size: nat, hash: string -> nat, m: map<string, V>)
    requires size > 0
    ensures Covers([], 0, size, hash, m)
  {
  }

  /** Each key of the map, once. */
  ghost predicate Lists<V>(keys: seq<string>, m: map<string, V>) {
    && (forall j, k :: 0 <= j < k < |keys| ==> keys[j] != keys[k])
    && (forall key :: key in keys <==> key in m)
  }

  ghost function Keys<V>(f: seq<Item<V>>): (r: seq<string>)
    ensures |r| == |f| && forall j :: 0 <= j < |f| ==> r[j] == f[j].key
  {
    seq(|f|, j requires 0 <= j < |f| => f[j].key)
  }

  lemma FlatLists<V>(t: seq<Option<seq<Item<V>>>>, hash: string -> nat, m: map<string, V>)
    requires Rep(t, hash, m)
    ensures var f := Flat(t, |t|);
            Lists(Keys(f), m) && forall j :: 0 <= j < |f| ==> f[j].key in m && m[f[j].key] == f[j].value
  {
    hide Fits;
    FlatCovers(t, hash, m, |t|);
    var f := Flat(t, |t|);
    forall key
      ensures key in Keys(f) <==> key in m
    {
      if key in m {
        assert Keys(f)[Position(f, key)] == key;
      }
      forall j | 0 <= j < |f|
        ensures Keys(f)[j] in m
      {
        assert Get(m, f[j].key) == Some(f[j].value);
      }
    }
    forall j | 0 <= j < |f|
      ensures f[j].key in m && m[f[j].key] == f[j].value
    {
      assert Get(m, f[j].key) == Some(f[j].value);
    }
  }

  lemma {:induction false} DistinctCount(keys: seq<string>)
    requires forall j, k :: 0 <= j < k < |keys| ==> keys[j] != keys[k]
    ensures |set x | x in keys| == |keys|
  {
    if keys != [] {
      var n := |keys| - 1;
      DistinctCount(keys[..n]);
      assert (set x | x in keys) == (set x | x in keys[..n]) + {keys[n]};
    }
  }

  /** So there are as many as the map has keys. */
  lemma ListsCount<V>(keys: seq<string>, m: map<string, V>)
    requires Lists(keys, m)
    ensures |keys| == |m.Keys|
  {
    DistinctCount(keys);
    assert (set x | x in keys) == m.Keys;
  }

  ghost function Values<V>(f: seq<Item<V>>): seq<Option<V>> { seq(|f|, j requires 0 <= j < |f| => Some(f[j].value)) }

  lemma ValuesAppend<V>(f: seq<Item<V>>, g: seq<Item<V>>)
    ensures Values(f + g) == Values(f) + Values(g)
  {
  }

  lemma ValuesNothing<V>()
    ensures Values<V>([]) == []
  {
  }

  class Dict<V> {
    const tab: array<Option<seq<Item<V>>>>
    const hash: string -> nat
    const destroys: bool
    var keyCount: int
    var destroyed: seq<Option<V>>
    ghost var contents: map<string, V>

    ghost predicate Valid()
      reads this, tab
    {
      Rep(tab[..], hash, contents) && keyCount == |contents|
    }

    /** dict_create; destroyed lists the calls of destroy_value. */
    constructor (sizeHint: nat, hash: string -> nat, destroys: bool)
      requires sizeHint > 0
      ensures Valid() && contents == map[] && destroyed == [] && this.destroys == destroys && fresh(tab) && tab.Length == 2 * sizeHint
    {
      this.hash, this.destroys := hash, destroys;
      tab := new Option<seq<Item<V>>>[2 * sizeHint](_ => None);
      keyCount, destroyed, contents := 0, [], map[];
    }

    method Index(key: string) returns (i: nat)
      requires Valid()
      ensures i < tab.Length && i == Slot(hash, tab.Length, key)
      ensures tab[i].None? ==> key !in contents
    {
      SearchAnswers(tab[..], hash, contents, key);
      i := hash(key) % tab.Length;
    }

    method DestroyValue(v: Option<V>)
      modifies `destroyed
      ensures destroyed == if destroys then old(destroyed) + [v] else old(destroyed)
    {
      if destroys {
        destroyed := destroyed + [v];
      }
    }

    /** What every operation promises. */
    ghost predicate Did(before: map<string, V>, gone: seq<Option<V>>, op: Op<V>)
      reads this, tab
    {
      && Valid()
      && contents == After(before, op)
      && destroyed == gone + (if destroys then LetGo(before, op) else [])
    }

    /** The bucket of a key, and its place there or -1. */
    method Lookup(key: string) returns (i: nat, p: int)
      requires Valid()
      ensures tab.Length > 0 && i == Slot(hash, tab.Length, key)
      ensures p >= 0 <==> key in contents
      ensures p >= 0 ==> tab[i].Some? && p < |tab[i].value| && tab[i].value[p] == Item(key, contents[key])
    {
      hide Slot, Fits;
      SearchAnswers(tab[..], hash, contents, key);
      i := Index(key);
      p := -1;
      if tab[i].Some? {
        p := Search(tab[i].value, key);
      }
    }

    method DictGet(key: string) returns (value: Option<V>)
      requires Valid()
      ensures value == if key in contents then Some(contents[key]) else None
    {
      var i, p := Lookup(key);
      value := if p < 0 then None else Some(tab[i].value[p].value);
    }

    method DictRemove(key: string) returns (value: Option<V>)
      requires Valid()
      modifies this, tab
      ensures Did(old(contents), old(destroyed), Remove(key))
      ensures value == HandedBack(old(contents), Remove(key))
      ensures contents == old(contents) - {key} && destroyed == old(destroyed)
      ensures value == if key in old(contents) then Some(old(contents)[key]) else None
    {
      hide Slot, Fits, Rep, Matching;
      ghost var t := tab[..];
      RemoveCounts(contents, key);
      var i := Index(key);
      if tab[i].None? {
        MissingKey(contents, key);
        return None;
      }
      var hits, rest := ExtractMatching(tab[i].value, key);
      Extracted(t, hash, contents, key);
      assert hits == [] || |hits| == 1;
      tab[i] := Some(rest);
      assert tab[..] == t[i := Some(rest)];
      if hits == [] {
        value := None;
      } else {
        value := Some(hits[0].value);
        keyCount := keyCount - 1;
      }
      contents := contents - {key};
    }

    method StoreNew(key: string, value: V, i: nat)
      requires Valid() && i == Slot(hash, tab.Length, key) && i < tab.Length && key !in contents
      modifies this, tab
      ensures Valid() && contents == old(contents)[key := value] && destroyed == old(destroyed)
    {
      hide Slot, Fits;
      ghost var t := tab[..];
      StoredAppend(t, hash, contents, key, value);
      PutCounts(contents, key, value);
      if tab[i].None? {
        assert Items(t[i]) + [Item(key, value)] == [Item(key, value)];
        tab[i] := Some([Item(key, value)]);
      } else {
        tab[i] := Some(tab[i].value + [Item(key, value)]);
      }
      assert tab[..] == t[i := Some(Items(t[i]) + [Item(key, value)])];
      keyCount := keyCount + 1;
      contents := contents[key := value];
    }

    method DictPut(key: string, value: Option<V>)
      requires Valid()
      modifies this, tab
      ensures Did(old(contents), old(destroyed), Put(key, value))
      ensures contents == if value.Some? then old(contents)[key := value.value] else old(contents) - {key}
      ensures destroyed == old(destroyed) +
              if !destroys then [] else if key in old(contents) then [Some(old(contents)[key])]
              else if value.None? then [None] else []
    {
      hide Slot, Fits, Rep;
      if value.None? {
        var was := DictRemove(key);
        DestroyValue(was);
        return;
      }
      ghost var t := tab[..];
      var i, p := Lookup(key);
      if p < 0 {
        StoreNew(key, value.value, i);
      } else {
        DestroyValue(Some(tab[i].value[p].value));
        Replaced(t, hash, contents, key, p, value.value);
        PutCounts(contents, key, value.value);
        tab[i] := Some(tab[i].value[p := Item(tab[i].value[p].key, value.value)]);
        assert tab[..] == t[i := Some(Items(t[i])[p := Item(key, value.value)])];
        contents := contents[key := value.value];
      }
    }

    /** dict_put_once: 0 exactly when a value was refused because the key was there. */
    method DictPutOnce(key: string, value: Option<V>) returns (ret: int)
      requires Valid()
      modifies this, tab
      ensures Did(old(contents), old(destroyed), PutOnce(key, value))
      ensures value.None? ==> contents == old(contents) - {key}
      ensures value.Some? ==> contents == if key in old(contents) then old(contents) else old(contents)[key := value.value]
      ensures destroyed == old(destroyed) +
              if !destroys then [] else if value.None? then [Get(old(contents), key)]
              else if key in old(contents) then [value] else []
      ensures ret == if value.Some? && key in old(contents) then 0 else 1
    {
      hide Slot, Fits, Rep;
      if value.None? {
        var was := DictRemove(key);
        DestroyValue(was);
        return 1;
      }
      var i, p := Lookup(key);
      if p < 0 {
        StoreNew(key, value.value, i);
        ret := 1;
      } else {
        DestroyValue(value);
        ret := 0;
      }
    }

    /** dict_keys: each key once. */
    method DictKeys() returns (keys: seq<string>)
      requires Valid()
      ensures Lists(keys, contents) && |keys| == keyCount
    {
      hide Rep, Lists;
      ghost var t := tab[..];
      keys := [];
      for i := 0 to tab.Length
        invariant keys == Keys(Flat(t, i))
      {
        ghost var before := Flat(t, i);
        if tab[i].None? {
          assert before + Items(t[i]) == before;
          continue;
        }
        for j := 0 to |tab[i].value|
          invariant keys == Keys(before + tab[i].value[..j])
        {
          keys := keys + [tab[i].value[j].key];
        }
        assert tab[i].value[..|tab[i].value|] == Items(t[i]);
      }
      FlatLists(t, hash, contents);
      ListsCount(keys, contents);
    }

    method DestroyList(b: seq<Item<V>>)
      modifies `destroyed
      ensures destroyed == old(destroyed) + if destroys then Values(b) else []
    {
      ghost var log := destroyed;
      for j := 0 to |b|
        invariant destroyed == log + if destroys then Values(b[..j]) else []
      {
        assert b[..j + 1] == b[..j] + [b[j]];
        ValuesAppend(b[..j], [b[j]]);
        DestroyValue(Some(b[j].value));
      }
      assert b[..|b|] == b;
    }

    /** dict_destroy: takes every item out of the table and destroys its value, each once. */
    method DictDestroy() returns (ghost items: seq<Item<V>>)
      requires Valid()
      modifies `destroyed, tab
      ensures forall i :: 0 <= i < tab.Length ==> Items(tab[i]) == []
      ensures Lists(Keys(items), contents)
      ensures forall j :: 0 <= j < |items| ==> Get(contents, items[j].key) == Some(items[j].value)
      ensures destroyed == old(destroyed) + if destroys then Values(items) else []
    {
      hide Rep, Lists, Values;
      ghost var t := tab[..];
      ghost var log := destroyed;
      items := [];
      ValuesNothing<V>();
      for i := 0 to tab.Length
        invariant items == Flat(t, i)
        invariant destroyed == log + if destroys then Values(items) else []
        invariant forall k :: 0 <= k < i ==> Items(tab[k]) == []
        invariant forall k :: i <= k < tab.Length ==> tab[k] == t[k]
      {
        if tab[i].None? {
          assert items + Items(t[i]) == items;
          continue;
        }
        ValuesAppend(items, tab[i].value);
        DestroyList(tab[i].value);
        items := items + tab[i].value;
        tab[i] := Some([]);
      }
      FlatLists(t, hash, contents);
    }

    method DictKeyCount() returns (result: int)
      requires Valid()
      ensures result == |contents.Keys|
    {
      result := keyCount;
    }
  }

  lemma RemoveCounts<V>(m: map<string, V>, key: string)
    ensures |m - {key}| == |m| - One(key in m)
  {
    assert (m - {key}).Keys == m.Keys - {key};
    assert |m - {key}| == |(m - {key}).Keys| && |m| == |m.Keys|;
  }

  lemma MissingKey<V>(m: map<string, V>, key: string)
    ensures key !in m ==> m - {key} == m
  {
  }

  lemma Extracted<V>(t: seq<Option<seq<Item<V>>>>, hash: string -> nat, m: map<string, V>, key: string)
    requires Rep(t, hash, m)
    ensures var i := Slot(hash, |t|, key);
            var b := Items(t[i]);
            && (if key in m then Matching(b, key, true) == [Item(key, m[key])] else Matching(b, key, true) == [])
            && Rep(t[i := Some(Matching(b, key, false))], hash, m - {key})
  {
    var i := Slot(hash, |t|, key);
    var b := Items(t[i]);
    SearchAnswers(t, hash, m, key);
    assert Fits(b, i, |t|, hash, m);
    var p := Position(b, key);
    if p >= 0 {
      MatchingOne(b, key, p);
      DeleteFits(b, i, |t|, hash, m, p);
      OneBucket(t, hash, m, key, b[..p] + b[p + 1..], m - {key});
    } else {
      MatchingNone(b, key);
      MissingKey(m, key);
      OneBucket(t, hash, m, key, b, m);
    }
  }

  lemma StoredAppend<V>(t: seq<Option<seq<Item<V>>>>, hash: string -> nat, m: map<string, V>, key: string, v: V)
    requires Rep(t, hash, m) && key !in m
    ensures var i := Slot(hash, |t|, key);
            Rep(t[i := Some(Items(t[i]) + [Item(key, v)])], hash, m[key := v])
  {
    hide Slot;
    var i := Slot(hash, |t|, key);
    AppendFits(Items(t[i]), i, |t|, hash, m, key, v);
    OneBucket(t, hash, m, key, Items(t[i]) + [Item(key, v)], m[key := v]);
  }

  lemma Replaced<V>(t: seq<Option<seq<Item<V>>>>, hash: string -> nat, m: map<string, V>, key: string, p: nat, v: V)
    requires Rep(t, hash, m)
    requires var b := Items(t[Slot(hash, |t|, key)]); p < |b| && b[p].key == key
    ensures var i := Slot(hash, |t|, key);
            Rep(t[i := Some(Items(t[i])[p := Item(key, v)])], hash, m[key := v])
  {
    hide Slot;
    var i := Slot(hash, |t|, key);
    ReplaceFits(Items(t[i]), i, |t|, hash, m, p, v);
    OneBucket(t, hash, m, key, Items(t[i])[p := Item(key, v)], m[key := v]);
  }
}
