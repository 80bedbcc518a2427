/**
 Cloning a JavaScript object graph into a canonical tree: cycle detection, a depth cap, and
 refusal of everything that is not plain JSON data.
 */
module GraphClone {
  import opened Wrappers
  import opened Collections
  import opened JsStrings

  datatype JsNum = Finite(value: real) | NegZero | Infinity(negative: bool) | NaN

  datatype JsValue =
    | JsNull
    | JsUndefined
    | JsBool(b: bool)
    | JsStr(s: JsString)
    | JsNumber(n: JsNum)
    | JsOther
    | JsRef(ref: nat)

  /** An own property: a data property or an accessor. */
  datatype Prop = Data(value: JsValue) | Accessor

  /**
   A heap object. `plain` says that the prototype is the expected one. An array has its
   index properties, and `extra` own keys beyond them; any other object has its own string
   keys in creation order, and `symbols` when it also has symbol keys.
   */
  datatype Object =
    | ArrayObject(plain: bool, length: nat, elements: map<nat, Prop>, extra: bool)
    | PlainObject(plain: bool, order: seq<JsString>, props: map<JsString, Prop>, symbols: bool)

  type Heap = map<nat, Object>

  /** The own keys of every object are listed once each. */
  ghost predicate ValidHeap(h: Heap) {
    forall r <- h :: h[r].PlainObject? ==>
      (forall k :: k in h[r].order <==> k in h[r].props) && Distinct(h[r].order)
  }

  datatype Entry = Entry(key: JsString, value: Tree)

  /** The frozen result: a finite tree whose object keys stand in ascending order. */
  datatype Tree =
    | TNull
    | TBool(b: bool)
    | TStr(s: JsString)
    | TNum(n: real)
    | TArray(items: seq<Tree>)
    | TObject(entries: seq<Entry>)

  const MAX_DEPTH := 64

  // ---------------------------------------------------------------- key order

  predicate Less(a: JsString, b: JsString) {
    b != [] && (a == [] || a[0] < b[0] || (a[0] == b[0] && Less(a[1..], b[1..])))
  }

  lemma {:induction false} LessTrans(a: JsString, b: JsString, c: JsString)
    requires Less(a, b) && Less(b, c)
    ensures Less(a, c)
  {
    if a != [] && b != [] && c != [] && a[0] == b[0] == c[0] { LessTrans(a[1..], b[1..], c[1..]); }
  }

  lemma {:induction false} LessTotal(a: JsString, b: JsString)
    ensures Less(a, b) || a == b || Less(b, a)
    ensures !(Less(a, b) && Less(b, a)) && (a == b ==> !Less(a, b))
  {
    if a != [] && b != [] {
      LessTotal(a[1..], b[1..]);
      assert a == [a[0]] + a[1..] && b == [b[0]] + b[1..];
    }
  }

  /** The code units agree up to a place where the first string ends or has the smaller one. */
  ghost predicate DiffersAt(a: JsString, b: JsString, k: nat) {
    k <= |a| && k < |b| && a[..k] == b[..k] && (k == |a| || a[k] < b[k])
  }

  /** The key order is that of the code units. */
  lemma {:induction false} LessExact(a: JsString, b: JsString)
    ensures Less(a, b) <==> exists k: nat :: DiffersAt(a, b, k)
  {
    if a != [] && b != [] && a[0] == b[0] {
      LessExact(a[1..], b[1..]);
      if Less(a, b) {
        var k: nat :| DiffersAt(a[1..], b[1..], k);
        assert a[..k + 1] == [a[0]] + a[1..][..k] && b[..k + 1] == [b[0]] + b[1..][..k];
        assert DiffersAt(a, b, k + 1);
      }
      if k: nat :| DiffersAt(a, b, k) {
        assert k > 0 && a[1..][..k - 1] == a[..k][1..] && b[1..][..k - 1] == b[..k][1..];
        assert DiffersAt(a[1..], b[1..], k - 1);
      }
    } else {
      assert Less(a, b) ==> DiffersAt(a, b, 0);
      if k: nat :| DiffersAt(a, b, k) {
        if k > 0 { assert a[..k][0] == b[..k][0]; }
      }
    }
  }

  function Insert(k: JsString, ks: seq<JsString>): seq<JsString> {
    if ks == [] || Less(k, ks[0]) then [k] + ks else [ks[0]] + Insert(k, ks[1..])
  }

  /** `keys.sort()`. */
  function Sort(ks: seq<JsString>): seq<JsString> {
    if ks == [] then [] else Insert(ks[0], Sort(ks[1..]))
  }

  ghost predicate Ascending(ks: seq<JsString>) {
    ks == [] || ((forall k <- ks[1..] :: Less(ks[0], k)) && Ascending(ks[1..]))
  }

  lemma {:induction false} InsertAscending(k: JsString, ks: seq<JsString>)
    requires Ascending(ks) && k !in ks
    ensures Ascending(Insert(k, ks)) && forall x :: x in Insert(k, ks) <==> x == k || x in ks
  {
    if ks != [] {
      assert ks == [ks[0]] + ks[1..];
      if Less(k, ks[0]) {
        forall x | x in ks ensures Less(k, x) {
          if x != ks[0] { LessTrans(k, ks[0], x); }
        }
        assert ([k] + ks)[1..] == ks;
      } else {
        LessTotal(k, ks[0]);
        InsertAscending(k, ks[1..]);
        var r := [ks[0]] + Insert(k, ks[1..]);
        assert r[1..] == Insert(k, ks[1..]);
      }
    }
  }

  lemma {:induction false} SortAscending(ks: seq<JsString>)
    requires Distinct(ks)
    ensures Ascending(Sort(ks)) && forall x :: x in Sort(ks) <==> x in ks
  {
    if ks != [] {
      assert ks == [ks[0]] + ks[1..];
      SortAscending(ks[1..]);
      InsertAscending(ks[0], Sort(ks[1..]));
    }
  }

  /** Ascending lists with the same elements are the same list. */
  lemma {:induction false} AscendingUnique(a: seq<JsString>, b: seq<JsString>)
    requires Ascending(a) && Ascending(b) && forall x :: x in a <==> x in b
    ensures a == b
  {
    assert b != [] ==> b[0] in b;
    if a != [] {
      assert a[0] in b;
      assert a == [a[0]] + a[1..] && b == [b[0]] + b[1..];
      assert b[0] in a;
      LessTotal(a[0], b[0]);
      assert a[0] == b[0];
      forall x ensures x in a[1..] <==> x in b[1..] {
        LessTotal(x, a[0]);
        assert x in a <==> x == a[0] || x in a[1..];
        assert x in b <==> x == b[0] || x in b[1..];
      }
      AscendingUnique(a[1..], b[1..]);
    }
  }

  // ---------------------------------------------------------------- what a value unfolds to

  ghost function Keys(entries: seq<Entry>): (ks: seq<JsString>)
    ensures |ks| == |entries| && forall i | 0 <= i < |ks| :: ks[i] == entries[i].key
  {
    seq(|entries|, i requires 0 <= i < |entries| => entries[i].key)
  }

  ghost predicate PlainArray(h: Heap, v: JsValue, n: nat) {
    && v.JsRef? && v.ref in h && h[v.ref].ArrayObject?
    && h[v.ref].plain && !h[v.ref].extra && h[v.ref].length == n
    && (forall i :: i in h[v.ref].elements <==> 0 <= i < n)
  }

  ghost predicate PlainRecord(h: Heap, v: JsValue, keys: seq<JsString>) {
    && v.JsRef? && v.ref in h && h[v.ref].PlainObject?
    && h[v.ref].plain && !h[v.ref].symbols
    && Ascending(keys) && forall k :: k in keys <==> k in h[v.ref].props
  }

  /** `t` is the well-formed unfolding of `v`: every alias copied, every key once, in order. */
  ghost predicate Unfolds(h: Heap, v: JsValue, t: Tree)
    decreases t
  {
    match t
    case TNull => v == JsNull
    case TBool(b) => v == JsBool(b)
    case TStr(s) => v == JsStr(s)
    case TNum(n) => v == JsNumber(Finite(n)) || (n == 0.0 && v == JsNumber(NegZero))
    case TArray(items) =>
      && PlainArray(h, v, |items|)
      && forall i | 0 <= i < |items| ::
           h[v.ref].elements[i].Data? && Unfolds(h, h[v.ref].elements[i].value, items[i])
    case TObject(entries) =>
      && PlainRecord(h, v, Keys(entries))
      && forall i | 0 <= i < |entries| ::
           Keys(entries)[i] in h[v.ref].props && h[v.ref].props[Keys(entries)[i]].Data?
           && Unfolds(h, h[v.ref].props[Keys(entries)[i]].value, entries[i].value)
  }

  function Max(a: nat, b: nat): nat { if a < b then b else a }

  /** The number of containers on the longest way down to a leaf or an empty container. */
  function Height(t: Tree): nat
    decreases t
  {
    match t
    case TArray(items) => HeightItems(items)
    case TObject(entries) => HeightEntries(entries)
    case _ => 0
  }

  function HeightItems(items: seq<Tree>): nat
    decreases items
  {
    if items == [] then 0 else Max(1 + Height(items[0]), HeightItems(items[1..]))
  }

  function HeightEntries(entries: seq<Entry>): nat
    decreases entries
  {
    if entries == [] then 0 else Max(1 + Height(entries[0].value), HeightEntries(entries[1..]))
  }

  lemma {:induction false} ItemBelow(items: seq<Tree>, i: nat)
    requires i < |items|
    ensures Height(items[i]) < HeightItems(items)
  {
    if i > 0 { ItemBelow(items[1..], i - 1); }
  }

  lemma {:induction false} EntryBelow(entries: seq<Entry>, i: nat)
    requires i < |entries|
    ensures Height(entries[i].value) < HeightEntries(entries)
  {
    if i > 0 { EntryBelow(entries[1..], i - 1); }
  }

  /** A value has at most one unfolding. */
  lemma {:induction false} UnfoldsUnique(h: Heap, v: JsValue, t: Tree, u: Tree)
    requires Unfolds(h, v, t) && Unfolds(h, v, u)
    ensures t == u
    decreases t
  {
    match t
    case TArray(items) =>
      assert u.TArray? && |u.items| == |items|;
      forall i | 0 <= i < |items| ensures items[i] == u.items[i] {
        UnfoldsUnique(h, h[v.ref].elements[i].value, items[i], u.items[i]);
      }
    case TObject(entries) =>
      assert u.TObject?;
      AscendingUnique(Keys(entries), Keys(u.entries));
      forall i | 0 <= i < |entries| ensures entries[i] == u.entries[i] {
        var k := Keys(entries)[i];
        UnfoldsUnique(h, h[v.ref].props[k].value, entries[i].value, u.entries[i].value);
        assert entries[i].key == u.entries[i].key;
      }
    case _ =>
  }

  // ---------------------------------------------------------------- cloning

  function Left(depth: nat): nat { if depth > MAX_DEPTH then 0 else MAX_DEPTH + 1 - depth }

  function CloneValue(h: Heap, v: JsValue, active: set<nat>, depth: nat): Option<Tree>
    decreases Left(depth), 1, 0
  {
    if depth > MAX_DEPTH then None else
    match v
    case JsNull => Some(TNull)
    case JsBool(b) => Some(TBool(b))
    case JsStr(s) => Some(TStr(s))
    case JsNumber(Finite(x)) => Some(TNum(x))
    case JsNumber(NegZero) => Some(TNum(0.0))
    case JsRef(r) =>
      if r !in h || r in active then None else
      (match h[r]
       case ArrayObject(plain, length, elements, extra) =>
         if !plain || extra || (exists i <- elements :: i >= length) then None else
         (match CloneItems(h, elements, length, 0, active + {r}, depth)
          case None => None
          case Some(items) => Some(TArray(items)))
       case PlainObject(plain, order, props, symbols) =>
         if !plain || symbols then None else
         (match CloneEntries(h, props, Sort(order), active + {r}, depth)
          case None => None
          case Some(entries) => Some(TObject(entries))))
    case _ => None
  }

  function CloneItems(h: Heap, elements: map<nat, Prop>, length: nat, i: nat, active: set<nat>, depth: nat)
    : Option<seq<Tree>>
    requires i <= length && depth <= MAX_DEPTH
    decreases Left(depth), 0, length - i
  {
    if i == length then Some([])
    else if i !in elements || !elements[i].Data? || elements[i].value.JsUndefined? then None
    else
      match CloneValue(h, elements[i].value, active, depth + 1)
      case None => None
      case Some(t) =>
        match CloneItems(h, elements, length, i + 1, active, depth)
        case None => None
        case Some(ts) => Some([t] + ts)
  }

  function CloneEntries(h: Heap, props: map<JsString, Prop>, keys: seq<JsString>, active: set<nat>, depth: nat)
    : Option<seq<Entry>>
    requires depth <= MAX_DEPTH
    decreases Left(depth), 0, |keys|
  {
    if keys == [] then Some([])
    else if keys[0] !in props || !props[keys[0]].Data? || props[keys[0]].value.JsUndefined? then None
    else
      match CloneValue(h, props[keys[0]].value, active, depth + 1)
      case None => None
      case Some(t) =>
        match CloneEntries(h, props, keys[1..], active, depth)
        case None => None
        case Some(es) => Some([Entry(keys[0], t)] + es)
  }

  ghost predicate ItemsUnfold(h: Heap, elements: map<nat, Prop>, i: nat, ts: seq<Tree>) {
    forall j | i <= j < i + |ts| ::
      j in elements && elements[j].Data? && Unfolds(h, elements[j].value, ts[j - i])
  }

  ghost predicate EntriesUnfold(h: Heap, props: map<JsString, Prop>, es: seq<Entry>) {
    forall k | 0 <= k < |es| :: EntryUnfolds(h, props, es[k])
  }

  ghost predicate EntryUnfolds(h: Heap, props: map<JsString, Prop>, e: Entry) {
    e.key in props && props[e.key].Data? && Unfolds(h, props[e.key].value, e.value)
  }

  lemma EntriesUnfoldCons(h: Heap, props: map<JsString, Prop>, e: Entry, es: seq<Entry>)
    ensures Keys([e] + es) == [e.key] + Keys(es)
    ensures EntriesUnfold(h, props, [e] + es)
       <==> EntryUnfolds(h, props, e) && EntriesUnfold(h, props, es)
  {
    var all := [e] + es;
    if EntriesUnfold(h, props, all) {
      assert EntryUnfolds(h, props, all[0]);
      forall k | 0 <= k < |es| ensures EntryUnfolds(h, props, es[k]) { assert EntryUnfolds(h, props, all[k + 1]); }
    }
  }

  lemma {:induction false} CloneSound(h: Heap, v: JsValue, active: set<nat>, depth: nat)
    requires ValidHeap(h) && CloneValue(h, v, active, depth).Some?
    ensures var t := CloneValue(h, v, active, depth).value;
            Unfolds(h, v, t) && Height(t) + depth <= MAX_DEPTH
    decreases Left(depth), 1, 0
  {
    if v.JsRef? {
      match h[v.ref] {
        case ArrayObject(plain, length, elements, extra) => {
          ItemsSound(h, elements, length, 0, active + {v.ref}, depth);
        }
        case PlainObject(plain, order, props, symbols) => {
          SortAscending(order);
          EntriesSound(h, props, Sort(order), active + {v.ref}, depth);
        }
      }
    }
  }

  lemma {:induction false} ItemsSound(
    h: Heap, elements: map<nat, Prop>, length: nat, i: nat, active: set<nat>, depth: nat)
    requires ValidHeap(h) && i <= length && depth <= MAX_DEPTH
    requires CloneItems(h, elements, length, i, active, depth).Some?
    ensures var ts := CloneItems(h, elements, length, i, active, depth).value;
            |ts| == length - i && ItemsUnfold(h, elements, i, ts) && HeightItems(ts) + depth <= MAX_DEPTH
    decreases Left(depth), 0, length - i
  {
    if i < length {
      CloneSound(h, elements[i].value, active, depth + 1);
      ItemsSound(h, elements, length, i + 1, active, depth);
      var rest := CloneItems(h, elements, length, i + 1, active, depth).value;
      var ts := CloneItems(h, elements, length, i, active, depth).value;
      assert ts == [ts[0]] + rest && ts[1..] == rest;
    }
  }

  lemma {:induction false} EntriesSound(
    h: Heap, props: map<JsString, Prop>, keys: seq<JsString>, active: set<nat>, depth: nat)
    requires ValidHeap(h) && depth <= MAX_DEPTH
    requires CloneEntries(h, props, keys, active, depth).Some?
    ensures var es := CloneEntries(h, props, keys, active, depth).value;
            Keys(es) == keys && EntriesUnfold(h, props, es) && HeightEntries(es) + depth <= MAX_DEPTH
    decreases Left(depth), 0, |keys|
  {
    if keys != [] {
      CloneSound(h, props[keys[0]].value, active, depth + 1);
      EntriesSound(h, props, keys[1..], active, depth);
      var first := Entry(keys[0], CloneValue(h, props[keys[0]].value, active, depth + 1).value);
      var rest := CloneEntries(h, props, keys[1..], active, depth).value;
      EntriesUnfoldCons(h, props, first, rest);
      assert ([first] + rest)[1..] == rest && keys == [keys[0]] + keys[1..];
    }
  }

  /** Some unfolding of the object at `r` is taller than `n`. */
  ghost predicate Taller(h: Heap, r: nat, n: nat) {
    exists u :: Unfolds(h, JsRef(r), u) && Height(u) > n
  }

  /** Ancestors are taller than what they contain, so the cycle test never fires on a value that unfolds. */
  lemma {:induction false} CloneComplete(h: Heap, v: JsValue, t: Tree, active: set<nat>, depth: nat)
    requires ValidHeap(h) && Unfolds(h, v, t) && Height(t) + depth <= MAX_DEPTH
    requires forall r <- active :: Taller(h, r, Height(t))
    ensures CloneValue(h, v, active, depth) == Some(t)
    decreases t, 1, 0
  {
    if v.JsRef? {
      var r := v.ref;
      if r in active {
        var u :| Unfolds(h, JsRef(r), u) && Height(u) > Height(t);
        UnfoldsUnique(h, v, t, u);
      }
      assert r !in active;
      match t
      case TArray(items) => ArrayComplete(h, v, items, active, depth);
      case TObject(entries) => RecordComplete(h, v, entries, active, depth);
      case _ =>
    }
  }

  lemma {:induction false} ArrayComplete(h: Heap, v: JsValue, items: seq<Tree>, active: set<nat>, depth: nat)
    requires ValidHeap(h) && Unfolds(h, v, TArray(items)) && HeightItems(items) + depth <= MAX_DEPTH
    requires v.ref !in active && forall r <- active :: Taller(h, r, HeightItems(items))
    ensures CloneValue(h, v, active, depth) == Some(TArray(items))
    decreases items, 1, 0
  {
    var t := TArray(items);
    forall a <- active + {v.ref}, i | 0 <= i < |items| ensures Taller(h, a, Height(items[i])) {
      ItemBelow(items, i);
      TallerThanChild(h, active, v.ref, t, a, items[i]);
    }
    ItemsComplete(h, h[v.ref].elements, items, 0, active + {v.ref}, depth);
    assert items[0..] == items;
  }

  lemma {:induction false} RecordComplete(h: Heap, v: JsValue, entries: seq<Entry>, active: set<nat>, depth: nat)
    requires ValidHeap(h) && Unfolds(h, v, TObject(entries)) && HeightEntries(entries) + depth <= MAX_DEPTH
    requires v.ref !in active && forall r <- active :: Taller(h, r, HeightEntries(entries))
    ensures CloneValue(h, v, active, depth) == Some(TObject(entries))
    decreases entries, 1, 0
  {
    SortedKeys(h, v, entries);
    EntriesBelowAll(h, active, v.ref, entries);
    EntriesComplete(h, h[v.ref].props, entries, active + {v.ref}, depth);
  }

  lemma SortedKeys(h: Heap, v: JsValue, entries: seq<Entry>)
    requires ValidHeap(h) && PlainRecord(h, v, Keys(entries))
    ensures Sort(h[v.ref].order) == Keys(entries)
  {
    SortAscending(h[v.ref].order);
    AscendingUnique(Sort(h[v.ref].order), Keys(entries));
  }

  /** Every active object is taller than every entry. */
  ghost predicate AllTaller(h: Heap, active: set<nat>, entries: seq<Entry>) {
    forall a <- active, e <- entries :: Taller(h, a, Height(e.value))
  }

  lemma EntriesBelowAll(h: Heap, active: set<nat>, r: nat, entries: seq<Entry>)
    requires Unfolds(h, JsRef(r), TObject(entries))
    requires forall x <- active :: Taller(h, x, HeightEntries(entries))
    ensures AllTaller(h, active + {r}, entries)
  {
    forall a <- active + {r}, e <- entries ensures Taller(h, a, Height(e.value)) {
      var i :| 0 <= i < |entries| && entries[i] == e;
      EntryBelow(entries, i);
      TallerThanChild(h, active, r, TObject(entries), a, e.value);
    }
  }

  lemma TallerThanChild(h: Heap, active: set<nat>, r: nat, t: Tree, a: nat, child: Tree)
    requires Unfolds(h, JsRef(r), t) && Height(child) < Height(t)
    requires forall x <- active :: Taller(h, x, Height(t))
    requires a in active + {r}
    ensures Taller(h, a, Height(child))
  {
    if a != r {
      var u :| Unfolds(h, JsRef(a), u) && Height(u) > Height(t);
    }
  }

  lemma {:induction false} ItemsComplete(
    h: Heap, elements: map<nat, Prop>, items: seq<Tree>, i: nat, active: set<nat>, depth: nat)
    requires ValidHeap(h) && i <= |items| && depth <= MAX_DEPTH && HeightItems(items) + depth <= MAX_DEPTH
    requires ItemsUnfold(h, elements, 0, items)
    requires forall a <- active, k | 0 <= k < |items| :: Taller(h, a, Height(items[k]))
    ensures CloneItems(h, elements, |items|, i, active, depth) == Some(items[i..])
    decreases items, 0, |items| - i
  {
    if i < |items| {
      ItemBelow(items, i);
      CloneComplete(h, elements[i].value, items[i], active, depth + 1);
      ItemsComplete(h, elements, items, i + 1, active, depth);
      assert items[i..] == [items[i]] + items[i + 1..];
    }
  }

  lemma {:induction false} EntriesComplete(
    h: Heap, props: map<JsString, Prop>, entries: seq<Entry>, active: set<nat>, depth: nat)
    requires ValidHeap(h) && depth <= MAX_DEPTH && HeightEntries(entries) + depth <= MAX_DEPTH
    requires EntriesUnfold(h, props, entries)
    requires AllTaller(h, active, entries)
    ensures CloneEntries(h, props, Keys(entries), active, depth) == Some(entries)
    decreases entries, 0, |entries|
  {
    if entries != [] {
      EntryBelow(entries, 0);
      assert HeightEntries(entries[1..]) <= HeightEntries(entries);
      EntriesUnfoldCons(h, props, entries[0], entries[1..]);
      assert entries == [entries[0]] + entries[1..];
      assert forall a <- active :: Taller(h, a, Height(entries[0].value)) by { assert entries[0] in entries; }
      CloneComplete(h, props[entries[0].key].value, entries[0].value, active, depth + 1);
      assert AllTaller(h, active, entries[1..]) by { assert forall e <- entries[1..] :: e in entries; }
      EntriesComplete(h, props, entries[1..], active, depth);
      EntriesCons(h, props, entries, active, depth);
    }
  }

  lemma EntriesCons(h: Heap, props: map<JsString, Prop>, entries: seq<Entry>, active: set<nat>, depth: nat)
    requires entries != [] && depth <= MAX_DEPTH && entries[0].key in props && props[entries[0].key].Data?
    requires !props[entries[0].key].value.JsUndefined?
    requires CloneValue(h, props[entries[0].key].value, active, depth + 1) == Some(entries[0].value)
    requires CloneEntries(h, props, Keys(entries[1..]), active, depth) == Some(entries[1..])
    ensures CloneEntries(h, props, Keys(entries), active, depth) == Some(entries)
  {
    assert Keys(entries)[1..] == Keys(entries[1..]);
    assert entries == [entries[0]] + entries[1..] && entries[0] == Entry(entries[0].key, entries[0].value);
  }

  /**
   The clone succeeds exactly on values with a well-formed unfolding at most 64 levels high,
   and returns that unfolding.
   */
  lemma CloneExact(h: Heap, v: JsValue, t: Tree)
    requires ValidHeap(h)
    ensures CloneValue(h, v, {}, 0) == Some(t) <==> Unfolds(h, v, t) && Height(t) <= 64
  {
    if CloneValue(h, v, {}, 0).Some? { CloneSound(h, v, {}, 0); }
    if Unfolds(h, v, t) && Height(t) <= MAX_DEPTH { CloneComplete(h, v, t, {}, 0); }
  }

  // ---------------------------------------------------------------- the clone without the active set

  /** The same clone with no memory of the objects it is inside of: only the depth stops it. */
  function BareValue(h: Heap, v: JsValue, depth: nat): Option<Tree>
    decreases Left(depth), 1, 0
  {
    if depth > MAX_DEPTH then None else
    match v
    case JsNull => Some(TNull)
    case JsBool(b) => Some(TBool(b))
    case JsStr(s) => Some(TStr(s))
    case JsNumber(Finite(x)) => Some(TNum(x))
    case JsNumber(NegZero) => Some(TNum(0.0))
    case JsRef(r) =>
      if r !in h then None else
      (match h[r]
       case ArrayObject(plain, length, elements, extra) =>
         if !plain || extra || (exists i <- elements :: i >= length) then None else
         (match BareItems(h, elements, length, 0, depth)
          case None => None
          case Some(items) => Some(TArray(items)))
       case PlainObject(plain, order, props, symbols) =>
         if !plain || symbols then None else
         (match BareEntries(h, props, Sort(order), depth)
          case None => None
          case Some(entries) => Some(TObject(entries))))
    case _ => None
  }

  function BareItems(h: Heap, elements: map<nat, Prop>, length: nat, i: nat, depth: nat): Option<seq<Tree>>
    requires i <= length && depth <= MAX_DEPTH
    decreases Left(depth), 0, length - i
  {
    if i == length then Some([])
    else if i !in elements || !elements[i].Data? || elements[i].value.JsUndefined? then None
    else
      match BareValue(h, elements[i].value, depth + 1)
      case None => None
      case Some(t) =>
        match BareItems(h, elements, length, i + 1, depth)
        case None => None
        case Some(ts) => Some([t] + ts)
  }

  function BareEntries(h: Heap, props: map<JsString, Prop>, keys: seq<JsString>, depth: nat): Option<seq<Entry>>
    requires depth <= MAX_DEPTH
    decreases Left(depth), 0, |keys|
  {
    if keys == [] then Some([])
    else if keys[0] !in props || !props[keys[0]].Data? || props[keys[0]].value.JsUndefined? then None
    else
      match BareValue(h, props[keys[0]].value, depth + 1)
      case None => None
      case Some(t) =>
        match BareEntries(h, props, keys[1..], depth)
        case None => None
        case Some(es) => Some([Entry(keys[0], t)] + es)
  }

  lemma {:induction false} BareSound(h: Heap, v: JsValue, depth: nat)
    requires ValidHeap(h) && BareValue(h, v, depth).Some?
    ensures var t := BareValue(h, v, depth).value; Unfolds(h, v, t) && Height(t) + depth <= MAX_DEPTH
    decreases Left(depth), 1, 0
  {
    if v.JsRef? {
      match h[v.ref] {
        case ArrayObject(plain, length, elements, extra) => BareItemsSound(h, elements, length, 0, depth);
        case PlainObject(plain, order, props, symbols) => {
          SortAscending(order);
          BareEntriesSound(h, props, Sort(order), depth);
        }
      }
    }
  }

  lemma {:induction false} BareItemsSound(h: Heap, elements: map<nat, Prop>, length: nat, i: nat, depth: nat)
    requires ValidHeap(h) && i <= length && depth <= MAX_DEPTH && BareItems(h, elements, length, i, depth).Some?
    ensures var ts := BareItems(h, elements, length, i, depth).value;
            |ts| == length - i && ItemsUnfold(h, elements, i, ts) && HeightItems(ts) + depth <= MAX_DEPTH
    decreases Left(depth), 0, length - i
  {
    if i < length {
      BareSound(h, elements[i].value, depth + 1);
      BareItemsSound(h, elements, length, i + 1, depth);
      var rest := BareItems(h, elements, length, i + 1, depth).value;
      var ts := BareItems(h, elements, length, i, depth).value;
      assert ts == [ts[0]] + rest && ts[1..] == rest;
    }
  }

  lemma {:induction false} BareEntriesSound(h: Heap, props: map<JsString, Prop>, keys: seq<JsString>, depth: nat)
    requires ValidHeap(h) && depth <= MAX_DEPTH && BareEntries(h, props, keys, depth).Some?
    ensures var es := BareEntries(h, props, keys, depth).value;
            Keys(es) == keys && EntriesUnfold(h, props, es) && HeightEntries(es) + depth <= MAX_DEPTH
    decreases Left(depth), 0, |keys|
  {
    if keys != [] {
      BareSound(h, props[keys[0]].value, depth + 1);
      BareEntriesSound(h, props, keys[1..], depth);
      var first := Entry(keys[0], BareValue(h, props[keys[0]].value, depth + 1).value);
      var rest := BareEntries(h, props, keys[1..], depth).value;
      EntriesUnfoldCons(h, props, first, rest);
      assert ([first] + rest)[1..] == rest && keys == [keys[0]] + keys[1..];
    }
  }

  lemma {:induction false} GuardedIsBare(h: Heap, v: JsValue, active: set<nat>, depth: nat)
    requires CloneValue(h, v, active, depth).Some?
    ensures BareValue(h, v, depth) == CloneValue(h, v, active, depth)
    decreases Left(depth), 1, 0
  {
    if v.JsRef? {
      match h[v.ref]
      case ArrayObject(_, length, elements, _) => GuardedItems(h, elements, length, 0, active + {v.ref}, depth);
      case PlainObject(_, order, props, _) => GuardedEntries(h, props, Sort(order), active + {v.ref}, depth);
    }
  }

  lemma {:induction false} GuardedItems(
    h: Heap, elements: map<nat, Prop>, length: nat, i: nat, active: set<nat>, depth: nat)
    requires i <= length && depth <= MAX_DEPTH && CloneItems(h, elements, length, i, active, depth).Some?
    ensures BareItems(h, elements, length, i, depth) == CloneItems(h, elements, length, i, active, depth)
    decreases Left(depth), 0, length - i
  {
    if i < length {
      GuardedIsBare(h, elements[i].value, active, depth + 1);
      GuardedItems(h, elements, length, i + 1, active, depth);
    }
  }

  lemma {:induction false} GuardedEntries(
    h: Heap, props: map<JsString, Prop>, keys: seq<JsString>, active: set<nat>, depth: nat)
    requires depth <= MAX_DEPTH && CloneEntries(h, props, keys, active, depth).Some?
    ensures BareEntries(h, props, keys, depth) == CloneEntries(h, props, keys, active, depth)
    decreases Left(depth), 0, |keys|
  {
    if keys != [] {
      GuardedIsBare(h, props[keys[0]].value, active, depth + 1);
      GuardedEntries(h, props, keys[1..], active, depth);
    }
  }

  /** The set of active ancestors plays no part in the verdict: every cycle also runs into the depth cap. */
  lemma ActiveSetIsRedundant(h: Heap, v: JsValue)
    requires ValidHeap(h)
    ensures BareValue(h, v, 0) == CloneValue(h, v, {}, 0)
  {
    if CloneValue(h, v, {}, 0).Some? {
      GuardedIsBare(h, v, {}, 0);
    } else if BareValue(h, v, 0).Some? {
      BareSound(h, v, 0);
      CloneExact(h, v, BareValue(h, v, 0).value);
    }
  }

  // ---------------------------------------------------------------- cloning a clone

  /** Cloning again, from any value laid out as an accepted result, gives that result. */
  lemma CloneOfCopy(h: Heap, v: JsValue, copyHeap: Heap, copy: JsValue)
    requires ValidHeap(h) && ValidHeap(copyHeap)
    requires CloneValue(h, v, {}, 0).Some? && Unfolds(copyHeap, copy, CloneValue(h, v, {}, 0).value)
    ensures CloneValue(copyHeap, copy, {}, 0) == CloneValue(h, v, {}, 0)
  {
    var t := CloneValue(h, v, {}, 0).value;
    CloneExact(h, v, t);
    CloneExact(copyHeap, copy, t);
  }

  /** A value in a heap of fresh objects, and the next free reference. */
  datatype Laid = Laid(heap: Heap, value: JsValue, next: nat)

  datatype LaidList = LaidList(heap: Heap, values: seq<JsValue>, next: nat)

  ghost predicate Within(h: Heap, low: nat, high: nat) {
    low <= high && forall r <- h :: low <= r < high
  }

  ghost predicate Extends(small: Heap, big: Heap) {
    forall r <- small :: r in big && big[r] == small[r]
  }

  function Properties(entries: seq<Entry>, values: seq<JsValue>): map<JsString, Prop>
    requires |entries| == |values|
  {
    if entries == [] then map[] else Properties(entries[1..], values[1..])[entries[0].key := Data(values[0])]
  }

  /** The objects that hold a frozen result: one fresh object for every container. */
  ghost function Lay(t: Tree, base: nat): (l: Laid)
    ensures Within(l.heap, base, l.next)
    decreases t
  {
    match t
    case TNull => Laid(map[], JsNull, base)
    case TBool(b) => Laid(map[], JsBool(b), base)
    case TStr(s) => Laid(map[], JsStr(s), base)
    case TNum(n) => Laid(map[], JsNumber(Finite(n)), base)
    case TArray(items) =>
      var l := LayItems(items, base + 1);
      var elements := map i: nat | i < |items| :: Data(l.values[i]);
      Laid(l.heap[base := ArrayObject(true, |items|, elements, false)], JsRef(base), l.next)
    case TObject(entries) =>
      var l := LayEntries(entries, base + 1);
      var laid := PlainObject(true, Keys(entries), Properties(entries, l.values), false);
      Laid(l.heap[base := laid], JsRef(base), l.next)
  }

  ghost function LayItems(items: seq<Tree>, base: nat): (l: LaidList)
    ensures Within(l.heap, base, l.next) && |l.values| == |items|
    decreases items
  {
    if items == [] then LaidList(map[], [], base) else
    var first := Lay(items[0], base);
    var rest := LayItems(items[1..], first.next);
    LaidList(first.heap + rest.heap, [first.value] + rest.values, rest.next)
  }

  ghost function LayEntries(entries: seq<Entry>, base: nat): (l: LaidList)
    ensures Within(l.heap, base, l.next) && |l.values| == |entries|
    decreases entries
  {
    if entries == [] then LaidList(map[], [], base) else
    var first := Lay(entries[0].value, base);
    var rest := LayEntries(entries[1..], first.next);
    LaidList(first.heap + rest.heap, [first.value] + rest.values, rest.next)
  }

  /** Every object's keys ascend. */
  ghost predicate Tidy(t: Tree)
    decreases t
  {
    match t
    case TArray(items) => forall i | 0 <= i < |items| :: Tidy(items[i])
    case TObject(entries) => Ascending(Keys(entries)) && forall i | 0 <= i < |entries| :: Tidy(entries[i].value)
    case _ => true
  }

  lemma {:induction false} UnfoldingIsTidy(h: Heap, v: JsValue, t: Tree)
    requires Unfolds(h, v, t)
    ensures Tidy(t)
    decreases t
  {
    match t
    case TArray(items) =>
      forall i | 0 <= i < |items| ensures Tidy(items[i]) {
        UnfoldingIsTidy(h, h[v.ref].elements[i].value, items[i]);
      }
    case TObject(entries) =>
      forall i | 0 <= i < |entries| ensures Tidy(entries[i].value) {
        UnfoldingIsTidy(h, h[v.ref].props[Keys(entries)[i]].value, entries[i].value);
      }
    case _ =>
  }

  lemma {:induction false} AscendingDistinct(ks: seq<JsString>)
    requires Ascending(ks)
    ensures Distinct(ks)
  {
    if ks != [] {
      assert ks == [ks[0]] + ks[1..];
      AscendingDistinct(ks[1..]);
      LessTotal(ks[0], ks[0]);
      DistinctCons(ks[0], ks[1..]);
    }
  }

  lemma {:induction false} PropertiesHold(entries: seq<Entry>, values: seq<JsValue>)
    requires |entries| == |values| && Ascending(Keys(entries))
    ensures forall k :: k in Keys(entries) <==> k in Properties(entries, values)
    ensures forall i | 0 <= i < |entries| ::
              Keys(entries)[i] in Properties(entries, values)
              && Properties(entries, values)[Keys(entries)[i]] == Data(values[i])
  {
    if entries != [] {
      var ks, rest := Keys(entries), Keys(entries[1..]);
      assert ks[1..] == rest && ks == [ks[0]] + rest;
      PropertiesHold(entries[1..], values[1..]);
      LessTotal(ks[0], ks[0]);
      forall i | 0 <= i < |entries|
        ensures ks[i] in Properties(entries, values) && Properties(entries, values)[ks[i]] == Data(values[i])
      {
        if i > 0 { assert ks[i] == rest[i - 1] && values[i] == values[1..][i - 1]; }
      }
    }
  }

  lemma {:induction false} LaidUnfolds(t: Tree, base: nat, h: Heap)
    requires Tidy(t) && Extends(Lay(t, base).heap, h)
    ensures Unfolds(h, Lay(t, base).value, t)
    decreases t
  {
    match t
    case TArray(items) =>
      LaidItemsUnfold(items, base + 1, h);
    case TObject(entries) =>
      LaidEntriesUnfold(entries, base + 1, h);
      PropertiesHold(entries, LayEntries(entries, base + 1).values);
    case _ =>
  }

  lemma {:induction false} LaidItemsUnfold(items: seq<Tree>, base: nat, h: Heap)
    requires (forall i | 0 <= i < |items| :: Tidy(items[i])) && Extends(LayItems(items, base).heap, h)
    ensures forall i | 0 <= i < |items| :: Unfolds(h, LayItems(items, base).values[i], items[i])
    decreases items
  {
    if items != [] {
      var first := Lay(items[0], base);
      var rest, all := LayItems(items[1..], first.next), LayItems(items, base);
      assert Extends(first.heap, h) by {
        assert forall r <- first.heap :: r in all.heap && all.heap[r] == first.heap[r];
      }
      assert Extends(rest.heap, h) by { assert forall r <- rest.heap :: r in all.heap && all.heap[r] == rest.heap[r]; }
      LaidUnfolds(items[0], base, h);
      LaidItemsUnfold(items[1..], first.next, h);
      forall i | 0 <= i < |items| ensures Unfolds(h, all.values[i], items[i]) {
        if i > 0 { assert all.values[i] == rest.values[i - 1] && items[i] == items[1..][i - 1]; }
      }
    }
  }

  lemma {:induction false} LaidEntriesUnfold(entries: seq<Entry>, base: nat, h: Heap)
    requires forall i | 0 <= i < |entries| :: Tidy(entries[i].value)
    requires Extends(LayEntries(entries, base).heap, h)
    ensures forall i | 0 <= i < |entries| :: Unfolds(h, LayEntries(entries, base).values[i], entries[i].value)
    decreases entries
  {
    if entries != [] {
      var first := Lay(entries[0].value, base);
      var rest, all := LayEntries(entries[1..], first.next), LayEntries(entries, base);
      assert Extends(first.heap, h) by {
        assert forall r <- first.heap :: r in all.heap && all.heap[r] == first.heap[r];
      }
      assert Extends(rest.heap, h) by { assert forall r <- rest.heap :: r in all.heap && all.heap[r] == rest.heap[r]; }
      LaidUnfolds(entries[0].value, base, h);
      LaidEntriesUnfold(entries[1..], first.next, h);
      forall i | 0 <= i < |entries| ensures Unfolds(h, all.values[i], entries[i].value) {
        if i > 0 { assert all.values[i] == rest.values[i - 1] && entries[i] == entries[1..][i - 1]; }
      }
    }
  }

  lemma {:induction false} LaidIsValid(t: Tree, base: nat)
    requires Tidy(t)
    ensures ValidHeap(Lay(t, base).heap)
    decreases t
  {
    match t
    case TArray(items) =>
      LaidItemsValid(items, base + 1);
    case TObject(entries) =>
      LaidEntriesValid(entries, base + 1);
      PropertiesHold(entries, LayEntries(entries, base + 1).values);
      AscendingDistinct(Keys(entries));
    case _ =>
  }

  lemma {:induction false} LaidItemsValid(items: seq<Tree>, base: nat)
    requires forall i | 0 <= i < |items| :: Tidy(items[i])
    ensures ValidHeap(LayItems(items, base).heap)
    decreases items
  {
    if items != [] {
      LaidIsValid(items[0], base);
      LaidItemsValid(items[1..], Lay(items[0], base).next);
    }
  }

  lemma {:induction false} LaidEntriesValid(entries: seq<Entry>, base: nat)
    requires forall i | 0 <= i < |entries| :: Tidy(entries[i].value)
    ensures ValidHeap(LayEntries(entries, base).heap)
    decreases entries
  {
    if entries != [] {
      LaidIsValid(entries[0].value, base);
      LaidEntriesValid(entries[1..], Lay(entries[0].value, base).next);
    }
  }

  /** The clone of a clone is that clone. */
  lemma CloneIdempotent(h: Heap, v: JsValue, base: nat)
    requires ValidHeap(h) && CloneValue(h, v, {}, 0).Some?
    ensures var copy := Lay(CloneValue(h, v, {}, 0).value, base);
            ValidHeap(copy.heap) && CloneValue(copy.heap, copy.value, {}, 0) == CloneValue(h, v, {}, 0)
  {
    var t := CloneValue(h, v, {}, 0).value;
    CloneExact(h, v, t);
    UnfoldingIsTidy(h, v, t);
    LaidIsValid(t, base);
    LaidUnfolds(t, base, Lay(t, base).heap);
    CloneOfCopy(h, v, Lay(t, base).heap, Lay(t, base).value);
  }

  // ---------------------------------------------------------------- key order does not show

  ghost predicate SameButForOrder(g: Heap, h: Heap) {
    && (forall r :: r in g <==> r in h)
    && forall r <- g :: h[r] == (if g[r].PlainObject? && h[r].PlainObject? then g[r].(order := h[r].order) else g[r])
  }

  lemma {:induction false} UnfoldsWithoutOrder(g: Heap, h: Heap, v: JsValue, t: Tree)
    requires SameButForOrder(g, h) && Unfolds(g, v, t)
    ensures Unfolds(h, v, t)
    decreases t
  {
    match t
    case TArray(items) =>
      forall i | 0 <= i < |items| ensures Unfolds(h, h[v.ref].elements[i].value, items[i]) {
        UnfoldsWithoutOrder(g, h, g[v.ref].elements[i].value, items[i]);
      }
    case TObject(entries) =>
      forall i | 0 <= i < |entries|
        ensures Unfolds(h, h[v.ref].props[Keys(entries)[i]].value, entries[i].value)
      {
        UnfoldsWithoutOrder(g, h, g[v.ref].props[Keys(entries)[i]].value, entries[i].value);
      }
    case _ =>
  }

  /** Objects that differ only in the order their keys were created have the same clone. */
  lemma CloneIsCanonical(g: Heap, h: Heap, v: JsValue)
    requires ValidHeap(g) && ValidHeap(h) && SameButForOrder(g, h)
    ensures CloneValue(g, v, {}, 0) == CloneValue(h, v, {}, 0)
  {
    if CloneValue(g, v, {}, 0).Some? {
      CloneCarries(g, h, v);
    } else if CloneValue(h, v, {}, 0).Some? {
      CloneCarries(h, g, v);
    }
  }

  lemma CloneCarries(g: Heap, h: Heap, v: JsValue)
    requires ValidHeap(g) && ValidHeap(h) && SameButForOrder(g, h) && CloneValue(g, v, {}, 0).Some?
    ensures CloneValue(h, v, {}, 0) == CloneValue(g, v, {}, 0)
  {
    var t := CloneValue(g, v, {}, 0).value;
    CloneExact(g, v, t);
    UnfoldsWithoutOrder(g, h, v, t);
    CloneExact(h, v, t);
  }

  // ---------------------------------------------------------------- cycles

  /** `w` is the value of an own data property of the object `v` refers to. */
  ghost predicate Holds(h: Heap, v: JsValue, w: JsValue) {
    && v.JsRef? && v.ref in h
    && match h[v.ref]
       case ArrayObject(_, _, elements, _) => exists i <- elements :: elements[i] == Data(w)
       case PlainObject(_, _, props, _) => exists k <- props :: props[k] == Data(w)
  }

  /** A way through the heap, each value held by the one before. */
  ghost predicate Way(h: Heap, vs: seq<JsValue>) {
    vs != [] && (|vs| > 1 ==> Holds(h, vs[0], vs[1]) && Way(h, vs[1..]))
  }

  lemma {:induction false} HeldIsLower(h: Heap, v: JsValue, w: JsValue, t: Tree) returns (u: Tree)
    requires Unfolds(h, v, t) && Holds(h, v, w)
    ensures Unfolds(h, w, u) && Height(u) < Height(t)
  {
    match h[v.ref] {
      case ArrayObject(_, _, elements, _) => {
        var i :| i in elements && elements[i] == Data(w);
        assert t.TArray?;
        ItemBelow(t.items, i);
        u := t.items[i];
      }
      case PlainObject(_, _, props, _) => {
        var k :| k in props && props[k] == Data(w);
        assert t.TObject? && k in Keys(t.entries);
        var i :| 0 <= i < |t.entries| && Keys(t.entries)[i] == k;
        EntryBelow(t.entries, i);
        u := t.entries[i].value;
      }
    }
  }

  lemma {:induction false} WayDescends(h: Heap, vs: seq<JsValue>, t: Tree) returns (u: Tree)
    requires Way(h, vs) && Unfolds(h, vs[0], t)
    ensures Unfolds(h, vs[|vs| - 1], u) && Height(u) + |vs| - 1 <= Height(t)
  {
    if |vs| == 1 {
      u := t;
    } else {
      var next := HeldIsLower(h, vs[0], vs[1], t);
      u := WayDescends(h, vs[1..], next);
    }
  }

  /** No value on a cycle, and no value with a way longer than 64 steps, is accepted. */
  lemma CyclesAndDepthRefused(h: Heap, vs: seq<JsValue>)
    requires ValidHeap(h) && Way(h, vs)
    requires |vs| > 65 || (|vs| > 1 && vs[|vs| - 1] == vs[0])
    ensures CloneValue(h, vs[0], {}, 0).None?
  {
    if CloneValue(h, vs[0], {}, 0).Some? {
      CloneSound(h, vs[0], {}, 0);
      var t := CloneValue(h, vs[0], {}, 0).value;
      var u := WayDescends(h, vs, t);
      if vs[|vs| - 1] == vs[0] { UnfoldsUnique(h, vs[0], t, u); }
    }
  }

  // ---------------------------------------------------------------- the loops

  /** One call of the cloner with the set of objects it is inside of. */
  class Cloner {
    var active: set<nat>

    constructor ()
      ensures active == {}
    {
      active := {};
    }

    method Clone(h: Heap, v: JsValue, depth: nat) returns (r: Option<Tree>)
      modifies this
      ensures r == CloneValue(h, v, old(active), depth)
      ensures r.Some? ==> active == old(active)
      decreases Left(depth), 1
    {
      if depth > MAX_DEPTH { return None; }
      match v {
        case JsNull => return Some(TNull);
        case JsBool(b) => return Some(TBool(b));
        case JsStr(s) => return Some(TStr(s));
        case JsNumber(n) =>
          if n.NaN? || n.Infinity? { return None; }
          return Some(TNum(if n.NegZero? then 0.0 else n.value));
        case JsUndefined => return None;
        case JsOther => return None;
        case JsRef(ref) =>
          if ref !in h || ref in active { return None; }
          active := active + {ref};
          r := CloneObject(h, ref, depth);
          if r.Some? { active := active - {ref}; }
      }
    }

    method CloneObject(h: Heap, ref: nat, depth: nat) returns (r: Option<Tree>)
      requires depth <= MAX_DEPTH && ref in h && ref in active
      modifies this
      ensures r == CloneValue(h, JsRef(ref), old(active) - {ref}, depth)
      ensures r.Some? ==> active == old(active)
      decreases Left(depth), 0
    {
      assert active - {ref} + {ref} == active;
      match h[ref] {
        case ArrayObject(plain, length, elements, extra) =>
          if !plain { return None; }
          if extra || exists i <- elements :: i >= length { return None; }
          var items := CloneArray(h, elements, length, depth);
          r := if items.Some? then Some(TArray(items.value)) else None;
        case PlainObject(plain, order, props, symbols) =>
          if !plain { return None; }
          if symbols { return None; }
          var entries := CloneRecord(h, props, Sort(order), depth);
          r := if entries.Some? then Some(TObject(entries.value)) else None;
      }
    }

    method CloneArray(h: Heap, elements: map<nat, Prop>, length: nat, depth: nat) returns (r: Option<seq<Tree>>)
      requires depth <= MAX_DEPTH
      modifies this
      ensures r == CloneItems(h, elements, length, 0, old(active), depth)
      ensures r.Some? ==> active == old(active)
      decreases Left(depth), 0, 0
    {
      var result := [];
      for index := 0 to length
        invariant active == old(active)
        invariant CloneItems(h, elements, length, 0, active, depth)
          == Prepend(result, CloneItems(h, elements, length, index, active, depth))
      {
        if index !in elements || !elements[index].Data? || elements[index].value.JsUndefined? { return None; }
        var item := Clone(h, elements[index].value, depth + 1);
        if item.None? { return None; }
        PrependTwice(result, item.value, CloneItems(h, elements, length, index + 1, active, depth));
        result := result + [item.value];
      }
      r := Some(result);
    }

    method CloneRecord(h: Heap, props: map<JsString, Prop>, keys: seq<JsString>, depth: nat)
      returns (r: Option<seq<Entry>>)
      requires depth <= MAX_DEPTH
      modifies this
      ensures r == CloneEntries(h, props, keys, old(active), depth)
      ensures r.Some? ==> active == old(active)
      decreases Left(depth), 0, 0
    {
      var result := [];
      assert keys[0..] == keys;
      for n := 0 to |keys|
        invariant active == old(active)
        invariant CloneEntries(h, props, keys, active, depth)
          == Prepend(result, CloneEntries(h, props, keys[n..], active, depth))
      {
        var key := keys[n];
        assert keys[n..][0] == key && keys[n..][1..] == keys[n + 1..];
        if key !in props || !props[key].Data? || props[key].value.JsUndefined? { return None; }
        var value := Clone(h, props[key].value, depth + 1);
        if value.None? { return None; }
        PrependTwice(result, Entry(key, value.value), CloneEntries(h, props, keys[n + 1..], active, depth));
        result := result + [Entry(key, value.value)];
      }
      r := Some(result);
    }
  }
}
