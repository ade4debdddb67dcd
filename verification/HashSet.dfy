/** The linear-probed hash set that every other component keeps its collections in. */
module HashSet {
  import opened Options

  type Table<T> = seq<Option<T>>

  /** How items are compared and placed. Two items are equal exactly when their keys are,
      so equal items always have equal hashes. */
  datatype Keying<!T, !K> = Keying(key: T -> K, hash: K -> nat)

  //////////////////////////////// Table sizes ////////////////////////////////

  const SMALL_SIZES: seq<nat> := [
    1, 3, 7, 13, 23, 37, 59, 97, 149, 227, 347, 523, 787, 1187, 1783, 2677, 4019, 6037, 9059, 13591,
    20389, 30593, 45887, 68863, 103307]

  const LARGE_SIZES: seq<nat> := [
    154981, 232487, 348739, 523129, 784697, 1177067, 1765609,
    2648419, 3972643, 5958971, 8938469, 13407707, 20111563, 30167359, 45251077, 67876637, 101814991,
    152722489, 229083739, 343625629, 515438447, 773157683, 1159736527, 1739604799, 2609407319, 3914111041]

  const TABLE_SIZES_LEN: nat := 51

  function TableSize(i: nat): nat
    requires i < TABLE_SIZES_LEN
  {
    if i < 25 then SMALL_SIZES[i] else LARGE_SIZES[i - 25]
  }

  /** The number of items above which a table of n buckets is rebuilt. */
  function Load(n: nat): nat {
    (n + 2) / 3 * 2
  }

  const LAST_SIZE: nat := 3914111041

  /** The number of items that still fit when the largest table is in use. */
  const MAX_ITEMS: nat := Load(LAST_SIZE)

  ghost predicate IsTableSize(n: nat) {
    exists i: nat :: 1 <= i < TABLE_SIZES_LEN && TableSize(i) == n
  }

  /** A table of n buckets is allocated for the given capacity: one size above the first that fits. */
  ghost predicate SizedFor(capacity: nat, n: nat) {
    exists i: nat :: && i + 1 < TABLE_SIZES_LEN && n == TableSize(i + 1)
                     && capacity <= TableSize(i) && (i > 0 ==> TableSize(i - 1) < capacity)
  }

  lemma TableSizeGrows(i: nat)
    requires i + 1 < TABLE_SIZES_LEN
    ensures TableSize(i) < TableSize(i + 1)
    ensures Load(TableSize(i)) < Load(TableSize(i + 1)) || i == 0
  {
  }

  lemma {:induction false} TableSizesAscend(i: nat, j: nat)
    requires i <= j < TABLE_SIZES_LEN
    ensures TableSize(i) <= TableSize(j)
    ensures i < j ==> TableSize(i) < TableSize(j)
    ensures 1 <= i < j ==> Load(TableSize(i)) < Load(TableSize(j))
    decreases j - i
  {
    if i < j {
      TableSizeGrows(i);
      TableSizesAscend(i + 1, j);
    }
  }

  lemma TableSizeBounded(n: nat)
    requires IsTableSize(n)
    ensures 3 <= n <= LAST_SIZE
  {
    var i: nat :| 1 <= i < TABLE_SIZES_LEN && TableSize(i) == n;
    TableSizesAscend(1, i);
    TableSizesAscend(i, TABLE_SIZES_LEN - 1);
  }

  lemma LoadBounded(n: nat)
    requires IsTableSize(n)
    ensures Load(n) <= MAX_ITEMS
  {
    TableSizeBounded(n);
  }

  /** A table over its load limit, if not the last, has a larger one that holds its items. */
  lemma NextTableSize(n: nat)
    requires IsTableSize(n) && Load(n) < MAX_ITEMS
    ensures n <= TableSize(TABLE_SIZES_LEN - 2)
  {
    var i: nat :| 1 <= i < TABLE_SIZES_LEN && TableSize(i) == n;
    TableSizesAscend(i, TABLE_SIZES_LEN - 2);
  }

  /** At the load limit a table always keeps an empty bucket. */
  lemma LoadLeavesRoom(n: nat)
    requires IsTableSize(n)
    ensures Load(n) < n
  {
    var i: nat :| 1 <= i < TABLE_SIZES_LEN && TableSize(i) == n;
    assert forall i: nat | 1 <= i < TABLE_SIZES_LEN :: Load(TableSize(i)) < TableSize(i);
  }

  ////////////////////////////// Buckets as a ring //////////////////////////////

  function Home<T, K>(ky: Keying<T, K>, k: K, n: nat): (h: nat)
    requires 0 < n
    ensures h < n
  {
    ky.hash(k) % n
  }

  function Next(n: nat, i: nat): (r: nat)
    requires i < n
    ensures r == if i + 1 == n then 0 else i + 1
  {
    (i + 1) % n
  }

  /** The number of probe steps from one bucket to another, wrapping past the end. */
  function Ahead(n: nat, from: nat, to: nat): nat
    requires from < n && to < n
  {
    if from <= to then to - from else to + n - from
  }

  /** Bucket s is where a probe for key k stops: nothing before it is empty or equal. */
  ghost predicate IsSlot<T, K>(ky: Keying<T, K>, t: Table<T>, k: K, s: nat) {
    && s < |t|
    && (t[s].Some? ==> ky.key(t[s].value) == k)
    && forall q: nat :: q < |t| && Ahead(|t|, Home(ky, k, |t|), q) < Ahead(|t|, Home(ky, k, |t|), s) ==>
                          t[q].Some? && ky.key(t[q].value) != k
  }

  /** Table u is t with x stored where its probe stops. */
  ghost predicate Stored<T, K>(ky: Keying<T, K>, t: Table<T>, x: T, u: Table<T>) {
    exists s: nat :: IsSlot(ky, t, ky.key(x), s) && u == t[s := Some(x)]
  }

  /** No gap lies between the home of the item in bucket j and bucket j. */
  ghost predicate Reached<T, K>(ky: Keying<T, K>, t: Table<T>, j: nat)
    requires j < |t|
  {
    t[j].Some? ==>
      var h := Home(ky, ky.key(t[j].value), |t|);
      forall q: nat :: q < |t| && Ahead(|t|, h, q) < Ahead(|t|, h, j) ==> t[q].Some?
  }

  ghost predicate AllReached<T, K>(ky: Keying<T, K>, t: Table<T>) {
    forall j: nat :: j < |t| ==> Reached(ky, t, j)
  }

  /** The buckets of t hold exactly the items of m, one bucket each. */
  ghost predicate Holds<T, K>(ky: Keying<T, K>, t: Table<T>, m: map<K, T>) {
    && (forall j: nat :: j < |t| && t[j].Some? ==> ky.key(t[j].value) in m && m[ky.key(t[j].value)] == t[j].value)
    && (forall k :: k in m ==> ky.key(m[k]) == k && exists j: nat :: j < |t| && t[j] == Some(m[k]))
    && (forall i: nat, j: nat :: i < j < |t| && t[i].Some? && t[j].Some? ==> ky.key(t[i].value) != ky.key(t[j].value))
  }

  /** A probe answers membership: it stops at an item exactly when the key is present. */
  lemma SlotDecides<T, K>(ky: Keying<T, K>, t: Table<T>, m: map<K, T>, k: K, s: nat)
    requires Holds(ky, t, m) && AllReached(ky, t) && IsSlot(ky, t, k, s)
    ensures t[s] == if k in m then Some(m[k]) else None
  {
    if k in m {
      var j: nat :| j < |t| && t[j] == Some(m[k]);
      assert Reached(ky, t, j);
    }
  }

  lemma CardinalityMonotone<A>(a: set<A>, b: set<A>)
    requires a <= b
    ensures |a| <= |b|
  {
    assert b == a + (b - a);
  }

  /** Storing an item where its probe stops keeps every bucket reachable. */
  lemma StoreKeepsReached<T, K>(ky: Keying<T, K>, t: Table<T>, x: T, s: nat)
    requires AllReached(ky, t) && IsSlot(ky, t, ky.key(x), s)
    ensures AllReached(ky, t[s := Some(x)])
  {
    var u := t[s := Some(x)];
    forall j: nat | j < |u| ensures Reached(ky, u, j) {
      assert Reached(ky, t, j);
    }
  }

  /** Storing an item in an empty bucket, or over its equal, updates the contents at its key. */
  lemma StoreHolds<T, K>(ky: Keying<T, K>, t: Table<T>, m: map<K, T>, x: T, s: nat)
    requires Holds(ky, t, m) && s < |t|
    requires t[s] == if ky.key(x) in m then Some(m[ky.key(x)]) else None
    ensures Holds(ky, t[s := Some(x)], m[ky.key(x) := x])
  {
    var u, v := t[s := Some(x)], m[ky.key(x) := x];
    forall k | k in v ensures ky.key(v[k]) == k && exists j: nat :: j < |u| && u[j] == Some(v[k]) {
      if k == ky.key(x) {
        assert u[s] == Some(v[k]);
      } else {
        var j: nat :| j < |t| && t[j] == Some(m[k]);
        assert u[j] == Some(v[k]);
      }
    }
  }

  lemma DropKey<K, T>(m: map<K, T>, k: K)
    requires k in m
    ensures |m - {k}| == |m| - 1
  {
    assert m.Keys == (m - {k}).Keys + {k};
    assert |m.Keys| == |m| && |(m - {k}).Keys| == |m - {k}|;
  }

  lemma PutKey<K, T>(m: map<K, T>, k: K, x: T)
    ensures |m[k := x]| == if k in m then |m| else |m| + 1
  {
    assert m[k := x].Keys == m.Keys + {k};
    assert |m.Keys| == |m| && |m[k := x].Keys| == |m[k := x]|;
  }

  /** Emptying a bucket takes exactly its item away. */
  lemma EmptyHolds<T, K>(ky: Keying<T, K>, t: Table<T>, m: map<K, T>, s: nat)
    requires Holds(ky, t, m) && s < |t| && t[s].Some?
    ensures ky.key(t[s].value) in m && m[ky.key(t[s].value)] == t[s].value
    ensures Holds(ky, t[s := None], m - {ky.key(t[s].value)})
  {
    var u, v := t[s := None], m - {ky.key(t[s].value)};
    forall k | k in v ensures ky.key(v[k]) == k && exists j: nat :: j < |u| && u[j] == Some(v[k]) {
      var j: nat :| j < |t| && t[j] == Some(m[k]);
      assert u[j] == Some(v[k]);
    }
  }

  ///////////////////////////// Mending after removal /////////////////////////////

  /** The table while the cluster behind the emptied bucket p is being put back: the only gaps on
      the way to an item lie in the part from p up to i, on the way to an item not yet put back. */
  ghost predicate Mending<T, K>(ky: Keying<T, K>, t: Table<T>, p: nat, i: nat) {
    && p < |t| && i < |t|
    && forall j: nat, q: nat :: j < |t| && q < |t| && t[j].Some? && t[q].None? ==>
         var h := Home(ky, ky.key(t[j].value), |t|);
         Ahead(|t|, h, q) < Ahead(|t|, h, j) ==> Ahead(|t|, p, q) < Ahead(|t|, p, i) <= Ahead(|t|, p, j)
  }

  lemma MendingStarts<T, K>(ky: Keying<T, K>, t: Table<T>, p: nat)
    requires AllReached(ky, t) && p < |t| && t[p].Some? && 2 <= |t|
    ensures Mending(ky, t[p := None], p, Next(|t|, p))
  {
    var u := t[p := None];
    forall j: nat | j < |t| && u[j].Some? ensures Reached(ky, t, j) {
    }
  }

  /** A way that passes bucket i and ends before it, counted from p, runs past the end of the ring. */
  lemma WayWraps(n: nat, p: nat, h: nat, i: nat, j: nat, e: nat)
    requires p < n && h < n && i < n && j < n && e < n
    requires Ahead(n, h, i) < Ahead(n, h, j) && Ahead(n, p, j) < Ahead(n, p, i) < Ahead(n, p, e)
    ensures Ahead(n, h, e) < Ahead(n, h, j)
  {
  }

  lemma MendingStepsPlace<T, K>(ky: Keying<T, K>, t: Table<T>, p: nat, i: nat, s: nat)
    requires Mending(ky, t, p, i) && t[i].Some?
    requires IsSlot(ky, t[i := None], ky.key(t[i].value), s) && t[i := None][s].None?
    ensures Ahead(|t|, p, s) <= Ahead(|t|, p, i)
  {
    var h := Home(ky, ky.key(t[i].value), |t|);
    assert t[i := None][i].None?;
    assert Ahead(|t|, h, s) <= Ahead(|t|, h, i);
  }

  lemma MendingStepsOther<T, K>(ky: Keying<T, K>, t: Table<T>, p: nat, i: nat, e: nat, j: nat, q: nat)
    requires Mending(ky, t, p, i) && t[i].Some? && e < |t| && t[e].None? && Ahead(|t|, p, i) < Ahead(|t|, p, e)
    requires j < |t| && q < |t| && t[j].Some? && j != i && (t[q].None? || q == i)
    requires Ahead(|t|, Home(ky, ky.key(t[j].value), |t|), q) < Ahead(|t|, Home(ky, ky.key(t[j].value), |t|), j)
    ensures Ahead(|t|, p, q) <= Ahead(|t|, p, i) < Ahead(|t|, p, j)
  {
    var h := Home(ky, ky.key(t[j].value), |t|);
    if q == i {
      if Ahead(|t|, p, j) < Ahead(|t|, p, i) {
        WayWraps(|t|, p, h, i, j, e);
        assert false;
      }
    }
  }

  /** One way in the table with the item put back that meets an empty bucket. */
  lemma MendingStepsWay<T, K>(ky: Keying<T, K>, t: Table<T>, p: nat, i: nat, e: nat, s: nat, j: nat, q: nat)
    requires Mending(ky, t, p, i) && t[i].Some? && i != p
    requires e < |t| && t[e].None? && Ahead(|t|, p, i) < Ahead(|t|, p, e)
    requires IsSlot(ky, t[i := None], ky.key(t[i].value), s) && t[i := None][s].None?
    requires var v := t[i := None][s := t[i]];
             && j < |t| && q < |t| && v[j].Some? && v[q].None?
             && Ahead(|t|, Home(ky, ky.key(v[j].value), |t|), q) < Ahead(|t|, Home(ky, ky.key(v[j].value), |t|), j)
    ensures Ahead(|t|, p, q) <= Ahead(|t|, p, i) < Ahead(|t|, p, j)
  {
    hide Home, Next;
    assert t[q].None? || q == i;
    if j != s {
      MendingStepsOther(ky, t, p, i, e, j, q);
    }
  }

  lemma MendingSteps<T, K>(ky: Keying<T, K>, t: Table<T>, p: nat, i: nat, e: nat, s: nat)
    requires Mending(ky, t, p, i) && t[i].Some? && i != p
    requires e < |t| && t[e].None? && Ahead(|t|, p, i) < Ahead(|t|, p, e)
    requires IsSlot(ky, t[i := None], ky.key(t[i].value), s) && t[i := None][s].None?
    ensures Mending(ky, t[i := None][s := t[i]], p, Next(|t|, i))
  {
    hide Home;
    var n, v := |t|, t[i := None][s := t[i]];
    assert s < n && Ahead(n, p, Next(n, i)) == Ahead(n, p, i) + 1;
    hide Next, Ahead, IsSlot;
    forall j: nat, q: nat | j < n && q < n && v[j].Some? && v[q].None?
                            && Ahead(n, Home(ky, ky.key(v[j].value), n), q)
                               < Ahead(n, Home(ky, ky.key(v[j].value), n), j)
      ensures Ahead(n, p, q) < Ahead(n, p, Next(n, i)) <= Ahead(n, p, j)
    {
      MendingStepsWay(ky, t, p, i, e, s, j, q);
    }
  }

  /** A way through q that ends at j passes every bucket between the two, counted from p. */
  lemma PassesBetween(n: nat, p: nat, h: nat, q: nat, i: nat, j: nat)
    requires p < n && h < n && q < n && i < n && j < n
    requires Ahead(n, h, q) < Ahead(n, h, j) && Ahead(n, p, q) < Ahead(n, p, i) <= Ahead(n, p, j) && i != j
    ensures Ahead(n, h, i) < Ahead(n, h, j)
  {
  }

  lemma MendingEndsAt<T, K>(ky: Keying<T, K>, t: Table<T>, p: nat, i: nat, j: nat)
    requires Mending(ky, t, p, i) && t[i].None? && j < |t| && t[j].Some?
    ensures Reached(ky, t, j)
  {
    var h := Home(ky, ky.key(t[j].value), |t|);
    forall q: nat | q < |t| && Ahead(|t|, h, q) < Ahead(|t|, h, j) ensures t[q].Some? {
      if t[q].None? {
        PassesBetween(|t|, p, h, q, i, j);
        assert false;
      }
    }
  }

  lemma MendingEnds<T, K>(ky: Keying<T, K>, t: Table<T>, p: nat, i: nat)
    requires Mending(ky, t, p, i) && t[i].None?
    ensures AllReached(ky, t)
  {
    forall j: nat | j < |t| ensures Reached(ky, t, j) {
      if t[j].Some? {
        MendingEndsAt(ky, t, p, i, j);
      }
    }
  }

  ////////////////////////////// Scanning a table //////////////////////////////

  /** The contents of the first i buckets. */
  ghost function Prefix<T, K>(ky: Keying<T, K>, t: Table<T>, i: nat): map<K, T>
    requires i <= |t|
  {
    if i == 0 then map[]
    else if t[i - 1].Some? then Prefix(ky, t, i - 1)[ky.key(t[i - 1].value) := t[i - 1].value]
    else Prefix(ky, t, i - 1)
  }

  lemma {:induction false} PrefixKeys<T, K>(ky: Keying<T, K>, t: Table<T>, i: nat)
    requires i <= |t|
    ensures forall k :: k in Prefix(ky, t, i) <==> exists j: nat :: j < i && t[j].Some? && ky.key(t[j].value) == k
    ensures forall k :: k in Prefix(ky, t, i) ==>
              exists j: nat :: j < i && t[j] == Some(Prefix(ky, t, i)[k]) && ky.key(t[j].value) == k
  {
    if i > 0 {
      PrefixKeys(ky, t, i - 1);
    }
  }

  lemma PrefixOf<T, K>(ky: Keying<T, K>, t: Table<T>, m: map<K, T>, i: nat)
    requires i <= |t| && Holds(ky, t, m)
    ensures forall k :: k in Prefix(ky, t, i) ==> k in m && Prefix(ky, t, i)[k] == m[k]
    ensures i < |t| && t[i].Some? ==> ky.key(t[i].value) in m && ky.key(t[i].value) !in Prefix(ky, t, i)
  {
    PrefixKeys(ky, t, i);
  }

  lemma PrefixAll<T, K>(ky: Keying<T, K>, t: Table<T>, m: map<K, T>)
    requires Holds(ky, t, m)
    ensures Prefix(ky, t, |t|) == m
  {
    PrefixKeys(ky, t, |t|);
    PrefixOf(ky, t, m, |t|);
    forall k | k in m ensures k in Prefix(ky, t, |t|) {
      var j: nat :| j < |t| && t[j] == Some(m[k]);
    }
  }

  lemma {:induction false} PrefixCount<T, K>(ky: Keying<T, K>, t: Table<T>, m: map<K, T>, i: nat)
    requires i <= |t| && Holds(ky, t, m) && forall j: nat :: j < i ==> t[j].Some?
    ensures |Prefix(ky, t, i)| == i
  {
    if i > 0 {
      PrefixCount(ky, t, m, i - 1);
      PrefixOf(ky, t, m, i - 1);
      PutKey(Prefix(ky, t, i - 1), ky.key(t[i - 1].value), t[i - 1].value);
    }
  }

  /** With fewer items than buckets some bucket is empty, so every probe ends. */
  lemma EmptyBucketExists<T, K>(ky: Keying<T, K>, t: Table<T>, m: map<K, T>) returns (e: nat)
    requires Holds(ky, t, m) && |m| < |t|
    ensures e < |t| && t[e].None?
  {
    PrefixAll(ky, t, m);
    if forall j: nat :: j < |t| ==> t[j].Some? {
      PrefixCount(ky, t, m, |t|);
      assert false;
    }
    e :| e < |t| && t[e].None?;
  }

  lemma PrefixStarts<T, K>(ky: Keying<T, K>, t: Table<T>, a: map<K, T>)
    ensures a + Prefix(ky, t, 0) == a && a - Prefix(ky, t, 0).Keys == a
  {
  }

  /** Items with the keys of a and b together do not exceed the largest table. */
  ghost predicate Fit<K, T>(a: map<K, T>, b: map<K, T>) {
    |a.Keys + b.Keys| <= MAX_ITEMS
  }

  lemma FitsAlone<K, T>(b: map<K, T>)
    requires |b| <= MAX_ITEMS
    ensures Fit(map[], b) && map[] + b == b
  {
    var none: map<K, T> := map[];
    assert none.Keys + b.Keys == b.Keys && |b.Keys| == |b|;
  }

  lemma RoomForOne<K, T>(a: map<K, T>, part: map<K, T>, b: map<K, T>, k: K)
    requires part.Keys <= b.Keys && k in b && Fit(a, b)
    ensures k in a + part || |a + part| < MAX_ITEMS
  {
    var c := a + part;
    assert |c.Keys| == |c|;
    if k !in c {
      CardinalityMonotone(c.Keys + {k}, a.Keys + b.Keys);
    }
  }

  lemma PutRight<K, T>(a: map<K, T>, b: map<K, T>, k: K, x: T)
    ensures a + b[k := x] == (a + b)[k := x]
  {
  }

  /** Scanning one more bucket of t, on top of contents a. */
  lemma PrefixSteps<T, K>(ky: Keying<T, K>, t: Table<T>, m: map<K, T>, a: map<K, T>, i: nat)
    requires i < |t| && Holds(ky, t, m) && Fit(a, m)
    ensures t[i].None? ==> Prefix(ky, t, i + 1) == Prefix(ky, t, i)
    ensures t[i].Some? ==>
              var k := ky.key(t[i].value);
              && (k in a + Prefix(ky, t, i) || |a + Prefix(ky, t, i)| < MAX_ITEMS)
              && a + Prefix(ky, t, i + 1) == (a + Prefix(ky, t, i))[k := t[i].value]
  {
    if t[i].Some? {
      var k := ky.key(t[i].value);
      assert Prefix(ky, t, i).Keys <= m.Keys && k in m by {
        PrefixOf(ky, t, m, i);
      }
      hide Holds, Fit;
      RoomForOne(a, Prefix(ky, t, i), m, k);
      PutRight(a, Prefix(ky, t, i), k, t[i].value);
    }
  }

  /** Every item of u was in t, at the same bucket or farther ahead of p. */
  ghost predicate MovedToward<T>(p: nat, t: Table<T>, u: Table<T>)
    requires p < |t| == |u|
  {
    forall j: nat :: j < |u| && u[j].Some? ==>
      exists q: nat :: q < |t| && t[q] == u[j] && (q == j || Ahead(|t|, p, j) <= Ahead(|t|, p, q))
  }

  /** With x taken out of table t, the other items only moved back toward its bucket. */
  ghost predicate MovedBack<T>(t: Table<T>, x: Option<T>, u: Table<T>) {
    |t| == |u| && exists p: nat :: p < |t| && t[p] == x && MovedToward(p, t, u)
  }

  /** Table v is u with the item of bucket i stored anew. */
  ghost predicate Replaced<T, K>(ky: Keying<T, K>, u: Table<T>, i: nat, v: Table<T>) {
    && i < |u| && u[i].Some?
    && var w := u[i := None];
       exists s: nat :: IsSlot(ky, w, ky.key(u[i].value), s) && w[s].None? && v == w[s := u[i]]
  }

  lemma ReplacedFrom<T, K>(ky: Keying<T, K>, u: Table<T>, m: map<K, T>, i: nat, v: Table<T>)
    requires Holds(ky, u, m) && i < |u| && u[i].Some? && Stored(ky, u[i := None], u[i].value, v)
    ensures Replaced(ky, u, i, v)
  {
    var w := u[i := None];
    var s: nat :| IsSlot(ky, w, ky.key(u[i].value), s) && v == w[s := u[i]];
    if w[s].Some? {
      assert false;
    }
  }

  /** Where the cleanup after emptying bucket p of t stands at bucket i, short of the empty bucket e. */
  ghost predicate Cleaning<T, K>(ky: Keying<T, K>, t: Table<T>, u: Table<T>, p: nat, i: nat, e: nat) {
    && p < |t| == |u| && i < |t| && e < |t|
    && Mending(ky, u, p, i)
    && 0 < Ahead(|t|, p, i) <= Ahead(|t|, p, e) && u[e].None?
    && MovedToward(p, t, u)
    && forall q: nat :: q < |t| && Ahead(|t|, p, i) <= Ahead(|t|, p, q) ==> u[q] == t[q]
  }

  lemma CleaningStarts<T, K>(ky: Keying<T, K>, t: Table<T>, p: nat, e: nat)
    requires AllReached(ky, t) && p < |t| && t[p].Some? && e < |t| && t[e].None?
    ensures Cleaning(ky, t, t[p := None], p, Next(|t|, p), e)
  {
    MendingStarts(ky, t, p);
  }

  lemma MovesOn<T>(p: nat, t: Table<T>, u: Table<T>, i: nat, s: nat)
    requires p < |t| == |u| && i < |t| && s < |t| && MovedToward(p, t, u) && u[i].Some?
    requires Ahead(|t|, p, s) <= Ahead(|t|, p, i) && u[i] == t[i]
    ensures MovedToward(p, t, u[i := None][s := u[i]])
  {
    var v := u[i := None][s := u[i]];
    forall j: nat | j < |v| && v[j].Some?
      ensures exists q: nat :: q < |t| && t[q] == v[j] && (q == j || Ahead(|t|, p, j) <= Ahead(|t|, p, q))
    {
      if j == s {
        assert t[i] == v[j];
      } else {
        assert u[j] == v[j];
      }
    }
  }

  lemma CleaningSteps<T, K>(ky: Keying<T, K>, t: Table<T>, u: Table<T>, p: nat, i: nat, e: nat, v: Table<T>)
    requires Cleaning(ky, t, u, p, i, e) && Replaced(ky, u, i, v)
    ensures Cleaning(ky, t, v, p, Next(|t|, i), e)
    ensures Ahead(|t|, p, i) < Ahead(|t|, p, Next(|t|, i))
  {
    hide Mending, MovedToward;
    var n := |t|;
    var w := u[i := None];
    var s: nat :| IsSlot(ky, w, ky.key(u[i].value), s) && w[s].None? && v == w[s := u[i]];
    MendingSteps(ky, u, p, i, e, s);
    MendingStepsPlace(ky, u, p, i, s);
    MovesOn(p, t, u, i, s);
  }

  lemma PrefixDrops<T, K>(ky: Keying<T, K>, t: Table<T>, a: map<K, T>, i: nat)
    requires i < |t|
    ensures t[i].None? ==> Prefix(ky, t, i + 1) == Prefix(ky, t, i)
    ensures t[i].Some? ==> a - Prefix(ky, t, i + 1).Keys == a - Prefix(ky, t, i).Keys - {ky.key(t[i].value)}
  {
  }

  /** The items in bucket order. */
  function Listed<T>(t: Table<T>): seq<T> {
    if t == [] then [] else (if t[0].Some? then [t[0].value] else []) + Listed(t[1..])
  }

  function First<T>(xs: seq<T>): Option<T> {
    if xs == [] then None else Some(xs[0])
  }

  /** r is the item listed next after the bucket at which a probe for k stops. */
  ghost predicate Follows<T, K>(ky: Keying<T, K>, t: Table<T>, k: K, r: Option<T>) {
    exists s: nat :: IsSlot(ky, t, k, s) && r == First(Listed(t[s + 1..]))
  }

  lemma {:induction false} ListedSplits<T>(t: Table<T>, s: nat)
    requires s < |t| && t[s].Some?
    ensures Listed(t) == Listed(t[..s]) + [t[s].value] + Listed(t[s + 1..])
  {
    if s == 0 {
      assert t[..0] == [];
    } else {
      ListedSplits(t[1..], s - 1);
      assert t[1..][..s - 1] == t[..s][1..];
      assert t[1..][s - 1 + 1..] == t[s + 1..];
    }
  }

  lemma {:induction false} ListedMembers<T>(t: Table<T>, x: T)
    ensures x in Listed(t) <==> exists j: nat :: j < |t| && t[j] == Some(x)
  {
    if t != [] {
      ListedMembers(t[1..], x);
      if x in Listed(t[1..]) {
        var j: nat :| j < |t[1..]| && t[1..][j] == Some(x);
        assert t[j + 1] == Some(x);
      }
      if exists j: nat :: j < |t| && t[j] == Some(x) {
        var j: nat :| j < |t| && t[j] == Some(x);
        if j > 0 {
          assert t[1..][j - 1] == Some(x);
        }
      }
    }
  }

  lemma ListsContents<T, K>(ky: Keying<T, K>, t: Table<T>, m: map<K, T>, x: T)
    requires Holds(ky, t, m)
    ensures x in Listed(t) <==> ky.key(x) in m && m[ky.key(x)] == x
  {
    ListedMembers(t, x);
  }

  lemma OnlyBucket<T, K>(ky: Keying<T, K>, t: Table<T>, m: map<K, T>, s: nat)
    requires Holds(ky, t, m) && s < |t| && t[s].Some?
    ensures forall j: nat :: j < |t| && j != s ==> t[j] != t[s]
  {
  }

  /** The item after one item of the list is the next of the list. */
  lemma NextOfList<T, K>(ky: Keying<T, K>, t: Table<T>, m: map<K, T>, i: nat, r: Option<T>)
    requires Holds(ky, t, m) && AllReached(ky, t) && i < |Listed(t)| && Follows(ky, t, ky.key(Listed(t)[i]), r)
    ensures r == First(Listed(t)[i + 1..])
    ensures forall j: nat :: j < |Listed(t)| && j != i ==> Listed(t)[j] != Listed(t)[i]
  {
    hide Holds, AllReached, Listed;
    var x := Listed(t)[i];
    var k := ky.key(x);
    ListsContents(ky, t, m, x);
    var s: nat :| IsSlot(ky, t, k, s) && r == First(Listed(t[s + 1..]));
    SlotDecides(ky, t, m, k, s);
    hide IsSlot;
    OnlyBucket(ky, t, m, s);
    ListedSplits(t, s);
    ListedMembers(t[..s], x);
    ListedMembers(t[s + 1..], x);
    OnlyPlace(Listed(t), Listed(t[..s]), x, Listed(t[s + 1..]), i);
  }

  lemma OnlyPlace<T>(s: seq<T>, before: seq<T>, x: T, after: seq<T>, i: nat)
    requires s == before + [x] + after && x !in before && x !in after && i < |s| && s[i] == x
    ensures s[i + 1..] == after && forall j: nat :: j < |s| && j != i ==> s[j] != x
  {
    forall j: nat | j < |before| ensures s[j] != x {
      assert s[j] == before[j] && before[j] in before;
    }
    forall j: nat | |before| < j < |s| ensures s[j] != x {
      assert s[j] == after[j - |before| - 1] && after[j - |before| - 1] in after;
    }
    assert i == |before|;
  }

  /** The results of calls that start without an item and go on from each result until there is none. */
  ghost predicate IsIteration<T, K>(ky: Keying<T, K>, t: Table<T>, results: seq<T>) {
    && First(Listed(t)) == First(results)
    && forall i: nat :: i < |results| ==> Follows(ky, t, ky.key(results[i]), First(results[i + 1..]))
  }

  lemma {:induction false} IterationSoFar<T, K>(ky: Keying<T, K>, t: Table<T>, m: map<K, T>, results: seq<T>, n: nat)
    requires Holds(ky, t, m) && AllReached(ky, t) && IsIteration(ky, t, results) && n <= |results|
    ensures n <= |Listed(t)| && results[..n] == Listed(t)[..n] && First(Listed(t)[n..]) == First(results[n..])
  {
    hide Holds, AllReached, Listed, Follows;
    if n > 0 {
      IterationSoFar(ky, t, m, results, n - 1);
      assert results[n - 1..][0] == results[n - 1];
      assert Listed(t)[n - 1..][0] == Listed(t)[n - 1];
      NextOfList(ky, t, m, n - 1, First(results[n..]));
      assert results[..n] == results[..n - 1] + [results[n - 1]];
    }
  }

  /** Iterating from start to end gives every item of the set, and each once. */
  lemma IterationListsAll<T, K>(ky: Keying<T, K>, t: Table<T>, m: map<K, T>, results: seq<T>)
    requires Holds(ky, t, m) && AllReached(ky, t) && IsIteration(ky, t, results)
    ensures results == Listed(t)
    ensures forall x :: x in results <==> ky.key(x) in m && m[ky.key(x)] == x
    ensures forall i: nat, j: nat :: i < j < |results| ==> results[i] != results[j]
  {
    hide Holds, AllReached, Listed, Follows;
    IterationSoFar(ky, t, m, results, |results|);
    assert results[..|results|] == results;
    forall x ensures x in Listed(t) <==> ky.key(x) in m && m[ky.key(x)] == x {
      ListsContents(ky, t, m, x);
    }
    forall i: nat, j: nat | i < j < |results| ensures results[i] != results[j] {
      NextOfList(ky, t, m, i, First(results[i + 1..]));
    }
  }

  lemma FirstFrom<T>(t: Table<T>, i: nat)
    requires i < |t|
    ensures First(Listed(t[i..])) == if t[i].Some? then t[i] else First(Listed(t[i + 1..]))
  {
    assert t[i..][1..] == t[i + 1..];
  }

  /////////////////////////// Intersecting while scanning ///////////////////////////

  /** Between start and now only items without a key in kept were dropped. */
  ghost predicate KeptSoFar<K, T>(start: map<K, T>, kept: map<K, T>, now: map<K, T>) {
    && (forall k :: k in now ==> k in start && now[k] == start[k])
    && (forall k :: k in start && k in kept ==> k in now)
  }

  /** The items below bucket i all have their key in kept. */
  ghost predicate ScannedKept<T, K>(ky: Keying<T, K>, kept: map<K, T>, t: Table<T>, i: nat)
    requires i <= |t|
  {
    forall j: nat :: j < i && t[j].Some? ==> ky.key(t[j].value) in kept
  }

  lemma HoldsItem<T, K>(ky: Keying<T, K>, t: Table<T>, m: map<K, T>, i: nat)
    requires Holds(ky, t, m) && i < |t| && t[i].Some?
    ensures ky.key(t[i].value) in m && m[ky.key(t[i].value)] == t[i].value
  {
  }

  /** Removing the item at the scan index moves no unscanned item below it, wrapped clusters included. */
  lemma ScanStays<T, K>(ky: Keying<T, K>, kept: map<K, T>, t: Table<T>, m: map<K, T>, u: Table<T>, i: nat)
    requires Holds(ky, t, m) && i < |t| == |u| && t[i].Some? && ScannedKept(ky, kept, t, i)
    requires MovedBack(t, t[i], u)
    ensures ScannedKept(ky, kept, u, i)
  {
    var p: nat :| p < |t| && t[p] == t[i] && MovedToward(p, t, u);
    assert p == i;
    forall j: nat | j < i && u[j].Some? ensures ky.key(u[j].value) in kept {
      var q: nat :| q < |t| && t[q] == u[j] && (q == j || Ahead(|t|, p, j) <= Ahead(|t|, p, q));
      assert q < i;
    }
  }

  /** Where an intersection that began with start stands when its scan has reached bucket i. */
  ghost predicate Scanning<T, K>(ky: Keying<T, K>, start: map<K, T>, kept: map<K, T>, t: Table<T>, m: map<K, T>,
                                 i: nat) {
    Holds(ky, t, m) && KeptSoFar(start, kept, m) && i <= |t| && ScannedKept(ky, kept, t, i)
  }

  lemma ScanStarts<T, K>(ky: Keying<T, K>, start: map<K, T>, kept: map<K, T>, t: Table<T>)
    requires Holds(ky, t, start)
    ensures Scanning(ky, start, kept, t, start, 0)
  {
  }

  lemma ScanDrops<T, K>(ky: Keying<T, K>, start: map<K, T>, kept: map<K, T>, t: Table<T>, m: map<K, T>, i: nat,
                        u: Table<T>, k: K)
    requires Scanning(ky, start, kept, t, m, i) && i < |t| && t[i].Some? && k == ky.key(t[i].value) && k !in kept
    requires MovedBack(t, t[i], u) && Holds(ky, u, m - {k})
    ensures Scanning(ky, start, kept, u, m - {k}, i) && |m - {k}| < |m|
  {
    ScanStays(ky, kept, t, m, u, i);
    HoldsItem(ky, t, m, i);
    DropKey(m, k);
  }

  lemma ScanSteps<T, K>(ky: Keying<T, K>, start: map<K, T>, kept: map<K, T>, t: Table<T>, m: map<K, T>, i: nat)
    requires Scanning(ky, start, kept, t, m, i) && i < |t| && (t[i].Some? ==> ky.key(t[i].value) in kept)
    ensures Scanning(ky, start, kept, t, m, i + 1)
  {
  }

  lemma ScanEnds<T, K>(ky: Keying<T, K>, start: map<K, T>, kept: map<K, T>, t: Table<T>, m: map<K, T>)
    requires Scanning(ky, start, kept, t, m, |t|)
    ensures m == map k | k in start && k in kept :: start[k]
  {
    forall k | k in m ensures k in kept {
      var j: nat :| j < |t| && t[j] == Some(m[k]);
    }
  }

  /////////////////////////////////// The set ///////////////////////////////////

  class BRSet<T, K(==)> {
    const ky: Keying<T, K>
    var table: array<Option<T>>
    var itemCount: nat
    ghost var Items: map<K, T>  // the contents, by key

    /** Contents, count and size agree; says nothing about the probe order. */
    ghost predicate Tallied()
      reads this, table
    {
      && IsTableSize(table.Length)
      && Holds(ky, table[..], Items)
      && itemCount == |Items| <= Load(table.Length)
    }

    ghost predicate Valid()
      reads this, table
    {
      Tallied() && AllReached(ky, table[..])
    }

    lemma ValidHolds()
      requires Valid()
      ensures Holds(ky, table[..], Items)
    {
    }

    lemma ValidSize()
      requires Valid()
      ensures 3 <= table.Length <= LAST_SIZE
    {
      TableSizeBounded(table.Length);
    }

    constructor (ky: Keying<T, K>, capacity: nat)
      requires capacity <= TableSize(TABLE_SIZES_LEN - 2)
      ensures Valid() && fresh(table) && Items == map[] && this.ky == ky
      ensures capacity < table.Length
      ensures SizedFor(capacity, table.Length)
    {
      var i := 0;
      while i < TABLE_SIZES_LEN && TableSize(i) < capacity
        invariant i < TABLE_SIZES_LEN - 1
        invariant i > 0 ==> TableSize(i - 1) < capacity
      {
        i := i + 1;
      }
      var n := TableSize(i + 1);
      TableSizeGrows(i);
      this.ky := ky;
      table := new Option<T>[n](_ => None);
      itemCount := 0;
      Items := map[];
    }

    /** Where the item with key k is, or would be put. */
    method Probe(k: K) returns (i: nat)
      requires exists e: nat :: e < table.Length && table[e].None?
      ensures IsSlot(ky, table[..], k, i)
    {
      ghost var e: nat :| e < table.Length && table[e].None?;
      ghost var h := Home(ky, k, table.Length);
      i := Home(ky, k, table.Length);
      while table[i].Some? && ky.key(table[i].value) != k
        invariant i < table.Length
        invariant Ahead(table.Length, h, i) <= Ahead(table.Length, h, e)
        invariant forall q: nat :: q < table.Length && Ahead(table.Length, h, q) < Ahead(table.Length, h, i) ==>
                                     table[q].Some? && ky.key(table[q].value) != k
        decreases Ahead(table.Length, h, e) - Ahead(table.Length, h, i)
      {
        i := Next(table.Length, i);
      }
    }

    method Get(k: K) returns (r: Option<T>)
      requires Valid()
      ensures r == if k in Items then Some(Items[k]) else None
    {
      LoadLeavesRoom(table.Length);
      ghost var _ := EmptyBucketExists(ky, table[..], Items);
      var i: nat := Probe(k);
      SlotDecides(ky, table[..], Items, k, i);
      r := table[i];
    }

    /** Puts x in the set in place of its equal, which is returned. Where the table does not grow,
        only the bucket at which the probe stops changes. */
    method Add(x: T) returns (r: Option<T>)
      requires Valid() || (Tallied() && ky.key(x) !in Items)
      requires ky.key(x) in Items || |Items| < MAX_ITEMS
      modifies this, table
      ensures Tallied() && (old(Valid()) ==> Valid())
      ensures fresh(table) || table == old(table)
      ensures Items == old(Items)[ky.key(x) := x]
      ensures r == if ky.key(x) in old(Items) then Some(old(Items[ky.key(x)])) else None
      ensures table.Length >= old(table.Length)
      ensures |Items| <= Load(old(table.Length)) ==>
                table == old(table) && Stored(ky, old(table[..]), x, table[..])
      decreases LAST_SIZE - table.Length, 1
    {
      ghost var k := ky.key(x);
      LoadLeavesRoom(table.Length);
      ghost var _ := EmptyBucketExists(ky, table[..], Items);
      var i: nat := Probe(ky.key(x));
      ghost var t := table[..];
      r := table[i];
      assert r == if k in Items then Some(Items[k]) else None by {
        if old(Valid()) { SlotDecides(ky, t, Items, k, i); }
      }
      if r.None? {
        itemCount := itemCount + 1;
      }
      table[i] := Some(x);
      PutKey(Items, k, x);
      StoreHolds(ky, t, Items, x, i);
      if old(Valid()) {
        StoreKeepsReached(ky, t, x, i);
      }
      Items := Items[k := x];
      assert table[..] == t[i := Some(x)];
      if itemCount > Load(table.Length) {
        Grow();
      }
    }

    lemma TakenOver(from: BRSet<T, K>)
      requires from.Valid() && ky == from.ky
      requires table == from.table && itemCount == from.itemCount && Items == from.Items
      ensures Valid()
    {
    }

    /** Rebuilds the table at the next size with the same contents. */
    method Grow()
      requires IsTableSize(table.Length) && Holds(ky, table[..], Items)
      requires itemCount == |Items| == Load(table.Length) + 1 <= MAX_ITEMS
      modifies this
      ensures Valid() && fresh(table) && Items == old(Items) && table.Length > old(table.Length)
      decreases LAST_SIZE - table.Length, 0
    {
      FitsAlone(Items);
      hide Holds, AllReached, Fit, IsTableSize, SizedFor, TableSize, Load;
      NextTableSize(table.Length);
      TableSizeBounded(table.Length);
      var newSet := new BRSet(ky, table.Length);
      newSet.Union(this);
      table := newSet.table;
      itemCount := newSet.itemCount;
      Items := newSet.Items;
      TakenOver(newSet);
    }

    /** Adds every item of other, in place of the equal items of this set. */
    method Union(other: BRSet<T, K>)
      requires Valid() && Holds(ky, other.table[..], other.Items)
      requires other != this && other.table != table && other.ky == ky
      requires Fit(Items, other.Items)
      modifies this, table
      ensures Valid() && (fresh(table) || table == old(table))
      ensures Items == old(Items) + other.Items
      ensures table.Length >= old(table.Length)
      decreases LAST_SIZE - table.Length, 2
    {
      hide *;
      ghost var t, m, start := other.table[..], other.Items, Items;
      ValidSize();
      PrefixStarts(ky, t, start);
      var i := 0;
      while i < other.table.Length
        invariant i <= other.table.Length && unchanged(other) && unchanged(other.table)
        invariant Valid() && (fresh(table) || table == old(table)) && table != other.table
        invariant table.Length >= old(table.Length)
        invariant Items == start + Prefix(ky, t, i)
      {
        var x := other.table[i];
        assert x == t[i];
        PrefixSteps(ky, t, m, start, i);
        ValidSize();
        if x.Some? {
          var _ := Add(x.value);
        }
        i := i + 1;
      }
      PrefixAll(ky, t, m);
    }

    /** One step of the cleanup after a removal: lifts the item in bucket i out and adds it again. */
    method PutBack(i: nat)
      requires Tallied() && i < table.Length && table[i].Some?
      modifies this, table
      ensures Tallied() && table == old(table) && Items == old(Items)
      ensures Replaced(ky, old(table[..]), i, table[..])
    {
      hide Holds, AllReached, IsTableSize, Load, Replaced, Stored;
      var x := table[i];
      ghost var u, m := table[..], Items;
      assert u[i] == x;
      LoadBounded(table.Length);
      EmptyHolds(ky, u, m, i);
      DropKey(m, ky.key(x.value));
      itemCount := itemCount - 1;
      table[i] := None;
      Items := m - {ky.key(x.value)};
      assert table[..] == u[i := None];
      var _ := Add(x.value);
      PutKey(m - {ky.key(x.value)}, ky.key(x.value), x.value);
      ReplacedFrom(ky, u, m, i, table[..]);
    }

    /** Takes the item with key k out, if there is one, and puts the cluster behind it back. Items only
        move back toward the emptied bucket, and the table keeps its size. */
    method Remove(k: K) returns (r: Option<T>)
      requires Valid()
      modifies this, table
      ensures Valid() && table == old(table)
      ensures Items == old(Items) - {k}
      ensures r == if k in old(Items) then Some(old(Items[k])) else None
      ensures r.Some? ==> MovedBack(old(table[..]), r, table[..])
    {
      hide Holds, AllReached, IsTableSize, Load, Mending, MovedToward, Replaced, Next, Home;
      ValidSize();
      LoadLeavesRoom(table.Length);
      ghost var t := table[..];
      var n := table.Length;
      ghost var e := EmptyBucketExists(ky, t, Items);
      var i: nat := Probe(k);
      SlotDecides(ky, t, Items, k, i);
      r := table[i];
      if r.Some? {
        ghost var p: nat := i;
        itemCount := itemCount - 1;
        table[i] := None;
        EmptyHolds(ky, t, Items, i);
        DropKey(Items, k);
        Items := Items - {k};
        i := Next(n, i);
        CleaningStarts(ky, t, p, e);
        assert table[..] == t[p := None];
        while table[i].Some?
          invariant table == old(table) && n == table.Length && i < n
          invariant Tallied() && Items == old(Items) - {k}
          invariant Cleaning(ky, t, table[..], p, i, e)
          decreases Ahead(n, p, e) - Ahead(n, p, i)
        {
          ghost var u := table[..];
          PutBack(i);
          CleaningSteps(ky, t, u, p, i, e, table[..]);
          i := Next(n, i);
        }
        MendingEnds(ky, table[..], p, i);
      }
    }

    method Clear()
      requires Valid()
      modifies this, table
      ensures Valid() && table == old(table) && Items == map[]
    {
      forall i | 0 <= i < table.Length {
        table[i] := None;
      }
      itemCount := 0;
      Items := map[];
    }

    /** Whether some item of other has its equal here. */
    method Intersects(other: BRSet<T, K>) returns (r: bool)
      requires Valid() && other.Valid() && other.ky == ky
      ensures r <==> Items.Keys * other.Items.Keys != {}
    {
      hide Holds, AllReached, IsTableSize, Prefix;
      ghost var t, m := other.table[..], other.Items;
      PrefixStarts(ky, t, Items);
      var i := 0;
      while i < other.table.Length
        invariant i <= other.table.Length
        invariant Items - Prefix(ky, t, i).Keys == Items
      {
        var x := other.table[i];
        assert x == t[i];
        PrefixOf(ky, t, m, i);
        PrefixDrops(ky, t, Items, i);
        i := i + 1;
        if x.Some? {
          var found := Get(ky.key(x.value));
          if found.Some? {
            assert ky.key(x.value) in Items.Keys * other.Items.Keys;
            return true;
          }
        }
      }
      PrefixAll(ky, t, m);
      return false;
    }

    /** The item that follows the given one in bucket order, or the first item. */
    method Iterate(previous: Option<T>) returns (r: Option<T>)
      requires Valid()
      ensures previous.None? ==> r == First(Listed(table[..]))
      ensures previous.Some? ==> Follows(ky, table[..], ky.key(previous.value), r)
    {
      hide Holds, AllReached, IsTableSize;
      var i: nat := 0;
      r := None;
      if previous.Some? {
        LoadLeavesRoom(table.Length);
        ghost var _ := EmptyBucketExists(ky, table[..], Items);
        i := Probe(ky.key(previous.value));
        i := i + 1;
      }
      ghost var start := i;
      while r.None? && i < table.Length
        invariant start <= i <= table.Length
        invariant r == None ==> First(Listed(table[..][start..])) == First(Listed(table[..][i..]))
        invariant r != None ==> First(Listed(table[..][start..])) == r
      {
        r := table[i];
        FirstFrom(table[..], i);
        i := i + 1;
      }
      assert table[..][0..] == table[..];
    }

    /** Removes every item that has its equal in other. */
    method Minus(other: BRSet<T, K>)
      requires Valid() && Holds(ky, other.table[..], other.Items)
      requires other != this && other.table != table && other.ky == ky
      modifies this, table
      ensures Valid() && table == old(table)
      ensures Items == old(Items) - other.Items.Keys
    {
      hide *;
      ghost var t, m, start := other.table[..], other.Items, Items;
      PrefixStarts(ky, t, start);
      var i := 0;
      while i < other.table.Length
        invariant i <= other.table.Length && unchanged(other) && unchanged(other.table)
        invariant Valid() && table == old(table)
        invariant Items == start - Prefix(ky, t, i).Keys
      {
        var x := other.table[i];
        assert x == t[i];
        PrefixDrops(ky, t, start, i);
        if x.Some? {
          var _ := Remove(ky.key(x.value));
        }
        i := i + 1;
      }
      PrefixAll(ky, t, m);
    }

    /** Removes every item that has no equal in other, while scanning the very table it changes. */
    method Intersect(other: BRSet<T, K>)
      requires Valid() && other.Valid()
      requires other != this && other.table != table && other.ky == ky
      modifies this, table
      ensures Valid() && table == old(table)
      ensures Items == map k | k in old(Items) && k in other.Items :: old(Items)[k]
    {
      hide *;
      ghost var start, kept := Items, other.Items;
      ValidHolds();
      ScanStarts(ky, start, kept, table[..]);
      var i: nat := 0;
      while i < table.Length
        invariant i <= table.Length && unchanged(other) && unchanged(other.table)
        invariant Valid() && table == old(table)
        invariant Scanning(ky, start, kept, table[..], Items, i)
        decreases |Items|, table.Length - i
      {
        var x := table[i];
        ghost var t, m := table[..], Items;
        assert t[i] == x;
        var found := None;
        if x.Some? {
          found := other.Get(ky.key(x.value));
        }
        if x.Some? && found.None? {
          ValidHolds();
          HoldsItem(ky, t, m, i);
          var _ := Remove(ky.key(x.value));
          ValidHolds();
          ScanDrops(ky, start, kept, t, m, i, table[..], ky.key(x.value));
        } else {
          ScanSteps(ky, start, kept, t, m, i);
          i := i + 1;
        }
      }
      ScanEnds(ky, start, kept, table[..], Items);
    }
  }
}
