/**
 The chained hash table of dict.c.  Entries are heap cells linked by next pointers; growing the table relinks
 every entry in place.  The table must behave as a finite map through any number of such rehashes.
 */
module DictModel {
  import opened Bytes

  type Key = seq<byte>
  type Ptr = nat

  const INITIAL_SIZE := 4
  const LONG_MAX: int := 0x7FFF_FFFF_FFFF_FFFF
  /** Bucket indices are returned as int. */
  const MAX_BUCKETS: int := 0x8000_0000

  /** The conversion of an unsigned value to int. */
  function Signed(n: nat): int {
    var m := n % 0x1_0000_0000;
    if m < MAX_BUCKETS then m else m - 0x1_0000_0000
  }

  /** The cast loses nothing exactly below 2^31; a table of 2^31 buckets would end an iteration at once. */
  lemma {:induction false} SignedFits(n: nat)
    ensures Signed(n) == n <==> n < 2147483648
    ensures Signed(2147483648) < 0
  {
  }

  datatype Entry<V> = Entry(key: Key, val: V, next: Option<Ptr>)

  type Entries<V> = map<Ptr, Entry<V>>

  // ---- Bucket indices ----

  function BitAnd(a: nat, b: nat): (r: nat)
    ensures r <= b
    decreases b
  {
    if a == 0 || b == 0 then 0 else 2 * BitAnd(a / 2, b / 2) + (a % 2) * (b % 2)
  }

  predicate IsPow2(n: nat) {
    n == 1 || (n > 1 && n % 2 == 0 && IsPow2(n / 2))
  }

  /** Masking with a power of two less one is the remainder: every bucket can be reached. */
  lemma {:induction false} MaskIsMod(h: nat, size: nat)
    requires IsPow2(size)
    ensures BitAnd(h, size - 1) == h % size
    decreases size
  {
    if size > 1 {
      var half := size / 2;
      assert (size - 1) / 2 == half - 1 && (size - 1) % 2 == 1;
      MaskIsMod(h / 2, half);
      HalfMod(h, half);
      assert BitAnd(h, size - 1) == 2 * BitAnd(h / 2, half - 1) + h % 2;
    }
  }

  lemma {:induction false} HalfMod(h: nat, half: nat)
    requires half > 0
    ensures h % (2 * half) == 2 * (h / 2 % half) + h % 2
  {
    var q, r := h / 2 / half, h / 2 % half;
    Quotient(h / 2, half);
    Quotient(h, 2);
    assert 2 * (q * half) == q * (2 * half);
    ModUnique(h, 2 * half, q, 2 * r + h % 2);
  }

  lemma {:induction false} ModUnique(a: int, m: int, q: int, r: int)
    requires m > 0 && a == q * m + r && 0 <= r < m
    ensures a % m == r
  {
    var q', r' := a / m, a % m;
    Quotient(a, m);
    if q' > q {
      MulAtLeast(q' - q, m);
    } else if q' < q {
      MulAtLeast(q - q', m);
    }
    Distribute(q', q, m);
  }

  lemma {:induction false} Quotient(a: int, m: int)
    requires m > 0
    ensures a == a / m * m + a % m && 0 <= a % m < m
  {
  }

  lemma {:induction false} Distribute(x: int, y: int, m: int)
    ensures x * m - y * m == (x - y) * m && y * m - x * m == (y - x) * m
  {
  }

  lemma {:induction false} MulAtLeast(x: int, m: int)
    requires x >= 1 && m > 0
    ensures x * m >= m
  {
    Distribute(x, 1, m);
    assert (x - 1) * m >= 0;
  }

  type Hash = Key -> nat

  function Index(hash: Hash, key: Key, size: nat): (i: nat)
    requires size > 0
    ensures i < size
  {
    BitAnd(hash(key), size - 1)
  }

  /** In a table whose size is a power of two, a key goes to the remainder of its hash. */
  lemma {:induction false} IndexIsMod(hash: Hash, key: Key, size: nat)
    requires IsPow2(size)
    ensures Index(hash, key, size) == hash(key) % size
  {
    MaskIsMod(hash(key), size);
  }

  // ---- Chains ----

  /** The entries linked from p on are exactly ps, all different. */
  ghost predicate Chain<V>(e: Entries<V>, p: Option<Ptr>, ps: seq<Ptr>)
    decreases |ps|
  {
    if ps == [] then p == None
    else p == Some(ps[0]) && ps[0] in e && ps[0] !in ps[1..] && Chain(e, e[ps[0]].next, ps[1..])
  }

  lemma {:induction false} ChainIn<V>(e: Entries<V>, p: Option<Ptr>, ps: seq<Ptr>)
    requires Chain(e, p, ps)
    ensures forall q :: q in ps ==> q in e
    decreases |ps|
  {
    if ps != [] {
      ChainIn(e, e[ps[0]].next, ps[1..]);
      assert forall q :: q in ps ==> q == ps[0] || q in ps[1..];
    }
  }

  lemma {:induction false} ChainFrame<V>(e: Entries<V>, e': Entries<V>, p: Option<Ptr>, ps: seq<Ptr>)
    requires Chain(e, p, ps)
    requires forall q :: q in ps && q in e ==> q in e' && e'[q].next == e[q].next
    ensures Chain(e', p, ps)
    decreases |ps|
  {
    if ps != [] {
      assert ps[0] in ps;
      assert forall q :: q in ps[1..] ==> q in ps;
      ChainFrame(e, e', e[ps[0]].next, ps[1..]);
    }
  }

  // ---- The table ----

  ghost predicate IndexOk<V>(hash: Hash, e: Entries<V>, chains: seq<seq<Ptr>>, p: Ptr)
    requires |chains| > 0 && p in e
  {
    p in chains[Index(hash, e[p].key, |chains|)]
  }

  /** Bucket i is a chain of entries whose keys hash to it. */
  ghost predicate Bucket<V>(hash: Hash, e: Entries<V>, head: Option<Ptr>, ps: seq<Ptr>, i: nat, size: nat)
    requires size > 0
  {
    && Chain(e, head, ps)
    && forall q :: q in ps ==> q in e && Index(hash, e[q].key, size) == i
  }

  /** loc is the index of the entries by key: no key has two entries. */
  ghost predicate Located<V>(e: Entries<V>, loc: map<Key, Ptr>) {
    && (forall k :: k in loc ==> loc[k] in e && e[loc[k]].key == k)
    && (forall p :: p in e ==> e[p].key in loc && loc[e[p].key] == p)
  }

  ghost predicate Buckets<V>(hash: Hash, e: Entries<V>, table: seq<Option<Ptr>>, chains: seq<seq<Ptr>>) {
    && |table| == |chains|
    && (forall i :: 0 <= i < |chains| ==> Bucket(hash, e, table[i], chains[i], i, |chains|))
    && (|chains| == 0 ==> e == map[])
    && (|chains| > 0 ==> forall p :: p in e ==> IndexOk(hash, e, chains, p))
  }

  /** The bucket a key hashes to is a chain that holds the key's entry, if there is one. */
  lemma {:induction false} BucketOf<V>(
    hash: Hash, e: Entries<V>, table: seq<Option<Ptr>>, chains: seq<seq<Ptr>>, loc: map<Key, Ptr>, key: Key)
    requires Buckets(hash, e, table, chains) && Located(e, loc) && |chains| > 0
    ensures var h := Index(hash, key, |chains|);
            && Chain(e, table[h], chains[h])
            && (key in loc ==> loc[key] in chains[h])
  {
    var h := Index(hash, key, |chains|);
    assert Bucket(hash, e, table[h], chains[h], h, |chains|);
    if key in loc {
      assert IndexOk(hash, e, chains, loc[key]);
    }
  }

  /** The map a table represents. */
  ghost function Model<V>(e: Entries<V>, loc: map<Key, Ptr>): map<Key, V>
  {
    map k | k in loc && loc[k] in e :: e[loc[k]].val
  }

  ghost predicate Below<V>(e: Entries<V>, next: Ptr) {
    forall p :: p in e ==> p < next
  }

  lemma {:induction false} StillBelow<V>(e: Entries<V>, e': Entries<V>, next: Ptr)
    requires Below(e, next) && e'.Keys <= e.Keys
    ensures Below(e', next)
  {
  }

  lemma {:induction false} BelowMore<V>(e: Entries<V>, next: Ptr, entry: Entry<V>)
    requires Below(e, next)
    ensures next !in e && Below(e[next := entry], next + 1)
  {
  }

  // ---- What the operations do to the entries ----

  /** A new entry in front of its bucket. */
  lemma {:induction false} InsertBuckets<V>(
    hash: Hash, e: Entries<V>, table: seq<Option<Ptr>>, chains: seq<seq<Ptr>>, p: Ptr, key: Key, val: V)
    requires Buckets(hash, e, table, chains) && |chains| > 0 && p !in e
    ensures var h := Index(hash, key, |chains|);
            Buckets(hash, e[p := Entry(key, val, table[h])], table[h := Some(p)], chains[h := [p] + chains[h]])
  {
    var h := Index(hash, key, |chains|);
    var e' := e[p := Entry(key, val, table[h])];
    var table', chains' := table[h := Some(p)], chains[h := [p] + chains[h]];
    forall i | 0 <= i < |chains| ensures Bucket(hash, e', table'[i], chains'[i], i, |chains|) {
      assert Bucket(hash, e, table[i], chains[i], i, |chains|);
      ChainFrame(e, e', table[i], chains[i]);
      if i == h {
        assert chains'[h][1..] == chains[h];
        assert Chain(e', Some(p), chains'[h]);
      }
    }
    forall q | q in e' ensures IndexOk(hash, e', chains', q) {
      if q != p {
        assert IndexOk(hash, e, chains, q);
      }
    }
  }

  lemma {:induction false} InsertLocated<V>(e: Entries<V>, loc: map<Key, Ptr>, p: Ptr, entry: Entry<V>)
    requires Located(e, loc) && p !in e && entry.key !in loc
    ensures Located(e[p := entry], loc[entry.key := p])
    ensures Model(e[p := entry], loc[entry.key := p]) == Model(e, loc)[entry.key := entry.val]
  {
  }

  /** Only values of entries changed. */
  ghost predicate SameLinks<V>(e: Entries<V>, e': Entries<V>) {
    e.Keys == e'.Keys && forall q :: q in e ==> e'[q].key == e[q].key && e'[q].next == e[q].next
  }

  lemma {:induction false} BucketsFrame<V>(
    hash: Hash, e: Entries<V>, e': Entries<V>, table: seq<Option<Ptr>>, chains: seq<seq<Ptr>>)
    requires Buckets(hash, e, table, chains) && SameLinks(e, e')
    ensures Buckets(hash, e', table, chains)
  {
    forall i | 0 <= i < |chains| ensures Bucket(hash, e', table[i], chains[i], i, |chains|) {
      assert Bucket(hash, e, table[i], chains[i], i, |chains|);
      ChainFrame(e, e', table[i], chains[i]);
    }
    forall q | q in e' && |chains| > 0 ensures IndexOk(hash, e', chains, q) {
      assert IndexOk(hash, e, chains, q);
    }
  }

  /** The links of a chain after its j-th entry was taken out. */
  function Unlinked<V>(e: Entries<V>, ps: seq<Ptr>, j: nat): Entries<V>
    requires j < |ps| && ps[j] in e && (j > 0 ==> ps[j - 1] in e)
  {
    if j == 0 then e - {ps[0]}
    else e[ps[j - 1] := e[ps[j - 1]].(next := e[ps[j]].next)] - {ps[j]}
  }

  lemma {:induction false} ChainUnlink<V>(e: Entries<V>, p: Option<Ptr>, ps: seq<Ptr>, j: nat)
    requires Chain(e, p, ps) && j < |ps|
    ensures ps[j] in e && (j > 0 ==> ps[j - 1] in e && ps[j - 1] != ps[j])
    ensures Chain(Unlinked(e, ps, j), if j == 0 then e[ps[0]].next else p, ps[..j] + ps[j + 1..])
    ensures ps[j] !in ps[..j] + ps[j + 1..]
    decreases j
  {
    hide Unlinked;
    ChainIn(e, p, ps);
    ChainParts(e, p, ps);
    if j == 0 {
      ChainUnlinkFirst(e, p, ps);
    } else {
      hide Chain;
      UnlinkSlices(ps, j);
      if j == 1 {
        ChainUnlinkSecond(e, ps);
      } else {
        ChainUnlink(e, e[ps[0]].next, ps[1..], j - 1);
        ChainUnlinkLater(e, p, ps, j);
      }
    }
  }

  lemma {:induction false} ChainParts<V>(e: Entries<V>, p: Option<Ptr>, ps: seq<Ptr>)
    requires Chain(e, p, ps) && ps != []
    ensures p == Some(ps[0]) && ps[0] in e && ps[0] !in ps[1..] && Chain(e, e[ps[0]].next, ps[1..])
    ensures |ps| > 1 ==> e[ps[0]].next == Some(ps[1])
    ensures ps[0] in ps && forall q :: q in ps[1..] ==> q in ps
  {
  }

  lemma {:induction false} UnlinkSlices(ps: seq<Ptr>, j: nat)
    requires 0 < j < |ps|
    ensures ps[1..][j - 1] == ps[j] && ps[j] in ps[1..]
    ensures j > 1 ==> ps[1..][j - 2] == ps[j - 1] && ps[j - 1] in ps[1..]
    ensures ps[..j] + ps[j + 1..] == [ps[0]] + (ps[1..][..j - 1] + ps[1..][j..])
    ensures j == 1 ==> ps[1..][..0] + ps[1..][1..] == ps[1..][1..]
  {
  }

  lemma {:induction false} ChainUnlinkFirst<V>(e: Entries<V>, p: Option<Ptr>, ps: seq<Ptr>)
    requires Chain(e, p, ps) && ps != []
    ensures ps[0] in e && Chain(Unlinked(e, ps, 0), e[ps[0]].next, ps[..0] + ps[1..])
    ensures ps[0] !in ps[..0] + ps[1..]
  {
    assert ps[..0] + ps[1..] == ps[1..];
    ChainFrame(e, e - {ps[0]}, e[ps[0]].next, ps[1..]);
  }

  lemma {:induction false} ChainUnlinkLater<V>(e: Entries<V>, p: Option<Ptr>, ps: seq<Ptr>, j: nat)
    requires 1 < j < |ps| && Chain(e, p, ps) && ps[j] in ps[1..] && ps[j - 1] in ps[1..] && ps[j] in e && ps[j - 1] in e
    requires ps[1..][j - 1] == ps[j] && ps[1..][j - 2] == ps[j - 1]
    requires Chain(Unlinked(e, ps[1..], j - 1), e[ps[0]].next, ps[1..][..j - 1] + ps[1..][j..])
    requires ps[j] !in ps[1..][..j - 1] + ps[1..][j..]
    ensures Chain(Unlinked(e, ps, j), p, [ps[0]] + (ps[1..][..j - 1] + ps[1..][j..]))
    ensures ps[j] !in [ps[0]] + (ps[1..][..j - 1] + ps[1..][j..])
  {
    var less := ps[1..][..j - 1] + ps[1..][j..];
    assert ps[0] !in less;
    assert ([ps[0]] + less)[1..] == less;
  }

  lemma {:induction false} ChainUnlinkSecond<V>(e: Entries<V>, ps: seq<Ptr>)
    requires |ps| > 1 && ps[0] in e && ps[1] in e && ps[0] !in ps[1..] && Chain(e, Some(ps[1]), ps[1..])
    ensures Chain(Unlinked(e, ps, 1), Some(ps[0]), [ps[0]] + ps[1..][1..])
  {
    var e' := Unlinked(e, ps, 1);
    var rest := ps[1..][1..];
    assert rest == ps[2..];
    assert ([ps[0]] + rest)[1..] == rest;
    assert forall q :: q in rest ==> q in ps[1..];
    ChainFrame(e, e', e[ps[1]].next, rest);
  }

  lemma {:induction false} RemoveBuckets<V>(
    hash: Hash, e: Entries<V>, table: seq<Option<Ptr>>, chains: seq<seq<Ptr>>, h: nat, j: nat)
    requires Buckets(hash, e, table, chains) && h < |chains| && j < |chains[h]|
    ensures var ps := chains[h];
            && ps[j] in e && (j > 0 ==> ps[j - 1] in e && ps[j - 1] != ps[j])
            && Buckets(hash, Unlinked(e, ps, j), if j == 0 then table[h := e[ps[0]].next] else table,
                       chains[h := ps[..j] + ps[j + 1..]])
  {
    hide Chain, Bucket, Unlinked, IndexOk, SameKeysLess;
    var ps := chains[h];
    assert Bucket(hash, e, table[h], ps, h, |chains|);
    BucketFacts(hash, e, table[h], ps, h, |chains|);
    ChainUnlink(e, table[h], ps, j);
    var e' := Unlinked(e, ps, j);
    var out := ps[..j] + ps[j + 1..];
    var table' := if j == 0 then table[h := e[ps[0]].next] else table;
    var chains' := chains[h := out];
    UnlinkedKeys(e, ps, j);
    OutOf(ps, j);
    forall i | 0 <= i < |chains| ensures Bucket(hash, e', table'[i], chains'[i], i, |chains|) {
      assert Bucket(hash, e, table[i], chains[i], i, |chains|);
      if i == h {
        BucketKeeps(hash, e, e', table'[h], ps, out, ps[j], h, |chains|);
      } else {
        BucketApart(hash, e, e', table[i], chains[i], i, ps, j, h, |chains|);
      }
    }
    KeysLess(e, e', ps[j]);
    forall q | q in e' ensures IndexOk(hash, e', chains', q) {
      assert IndexOk(hash, e, chains, q);
      IndexKeeps(hash, e, e', chains, h, j, q);
    }
  }

  lemma {:induction false} BucketFacts<V>(hash: Hash, e: Entries<V>, head: Option<Ptr>, ps: seq<Ptr>, i: nat, size: nat)
    requires size > 0 && Bucket(hash, e, head, ps, i, size)
    ensures Chain(e, head, ps) && forall q :: q in ps ==> q in e && Index(hash, e[q].key, size) == i
  {
  }

  lemma {:induction false} KeysLess<V>(e: Entries<V>, e': Entries<V>, p: Ptr)
    requires SameKeysLess(e, e', p)
    ensures e'.Keys == e.Keys - {p} && forall q :: q in e' ==> e'[q].key == e[q].key
  {
  }

  lemma {:induction false} IndexKeeps<V>(
    hash: Hash, e: Entries<V>, e': Entries<V>, chains: seq<seq<Ptr>>, h: nat, j: nat, q: Ptr)
    requires h < |chains| && j < |chains[h]| && q in e && q in e' && e'[q].key == e[q].key && q != chains[h][j]
    requires IndexOk(hash, e, chains, q)
    ensures IndexOk(hash, e', chains[h := chains[h][..j] + chains[h][j + 1..]], q)
  {
    OutOf(chains[h], j);
  }

  ghost predicate SameKeysLess<V>(e: Entries<V>, e': Entries<V>, p: Ptr) {
    e'.Keys == e.Keys - {p} && forall q :: q in e' ==> e'[q].key == e[q].key
  }

  lemma {:induction false} UnlinkedKeys<V>(e: Entries<V>, ps: seq<Ptr>, j: nat)
    requires j < |ps| && ps[j] in e && (j > 0 ==> ps[j - 1] in e && ps[j - 1] != ps[j])
    ensures SameKeysLess(e, Unlinked(e, ps, j), ps[j])
  {
  }

  lemma {:induction false} BucketKeeps<V>(
    hash: Hash, e: Entries<V>, e': Entries<V>, head: Option<Ptr>, ps: seq<Ptr>, out: seq<Ptr>, p: Ptr, h: nat,
    size: nat)
    requires size > 0 && SameKeysLess(e, e', p) && p !in out && forall q :: q in out ==> q in ps
    requires forall q :: q in ps ==> q in e && Index(hash, e[q].key, size) == h
    requires Chain(e', head, out)
    ensures Bucket(hash, e', head, out, h, size)
  {
  }

  /** Unlinking in bucket h does not touch bucket i. */
  lemma {:induction false} BucketApart<V>(
    hash: Hash, e: Entries<V>, e': Entries<V>, head: Option<Ptr>, qs: seq<Ptr>, i: nat, ps: seq<Ptr>, j: nat, h: nat,
    size: nat)
    requires size > 0 && i != h && j < |ps| && ps[j] in e && (j > 0 ==> ps[j - 1] in e)
    requires Bucket(hash, e, head, qs, i, size) && e' == Unlinked(e, ps, j)
    requires forall q :: q in ps ==> q in e && Index(hash, e[q].key, size) == h
    ensures Bucket(hash, e', head, qs, i, size)
  {
    assert ps[j] in ps && (j > 0 ==> ps[j - 1] in ps);
    ChainFrame(e, e', head, qs);
  }

  lemma {:induction false} OutOf(ps: seq<Ptr>, j: nat)
    requires j < |ps|
    ensures forall q :: q in ps && q != ps[j] ==> q in ps[..j] + ps[j + 1..]
    ensures forall q :: q in ps[..j] + ps[j + 1..] ==> q in ps
  {
    forall q | q in ps && q != ps[j] ensures q in ps[..j] + ps[j + 1..] {
      var k :| 0 <= k < |ps| && ps[k] == q;
      assert (ps[..j] + ps[j + 1..])[if k < j then k else k - 1] == q;
    }
  }

  lemma {:induction false} RemoveLocated<V>(e: Entries<V>, e': Entries<V>, loc: map<Key, Ptr>, p: Ptr)
    requires Located(e, loc) && p in e && e'.Keys == e.Keys - {p}
    requires forall q :: q in e' ==> e'[q].key == e[q].key && e'[q].val == e[q].val
    ensures Located(e', loc - {e[p].key})
    ensures Model(e', loc - {e[p].key}) == Model(e, loc) - {e[p].key}
  {
  }

  lemma {:induction false} ContentsLocated<V>(e: Entries<V>, e': Entries<V>, loc: map<Key, Ptr>)
    requires Located(e, loc) && SameContents(e, e')
    ensures Located(e', loc) && Model(e', loc) == Model(e, loc)
  {
  }

  lemma {:induction false} SetLocated<V>(e: Entries<V>, loc: map<Key, Ptr>, p: Ptr, val: V)
    requires Located(e, loc) && p in e
    ensures Located(e[p := e[p].(val := val)], loc)
    ensures Model(e[p := e[p].(val := val)], loc) == Model(e, loc)[e[p].key := val]
  {
  }

  // ---- Rehashing ----

  ghost predicate Movable<V>(hash: Hash, e: Entries<V>, cur: seq<Ptr>, moved: set<Ptr>, i: nat, size: nat)
    requires size > 0
  {
    forall q :: q in cur ==> q in e && Index(hash, e[q].key, size) == i && q !in moved
  }

  /** An entry is moved, or waits in the current chain or in a later bucket. */
  ghost predicate Accounted<V>(
    hash: Hash, e: Entries<V>, chains: seq<seq<Ptr>>, i: nat, cur: seq<Ptr>, nchains: seq<seq<Ptr>>, moved: set<Ptr>,
    q: Ptr)
    requires |chains| > 0 && |nchains| > 0 && q in e
  {
    if q in moved then IndexOk(hash, e, nchains, q)
    else
      var k := Index(hash, e[q].key, |chains|);
      (k > i && q in chains[k]) || (k == i && q in cur)
  }

  /** In the middle of a rehash: the entries of `moved` are in the new table, the others still in the old one. */
  ghost predicate Moving<V>(
    hash: Hash, e: Entries<V>, table: seq<Option<Ptr>>, chains: seq<seq<Ptr>>, i: nat, he: Option<Ptr>, cur: seq<Ptr>,
    ntable: seq<Option<Ptr>>, nchains: seq<seq<Ptr>>, moved: set<Ptr>)
  {
    && |table| == |chains| > 0 && |ntable| == |nchains| > 0 && moved <= e.Keys
    && Chain(e, he, cur) && Movable(hash, e, cur, moved, i, |chains|)
    && (forall k :: i < k < |chains| ==>
          Chain(e, table[k], chains[k]) && Movable(hash, e, chains[k], moved, k, |chains|))
    && (forall j :: 0 <= j < |nchains| ==>
          Bucket(hash, e, ntable[j], nchains[j], j, |nchains|) && NewOnly(nchains[j], moved))
    && (forall q :: q in e ==> Accounted(hash, e, chains, i, cur, nchains, moved, q))
  }

  ghost predicate NewOnly(ps: seq<Ptr>, moved: set<Ptr>) {
    forall q :: q in ps ==> q in moved
  }

  lemma {:induction false} MoveOne<V>(
    hash: Hash, e: Entries<V>, table: seq<Option<Ptr>>, chains: seq<seq<Ptr>>, i: nat, he: Option<Ptr>, cur: seq<Ptr>,
    ntable: seq<Option<Ptr>>, nchains: seq<seq<Ptr>>, moved: set<Ptr>)
    requires Moving(hash, e, table, chains, i, he, cur, ntable, nchains, moved) && cur != []
    ensures he == Some(cur[0]) && cur[0] in e && cur[0] !in moved
    ensures var p := cur[0];
            var h := Index(hash, e[p].key, |nchains|);
            var e' := e[p := e[p].(next := ntable[h])];
            Moving(hash, e', table, chains, i, e[p].next, cur[1..],
                   ntable[h := Some(p)], nchains[h := [p] + nchains[h]], moved + {p})
  {
    hide Chain, Bucket, NewOnly, Accounted, Movable, IndexOk;
    ChainHead(e, he, cur);
    MovableHead(hash, e, cur, moved, i, |chains|);
    var p := cur[0];
    var h := Index(hash, e[p].key, |nchains|);
    var e' := e[p := e[p].(next := ntable[h])];
    var ntable', nchains', moved' := ntable[h := Some(p)], nchains[h := [p] + nchains[h]], moved + {p};
    MoveCurrent(hash, e, e', cur, moved, i, |chains|);
    forall k | i < k < |chains|
      ensures Chain(e', table[k], chains[k]) && Movable(hash, e', chains[k], moved', k, |chains|)
    {
      assert Movable(hash, e, chains[k], moved, k, |chains|);
      MoveLater(hash, e, e', table[k], chains[k], moved, p, k, |chains|);
    }
    forall j | 0 <= j < |nchains|
      ensures Bucket(hash, e', ntable'[j], nchains'[j], j, |nchains|) && NewOnly(nchains'[j], moved')
    {
      assert Bucket(hash, e, ntable[j], nchains[j], j, |nchains|) && NewOnly(nchains[j], moved);
      MoveNew(hash, e, ntable, nchains, moved, p, j);
    }
    forall q | q in e' ensures Accounted(hash, e', chains, i, cur[1..], nchains', moved', q) {
      assert Accounted(hash, e, chains, i, cur, nchains, moved, q);
      MoveAccount(hash, e, e', chains, i, cur, nchains, moved, q);
    }
  }

  lemma {:induction false} MovableHead<V>(hash: Hash, e: Entries<V>, cur: seq<Ptr>, moved: set<Ptr>, i: nat, size: nat)
    requires size > 0 && cur != [] && Movable(hash, e, cur, moved, i, size)
    ensures cur[0] in e && Index(hash, e[cur[0]].key, size) == i && cur[0] !in moved
  {
    assert cur[0] in cur;
  }

  lemma {:induction false} MoveCurrent<V>(
    hash: Hash, e: Entries<V>, e': Entries<V>, cur: seq<Ptr>, moved: set<Ptr>, i: nat, size: nat)
    requires size > 0 && cur != [] && Chain(e, Some(cur[0]), cur) && Movable(hash, e, cur, moved, i, size)
    requires cur[0] in e && e'.Keys == e.Keys && e'[cur[0]].key == e[cur[0]].key
    requires forall q :: q in e && q != cur[0] ==> e'[q] == e[q]
    ensures Chain(e', e[cur[0]].next, cur[1..]) && Movable(hash, e', cur[1..], moved + {cur[0]}, i, size)
  {
    assert forall q :: q in cur[1..] ==> q in cur;
    ChainFrame(e, e', e[cur[0]].next, cur[1..]);
  }

  lemma {:induction false} MoveAccount<V>(
    hash: Hash, e: Entries<V>, e': Entries<V>, chains: seq<seq<Ptr>>, i: nat, cur: seq<Ptr>, nchains: seq<seq<Ptr>>,
    moved: set<Ptr>, q: Ptr)
    requires |chains| > 0 && |nchains| > 0 && cur != [] && q in e && cur[0] in e
    requires e'.Keys == e.Keys && e'[q].key == e[q].key
    requires Accounted(hash, e, chains, i, cur, nchains, moved, q)
    ensures var h := Index(hash, e[cur[0]].key, |nchains|);
            Accounted(hash, e', chains, i, cur[1..], nchains[h := [cur[0]] + nchains[h]], moved + {cur[0]}, q)
  {
    assert q in cur ==> q == cur[0] || q in cur[1..];
  }

  lemma {:induction false} MoveLater<V>(
    hash: Hash, e: Entries<V>, e': Entries<V>, head: Option<Ptr>, ps: seq<Ptr>, moved: set<Ptr>, p: Ptr, k: nat,
    size: nat)
    requires size > 0 && p in e && Index(hash, e[p].key, size) != k
    requires Chain(e, head, ps) && Movable(hash, e, ps, moved, k, size)
    requires e'.Keys == e.Keys && e'[p].key == e[p].key && forall q :: q in e && q != p ==> e'[q] == e[q]
    ensures Chain(e', head, ps) && Movable(hash, e', ps, moved + {p}, k, size)
  {
    assert p !in ps;
    ChainFrame(e, e', head, ps);
  }

  lemma {:induction false} MoveNew<V>(
    hash: Hash, e: Entries<V>, ntable: seq<Option<Ptr>>, nchains: seq<seq<Ptr>>, moved: set<Ptr>, p: Ptr, j: nat)
    requires j < |ntable| == |nchains| && p in e && p !in moved
    requires Bucket(hash, e, ntable[j], nchains[j], j, |nchains|) && NewOnly(nchains[j], moved)
    ensures var h := Index(hash, e[p].key, |nchains|);
            var e' := e[p := e[p].(next := ntable[h])];
            && Bucket(hash, e', ntable[h := Some(p)][j], nchains[h := [p] + nchains[h]][j], j, |nchains|)
            && NewOnly(nchains[h := [p] + nchains[h]][j], moved + {p})
  {
    var h := Index(hash, e[p].key, |nchains|);
    var e' := e[p := e[p].(next := ntable[h])];
    assert p !in nchains[j];
    ChainFrame(e, e', ntable[j], nchains[j]);
    if j == h {
      assert ([p] + nchains[h])[1..] == nchains[h];
    }
  }

  /** Releasing the front entry of the current chain leaves the rest reachable. */
  lemma {:induction false} FreeOne<V>(
    hash: Hash, e: Entries<V>, table: seq<Option<Ptr>>, chains: seq<seq<Ptr>>, i: nat, he: Option<Ptr>, cur: seq<Ptr>,
    ntable: seq<Option<Ptr>>, nchains: seq<seq<Ptr>>)
    requires Moving(hash, e, table, chains, i, he, cur, ntable, nchains, {}) && cur != [] && nchains == [[]]
    ensures he == Some(cur[0]) && cur[0] in e
    ensures Moving(hash, e - {cur[0]}, table, chains, i, e[cur[0]].next, cur[1..], ntable, nchains, {})
  {
    hide Chain, Bucket, NewOnly, Accounted, Movable, IndexOk;
    ChainHead(e, he, cur);
    MovableHead(hash, e, cur, {}, i, |chains|);
    var e' := e - {cur[0]};
    FreeCurrent(hash, e, cur, i, |chains|);
    forall k | i < k < |chains|
      ensures Chain(e', table[k], chains[k]) && Movable(hash, e', chains[k], {}, k, |chains|)
    {
      assert Movable(hash, e, chains[k], {}, k, |chains|);
      FreeLater(hash, e, table[k], chains[k], cur[0], k, |chains|);
    }
    assert Bucket(hash, e, ntable[0], nchains[0], 0, |nchains|);
    FreeNew(hash, e, e', ntable[0], nchains[0]);
    forall q | q in e' ensures Accounted(hash, e', chains, i, cur[1..], nchains, {}, q) {
      assert Accounted(hash, e, chains, i, cur, nchains, {}, q);
      FreeAccount(hash, e, chains, i, cur, nchains, q);
    }
  }

  lemma {:induction false} FreeCurrent<V>(hash: Hash, e: Entries<V>, cur: seq<Ptr>, i: nat, size: nat)
    requires size > 0 && cur != [] && Chain(e, Some(cur[0]), cur) && Movable(hash, e, cur, {}, i, size)
    ensures cur[0] in e && Chain(e - {cur[0]}, e[cur[0]].next, cur[1..])
    ensures Movable(hash, e - {cur[0]}, cur[1..], {}, i, size)
  {
    assert forall q :: q in cur[1..] ==> q in cur;
    ChainFrame(e, e - {cur[0]}, e[cur[0]].next, cur[1..]);
  }

  lemma {:induction false} FreeLater<V>(
    hash: Hash, e: Entries<V>, head: Option<Ptr>, ps: seq<Ptr>, p: Ptr, k: nat, size: nat)
    requires size > 0 && p in e && Index(hash, e[p].key, size) != k
    requires Chain(e, head, ps) && Movable(hash, e, ps, {}, k, size)
    ensures Chain(e - {p}, head, ps) && Movable(hash, e - {p}, ps, {}, k, size)
  {
    assert p !in ps;
    ChainFrame(e, e - {p}, head, ps);
  }

  lemma {:induction false} FreeNew<V>(hash: Hash, e: Entries<V>, e': Entries<V>, head: Option<Ptr>, ps: seq<Ptr>)
    requires ps == [] && Bucket(hash, e, head, ps, 0, 1)
    ensures Bucket(hash, e', head, ps, 0, 1) && NewOnly(ps, {})
  {
  }

  lemma {:induction false} FreeAccount<V>(
    hash: Hash, e: Entries<V>, chains: seq<seq<Ptr>>, i: nat, cur: seq<Ptr>, nchains: seq<seq<Ptr>>, q: Ptr)
    requires |chains| > 0 && |nchains| > 0 && cur != [] && q in e && q != cur[0]
    requires Accounted(hash, e, chains, i, cur, nchains, {}, q)
    ensures Accounted(hash, e - {cur[0]}, chains, i, cur[1..], nchains, {}, q)
  {
    assert q in cur ==> q in cur[1..];
  }

  lemma {:induction false} NextBucket<V>(
    hash: Hash, e: Entries<V>, table: seq<Option<Ptr>>, chains: seq<seq<Ptr>>, i: nat,
    ntable: seq<Option<Ptr>>, nchains: seq<seq<Ptr>>, moved: set<Ptr>)
    requires Moving(hash, e, table, chains, i, None, [], ntable, nchains, moved) && i < |chains|
    ensures i + 1 < |chains| ==>
              Moving(hash, e, table, chains, i + 1, table[i + 1], chains[i + 1], ntable, nchains, moved)
    ensures i + 1 == |chains| ==> moved == e.Keys
  {
    forall q | q in e ensures i + 1 == |chains| ==> q in moved
                      ensures i + 1 < |chains| ==> Accounted(hash, e, chains, i + 1, chains[i + 1], nchains, moved, q) {
      assert Accounted(hash, e, chains, i, [], nchains, moved, q);
    }
  }

  lemma {:induction false} StartMoving<V>(
    hash: Hash, e: Entries<V>, table: seq<Option<Ptr>>, chains: seq<seq<Ptr>>, ntable: seq<Option<Ptr>>,
    nchains: seq<seq<Ptr>>)
    requires Buckets(hash, e, table, chains) && |chains| > 0 && |ntable| == |nchains| > 0
    requires forall j :: 0 <= j < |nchains| ==> ntable[j] == None && nchains[j] == []
    ensures Moving(hash, e, table, chains, 0, table[0], chains[0], ntable, nchains, {})
  {
    forall k | 0 <= k < |chains| ensures Chain(e, table[k], chains[k]) && Movable(hash, e, chains[k], {}, k, |chains|) {
      assert Bucket(hash, e, table[k], chains[k], k, |chains|);
    }
    forall j | 0 <= j < |nchains|
      ensures Bucket(hash, e, ntable[j], nchains[j], j, |nchains|) && NewOnly(nchains[j], {})
    {
    }
    forall q | q in e ensures Accounted(hash, e, chains, 0, chains[0], nchains, {}, q) {
      assert IndexOk(hash, e, chains, q);
    }
  }

  lemma {:induction false} AllMoved<V>(
    hash: Hash, e: Entries<V>, table: seq<Option<Ptr>>, chains: seq<seq<Ptr>>, i: nat, he: Option<Ptr>, cur: seq<Ptr>,
    ntable: seq<Option<Ptr>>, nchains: seq<seq<Ptr>>, moved: set<Ptr>)
    requires Moving(hash, e, table, chains, i, he, cur, ntable, nchains, moved) && moved == e.Keys
    ensures Buckets(hash, e, ntable, nchains)
  {
    forall q | q in e ensures IndexOk(hash, e, nchains, q) {
      assert Accounted(hash, e, chains, i, cur, nchains, moved, q);
    }
  }

  /** Keys and values stay; only links changed. */
  ghost predicate SameContents<V>(e: Entries<V>, e': Entries<V>) {
    e.Keys == e'.Keys && forall q :: q in e ==> e'[q].key == e[q].key && e'[q].val == e[q].val
  }

  /** One entry was taken out of one chain. */
  ghost predicate Removed(chains: seq<seq<Ptr>>, chains': seq<seq<Ptr>>, p: Ptr) {
    exists h, j :: 0 <= h < |chains| && 0 <= j < |chains[h]| && chains[h][j] == p
                   && chains' == chains[h := chains[h][..j] + chains[h][j + 1..]]
  }

  /** Buckets hold their own keys, no key twice; `used` counts the entries; the size is 0 or a power of two from 4. */
  ghost predicate TableOk<V>(
    hash: Hash, e: Entries<V>, table: seq<Option<Ptr>>, chains: seq<seq<Ptr>>, loc: map<Key, Ptr>, used: nat,
    next: Ptr)
  {
    && |chains| == |table|
    && Buckets(hash, e, table, chains)
    && Located(e, loc)
    && used == |e| <= |table|
    && (|table| == 0 || (IsPow2(|table|) && |table| >= INITIAL_SIZE))
    && Below(e, next)
  }

  class Dict<V> {
    const hash: Hash
    var table: array<Option<Ptr>>
    var used: nat
    var entries: Entries<V>
    var next: Ptr
    ghost var chains: seq<seq<Ptr>>
    ghost var loc: map<Key, Ptr>

    function Size(): nat
      reads this
    {
      table.Length
    }

    ghost predicate Valid()
      reads this, table
    {
      TableOk(hash, entries, table[..], chains, loc, used, next)
    }

    ghost function M(): map<Key, V>
      reads this, table
      requires Valid()
    {
      Model(entries, loc)
    }

    constructor (hash: Hash)
      ensures Valid() && fresh(table) && M() == map[] && Size() == 0 && this.hash == hash
    {
      this.hash := hash;
      table := new Option<Ptr>[0];
      used, entries, next := 0, map[], 0;
      chains, loc := [], map[];
    }

    /** dictFind. */
    method Find(key: Key) returns (r: Option<Ptr>)
      requires Valid()
      ensures r == if key in M() then Some(loc[key]) else None
      ensures r.Some? ==> r.value in entries && entries[r.value].key == key && entries[r.value].val == M()[key]
    {
      if Size() == 0 { return None; }
      var h := Index(hash, key, Size());
      r := Search(key, h);
    }

    /** The walk along bucket h. */
    method Search(key: Key, h: nat) returns (r: Option<Ptr>)
      requires Valid() && Size() > 0 && h == Index(hash, key, Size())
      ensures r == if key in loc then Some(loc[key]) else None
      ensures r.Some? ==> r.value in entries && entries[r.value].key == key
    {
      assert Located(entries, loc);
      BucketOf(hash, entries, table[..], chains, loc, key);
      hide Buckets;
      var he := table[h];
      ghost var ps := chains[h];
      while he != None
        invariant Chain(entries, he, ps)
        invariant key in loc ==> loc[key] in ps
        decreases |ps|
      {
        var p := he.value;
        if entries[p].key == key {
          return Some(p);
        }
        he := entries[p].next;
        ps := ps[1..];
      }
      return None;
    }

    // ---- Growing ----

    /** _dictNextPower. */
    static method NextPower(size: nat) returns (i: nat)
      ensures size >= 9223372036854775807 ==> i == 9223372036854775807
      ensures size < 9223372036854775807 ==> IsPow2(i) && 4 <= i && size <= i && (i == 4 || i < 2 * size)
    {
      if size >= LONG_MAX { return LONG_MAX; }
      i := INITIAL_SIZE;
      Doubled(1);
      Doubled(2);
      hide IsPow2;
      while i < size
        invariant IsPow2(i) && INITIAL_SIZE <= i && (i == INITIAL_SIZE || i < 2 * size)
        decreases size - i
      {
        Doubled(i);
        i := i * 2;
      }
    }

    /** Twice a power of two is the next one. */
    static lemma {:induction false} NoPowerBetween(n: nat)
      requires n == 0 || IsPow2(n)
      ensures forall i: nat :: IsPow2(i) && i < 4 * n ==> i <= 2 * n
      ensures n < MAX_BUCKETS && n > 0 ==> 2 * n <= MAX_BUCKETS
    {
      forall i: nat | IsPow2(i) && i < 4 * n ensures i <= 2 * n {
        PowersApart(n, i);
      }
      assert IsPow2(MAX_BUCKETS) by { BucketsPower(); }
      if 0 < n < MAX_BUCKETS {
        PowersApart2(n, MAX_BUCKETS);
      }
    }

    static lemma {:induction false} PowersApart(n: nat, i: nat)
      requires n > 0 && IsPow2(n) && IsPow2(i) && i < 4 * n
      ensures i <= 2 * n
    {
      if n > 1 && i > 1 {
        PowersApart(n / 2, i / 2);
      }
    }

    static lemma {:induction false} PowersApart2(n: nat, i: nat)
      requires n > 0 && IsPow2(n) && IsPow2(i) && n < i
      ensures 2 * n <= i
    {
      if n > 1 {
        PowersApart2(n / 2, i / 2);
      }
    }

    static lemma {:induction false} BucketsPower()
      ensures IsPow2(MAX_BUCKETS)
    {
      assert IsPow2(0x100);
      PowerTimes(0x100, 0x100);
      PowerTimes(0x100, 0x1_0000);
      PowerTimes(0x80, 0x100_0000);
    }

    static lemma {:induction false} PowerTimes(a: nat, b: nat)
      requires IsPow2(a) && IsPow2(b)
      ensures IsPow2(a * b)
    {
      if a > 1 {
        PowerTimes(a / 2, b);
        assert a * b == 2 * (a / 2 * b);
        Doubled(a / 2 * b);
      }
    }

    static lemma {:induction false} Doubled(i: nat)
      requires IsPow2(i)
      ensures IsPow2(2 * i)
    {
    }

    lemma {:induction false} NoBuckets(
      hash: Hash, e: Entries<V>, table: seq<Option<Ptr>>, chains: seq<seq<Ptr>>, ntable: seq<Option<Ptr>>,
      nchains: seq<seq<Ptr>>)
      requires Buckets(hash, e, table, chains) && |chains| == 0 && |ntable| == |nchains|
      requires forall j :: 0 <= j < |nchains| ==> ntable[j] == None && nchains[j] == []
      ensures Buckets(hash, e, ntable, nchains)
    {
      forall j | 0 <= j < |nchains| ensures Bucket(hash, e, ntable[j], nchains[j], j, |nchains|) {
      }
    }

    /** dictExpand: relinks every entry into a new bucket array. */
    method Expand(size: nat) returns (ok: bool)
      requires Valid() && size < LONG_MAX
      modifies this`table, this`used, this`entries, this`chains
      ensures Valid() && (fresh(table) || table == old(table))
      ensures ok <==> old(used) <= size
      ensures M() == old(M()) && loc == old(loc) && entries.Keys == old(entries.Keys) && next == old(next)
      ensures ok ==> IsPow2(Size()) && Size() >= size && Size() >= INITIAL_SIZE
      ensures ok ==> Size() == INITIAL_SIZE || Size() < 2 * size
      ensures !ok ==> Size() == old(Size())
    {
      hide Buckets, Located, Model, IsPow2, Chain, Index, BitAnd, Below;
      var realsize := NextPower(size);
      if used > size { return false; }
      var ntable := new Option<Ptr>[realsize](_ => None);
      ghost var nchains := seq(realsize, _ => []);
      ghost var e0 := entries;
      var count := used;
      if Size() > 0 {
        nchains := Rehash(ntable);
        ContentsLocated(e0, entries, loc);
        StillBelow(e0, entries, next);
        assert |entries| == |entries.Keys| == |e0.Keys| == |e0|;
      } else {
        NoBuckets(hash, entries, table[..], chains, ntable[..], nchains);
      }
      table := ntable;
      used := count;
      chains := nchains;
      return true;
    }

    /** Where the rehash stands before bucket i. */
    ghost predicate AtBucket(i: nat, ntable: array<Option<Ptr>>, nchains: seq<seq<Ptr>>, moved: set<Ptr>)
      reads this, table, ntable
      requires |chains| == table.Length > 0 && i <= table.Length
    {
      if i < table.Length then
        Moving(hash, entries, table[..], chains, i, table[i], chains[i], ntable[..], nchains, moved)
      else
        Moving(hash, entries, table[..], chains, i - 1, None, [], ntable[..], nchains, moved) && moved == entries.Keys
    }

    /** The two nested loops of dictExpand. */
    method Rehash(ntable: array<Option<Ptr>>) returns (ghost nchains: seq<seq<Ptr>>)
      requires Valid() && Size() > 0 && ntable != table && ntable.Length > 0
      requires forall j :: 0 <= j < ntable.Length ==> ntable[j] == None
      modifies ntable, this`entries, this`used
      ensures |nchains| == ntable.Length && Buckets(hash, entries, ntable[..], nchains)
      ensures SameContents(old(entries), entries) && used == 0
    {
      hide Moving, Buckets, IsPow2, Located, Index, BitAnd, Below;
      nchains := seq(ntable.Length, _ => []);
      StartMoving(hash, entries, table[..], chains, ntable[..], nchains);
      ghost var moved: set<Ptr> := {};
      var i := 0;
      while i < table.Length && used > 0
        invariant 0 <= i <= table.Length && |chains| == table.Length && |nchains| == ntable.Length
        invariant AtBucket(i, ntable, nchains, moved)
        invariant moved <= entries.Keys && used == |entries| - |moved|
        invariant SameContents(old(entries), entries)
      {
        nchains, moved := MoveBucket(i, ntable, nchains, moved);
        i := i + 1;
      }
      if used == 0 {
        Everything(moved, entries.Keys);
      }
      if i < table.Length {
        AllMoved(hash, entries, table[..], chains, i, table[i], chains[i], ntable[..], nchains, moved);
      } else {
        AllMoved(hash, entries, table[..], chains, i - 1, None, [], ntable[..], nchains, moved);
      }
    }

    /** Moves the entries of bucket i, front to back, each to the front of its new bucket. */
    method MoveBucket(i: nat, ntable: array<Option<Ptr>>, ghost nchains0: seq<seq<Ptr>>, ghost moved0: set<Ptr>)
      returns (ghost nchains: seq<seq<Ptr>>, ghost moved: set<Ptr>)
      requires i < table.Length == |chains| && ntable != table && |nchains0| == ntable.Length > 0
      requires AtBucket(i, ntable, nchains0, moved0)
      requires moved0 <= entries.Keys && used == |entries| - |moved0|
      modifies ntable, this`entries, this`used
      ensures |nchains| == ntable.Length && AtBucket(i + 1, ntable, nchains, moved)
      ensures moved <= entries.Keys && used == |entries| - |moved|
      ensures SameContents(old(entries), entries)
    {
      hide Moving;
      nchains, moved := nchains0, moved0;
      var he := table[i];
      ghost var cur := chains[i];
      while he != None
        invariant |nchains| == ntable.Length
        invariant Moving(hash, entries, table[..], chains, i, he, cur, ntable[..], nchains, moved)
        invariant moved <= entries.Keys && used == |entries| - |moved|
        invariant SameContents(old(entries), entries)
        decreases |cur|
      {
        CurrentOf(hash, entries, table[..], chains, i, he, cur, ntable[..], nchains, moved);
        MoveOne(hash, entries, table[..], chains, i, he, cur, ntable[..], nchains, moved);
        var p := he.value;
        var nextHe := entries[p].next;
        var h := Index(hash, entries[p].key, ntable.Length);
        MoreMoved(moved, p, entries.Keys);
        entries := entries[p := entries[p].(next := ntable[h])];
        ghost var was := ntable[..];
        ntable[h] := Some(p);
        assert ntable[..] == was[h := Some(p)];
        used := used - 1;
        nchains, moved, cur := nchains[h := [p] + nchains[h]], moved + {p}, cur[1..];
        he := nextHe;
      }
      CurrentOf(hash, entries, table[..], chains, i, he, cur, ntable[..], nchains, moved);
      NextBucket(hash, entries, table[..], chains, i, ntable[..], nchains, moved);
    }

    // ---- Adding, replacing, deleting ----

    /** _dictExpandIfNeeded. */
    method ExpandIfNeeded()
      requires Valid() && used < MAX_BUCKETS && Size() <= MAX_BUCKETS
      modifies this`table, this`used, this`entries, this`chains
      ensures Valid() && (fresh(table) || table == old(table)) && used < Size() <= MAX_BUCKETS
      ensures M() == old(M()) && loc == old(loc) && entries.Keys == old(entries.Keys) && next == old(next)
    {
      var ok;
      NoPowerBetween(Size());
      if Size() == 0 {
        ok := Expand(INITIAL_SIZE);
      } else if used == Size() {
        ok := Expand(Size() * 2);
      }
    }

    /** _dictKeyIndex: the bucket of a new key, -1 if the key exists. */
    method KeyIndex(key: Key) returns (index: int)
      requires Valid() && used < MAX_BUCKETS && Size() <= MAX_BUCKETS
      modifies this`table, this`used, this`entries, this`chains
      ensures Valid() && (fresh(table) || table == old(table)) && used < Size() <= MAX_BUCKETS
      ensures M() == old(M()) && loc == old(loc) && entries.Keys == old(entries.Keys) && next == old(next)
      ensures index == if key in loc then -1 else Index(hash, key, Size())
    {
      hide Buckets, Located, Model, IsPow2, Chain, Index, BitAnd, Below;
      ExpandIfNeeded();
      var h := Index(hash, key, Size());
      var found := Search(key, h);
      if found != None { return -1; }
      SignedFits(h);
      return Signed(h);
    }

    /** dictAdd; the value stored is a copy of val. */
    method Add(key: Key, val: V) returns (ok: bool)
      requires Valid() && used < MAX_BUCKETS && Size() <= MAX_BUCKETS
      modifies this, table
      ensures Valid() && (fresh(table) || table == old(table)) && Size() <= MAX_BUCKETS
      ensures ok <==> key !in old(M())
      ensures M() == if ok then old(M())[key := val] else old(M())
      ensures !ok ==> loc == old(loc)
    {
      hide Buckets, Located, Model, IsPow2, Chain, Index, BitAnd, Below;
      var index := KeyIndex(key);
      KeysOf(entries, loc);
      if index == -1 { return false; }
      Link(key, val, index);
      return true;
    }

    /** Allocates the entry and puts it in front of bucket h. */
    method Link(key: Key, val: V, h: nat)
      requires Valid() && Size() > used && h == Index(hash, key, Size()) && key !in loc
      modifies this`used, this`entries, this`chains, this`loc, this`next, table
      ensures Valid() && M() == old(M())[key := val] && table == old(table)
    {
      hide Buckets, Located, Model, IsPow2, Chain, Index, BitAnd, Below;
      var p := next;
      BelowMore(entries, p, Entry(key, val, table[h]));
      InsertBuckets(hash, entries, table[..], chains, p, key, val);
      InsertLocated(entries, loc, p, Entry(key, val, table[h]));
      ghost var was := table[..];
      assert was[h] == table[h];
      entries := entries[p := Entry(key, val, table[h])];
      table[h] := Some(p);
      assert table[..] == was[h := Some(p)];
      chains := chains[h := [p] + chains[h]];
      loc := loc[key := p];
      used := used + 1;
      next := next + 1;
    }

    /** dictReplace: true if the key is new. */
    method Replace(key: Key, val: V) returns (added: bool)
      requires Valid() && used < MAX_BUCKETS && Size() <= MAX_BUCKETS
      modifies this, table
      ensures Valid() && (fresh(table) || table == old(table)) && Size() <= MAX_BUCKETS
      ensures added <==> key !in old(M())
      ensures M() == old(M())[key := val]
    {
      hide Buckets, Located, Model, IsPow2, Chain, Index, BitAnd, Below;
      added := Add(key, val);
      if added { return; }
      var entry := Find(key);
      var p := entry.value;
      BucketsFrame(hash, entries, entries[p := entries[p].(val := val)], table[..], chains);
      SetLocated(entries, loc, p, val);
      StillBelow(entries, entries[p := entries[p].(val := val)], next);
      entries := entries[p := entries[p].(val := val)];
    }

    /** dictDelete. */
    method Delete(key: Key) returns (ok: bool)
      requires Valid()
      modifies this`used, this`entries, this`chains, this`loc, table
      ensures Valid() && (ok <==> key in old(M()))
      ensures M() == old(M()) - {key}
      ensures ok ==> entries.Keys == old(entries.Keys) - {old(loc)[key]} && loc == old(loc) - {key}
      ensures ok ==> Removed(old(chains), chains, old(loc)[key])
      ensures !ok ==> entries == old(entries) && loc == old(loc) && chains == old(chains) && table[..] == old(table[..])
    {
      hide Buckets, Located, Model, IsPow2, Chain, Index, BitAnd, Below;
      KeysOf(entries, loc);
      assert key !in M() ==> M() - {key} == M();
      if Size() == 0 {
        EmptyTable(hash, entries, table[..], chains, loc);
        return false;
      }
      var h := Index(hash, key, Size());
      var prevde, de, j := Seek(key, h);
      if de == None { return false; }
      HasEntry(entries, loc, de.value);
      TakeOut(h, j, prevde, de.value, key);
      return true;
    }

    /** The walk along bucket h that also remembers the entry before. */
    method Seek(key: Key, h: nat) returns (prevde: Option<Ptr>, de: Option<Ptr>, ghost j: nat)
      requires Valid() && Size() > 0 && h == Index(hash, key, Size())
      ensures Sought(entries, loc, key, chains[h], j, prevde, de)
    {
      BucketOf(hash, entries, table[..], chains, loc, key);
      assert Located(entries, loc) && |chains| == table.Length;
      hide Buckets, Located, Chain, IsPow2, Index, BitAnd, Below, TableOk, Sought;
      prevde, de := None, table[h];
      ghost var ps := chains[h];
      j := 0;
      WalkStart(entries, loc, key, ps, de);
      hide Walk;
      while de != None && entries[de.value].key != key
        invariant Walk(entries, loc, key, ps, j, prevde, de) && (de != None ==> de.value in entries)
        decreases |ps| - j
      {
        WalkOn(entries, loc, key, ps, j, prevde, de);
        prevde := de;
        de := entries[de.value].next;
        j := j + 1;
      }
      WalkEnd(entries, loc, key, ps, j, prevde, de);
    }

    /** Unlinks and releases entry p, the j-th of bucket h. */
    method TakeOut(h: nat, ghost j: nat, prevde: Option<Ptr>, p: Ptr, ghost key: Key)
      requires Valid() && h < Size() && j < |chains[h]| && p == chains[h][j] && p in entries && entries[p].key == key
      requires prevde == if j == 0 then None else Some(chains[h][j - 1])
      modifies this`used, this`entries, this`chains, this`loc, table
      ensures Valid() && M() == old(M()) - {key}
      ensures entries.Keys == old(entries.Keys) - {p} && loc == old(loc) - {key}
      ensures Removed(old(chains), chains, p)
    {
      hide Buckets, Located, Model, IsPow2, Chain, Index, BitAnd, Below, UnlinkedAt, TableOk, Removed;
      ghost var e', table', chains', loc' := Plan(h, j, prevde, p);
      Unlink(prevde, p, h);
      assert entries == e' && table[..] == table';
      used := used - 1;
      chains := chains';
      loc := loc';
    }

    /** The state that removing entry p leads to. */
    lemma {:induction false} Plan(h: nat, j: nat, prevde: Option<Ptr>, p: Ptr)
      returns (e': Entries<V>, table': seq<Option<Ptr>>, chains': seq<seq<Ptr>>, loc': map<Key, Ptr>)
      requires Valid() && h < Size() && j < |chains[h]| && p == chains[h][j] && p in entries
      requires prevde == if j == 0 then None else Some(chains[h][j - 1])
      ensures prevde != None ==> prevde.value in entries
      ensures e' == UnlinkedAt(entries, prevde, p) && loc' == loc - {entries[p].key}
      ensures table' == if prevde == None then table[..][h := entries[p].next] else table[..]
      ensures used > 0 && TableOk(hash, e', table', chains', loc', used - 1, next)
      ensures Model(e', loc') == M() - {entries[p].key}
      ensures e'.Keys == entries.Keys - {p} && Removed(chains, chains', p)
    {
      hide Buckets, Located, Model, IsPow2, Chain, Index, BitAnd, Below;
      TakenOut(hash, entries, table[..], chains, loc, h, j, prevde, p);
      hide UnlinkedAt;
      e', loc' := UnlinkedAt(entries, prevde, p), loc - {entries[p].key};
      table' := if prevde == None then table[..][h := entries[p].next] else table[..];
      chains' := chains[h := chains[h][..j] + chains[h][j + 1..]];
      StillBelow(entries, e', next);
    }

    /** What _dictClear still has to release: bucket i and the later ones. */
    ghost predicate Uncleared(i: nat, he: Option<Ptr>, cur: seq<Ptr>)
      reads this, table
    {
      used == |entries| && Moving(hash, entries, table[..], chains, i, he, cur, [None], [[]], {})
    }

    /** _dictClear: every entry is released once and the table is as new. */
    method Clear()
      requires Valid()
      modifies this
      ensures Valid() && fresh(table) && Size() == 0 && entries == map[] && M() == map[]
    {
      hide Moving, Buckets, Located, Model, IsPow2, Chain, Index, BitAnd, Below;
      var i := 0;
      assert table.Length == |chains| && used == |entries|;
      if table.Length > 0 {
        StartMoving(hash, entries, table[..], chains, [None], [[]]);
      } else {
        assert |entries| == 0;
      }
      hide TableOk;
      while i < table.Length && used > 0
        invariant 0 <= i <= table.Length == |chains| && used == |entries|
        invariant if i < table.Length then Uncleared(i, table[i], chains[i]) else |entries| == 0
      {
        ClearBucket(i);
        i := i + 1;
      }
      Reset();
    }

    /** _dictReset, once every entry is released. */
    method Reset()
      requires entries == map[]
      modifies this
      ensures Valid() && fresh(table) && Size() == 0 && entries == map[] && M() == map[]
    {
      hide TableOk, Model;
      table := new Option<Ptr>[0];
      assert table[..] == [];
      used := 0;
      chains, loc := [], map[];
      NothingStored<V>(hash, next);
    }

    method ClearBucket(i: nat)
      requires i < table.Length == |chains| && Uncleared(i, table[i], chains[i])
      modifies this`entries, this`used
      ensures used == |entries|
      ensures if i + 1 < table.Length then Uncleared(i + 1, table[i + 1], chains[i + 1]) else |entries| == 0
    {
      hide Moving;
      var he := table[i];
      ghost var cur := chains[i];
      while he != None
        invariant Uncleared(i, he, cur)
        decreases |cur|
      {
        CurrentOf(hash, entries, table[..], chains, i, he, cur, [None], [[]], {});
        FreeOne(hash, entries, table[..], chains, i, he, cur, [None], [[]]);
        var p := he.value;
        he := entries[p].next;
        assert |entries - {p}| == |entries| - 1 by { assert (entries - {p}).Keys == entries.Keys - {p}; }
        entries := entries - {p};
        used := used - 1;
        cur := cur[1..];
      }
      CurrentOf(hash, entries, table[..], chains, i, he, cur, [None], [[]], {});
      NextBucket(hash, entries, table[..], chains, i, [None], [[]], {});
    }

    /** The writes of dictDelete to the links. */
    method Unlink(prevde: Option<Ptr>, p: Ptr, h: nat)
      requires h < Size() && p in entries && (prevde != None ==> prevde.value in entries)
      modifies this`entries, table
      ensures entries == UnlinkedAt(old(entries), prevde, p)
      ensures table[..] == if prevde == None then old(table[..])[h := old(entries)[p].next] else old(table[..])
    {
      if prevde != None {
        entries := entries[prevde.value := entries[prevde.value].(next := entries[p].next)];
      } else {
        table[h] := entries[p].next;
      }
      entries := entries - {p};
    }
  }

  /** The entries without p, whose predecessor in its chain is prevde. */
  function UnlinkedAt<V>(e: Entries<V>, prevde: Option<Ptr>, p: Ptr): Entries<V>
    requires p in e && (prevde != None ==> prevde.value in e)
  {
    (if prevde == None then e else e[prevde.value := e[prevde.value].(next := e[p].next)]) - {p}
  }

  lemma {:induction false} TakenOut<V>(
    hash: Hash, e: Entries<V>, table: seq<Option<Ptr>>, chains: seq<seq<Ptr>>, loc: map<Key, Ptr>, h: nat, j: nat,
    prevde: Option<Ptr>, p: Ptr)
    requires Buckets(hash, e, table, chains) && Located(e, loc) && h < |chains| && j < |chains[h]|
    requires p == chains[h][j] && prevde == if j == 0 then None else Some(chains[h][j - 1])
    ensures p in e && (prevde != None ==> prevde.value in e)
    ensures Buckets(hash, UnlinkedAt(e, prevde, p), if prevde == None then table[h := e[p].next] else table,
                    chains[h := chains[h][..j] + chains[h][j + 1..]])
    ensures Located(UnlinkedAt(e, prevde, p), loc - {e[p].key})
    ensures Model(UnlinkedAt(e, prevde, p), loc - {e[p].key}) == Model(e, loc) - {e[p].key}
    ensures UnlinkedAt(e, prevde, p).Keys == e.Keys - {p} && |UnlinkedAt(e, prevde, p)| == |e| - 1
  {
    hide Buckets, Located, Model, IsPow2, Chain, Index, BitAnd, Below;
    RemoveBuckets(hash, e, table, chains, h, j);
    var ps := chains[h];
    var e' := UnlinkedAt(e, prevde, p);
    assert e' == Unlinked(e, ps, j);
    UnlinkedKeys(e, ps, j);
    KeysLess(e, e', p);
    assert forall q :: q in e' ==> e'[q].val == e[q].val;
    hide Unlinked, UnlinkedAt;
    RemoveLocated(e, e', loc, p);
    assert |e'| == |e'.Keys| && |e| == |e.Keys|;
  }

  lemma {:induction false} ChainHead<V>(e: Entries<V>, p: Option<Ptr>, ps: seq<Ptr>)
    requires Chain(e, p, ps)
    ensures p == None <==> ps == []
    ensures p != None ==> ps[0] == p.value && p.value in e && Chain(e, e[p.value].next, ps[1..])
    ensures forall q :: q in ps ==> q == ps[0] || q in ps[1..]
  {
  }

  /** A walk along the chain ps stands at de, its j-th entry, and has not passed the key's entry. */
  ghost predicate Walk<V>(
    e: Entries<V>, loc: map<Key, Ptr>, key: Key, ps: seq<Ptr>, j: nat, prevde: Option<Ptr>, de: Option<Ptr>)
  {
    && j <= |ps| && Chain(e, de, ps[j..])
    && (de == None ==> j == |ps|)
    && (de != None ==> j < |ps| && ps[j] == de.value)
    && prevde == (if j == 0 then None else Some(ps[j - 1]))
    && (key in loc ==> loc[key] in ps[j..])
  }

  /** The entry of the key is de, the j-th of its chain ps, if there is one. */
  ghost predicate Sought<V>(
    e: Entries<V>, loc: map<Key, Ptr>, key: Key, ps: seq<Ptr>, j: nat, prevde: Option<Ptr>, de: Option<Ptr>)
  {
    && de == (if key in loc then Some(loc[key]) else None)
    && (de != None ==>
          && j < |ps| && ps[j] == de.value && de.value in e && e[de.value].key == key
          && prevde == if j == 0 then None else Some(ps[j - 1]))
  }

  lemma {:induction false} WalkStart<V>(e: Entries<V>, loc: map<Key, Ptr>, key: Key, ps: seq<Ptr>, de: Option<Ptr>)
    requires Chain(e, de, ps) && (key in loc ==> loc[key] in ps)
    ensures Walk(e, loc, key, ps, 0, None, de) && (de != None ==> de.value in e)
  {
    hide Chain;
    assert ps[0..] == ps;
    ChainHead(e, de, ps);
  }

  lemma {:induction false} WalkOn<V>(
    e: Entries<V>, loc: map<Key, Ptr>, key: Key, ps: seq<Ptr>, j: nat, prevde: Option<Ptr>, de: Option<Ptr>)
    requires Walk(e, loc, key, ps, j, prevde, de) && Located(e, loc)
    requires de != None && de.value in e && e[de.value].key != key
    ensures j < |ps| && Walk(e, loc, key, ps, j + 1, de, e[de.value].next)
    ensures e[de.value].next != None ==> e[de.value].next.value in e
  {
    hide Chain, Located;
    ChainHead(e, de, ps[j..]);
    assert ps[j..][0] == ps[j] && ps[j..][1..] == ps[j + 1..];
    SearchOn(e, loc, key, de.value);
    var next := e[de.value].next;
    ChainHead(e, next, ps[j + 1..]);
    assert next != None ==> ps[j + 1..][0] == ps[j + 1];
  }

  lemma {:induction false} WalkEnd<V>(
    e: Entries<V>, loc: map<Key, Ptr>, key: Key, ps: seq<Ptr>, j: nat, prevde: Option<Ptr>, de: Option<Ptr>)
    requires Walk(e, loc, key, ps, j, prevde, de) && Located(e, loc)
    requires de != None ==> de.value in e && e[de.value].key == key
    ensures Sought(e, loc, key, ps, j, prevde, de)
  {
    hide Chain, Located;
    if de != None {
      HasEntry(e, loc, de.value);
    }
  }

  lemma {:induction false} KeysOf<V>(e: Entries<V>, loc: map<Key, Ptr>)
    requires Located(e, loc)
    ensures Model(e, loc).Keys == loc.Keys
  {
  }

  lemma {:induction false} NothingStored<V>(hash: Hash, next: Ptr)
    ensures TableOk<V>(hash, map[], [], [], map[], 0, next)
    ensures Model<V>(map[], map[]) == map[]
  {
  }

  lemma {:induction false} EmptyTable<V>(
    hash: Hash, e: Entries<V>, table: seq<Option<Ptr>>, chains: seq<seq<Ptr>>, loc: map<Key, Ptr>)
    requires Buckets(hash, e, table, chains) && Located(e, loc) && |chains| == 0
    ensures loc.Keys == {}
  {
  }

  lemma {:induction false} HasEntry<V>(e: Entries<V>, loc: map<Key, Ptr>, p: Ptr)
    requires Located(e, loc) && p in e
    ensures e[p].key in loc && loc[e[p].key] == p
  {
  }

  lemma {:induction false} SearchOn<V>(e: Entries<V>, loc: map<Key, Ptr>, key: Key, p: Ptr)
    requires Located(e, loc) && p in e && e[p].key != key
    ensures key in loc ==> loc[key] != p
  {
  }

  lemma {:induction false} CurrentOf<V>(
    hash: Hash, e: Entries<V>, table: seq<Option<Ptr>>, chains: seq<seq<Ptr>>, i: nat, he: Option<Ptr>, cur: seq<Ptr>,
    ntable: seq<Option<Ptr>>, nchains: seq<seq<Ptr>>, moved: set<Ptr>)
    requires Moving(hash, e, table, chains, i, he, cur, ntable, nchains, moved)
    ensures he == None <==> cur == []
  {
  }

  lemma {:induction false} Everything(a: set<Ptr>, b: set<Ptr>)
    requires a <= b && |a| == |b|
    ensures a == b
  {
    if a != b {
      var x :| x in b && x !in a;
      assert a <= b - {x};
      Fewer(a, b - {x});
    }
  }

  lemma {:induction false} Fewer(a: set<Ptr>, b: set<Ptr>)
    requires a <= b
    ensures |a| <= |b|
    decreases |a|
  {
    if a != {} {
      var x :| x in a;
      Fewer(a - {x}, b - {x});
    }
  }

  lemma {:induction false} MoreMoved(moved: set<Ptr>, p: Ptr, all: set<Ptr>)
    requires moved <= all && p in all && p !in moved
    ensures |moved + {p}| == |moved| + 1 <= |all|
  {
    Fewer(moved + {p}, all);
  }

  lemma {:induction false} NoEntries<V>(e: Entries<V>, loc: map<Key, Ptr>)
    requires Located(e, loc) && loc == map[]
    ensures e.Keys == {}
  {
    forall p ensures p !in e {
    }
  }

  // ---- Iterating ----

  /** The entries of the buckets from i on, in the order dictNext meets them. */
  function Flat(chains: seq<seq<Ptr>>, i: nat): seq<Ptr>
    decreases |chains| - i
  {
    if i < |chains| then chains[i] + Flat(chains, i + 1) else []
  }

  lemma {:induction false} FlatIs<V>(hash: Hash, e: Entries<V>, table: seq<Option<Ptr>>, chains: seq<seq<Ptr>>, i: nat)
    requires Buckets(hash, e, table, chains) && i <= |chains|
    ensures forall q :: q in Flat(chains, i) <==> q in e && Index(hash, e[q].key, |chains|) >= i
    ensures NoDup(Flat(chains, i))
    decreases |chains| - i
  {
    if i < |chains| {
      FlatIs(hash, e, table, chains, i + 1);
      assert Bucket(hash, e, table[i], chains[i], i, |chains|);
      ChainNoDup(e, table[i], chains[i]);
      NoDupConcat(chains[i], Flat(chains, i + 1));
      forall q | q in e && Index(hash, e[q].key, |chains|) >= i ensures q in Flat(chains, i) {
        assert IndexOk(hash, e, chains, q);
      }
    }
  }

  ghost predicate NoDup(ps: seq<Ptr>) {
    ps == [] || (ps[0] !in ps[1..] && NoDup(ps[1..]))
  }

  lemma {:induction false} ChainNoDup<V>(e: Entries<V>, p: Option<Ptr>, ps: seq<Ptr>)
    requires Chain(e, p, ps)
    ensures NoDup(ps)
    decreases |ps|
  {
    if ps != [] {
      ChainNoDup(e, e[ps[0]].next, ps[1..]);
    }
  }

  lemma {:induction false} NoDupConcat(ps: seq<Ptr>, qs: seq<Ptr>)
    requires NoDup(ps) && NoDup(qs) && forall q :: q in ps ==> q !in qs
    ensures NoDup(ps + qs)
    decreases |ps|
  {
    if ps == [] {
      assert ps + qs == qs;
    } else {
      NoDupConcat(ps[1..], qs);
      assert (ps + qs)[1..] == ps[1..] + qs;
    }
  }

  /** The last `left` entries of a chain. */
  function Last(ps: seq<Ptr>, left: nat): seq<Ptr>
    requires left <= |ps|
  {
    ps[|ps| - left..]
  }

  /** Where an iterator stands: `todo` is what it has still to return. */
  ghost predicate Standing(
    chains: seq<seq<Ptr>>, index: int, entry: Option<Ptr>, nextEntry: Option<Ptr>, left: nat, todo: seq<Ptr>)
  {
    if entry == None then index >= -1 && todo == Flat(chains, index + 1)
    else
      && 0 <= index < |chains| && left <= |chains[index]|
      && nextEntry == (if left == 0 then None else Some(Last(chains[index], left)[0]))
      && todo == Last(chains[index], left) + Flat(chains, index + 1)
  }

  /** Taking out an entry that was already returned leaves the iterator where it was. */
  lemma {:induction false} StandingKept(
    chains: seq<seq<Ptr>>, chains': seq<seq<Ptr>>, p: Ptr, index: int, entry: Option<Ptr>, nextEntry: Option<Ptr>,
    left: nat, todo: seq<Ptr>)
    requires Standing(chains, index, entry, nextEntry, left, todo) && Removed(chains, chains', p) && p !in todo
    ensures Standing(chains', index, entry, nextEntry, left, todo)
  {
    var h, j :| 0 <= h < |chains| && 0 <= j < |chains[h]| && chains[h][j] == p
                && chains' == chains[h := chains[h][..j] + chains[h][j + 1..]];
    if index < h {
      InFlat(chains, index + 1, h, j);
    } else {
      FlatSame(chains, chains', index + 1);
      if index == h && entry != None {
        var ps := chains[h];
        NotLast(ps, left, j);
        assert Last(chains'[h], left) == Last(ps, left);
      }
    }
  }

  lemma {:induction false} NotLast(ps: seq<Ptr>, left: nat, j: nat)
    requires j < |ps| && left <= |ps|
    ensures ps[j] in Last(ps, left) || j < |ps| - left
  {
    if j >= |ps| - left {
      assert Last(ps, left)[j - (|ps| - left)] == ps[j];
    }
  }

  lemma {:induction false} InFlat(chains: seq<seq<Ptr>>, i: nat, h: nat, j: nat)
    requires i <= h < |chains| && j < |chains[h]|
    ensures chains[h][j] in Flat(chains, i)
    decreases h - i
  {
    if i < h {
      InFlat(chains, i + 1, h, j);
    }
  }

  lemma {:induction false} FlatSame(chains: seq<seq<Ptr>>, chains': seq<seq<Ptr>>, i: nat)
    requires |chains'| == |chains| && forall k :: i <= k < |chains| ==> chains'[k] == chains[k]
    ensures Flat(chains', i) == Flat(chains, i)
    decreases |chains| - i
  {
    if i < |chains| {
      FlatSame(chains, chains', i + 1);
    }
  }

  lemma {:induction false} ChainLast<V>(e: Entries<V>, p: Option<Ptr>, ps: seq<Ptr>, left: nat)
    requires Chain(e, p, ps) && left <= |ps|
    ensures Chain(e, if left == 0 then None else Some(Last(ps, left)[0]), Last(ps, left))
    decreases |ps|
  {
    if left < |ps| {
      ChainLast(e, e[ps[0]].next, ps[1..], left);
      assert Last(ps[1..], left) == Last(ps, left);
    } else {
      assert Last(ps, left) == ps;
    }
  }

  /** dictNext arrives at the entry `left` places from the end of its bucket. */
  lemma {:induction false} Arrived<V>(
    hash: Hash, e: Entries<V>, table: seq<Option<Ptr>>, chains: seq<seq<Ptr>>, index: nat, left: nat, todo: seq<Ptr>)
    requires Buckets(hash, e, table, chains) && index < |chains| && 0 < left <= |chains[index]|
    requires todo == Last(chains[index], left) + Flat(chains, index + 1)
    ensures var p := Last(chains[index], left)[0];
            && p in e && todo == [p] + todo[1..]
            && Standing(chains, index, Some(p), e[p].next, left - 1, todo[1..])
  {
    var ps := chains[index];
    assert Bucket(hash, e, table[index], ps, index, |chains|);
    hide Buckets, Flat, Chain;
    ChainLast(e, table[index], ps, left);
    var last := Last(ps, left);
    assert last[1..] == Last(ps, left - 1) && |last| == left;
    hide Last;
    ChainHead(e, Some(last[0]), last);
    ChainHead(e, e[last[0]].next, last[1..]);
    FrontOf(last, Flat(chains, index + 1));
  }

  lemma {:induction false} FrontOf(last: seq<Ptr>, flat: seq<Ptr>)
    requires last != []
    ensures (last + flat)[1..] == last[1..] + flat && last + flat == [last[0]] + (last[1..] + flat)
  {
  }

  /** The front of the next bucket. */
  lemma {:induction false} Entering<V>(
    hash: Hash, e: Entries<V>, table: seq<Option<Ptr>>, chains: seq<seq<Ptr>>, index: nat)
    requires Buckets(hash, e, table, chains) && index < |chains|
    ensures Flat(chains, index) == Last(chains[index], |chains[index]|) + Flat(chains, index + 1)
    ensures table[index] == if chains[index] == [] then None else Some(Last(chains[index], |chains[index]|)[0])
  {
    assert Bucket(hash, e, table[index], chains[index], index, |chains|);
    ChainHead(e, table[index], chains[index]);
    assert Last(chains[index], |chains[index]|) == chains[index];
  }

  class Iterator<V> {
    const ht: Dict<V>
    var index: int
    var entry: Option<Ptr>
    var nextEntry: Option<Ptr>
    ghost var left: nat
    ghost var todo: seq<Ptr>

    ghost predicate Valid()
      reads this, ht, ht.table
    {
      && ht.Valid() && ht.Size() <= MAX_BUCKETS && index >= -1
      && if Works() then Standing(ht.chains, index, entry, nextEntry, left, todo) else entry == None
    }

    /** The size of the table survives its cast to int. */
    predicate Works()
      reads this, ht
    {
      ht.Size() < MAX_BUCKETS
    }

    /** dictGetIterator. */
    constructor (ht: Dict<V>)
      requires ht.Valid() && ht.Size() <= MAX_BUCKETS
      ensures Valid() && this.ht == ht && index == -1 && entry == None
      ensures NoDup(todo) && forall q :: q in todo <==> q in ht.entries
    {
      this.ht := ht;
      index, entry, nextEntry := -1, None, None;
      left, todo := 0, Flat(ht.chains, 0);
      FlatIs(ht.hash, ht.entries, ht.table[..], ht.chains, 0);
    }

    /**
     dictNext: every call takes one entry off `todo`, and NULL comes exactly at the end.  In a table of 2^31 buckets
     every call returns NULL, whatever the table holds.
     */
    method Next() returns (r: Option<Ptr>)
      requires Valid()
      modifies this
      ensures Valid()
      ensures r == None <==> old(todo) == [] || !Works()
      ensures if r == None then todo == old(todo) else r.value in ht.entries && old(todo) == [r.value] + todo
    {
      hide Buckets, Located, IsPow2, Index, BitAnd, Below, Model, Flat, Last;
      assert |ht.chains| == ht.table.Length && Buckets(ht.hash, ht.entries, ht.table[..], ht.chains);
      hide TableOk;
      while true
        invariant index >= -1 && todo == old(todo)
        invariant if Works() then Standing(ht.chains, index, entry, nextEntry, left, todo) else entry == None
        decreases ht.table.Length - index, entry != None
      {
        if entry == None {
          index := index + 1;
          SignedFits(ht.table.Length);
          if index >= Signed(ht.table.Length) { break; }
          Entering(ht.hash, ht.entries, ht.table[..], ht.chains, index);
          entry := ht.table[index];
          left := |ht.chains[index]|;
        } else {
          entry := nextEntry;
        }
        if entry != None {
          Take();
          return entry;
        }
        NothingLeft(ht.chains, index, left);
      }
      if Works() {
        PastTheEnd(ht.chains, index);
      }
      return None;
    }

    /** The successor is read before the caller may delete the entry. */
    method Take()
      requires ht.Valid() && Works() && entry != None
      requires 0 <= index < |ht.chains| && 0 < left <= |ht.chains[index]|
      requires entry.value == Last(ht.chains[index], left)[0]
      requires todo == Last(ht.chains[index], left) + Flat(ht.chains, index + 1)
      modifies this`nextEntry, this`left, this`todo
      ensures Valid() && entry.value in ht.entries && old(todo) == [entry.value] + todo
    {
      hide Buckets, Located, IsPow2, Index, BitAnd, Below, Model, Flat, Last;
      Arrived(ht.hash, ht.entries, ht.table[..], ht.chains, index, left, todo);
      hide Standing;
      nextEntry := ht.entries[entry.value].next;
      left := left - 1;
      todo := todo[1..];
    }
  }

  /** The keys still to be met are those of todo. */
  ghost predicate Met(loc0: map<Key, Ptr>, todo: seq<Ptr>, visited: seq<Key>) {
    && NoDup(todo) && NoDupKeys(visited)
    && (forall k :: k in loc0 ==> (loc0[k] in todo <==> k !in visited))
    && (forall k :: k in visited ==> k in loc0)
  }

  /** The doomed keys that were met are gone, the others have their entries. */
  ghost predicate Survivors(loc0: map<Key, Ptr>, loc: map<Key, Ptr>, visited: seq<Key>, doomed: Key -> bool) {
    && (forall k :: k in loc <==> k in loc0 && !(k in visited && doomed(k)))
    && (forall k :: k in loc ==> loc[k] == loc0[k])
  }

  ghost predicate Sweeping(
    live: set<Ptr>, loc0: map<Key, Ptr>, loc: map<Key, Ptr>, todo: seq<Ptr>, visited: seq<Key>, doomed: Key -> bool)
  {
    Met(loc0, todo, visited) && Survivors(loc0, loc, visited, doomed) && forall q :: q in todo ==> q in live
  }

  ghost predicate NoDupKeys(ks: seq<Key>) {
    ks == [] || (ks[|ks| - 1] !in ks[..|ks| - 1] && NoDupKeys(ks[..|ks| - 1]))
  }

  lemma {:induction false} SweepOne<V>(
    e: Entries<V>, loc0: map<Key, Ptr>, loc: map<Key, Ptr>, p: Ptr, todo: seq<Ptr>, visited: seq<Key>,
    doomed: Key -> bool)
    requires Sweeping(e.Keys, loc0, loc, [p] + todo, visited, doomed) && Located(e, loc)
    ensures p in e && p !in todo && e[p].key in loc && loc[e[p].key] == p && e[p].key in loc0
    ensures var key := e[p].key;
            Sweeping(if doomed(key) then e.Keys - {p} else e.Keys, loc0, if doomed(key) then loc - {key} else loc,
                     todo, visited + [key], doomed)
  {
    assert ([p] + todo)[0] == p && ([p] + todo)[1..] == todo;
    assert p in [p] + todo && p !in todo;
    var key := e[p].key;
    assert key in loc && loc[key] == p && loc0[key] == p;
    assert forall q :: q in todo ==> q in [p] + todo;
    hide NoDup, NoDupKeys, Met, Survivors;
    OnlyKey(loc0, loc, key, todo, visited, doomed);
    MetOne(loc0, key, todo, visited);
    SurvivorsOne(loc0, loc, key, visited, doomed);
  }

  lemma {:induction false} OnlyKey(
    loc0: map<Key, Ptr>, loc: map<Key, Ptr>, key: Key, todo: seq<Ptr>, visited: seq<Key>, doomed: Key -> bool)
    requires key in loc0 && Met(loc0, [loc0[key]] + todo, visited) && Survivors(loc0, loc, visited, doomed)
    requires forall k :: k in loc && loc[k] == loc0[key] ==> k == key
    ensures forall k :: k in loc0 && k !in visited && loc0[k] == loc0[key] ==> k == key
  {
    hide Met;
  }

  lemma {:induction false} MetOne(loc0: map<Key, Ptr>, key: Key, todo: seq<Ptr>, visited: seq<Key>)
    requires key in loc0 && Met(loc0, [loc0[key]] + todo, visited)
    requires forall k :: k in loc0 && k !in visited && loc0[k] == loc0[key] ==> k == key
    ensures Met(loc0, todo, visited + [key])
  {
    var p := loc0[key];
    assert ([p] + todo)[0] == p && ([p] + todo)[1..] == todo;
    assert p in [p] + todo;
    var visited' := visited + [key];
    assert visited'[|visited|] == key && visited'[..|visited|] == visited;
    assert NoDup(todo) && NoDupKeys(visited') && p !in todo;
    hide NoDup, NoDupKeys;
  }

  lemma {:induction false} SurvivorsOne(
    loc0: map<Key, Ptr>, loc: map<Key, Ptr>, key: Key, visited: seq<Key>, doomed: Key -> bool)
    requires key in loc && Survivors(loc0, loc, visited, doomed)
    ensures Survivors(loc0, if doomed(key) then loc - {key} else loc, visited + [key], doomed)
  {
    assert forall k :: k in visited + [key] <==> k in visited || k == key;
  }

  /** In the middle of a walk: what is left of the table, and the keys met so far. */
  ghost predicate Walking<V>(
    iter: Iterator<V>, loc0: map<Key, Ptr>, m0: map<Key, V>, visited: seq<Key>, doomed: Key -> bool)
    reads iter, iter.ht, iter.ht.table
  {
    && iter.Valid() && iter.Works()
    && Sweeping(iter.ht.entries.Keys, loc0, iter.ht.loc, iter.todo, visited, doomed)
    && m0.Keys == loc0.Keys && Within(iter.ht.M(), m0)
  }

  /**
   Walks the table, deleting entries just returned: each key is met exactly once.  In a table of 2^31 buckets none is
   met at all.
   */
  method Sweep<V>(ht: Dict<V>, doomed: Key -> bool) returns (visited: seq<Key>)
    requires ht.Valid() && ht.Size() <= MAX_BUCKETS
    modifies ht, ht.table
    ensures ht.Valid() && ht.table == old(ht.table)
    ensures ht.Size() == MAX_BUCKETS ==> visited == [] && ht.M() == old(ht.M())
    ensures ht.Size() < MAX_BUCKETS ==> NoDupKeys(visited) && forall k :: k in visited <==> k in old(ht.M())
    ensures ht.Size() < MAX_BUCKETS ==> ht.M() == map k | k in old(ht.M()) && !doomed(k) :: old(ht.M())[k]
  {
    hide TableOk, Standing, Model;
    var iter: Iterator<V> := new Iterator<V>(ht);
    ghost var loc0, m0 := ht.loc, ht.M();
    visited := [];
    if iter.Works() {
      StartWalking(iter, doomed);
    }
    hide Walking;
    var more := true;
    while more
      invariant iter.Valid() && iter.ht == ht && ht.table == old(ht.table)
      invariant iter.Works() ==> Walking(iter, loc0, m0, visited, doomed) && (!more ==> iter.todo == [])
      invariant !iter.Works() ==> visited == [] && ht.M() == m0
      decreases |iter.todo|, more
    {
      more, visited := Round(iter, loc0, m0, visited, doomed);
    }
    if iter.Works() {
      WalkDone(iter, loc0, m0, visited, doomed);
    }
  }

  lemma {:induction false} StartWalking<V>(iter: Iterator<V>, doomed: Key -> bool)
    requires iter.Valid() && iter.Works() && NoDup(iter.todo) && forall q :: q in iter.todo <==> q in iter.ht.entries
    ensures Walking(iter, iter.ht.loc, iter.ht.M(), [], doomed)
  {
    var ht := iter.ht;
    LocKeys(ht.hash, ht.entries, ht.table[..], ht.chains, ht.loc, ht.used, ht.next);
    hide TableOk, Standing, Model;
    StartSweeping(ht.entries, ht.loc, iter.todo, doomed);
  }

  lemma {:induction false} WalkDone<V>(
    iter: Iterator<V>, loc0: map<Key, Ptr>, m0: map<Key, V>, visited: seq<Key>, doomed: Key -> bool)
    requires Walking(iter, loc0, m0, visited, doomed) && iter.todo == []
    ensures iter.Valid() && NoDupKeys(visited) && forall k :: k in visited <==> k in m0
    ensures iter.ht.M() == map k | k in m0 && !doomed(k) :: m0[k]
  {
    var ht := iter.ht;
    LocKeys(ht.hash, ht.entries, ht.table[..], ht.chains, ht.loc, ht.used, ht.next);
    hide TableOk, Standing, Model;
    SweepDone(ht.entries.Keys, loc0, ht.loc, visited, ht.M(), m0, doomed);
  }

  /** The next entry is recorded and, if doomed, deleted. */
  method Round<V>(
    iter: Iterator<V>, ghost loc0: map<Key, Ptr>, ghost m0: map<Key, V>, visited: seq<Key>, doomed: Key -> bool)
    returns (more: bool, visited': seq<Key>)
    requires iter.Valid() && (iter.Works() ==> Walking(iter, loc0, m0, visited, doomed))
    modifies iter, iter.ht, iter.ht.table
    ensures iter.Valid() && iter.ht.table == old(iter.ht.table)
    ensures iter.Works() ==> Walking(iter, loc0, m0, visited', doomed)
    ensures more ==> iter.Works() && |iter.todo| < old(|iter.todo|)
    ensures !more ==> iter.todo == old(iter.todo) && visited' == visited && iter.ht.M() == old(iter.ht.M())
    ensures !more && iter.Works() ==> iter.todo == []
  {
    hide TableOk, Sweeping, Standing, Model, Within, NoDup, NoDupKeys;
    var r := iter.Next();
    if r == None { return false, visited; }
    visited' := SweepAt(iter, r.value, loc0, m0, visited, doomed);
    return true, visited';
  }

  method SweepAt<V>(
    iter: Iterator<V>, p: Ptr, ghost loc0: map<Key, Ptr>, ghost m0: map<Key, V>, visited: seq<Key>,
    doomed: Key -> bool)
    returns (visited': seq<Key>)
    requires iter.Valid() && iter.Works()
    requires Sweeping(iter.ht.entries.Keys, loc0, iter.ht.loc, [p] + iter.todo, visited, doomed)
    requires p in iter.ht.entries && m0.Keys == loc0.Keys && Within(iter.ht.M(), m0)
    modifies iter.ht, iter.ht.table
    ensures Walking(iter, loc0, m0, visited', doomed) && iter.ht.table == old(iter.ht.table)
  {
    var ht := iter.ht;
    LocKeys(ht.hash, ht.entries, ht.table[..], ht.chains, ht.loc, ht.used, ht.next);
    SweepOne(ht.entries, loc0, ht.loc, p, iter.todo, visited, doomed);
    hide TableOk, Sweeping, Standing, Model, Located, Removed, NoDup, NoDupKeys, Within, Flat, Buckets, Below;
    var key := ht.entries[p].key;
    visited' := visited + [key];
    if doomed(key) {
      WithinLess(ht.M(), m0, key);
      DeleteReturned(iter, p, key);
    }
  }

  /** Deletes an entry that the iterator has returned. */
  method DeleteReturned<V>(iter: Iterator<V>, ghost p: Ptr, key: Key)
    requires iter.Valid() && iter.Works() && p !in iter.todo && key in iter.ht.loc && iter.ht.loc[key] == p
    modifies iter.ht, iter.ht.table
    ensures iter.Valid() && iter.ht.table == old(iter.ht.table) && iter.ht.M() == old(iter.ht.M()) - {key}
    ensures iter.ht.entries.Keys == old(iter.ht.entries.Keys) - {p} && iter.ht.loc == old(iter.ht.loc) - {key}
  {
    hide TableOk, Standing, Model, Located, Removed, Flat, Buckets, Below, Last, IsPow2, NoDup, Index, BitAnd, Chain;
    var ht := iter.ht;
    LocKeys(ht.hash, ht.entries, ht.table[..], ht.chains, ht.loc, ht.used, ht.next);
    ghost var cs, index, entry := ht.chains, iter.index, iter.entry;
    ghost var nextEntry, left, todo := iter.nextEntry, iter.left, iter.todo;
    var _ := ht.Delete(key);
    StandingKept(cs, ht.chains, p, index, entry, nextEntry, left, todo);
  }

  lemma {:induction false} WithinLess<V>(m: map<Key, V>, m0: map<Key, V>, key: Key)
    requires Within(m, m0)
    ensures Within(m - {key}, m0)
  {
  }

  /** m is part of m0. */
  ghost predicate Within<V>(m: map<Key, V>, m0: map<Key, V>) {
    forall k :: k in m ==> k in m0 && m[k] == m0[k]
  }

  lemma {:induction false} LocKeys<V>(
    hash: Hash, e: Entries<V>, table: seq<Option<Ptr>>, chains: seq<seq<Ptr>>, loc: map<Key, Ptr>, used: nat,
    next: Ptr)
    requires TableOk(hash, e, table, chains, loc, used, next)
    ensures Located(e, loc) && Model(e, loc).Keys == loc.Keys
  {
  }

  lemma {:induction false} StartSweeping<V>(e: Entries<V>, loc: map<Key, Ptr>, todo: seq<Ptr>, doomed: Key -> bool)
    requires Located(e, loc) && NoDup(todo) && forall q :: q in todo <==> q in e
    ensures Sweeping(e.Keys, loc, loc, todo, [], doomed)
  {
  }

  lemma {:induction false} SweepDone<V>(
    live: set<Ptr>, loc0: map<Key, Ptr>, loc: map<Key, Ptr>, visited: seq<Key>, m: map<Key, V>, m0: map<Key, V>,
    doomed: Key -> bool)
    requires Sweeping(live, loc0, loc, [], visited, doomed)
    requires Within(m, m0) && m0.Keys == loc0.Keys && m.Keys == loc.Keys
    ensures NoDupKeys(visited) && forall k :: k in visited <==> k in m0
    ensures m == map k | k in m0 && !doomed(k) :: m0[k]
  {
    forall k ensures k in m <==> k in m0 && !doomed(k) {
    }
  }

  lemma {:induction false} NothingLeft(chains: seq<seq<Ptr>>, index: nat, left: nat)
    requires index < |chains| && left <= |chains[index]|
    ensures left == 0 ==> Last(chains[index], left) == []
  {
  }

  lemma {:induction false} PastTheEnd(chains: seq<seq<Ptr>>, index: nat)
    requires index >= |chains|
    ensures Flat(chains, index) == [] && Flat(chains, index + 1) == []
  {
  }

  /** used counts the keys of the represented map. */
  lemma {:induction false} UsedIsSize<V>(e: Entries<V>, loc: map<Key, Ptr>)
    requires Located(e, loc)
    ensures |Model(e, loc)| == |e|
    decreases |loc|
  {
    assert Model(e, loc).Keys == loc.Keys;
    if loc == map[] {
      NoEntries(e, loc);
    } else {
      var k :| k in loc;
      UsedIsSize(e - {loc[k]}, loc - {k});
      assert Model(e - {loc[k]}, loc - {k}).Keys == loc.Keys - {k};
    }
  }

  // ---- Whole runs ----

  datatype Op<V> = OpAdd(key: Key, val: V) | OpReplace(key: Key, val: V) | OpDelete(key: Key) | OpFind(key: Key)

  datatype Answer<V> = Did(ok: bool) | Found(val: Option<V>)

  /** A plain map under one operation. */
  function After<V>(m: map<Key, V>, op: Op<V>): map<Key, V> {
    match op
    case OpAdd(k, v) => if k in m then m else m[k := v]
    case OpReplace(k, v) => m[k := v]
    case OpDelete(k) => m - {k}
    case OpFind(_) => m
  }

  function AnswerOf<V>(m: map<Key, V>, op: Op<V>): Answer<V> {
    match op
    case OpAdd(k, _) => Did(k !in m)
    case OpReplace(k, _) => Did(k !in m)
    case OpDelete(k) => Did(k in m)
    case OpFind(k) => Found(if k in m then Some(m[k]) else None)
  }

  function AfterAll<V>(m: map<Key, V>, ops: seq<Op<V>>): map<Key, V> {
    if ops == [] then m else After(AfterAll(m, ops[..|ops| - 1]), ops[|ops| - 1])
  }

  function Answers<V>(m: map<Key, V>, ops: seq<Op<V>>): seq<Answer<V>> {
    if ops == [] then []
    else Answers(m, ops[..|ops| - 1]) + [AnswerOf(AfterAll(m, ops[..|ops| - 1]), ops[|ops| - 1])]
  }

  method Perform<V>(d: Dict<V>, op: Op<V>) returns (a: Answer<V>)
    requires d.Valid() && d.used < MAX_BUCKETS && d.Size() <= MAX_BUCKETS
    modifies d, d.table
    ensures d.Valid() && (fresh(d.table) || d.table == old(d.table)) && d.Size() <= MAX_BUCKETS
    ensures d.M() == After(old(d.M()), op) && a == AnswerOf(old(d.M()), op)
  {
    hide TableOk, Model;
    match op
    case OpAdd(k, v) =>
      var ok := d.Add(k, v);
      a := Did(ok);
    case OpReplace(k, v) =>
      var ok := d.Replace(k, v);
      a := Did(ok);
    case OpDelete(k) =>
      var ok := d.Delete(k);
      a := Did(ok);
    case OpFind(k) =>
      var p := d.Find(k);
      a := Found(if p == None then None else Some(d.entries[p.value].val));
  }

  /** dictSize counts the keys of the represented map. */
  lemma {:induction false} UsedOf<V>(d: Dict<V>)
    requires d.Valid()
    ensures d.used == |d.M()| <= d.Size()
  {
    UsedIsSize(d.entries, d.loc);
  }

  /** A new table answers every run of operations as a plain map does. */
  method PerformAll<V>(hash: Hash, ops: seq<Op<V>>) returns (d: Dict<V>, answers: seq<Answer<V>>)
    requires forall k :: 0 <= k < |ops| ==> |AfterAll<V>(map[], ops[..k])| < MAX_BUCKETS
    ensures d.Valid() && d.M() == AfterAll<V>(map[], ops) && answers == Answers<V>(map[], ops)
  {
    hide TableOk, Model;
    d := new Dict(hash);
    answers := [];
    var i := 0;
    assert ops[..0] == [];
    while i < |ops|
      invariant 0 <= i <= |ops| && d.Valid() && fresh(d) && fresh(d.table) && d.Size() <= MAX_BUCKETS
      invariant d.M() == AfterAll<V>(map[], ops[..i]) && answers == Answers<V>(map[], ops[..i])
    {
      UsedOf(d);
      var a := Perform(d, ops[i]);
      answers := answers + [a];
      assert ops[..i + 1][..i] == ops[..i];
      i := i + 1;
    }
    assert ops[..i] == ops;
  }
}
