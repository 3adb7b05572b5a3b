/** What a database holds: a memtable, an immutable memtable and seven levels of table
    files; and what a reader sees of it at a sequence number. */
module Store {
  import opened Keys

  const NUM_LEVELS: nat := 7
  const MAX_MEM_COMPACT_LEVEL: nat := 2

  /** One update of a write batch. */
  datatype Op = Put(user: UserKey, value: Bytes) | Delete(user: UserKey)

  datatype FileMeta = FileMeta(number: nat, size: nat, smallest: InternalKey, largest: InternalKey)

  /** The files of each level.  Each level is listed in one fixed order, so a set determines it. */
  type Version = v: seq<set<FileMeta>> | |v| == NUM_LEVELS witness [{}, {}, {}, {}, {}, {}, {}]

  datatype Data = Data(mem: seq<Entry>, imm: seq<Entry>, version: Version, tables: map<nat, seq<Entry>>)

  /** A place in which an entry can be found. */
  datatype Loc = InMem | InImm | InFile(level: nat, file: FileMeta)

  ghost predicate Holds(d: Data, loc: Loc, e: Entry) {
    match loc
    case InMem => e in d.mem
    case InImm => e in d.imm
    case InFile(l, f) => l < NUM_LEVELS && f in d.version[l] && f.number in d.tables && e in d.tables[f.number]
  }

  /** The order in which a point lookup visits the places. */
  ghost predicate Above(a: Loc, b: Loc) {
    match (a, b)
    case (_, InMem) => false
    case (InMem, _) => true
    case (_, InImm) => false
    case (InImm, _) => true
    case (InFile(l, f), InFile(m, g)) => l < m || (l == 0 && m == 0 && f.number > g.number)
  }

  // ----- The history of updates, and the view it defines -----

  /** The entry that an update puts into the memtable under sequence number `n`. */
  function OpEntry(op: Op, n: nat): Entry {
    match op
    case Put(u, v) => Entry(InternalKey(u, n, Value), v)
    case Delete(u) => Entry(InternalKey(u, n, Deletion), [])
  }

  function EntryOf(hist: seq<Op>, n: nat): Entry
    requires 1 <= n <= |hist|
  {
    OpEntry(hist[n - 1], n)
  }

  ghost predicate IsUpdate(hist: seq<Op>, e: Entry) {
    1 <= e.key.sequence <= |hist| && e == EntryOf(hist, e.key.sequence)
  }

  /** The newest update of `k` at or below `s` whose sequence number is in `held`; 0 if none. */
  ghost function Newest(hist: seq<Op>, held: iset<nat>, k: UserKey, s: nat): nat {
    if s == 0 then 0
    else if s <= |hist| && s in held && hist[s - 1].user == k then s
    else Newest(hist, held, k, s - 1)
  }

  ghost function Resolve(hist: seq<Op>, n: nat): Option<Bytes> {
    if 1 <= n <= |hist| && hist[n - 1].Put? then Some(hist[n - 1].value) else None
  }

  /** What a reader at `s` finds for `k` when exactly the updates in `held` are stored. */
  ghost function View(hist: seq<Op>, held: iset<nat>, k: UserKey, s: nat): Option<Bytes> {
    Resolve(hist, Newest(hist, held, k, s))
  }

  /** The reference: the map after the first `s` updates of the history. */
  function MapAfter(hist: seq<Op>, s: nat): map<UserKey, Bytes>
    requires s <= |hist|
  {
    if s == 0 then map[]
    else
      match hist[s - 1]
      case Put(u, v) => MapAfter(hist, s - 1)[u := v]
      case Delete(u) => MapAfter(hist, s - 1) - {u}
  }

  ghost predicate IsHeld(d: Data, hist: seq<Op>, n: nat) {
    1 <= n <= |hist| && exists loc :: Holds(d, loc, EntryOf(hist, n))
  }

  ghost function Held(d: Data, hist: seq<Op>): iset<nat> {
    iset n: nat | IsHeld(d, hist, n)
  }

  ghost const ALL: iset<nat> := iset n: nat | true

  lemma {:induction false} NewestIsNewest(hist: seq<Op>, held: iset<nat>, k: UserKey, s: nat)
    ensures var n := Newest(hist, held, k, s);
      && n <= s
      && (n != 0 ==> n <= |hist| && n in held && hist[n - 1].user == k)
      && forall i :: n < i <= s && i <= |hist| && i in held ==> hist[i - 1].user != k
  {
    if s != 0 && !(s <= |hist| && s in held && hist[s - 1].user == k) {
      NewestIsNewest(hist, held, k, s - 1);
    }
  }

  /** NewestIsNewest determines the newest update. */
  lemma NewestIsUnique(hist: seq<Op>, held: iset<nat>, k: UserKey, s: nat, n: nat)
    requires n <= s
    requires n != 0 ==> n <= |hist| && n in held && hist[n - 1].user == k
    requires forall i :: n < i <= s && i <= |hist| && i in held ==> hist[i - 1].user != k
    ensures Newest(hist, held, k, s) == n
  {
    NewestIsNewest(hist, held, k, s);
  }

  /** With every update stored, a reader sees the map that the updates build. */
  lemma {:induction false} ViewOfAllIsMap(hist: seq<Op>, k: UserKey, s: nat)
    requires s <= |hist|
    ensures var m := MapAfter(hist, s);
      View(hist, ALL, k, s) == if k in m then Some(m[k]) else None
  {
    if s != 0 {
      ViewOfAllIsMap(hist, k, s - 1);
    }
  }

  // ----- The invariant of stored data -----

  ghost predicate FileMatches(f: FileMeta, t: seq<Entry>) {
    && t != []
    && Sorted(t)
    && f.smallest == t[0].key
    && f.largest == t[|t| - 1].key
  }

  ghost predicate TablesOk(v: Version, tables: map<nat, seq<Entry>>) {
    forall l, f :: 0 <= l < NUM_LEVELS && f in v[l] ==>
      f.number in tables && FileMatches(f, tables[f.number])
  }

  ghost predicate NumbersUnique(v: Version) {
    forall l, m, f, g {:trigger f in v[l], g in v[m]} ::
      0 <= l < NUM_LEVELS && 0 <= m < NUM_LEVELS && f in v[l] && g in v[m] && f.number == g.number ==>
      l == m && f == g
  }

  ghost predicate Apart(f: FileMeta, g: FileMeta) {
    Less(f.largest, g.smallest) || Less(g.largest, f.smallest)
  }

  ghost predicate LevelsDisjoint(v: Version) {
    forall l, f, g :: 1 <= l < NUM_LEVELS && f in v[l] && g in v[l] && f != g ==> Apart(f, g)
  }

  /** Entries in a higher place are newer, key by key. */
  ghost predicate AgeOrdered(d: Data) {
    forall a, b, x, y {:trigger Above(a, b), Holds(d, a, x), Holds(d, b, y)} ::
      Holds(d, a, x) && Holds(d, b, y) && Above(a, b) && x.key.user == y.key.user ==>
      x.key.sequence > y.key.sequence
  }

  ghost predicate FromHistory(d: Data, hist: seq<Op>) {
    forall a, x :: Holds(d, a, x) ==> IsUpdate(hist, x)
  }

  ghost predicate DataInv(d: Data, hist: seq<Op>) {
    && Sorted(d.mem)
    && Sorted(d.imm)
    && TablesOk(d.version, d.tables)
    && NumbersUnique(d.version)
    && LevelsDisjoint(d.version)
    && AgeOrdered(d)
    && FromHistory(d, hist)
  }

  /** Every reader at or above `floor` sees what the history says. */
  ghost predicate ViewsRight(d: Data, hist: seq<Op>, floor: nat) {
    forall k, s :: floor <= s ==> View(hist, Held(d, hist), k, s) == View(hist, ALL, k, s)
  }

  // ----- Consequences used everywhere -----

  lemma InFileRange(f: FileMeta, t: seq<Entry>, e: Entry)
    requires FileMatches(f, t) && e in t
    ensures AtMost(f.smallest, e.key) && AtMost(e.key, f.largest)
    ensures f.smallest.user <= e.key.user <= f.largest.user
  {
    var i :| 0 <= i < |t| && t[i] == e;
  }

  lemma FileEndsHeld(f: FileMeta, t: seq<Entry>)
    requires FileMatches(f, t)
    ensures exists e :: e in t && e.key == f.smallest
    ensures exists e :: e in t && e.key == f.largest
    ensures f.smallest.user <= f.largest.user && AtMost(f.smallest, f.largest)
  {
    assert t[0] in t && t[|t| - 1] in t;
    InFileRange(f, t, t[0]);
  }

  /** Of two updates of one key, the one that sorts first is the newer one. */
  lemma FirstIsNewer(hist: seq<Op>, x: Entry, y: Entry)
    requires IsUpdate(hist, x) && IsUpdate(hist, y) && x.key.user == y.key.user
    ensures Less(x.key, y.key) <==> x.key.sequence > y.key.sequence
  {
  }

  /** Holding the same updates gives the same views. */
  lemma SameHeldSameView(d: Data, d': Data, hist: seq<Op>)
    requires forall n :: IsHeld(d, hist, n) <==> IsHeld(d', hist, n)
    ensures Held(d, hist) == Held(d', hist)
  {
  }
}
