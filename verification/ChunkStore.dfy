/** The versioned byte store of a storage node, kept in an ordered key-value database
    (src/storage/chunk_store.cpp). */
module ChunkStore {
  import opened Text

  // ---------------------------------------------------------------- byte-string order

  predicate Less(a: string, b: string) {
    b != "" && (a == "" || a[0] < b[0] || (a[0] == b[0] && Less(a[1..], b[1..])))
  }

  lemma {:induction false} LessTotal(a: string, b: string)
    ensures a == b || Less(a, b) || Less(b, a)
    ensures !(Less(a, b) && Less(b, a))
    decreases |a| + |b|
  {
    if a != "" && b != "" {
      LessTotal(a[1..], b[1..]);
      assert a[0] == b[0] && a[1..] == b[1..] ==> a == [a[0]] + a[1..] == b;
    }
  }

  lemma {:induction false} NotLessSelf(a: string)
    ensures !Less(a, a)
  {
    if a != "" {
      NotLessSelf(a[1..]);
    }
  }

  lemma {:induction false} LessTransitive(a: string, b: string, c: string)
    requires Less(a, b) && Less(b, c)
    ensures Less(a, c)
  {
    if a != "" && a[0] == b[0] == c[0] {
      LessTransitive(a[1..], b[1..], c[1..]);
    }
  }

  lemma {:induction false} LessCommonPrefix(p: string, a: string, b: string)
    ensures Less(p + a, p + b) <==> Less(a, b)
  {
    if p == "" {
      assert p + a == a && p + b == b;
    } else {
      LessCommonPrefix(p[1..], a, b);
      assert (p + a)[1..] == p[1..] + a && (p + b)[1..] == p[1..] + b;
    }
  }

  predicate HasPrefix(s: string, p: string) {
    |p| <= |s| && s[..|p|] == p
  }

  /** Everything between two strings with a common prefix has that prefix too. */
  lemma {:induction false} PrefixConvex(p: string, lo: string, s: string, hi: string)
    requires HasPrefix(lo, p) && HasPrefix(hi, p) && !Less(s, lo) && !Less(hi, s)
    ensures HasPrefix(s, p)
  {
    if p != "" {
      assert s != "" && s[0] == p[0];
      PrefixConvex(p[1..], lo[1..], s[1..], hi[1..]);
      assert s == [s[0]] + s[1..] && p == [p[0]] + p[1..];
    }
  }

  // ---------------------------------------------------------------- keys

  const MAX_VERSION: nat := 9_999_999_999

  function Zeros(n: nat): string {
    if n == 0 then "" else Zeros(n - 1) + "0"
  }

  /** printf("%010llu"). */
  function Pad10(n: nat): string {
    var d := ToDecimal(n);
    if |d| >= 10 then d else Zeros(10 - |d|) + d
  }

  function ChunkPrefix(id: string): string {
    "chunk/" + id + "/"
  }

  function MakeKey(id: string, version: nat): string {
    ChunkPrefix(id) + Pad10(version)
  }

  function Pow10(w: nat): nat {
    if w == 0 then 1 else 10 * Pow10(w - 1)
  }

  lemma {:induction false} DecimalWidth(n: nat, w: nat)
    requires n < Pow10(w) && w > 0
    ensures |ToDecimal(n)| <= w
    decreases w
  {
    if n >= 10 {
      DecimalWidth(n / 10, w - 1);
    }
  }

  lemma {:induction false} ZerosValue(n: nat, d: string)
    requires AllDigits(d)
    ensures |Zeros(n)| == n && AllDigits(Zeros(n) + d) && DecimalValue(Zeros(n) + d) == DecimalValue(d)
    decreases n, |d|
  {
    if d != "" {
      ZerosValue(n, d[..|d| - 1]);
      assert (Zeros(n) + d)[..n + |d| - 1] == Zeros(n) + d[..|d| - 1];
    } else if n > 0 {
      ZerosValue(n - 1, "");
      assert Zeros(n - 1) + "" == Zeros(n - 1) && Zeros(n) + "" == Zeros(n);
      assert Zeros(n)[..n - 1] == Zeros(n - 1);
    } else {
      assert Zeros(n) + d == "";
    }
  }

  lemma PadValue(n: nat)
    ensures Pad10(n) != "" && AllDigits(Pad10(n)) && DecimalValue(Pad10(n)) == n
    ensures n <= MAX_VERSION ==> |Pad10(n)| == 10
  {
    DecimalRoundTrip(n);
    var d := ToDecimal(n);
    if |d| < 10 {
      ZerosValue(10 - |d|, d);
    }
    if n <= MAX_VERSION {
      assert Pow10(10) == 10 * Pow10(9) == 100 * Pow10(8);
      assert Pow10(8) == 10000 * Pow10(4) by { assert Pow10(8) == 100 * Pow10(6); assert Pow10(6) == 100 * Pow10(4); }
      assert Pow10(4) == 10000 by { assert Pow10(4) == 100 * Pow10(2); }
      DecimalWidth(n, 10);
    }
  }

  lemma {:induction false} LessSnoc(s: string, a: char, t: string, b: char)
    requires |s| == |t|
    ensures Less(s + [a], t + [b]) <==> Less(s, t) || (s == t && a < b)
  {
    if s == "" {
      assert s + [a] == [a] && t + [b] == [b];
      assert [a][1..] == "" && [b][1..] == "";
    } else {
      LessSnoc(s[1..], a, t[1..], b);
      assert (s + [a])[1..] == s[1..] + [a] && (t + [b])[1..] == t[1..] + [b];
      assert s == [s[0]] + s[1..] && t == [t[0]] + t[1..];
    }
  }

  /** On digit strings of one width the byte order is the numeric order. */
  lemma {:induction false} DigitOrder(s: string, t: string)
    requires |s| == |t| && AllDigits(s) && AllDigits(t)
    ensures Less(s, t) <==> DecimalValue(s) < DecimalValue(t)
    ensures s == t <==> DecimalValue(s) == DecimalValue(t)
  {
    if s != "" {
      var n := |s| - 1;
      DigitOrder(s[..n], t[..n]);
      LessSnoc(s[..n], s[n], t[..n], t[n]);
      assert s == s[..n] + [s[n]] && t == t[..n] + [t[n]];
    }
  }

  /** An id nested in another: the other one, a slash, and more. */
  predicate Nested(inner: string, outer: string) {
    HasPrefix(inner, outer + "/")
  }

  /** A key starts with an id's prefix exactly when it belongs to that id or to one nested in it. */
  lemma PrefixOwner(id: string, id2: string, version: nat)
    ensures HasPrefix(MakeKey(id2, version), ChunkPrefix(id)) <==> id2 == id || Nested(id2, id)
  {
    var k, p, q := MakeKey(id2, version), ChunkPrefix(id), id2 + "/" + Pad10(version);
    assert k == "chunk/" + q && p == "chunk/" + (id + "/");
    PrefixBehind("chunk/", q, id + "/");
    PadValue(version);
    if HasPrefix(q, id + "/") {
      OwnerOrNested(id, id2, Pad10(version));
    }
    if Nested(id2, id) {
      assert q[..|id| + 1] == id2[..|id| + 1];
    }
    if id2 == id {
      assert q[..|id| + 1] == id + "/";
    }
  }

  lemma OwnerOrNested(id: string, id2: string, pad: string)
    requires HasPrefix(id2 + "/" + pad, id + "/") && AllDigits(pad)
    ensures id2 == id || Nested(id2, id)
  {
    var q := id2 + "/" + pad;
    assert q[..|id| + 1] == id + "/";
    assert q[|id|] == '/' by { assert q[..|id| + 1][|id|] == '/'; }
    if |id| == |id2| {
      assert q[..|id|] == id2;
    } else if |id| < |id2| {
      assert id2[..|id| + 1] == q[..|id| + 1];
    }
  }

  lemma PrefixBehind(common: string, s: string, p: string)
    ensures HasPrefix(common + s, common + p) <==> HasPrefix(s, p)
  {
    if |p| <= |s| {
      assert (common + s)[..|common + p|] == common + s[..|p|];
      assert (common + s[..|p|])[|common|..] == s[..|p|] && (common + p)[|common|..] == p;
    }
  }

  lemma KeyHasPrefix(id: string, version: nat)
    ensures HasPrefix(MakeKey(id, version), ChunkPrefix(id))
    ensures MakeKey(id, version)[|ChunkPrefix(id)|..] == Pad10(version)
    ensures HasPrefix(MakeKey(id, version), "chunk/")
  {}

  lemma KeyInjective(id: string, v: nat, id2: string, v2: nat)
    requires MakeKey(id, v) == MakeKey(id2, v2)
    ensures id == id2 && v == v2
  {
    KeyIdIsCut(id, v);
    KeyIdIsCut(id2, v2);
    KeyHasPrefix(id, v);
    KeyHasPrefix(id2, v2);
    PadValue(v);
    PadValue(v2);
  }

  lemma KeyOrder(id: string, v: nat, v2: nat)
    requires v <= MAX_VERSION && v2 <= MAX_VERSION
    ensures Less(MakeKey(id, v), MakeKey(id, v2)) <==> v < v2
  {
    PadValue(v);
    PadValue(v2);
    DigitOrder(Pad10(v), Pad10(v2));
    LessCommonPrefix(ChunkPrefix(id), Pad10(v), Pad10(v2));
  }

  // ---------------------------------------------------------------- abstraction

  /** The simple store: chunk id and version to data. */
  type Model = map<(string, nat), string>

  /** A version that fits the ten digits of a key. */
  predicate Representable(p: (string, nat)) {
    p.1 <= MAX_VERSION
  }

  /** No stored chunk is nested in this id. */
  ghost predicate Clear(m: Model, id: string) {
    forall p <- m :: !Nested(p.0, id)
  }

  /** The database holds exactly the model's pairs, under their keys. */
  ghost predicate Refines(db: map<string, string>, m: Model) {
    && (forall p <- m :: Representable(p) && MakeKey(p.0, p.1) in db && db[MakeKey(p.0, p.1)] == m[p])
    && (forall k <- db :: exists p <- m :: k == MakeKey(p.0, p.1))
  }

  ghost predicate IsLatest(m: Model, id: string, version: nat) {
    (id, version) in m && forall w :: (id, w) in m ==> w <= version
  }

  function Without(m: Model, id: string): Model {
    map p | p in m && p.0 != id :: m[p]
  }

  function DeleteRange(db: map<string, string>, lo: string, hi: string): map<string, string> {
    map k | k in db && (Less(k, lo) || !Less(k, hi)) :: db[k]
  }

  lemma WriteRefines(db: map<string, string>, m: Model, id: string, version: nat, data: string)
    requires Refines(db, m) && Representable((id, version))
    ensures Refines(db[MakeKey(id, version) := data], m[(id, version) := data])
  {
    var db', m' := db[MakeKey(id, version) := data], m[(id, version) := data];
    forall p | p in m' ensures MakeKey(p.0, p.1) in db' && db'[MakeKey(p.0, p.1)] == m'[p] {
      if MakeKey(p.0, p.1) == MakeKey(id, version) {
        KeyInjective(p.0, p.1, id, version);
      }
    }
    forall k | k in db' ensures exists p <- m' :: k == MakeKey(p.0, p.1) {
      if k == MakeKey(id, version) {
        assert (id, version) in m' && k == MakeKey((id, version).0, (id, version).1);
      } else {
        var p :| p in m && k == MakeKey(p.0, p.1);
        assert p in m';
      }
    }
  }

  predicate InRange(id: string, k: string) {
    !Less(k, MakeKey(id, 0)) && Less(k, ChunkPrefix(id) + "~")
  }

  /** The deleted key range holds every version of the id, and otherwise only keys of chunks
      nested in it. */
  lemma RangeIsOneChunk(id: string, id2: string, version: nat)
    requires Representable((id2, version))
    ensures id2 == id ==> InRange(id, MakeKey(id2, version))
    ensures InRange(id, MakeKey(id2, version)) ==> id2 == id || Nested(id2, id)
  {
    var k, lo, hi := MakeKey(id2, version), MakeKey(id, 0), ChunkPrefix(id) + "~";
    if id == id2 {
      KeyOrder(id, version, 0);
      PadValue(version);
      LessCommonPrefix(ChunkPrefix(id), Pad10(version), "~");
    } else if InRange(id, k) {
      KeyHasPrefix(id, 0);
      LessTotal(k, hi);
      PrefixConvex(ChunkPrefix(id), lo, k, hi);
      PrefixOwner(id, id2, version);
    }
  }

  /** Removing a chunk is removing it from the model exactly when no key of another chunk lies
      in the deleted range. */
  lemma RemoveExact(db: map<string, string>, m: Model, id: string)
    requires Refines(db, m)
    ensures Refines(DeleteRange(db, MakeKey(id, 0), ChunkPrefix(id) + "~"), Without(m, id))
      <==> forall p <- m :: p.0 != id ==> !InRange(id, MakeKey(p.0, p.1))
  {
    var db', m' := DeleteRange(db, MakeKey(id, 0), ChunkPrefix(id) + "~"), Without(m, id);
    if Refines(db', m') {
      forall p | p in m && p.0 != id ensures !InRange(id, MakeKey(p.0, p.1)) {
        assert p in m' && MakeKey(p.0, p.1) in db';
      }
    }
    if forall p <- m :: p.0 != id ==> !InRange(id, MakeKey(p.0, p.1)) {
      forall k | k in db' ensures exists p <- m' :: k == MakeKey(p.0, p.1) {
        var p :| p in m && k == MakeKey(p.0, p.1);
        RangeIsOneChunk(id, p.0, p.1);
        assert p in m';
      }
      forall p | p in m' ensures MakeKey(p.0, p.1) in db' && db'[MakeKey(p.0, p.1)] == m'[p] {
        assert p in m;
      }
    }
  }

  /** In particular when no stored chunk is nested in it. */
  lemma RemoveRefines(db: map<string, string>, m: Model, id: string)
    requires Refines(db, m) && Clear(m, id)
    ensures Refines(DeleteRange(db, MakeKey(id, 0), ChunkPrefix(id) + "~"), Without(m, id))
  {
    forall p | p in m && p.0 != id ensures !InRange(id, MakeKey(p.0, p.1)) {
      RangeIsOneChunk(id, p.0, p.1);
    }
    RemoveExact(db, m, id);
  }

  // ---------------------------------------------------------------- iterator positioning

  /** The greatest key that is not above `seek`, if there is one. */
  ghost predicate IsPredecessor(db: map<string, string>, seek: string, found: Option<string>) {
    match found
    case None => forall k <- db :: Less(seek, k)
    case Some(key) => key in db && !Less(seek, key) && forall k <- db :: Less(seek, k) || !Less(key, k)
  }

  /** Iterator::SeekForPrev. */
  method SeekForPrev(db: map<string, string>, seek: string) returns (found: Option<string>)
    ensures IsPredecessor(db, seek, found)
  {
    found := None;
    var left := db.Keys;
    while left != {}
      invariant left <= db.Keys
      invariant found.None? ==> forall k <- db.Keys - left :: Less(seek, k)
      invariant found.Some? ==> found.value in db && !Less(seek, found.value)
      invariant found.Some? ==> forall k <- db.Keys - left :: Less(seek, k) || !Less(found.value, k)
    {
      var k :| k in left;
      left := left - {k};
      if !Less(seek, k) && (found.None? || Less(found.value, k)) {
        forall j | j in db.Keys - left ensures Less(seek, j) || !Less(k, j) {
          NotLessSelf(k);
          if found.Some? && Less(k, j) && j != k {
            LessTransitive(found.value, k, j);
          }
        }
        found := Some(k);
      }
    }
  }

  /** Iterator::Seek and Next: the least key at `from`, or strictly above it. */
  method SeekForward(db: map<string, string>, from: string, strictly: bool) returns (found: Option<string>)
    ensures found.None? ==> forall k <- db :: !Reached(from, strictly, k)
    ensures found.Some? ==> found.value in db && Reached(from, strictly, found.value)
    ensures found.Some? ==> forall k <- db :: Reached(from, strictly, k) ==> !Less(k, found.value)
  {
    found := None;
    var left := db.Keys;
    while left != {}
      invariant left <= db.Keys
      invariant found.None? ==> forall k <- db.Keys - left :: !Reached(from, strictly, k)
      invariant found.Some? ==> found.value in db && Reached(from, strictly, found.value)
      invariant found.Some? ==> forall k <- db.Keys - left :: Reached(from, strictly, k) ==> !Less(k, found.value)
    {
      var k :| k in left;
      left := left - {k};
      if Reached(from, strictly, k) && (found.None? || Less(k, found.value)) {
        forall j | j in db.Keys - left && Reached(from, strictly, j) ensures !Less(j, k) {
          NotLessSelf(k);
          if found.Some? && Less(j, k) && j != k {
            LessTransitive(j, k, found.value);
          }
        }
        found := Some(k);
      }
    }
  }

  predicate Reached(from: string, strictly: bool, k: string) {
    if strictly then Less(from, k) else !Less(k, from)
  }

  // ---------------------------------------------------------------- lookups

  /** The predecessor of the top key of an id is that id's greatest version, if it has any. */
  lemma PredecessorIsLatest(db: map<string, string>, m: Model, id: string, key: string)
    requires Refines(db, m) && Clear(m, id) && key in db
    requires !Less(MakeKey(id, MAX_VERSION), key)
    requires forall k <- db :: Less(MakeKey(id, MAX_VERSION), k) || !Less(key, k)
    ensures HasPrefix(key, ChunkPrefix(id)) ==>
      exists v :: key == MakeKey(id, v) && IsLatest(m, id, v) && m[(id, v)] == db[key]
    ensures !HasPrefix(key, ChunkPrefix(id)) ==> forall v :: (id, v) !in m
  {
    var top := MakeKey(id, MAX_VERSION);
    forall w | (id, w) in m ensures !Less(key, MakeKey(id, w)) && HasPrefix(key, ChunkPrefix(id)) {
      assert Representable((id, w)) && MakeKey((id, w).0, (id, w).1) in db;
      KeyOrder(id, MAX_VERSION, w);
      KeyHasPrefix(id, w);
      KeyHasPrefix(id, MAX_VERSION);
      PrefixConvex(ChunkPrefix(id), MakeKey(id, w), key, top);
    }
    if HasPrefix(key, ChunkPrefix(id)) {
      var p :| p in m && key == MakeKey(p.0, p.1);
      PrefixOwner(id, p.0, p.1);
      assert p == (id, p.1);
      forall w | (id, w) in m ensures w <= p.1 {
        assert Representable((id, w));
        KeyOrder(id, p.1, w);
      }
    }
  }

  lemma NoPredecessor(db: map<string, string>, m: Model, id: string)
    requires Refines(db, m) && forall k <- db :: Less(MakeKey(id, MAX_VERSION), k)
    ensures forall v :: (id, v) !in m
  {
    forall w | (id, w) in m ensures false {
      assert Representable((id, w)) && MakeKey((id, w).0, (id, w).1) in db;
      KeyOrder(id, MAX_VERSION, w);
    }
  }

  /** What a lookup makes of the key it lands on: the version behind the prefix, if there is
      one and it is not below the floor. */
  function ReadAt(db: map<string, string>, id: string, min: nat, found: Option<string>): Option<(nat, string)>
    requires found.Some? ==> found.value in db
  {
    var prefix := ChunkPrefix(id);
    if found.None? || !HasPrefix(found.value, prefix) then None
    else
      var version := Stoull(found.value[|prefix|..]);
      if version.None? || version.value < min then None else Some((version.value, db[found.value]))
  }

  /** The answer of a database to a read. */
  ghost predicate Reads(db: map<string, string>, id: string, min: nat, r: Option<(nat, string)>) {
    exists found :: IsPredecessor(db, MakeKey(id, MAX_VERSION), found) && r == ReadAt(db, id, min, found)
  }

  /** Where no stored chunk is nested in the id, a read answers with exactly the greatest
      stored version and its bytes, or with nothing when all versions are below the floor. */
  lemma ReadsExactly(db: map<string, string>, m: Model, id: string, min: nat, r: Option<(nat, string)>)
    requires Refines(db, m) && Clear(m, id) && Reads(db, id, min, r)
    ensures r.Some? ==> IsLatest(m, id, r.value.0) && min <= r.value.0 && m[(id, r.value.0)] == r.value.1
    ensures r.None? ==> forall v :: (id, v) in m ==> v < min
  {
    var found :| IsPredecessor(db, MakeKey(id, MAX_VERSION), found) && r == ReadAt(db, id, min, found);
    if found.None? {
      NoPredecessor(db, m, id);
    } else {
      PredecessorIsLatest(db, m, id, found.value);
      if HasPrefix(found.value, ChunkPrefix(id)) {
        var v :| found.value == MakeKey(id, v) && IsLatest(m, id, v) && m[(id, v)] == db[found.value];
        assert Representable((id, v));
        StoredVersionParses(id, v);
      }
    }
  }

  lemma {:induction false} PrefixNotLess(s: string, p: string)
    requires HasPrefix(s, p)
    ensures !Less(s, p)
  {
    if p != "" {
      PrefixNotLess(s[1..], p[1..]);
    }
  }

  lemma StoredVersionParses(id: string, v: nat)
    requires v <= MAX_VERSION
    ensures Stoull(MakeKey(id, v)[|ChunkPrefix(id)|..]) == Some(v)
  {
    KeyHasPrefix(id, v);
    PadValue(v);
    DigitPrefixOfDigits(Pad10(v));
  }

  lemma {:induction false} LessExtended(a: string, b: string, tail: string)
    requires |a| == |b| && Less(a, b)
    ensures Less(a + tail, b)
  {
    if a[0] == b[0] {
      LessExtended(a[1..], b[1..], tail);
      assert (a + tail)[1..] == a[1..] + tail;
    }
  }

  /** Why nested ids must stay away: a nested id's key passes for version `v` of the outer id,
      below the seek key, so a read of the outer id can return the nested chunk's data. */
  lemma NestedIdIntrudes(id: string, v: nat, w: nat)
    requires v < MAX_VERSION
    ensures var k := MakeKey(id + "/" + Pad10(v), w);
      && HasPrefix(k, ChunkPrefix(id)) && Less(k, MakeKey(id, MAX_VERSION))
      && Stoull(k[|ChunkPrefix(id)|..]) == Some(v)
  {
    var prefix, rest := ChunkPrefix(id), "/" + Pad10(w);
    NestedKeyShape(id, Pad10(v), Pad10(w));
    PadValue(v);
    PadValue(MAX_VERSION);
    DigitOrder(Pad10(v), Pad10(MAX_VERSION));
    LessExtended(Pad10(v), Pad10(MAX_VERSION), rest);
    LessCommonPrefix(prefix, Pad10(v) + rest, Pad10(MAX_VERSION));
    DigitsThenSlash(Pad10(v), rest);
    assert (prefix + (Pad10(v) + rest))[|prefix|..] == Pad10(v) + rest;
  }

  /** So with one version of a chunk and a nested chunk stored, a read of the outer chunk
      answers with the nested one's bytes under a version the outer one never had. */
  lemma NestedIdIsRead(id: string, u: nat, v: nat, w: nat, outer: string, inner: string)
    requires u < v < MAX_VERSION && w <= MAX_VERSION
    ensures var db := map[MakeKey(id, u) := outer][MakeKey(id + "/" + Pad10(v), w) := inner];
      Reads(db, id, 0, Some((v, inner)))
  {
    var a, b := MakeKey(id, u), MakeKey(id + "/" + Pad10(v), w);
    var db := map[a := outer][b := inner];
    NestedIdIntrudes(id, v, w);
    LessTotal(b, MakeKey(id, MAX_VERSION));
    NotLessSelf(b);
    OuterSortsBelow(id, u, v, w);
    LessTotal(a, b);
    assert IsPredecessor(db, MakeKey(id, MAX_VERSION), Some(b));
    assert ReadAt(db, id, 0, Some(b)) == Some((v, inner));
  }

  lemma OuterSortsBelow(id: string, u: nat, v: nat, w: nat)
    requires u < v < MAX_VERSION
    ensures Less(MakeKey(id, u), MakeKey(id + "/" + Pad10(v), w)) && !Less(MakeKey(id + "/" + Pad10(v), w), MakeKey(id, u))
  {
    var rest := "/" + Pad10(w);
    NestedKeyShape(id, Pad10(v), Pad10(w));
    PadValue(u);
    PadValue(v);
    DigitOrder(Pad10(u), Pad10(v));
    LessWithTail(Pad10(u), Pad10(v), rest);
    LessCommonPrefix(ChunkPrefix(id), Pad10(u), Pad10(v) + rest);
    LessCommonPrefix(ChunkPrefix(id), Pad10(v) + rest, Pad10(u));
  }

  lemma {:induction false} LessWithTail(a: string, b: string, tail: string)
    requires |a| == |b| && Less(a, b)
    ensures Less(a, b + tail) && !Less(b + tail, a)
  {
    if a[0] == b[0] {
      LessWithTail(a[1..], b[1..], tail);
      assert (b + tail)[1..] == b[1..] + tail;
    }
  }

  lemma NestedKeyShape(id: string, inner: string, tail: string)
    ensures ChunkPrefix(id + "/" + inner) + tail == ChunkPrefix(id) + (inner + ("/" + tail))
  {}

  lemma {:induction false} DigitsThenSlash(d: string, rest: string)
    requires AllDigits(d) && rest != "" && rest[0] == '/'
    ensures DigitPrefix(d + rest) == d
  {
    if d == "" {
      assert d + rest == rest;
    } else {
      DigitsThenSlash(d[1..], rest);
      assert (d + rest)[1..] == d[1..] + rest;
    }
  }

  /** Why versions are bounded: the first eleven-digit version sorts below the seek key's
      ten nines, so the greatest version is no longer the greatest key. */
  lemma WideVersionSortsLow(id: string)
    ensures Less(MakeKey(id, MAX_VERSION + 1), MakeKey(id, MAX_VERSION))
  {
    DecimalHead(MAX_VERSION + 1, 1, 10);
    DecimalHead(MAX_VERSION, 9, 9);
    LessCommonPrefix(ChunkPrefix(id), Pad10(MAX_VERSION + 1), Pad10(MAX_VERSION));
  }

  lemma DropDigit(n: nat, d: nat, p: nat)
    requires d * (10 * p) <= n < (d + 1) * (10 * p)
    ensures d * p <= n / 10 < (d + 1) * p
  {
    var lo, hi := d * p, (d + 1) * p;
    assert d * (10 * p) == 10 * lo && (d + 1) * (10 * p) == 10 * hi;
  }

  /** The text of a number between d * 10^w and (d + 1) * 10^w starts with digit d. */
  lemma {:induction false} DecimalHead(n: nat, d: nat, w: nat)
    requires 0 < d < 10 && d * Pow10(w) <= n < (d + 1) * Pow10(w)
    ensures ToDecimal(n)[0] == '0' + d as char && |ToDecimal(n)| == w + 1
  {
    if w > 0 {
      DropDigit(n, d, Pow10(w - 1));
      DecimalHead(n / 10, d, w - 1);
    }
  }

  function LastSlash(s: string): (r: int)
    ensures -1 <= r < |s|
  {
    if s == "" then -1 else if s[|s| - 1] == '/' then |s| - 1 else LastSlash(s[..|s| - 1])
  }

  lemma {:induction false} LastSlashAt(a: string, b: string)
    requires Free(b, '/')
    ensures LastSlash(a + "/" + b) == |a|
  {
    var s := a + "/" + b;
    if b == "" {
      assert s == a + "/";
    } else {
      LastSlashAt(a, b[..|b| - 1]);
      assert s[..|s| - 1] == a + "/" + b[..|b| - 1];
    }
  }

  lemma KeyIdIsCut(id: string, v: nat)
    ensures LastSlash(MakeKey(id, v)) == 6 + |id|
    ensures MakeKey(id, v)[6..6 + |id|] == id
  {
    PadValue(v);
    LastSlashAt("chunk/" + id, Pad10(v));
    assert MakeKey(id, v) == "chunk/" + id + "/" + Pad10(v);
  }

  /** The ids cut out of all keys of the store are the non-empty ids of the model. */
  lemma CutIdsAreModelIds(db: map<string, string>, m: Model, ids: set<string>)
    requires Refines(db, m)
    requires forall id :: id in ids <==>
      exists k <- db :: HasPrefix(k, "chunk/") && LastSlash(k) > 6 && id == k[6..LastSlash(k)]
    ensures forall id :: id in ids <==> id != "" && exists v :: (id, v) in m
  {
    forall id | id in ids ensures id != "" && exists v :: (id, v) in m {
      var k :| k in db && HasPrefix(k, "chunk/") && LastSlash(k) > 6 && id == k[6..LastSlash(k)];
      var p :| p in m && k == MakeKey(p.0, p.1);
      KeyIdIsCut(p.0, p.1);
      assert (id, p.1) in m;
    }
    forall id, v | id != "" && (id, v) in m ensures id in ids {
      var k := MakeKey((id, v).0, (id, v).1);
      KeyIdIsCut(id, v);
      KeyHasPrefix(id, v);
      assert k in db && HasPrefix(k, "chunk/") && LastSlash(k) > 6 && id == k[6..LastSlash(k)];
    }
  }

  /** The iterator has passed exactly the prefixed keys `seen` and now stands at `it`. */
  ghost predicate Visited(db: map<string, string>, it: Option<string>, seen: set<string>) {
    && seen <= db.Keys && (forall k <- seen :: HasPrefix(k, "chunk/"))
    && match it
       case None => forall k <- db :: HasPrefix(k, "chunk/") ==> k in seen
       case Some(at) =>
         && at in db && !Less(at, "chunk/") && (forall k <- seen :: Less(k, at))
         && forall k <- db :: k in seen || Less(k, "chunk/") || !Less(k, at)
  }

  lemma VisitedToTheEnd(db: map<string, string>, at: string, seen: set<string>)
    requires Visited(db, Some(at), seen) && !HasPrefix(at, "chunk/")
    ensures Visited(db, None, seen)
  {
    forall k | k in db && HasPrefix(k, "chunk/") ensures k in seen {
      if k !in seen {
        PrefixNotLess(k, "chunk/");
        PrefixConvex("chunk/", "chunk/", at, k);
      }
    }
  }

  lemma VisitNext(db: map<string, string>, at: string, next: Option<string>, seen: set<string>)
    requires Visited(db, Some(at), seen) && HasPrefix(at, "chunk/")
    requires next.None? ==> forall k <- db :: !Reached(at, true, k)
    requires next.Some? ==> next.value in db && Reached(at, true, next.value)
    requires next.Some? ==> forall k <- db :: Reached(at, true, k) ==> !Less(k, next.value)
    ensures at !in seen && Visited(db, next, seen + {at})
  {
    NotLessSelf(at);
    forall k | k in db && !Less(k, "chunk/") && !Less(at, k) ensures k in seen + {at} {
      LessTotal(k, at);
    }
    forall k | k in db && HasPrefix(k, "chunk/") ensures !Less(k, "chunk/") {
      PrefixNotLess(k, "chunk/");
    }
    if next.Some? {
      forall k | k in seen + {at} ensures Less(k, next.value) {
        if k != at {
          LessTransitive(k, at, next.value);
        }
      }
      LessTotal(next.value, "chunk/");
      if Less(next.value, "chunk/") {
        LessTransitive(at, next.value, "chunk/");
      }
    }
  }

  // ---------------------------------------------------------------- the store

  class Store {
    var available: bool
    var db: map<string, string>

    constructor (opens: bool)
      ensures available == opens && db == map[] && Refines(db, map[])
    {
      available, db := opens, map[];
    }

    /** A write is the write on the model. */
    method Write(id: string, version: nat, data: string, ghost m: Model) returns (ok: bool)
      modifies this`db
      ensures ok == available
      ensures db == if available then old(db)[MakeKey(id, version) := data] else old(db)
      ensures available && Refines(old(db), m) && Representable((id, version)) ==> Refines(db, m[(id, version) := data])
    {
      ok := available;
      if available {
        if Refines(db, m) && Representable((id, version)) {
          WriteRefines(db, m, id, version, data);
        }
        db := db[MakeKey(id, version) := data];
      }
    }

    /** Returns the greatest stored version, unless it is below `minVersion`. */
    method Read(id: string, minVersion: nat, ghost m: Model) returns (r: Option<(nat, string)>)
      ensures !available ==> r.None?
      ensures available ==> Reads(db, id, minVersion, r)
      ensures available && Refines(db, m) && Clear(m, id) && r.Some? ==>
        IsLatest(m, id, r.value.0) && minVersion <= r.value.0 && r.value.1 == m[(id, r.value.0)]
      ensures available && Refines(db, m) && Clear(m, id) && r.None? ==>
        forall v :: (id, v) in m ==> v < minVersion
    {
      if !available {
        return None;
      }
      var found := SeekForPrev(db, MakeKey(id, MAX_VERSION));
      r := ReadAt(db, id, minVersion, found);
      assert Reads(db, id, minVersion, r);
      if Refines(db, m) && Clear(m, id) {
        ReadsExactly(db, m, id, minVersion, r);
      }
    }

    /** Returns the greatest stored version, or zero when there is none. */
    method LatestVersion(id: string, ghost m: Model) returns (version: nat)
      ensures !available ==> version == 0
      ensures available && Refines(db, m) && Clear(m, id) ==>
        if exists v :: (id, v) in m then IsLatest(m, id, version) else version == 0
    {
      var r := Read(id, 0, m);
      return if r.Some? then r.value.0 else 0;
    }

    /** Removes all versions of the chunk and, where no stored chunk is nested in it, nothing else. */
    method Remove(id: string, ghost m: Model) returns (ok: bool)
      modifies this`db
      ensures ok == available
      ensures db == if available then DeleteRange(old(db), MakeKey(id, 0), ChunkPrefix(id) + "~") else old(db)
      ensures available && Refines(old(db), m) && Clear(m, id) ==> Refines(db, Without(m, id))
    {
      ok := available;
      if available {
        if Refines(db, m) && Clear(m, id) {
          RemoveRefines(db, m, id);
        }
        db := DeleteRange(db, MakeKey(id, 0), ChunkPrefix(id) + "~");
      }
    }

    /** Returns exactly the non-empty ids that have a stored version. */
    method ListChunkIds(ghost m: Model) returns (ids: set<string>)
      ensures !available ==> ids == {}
      ensures available && Refines(db, m) ==>
        forall id :: id in ids <==> id != "" && exists v :: (id, v) in m
    {
      ids := {};
      if !available {
        return;
      }
      var it := SeekForward(db, "chunk/", false);
      ghost var seen: set<string> := {};
      forall k | k in db && HasPrefix(k, "chunk/") ensures !Less(k, "chunk/") {
        PrefixNotLess(k, "chunk/");
      }
      while it.Some?
        invariant Visited(db, it, seen)
        invariant forall id :: id in ids <==> exists k <- seen :: LastSlash(k) > 6 && id == k[6..LastSlash(k)]
        decreases db.Keys - seen
      {
        var key := it.value;
        if !HasPrefix(key, "chunk/") {
          VisitedToTheEnd(db, key, seen);
          break;
        }
        if LastSlash(key) > 6 {
          ids := ids + {key[6..LastSlash(key)]};
        }
        it := SeekForward(db, key, true);
        VisitNext(db, key, it, seen);
        seen := seen + {key};
      }
      if Refines(db, m) {
        CutIdsAreModelIds(db, m, ids);
      }
    }
  }
}
