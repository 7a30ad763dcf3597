/**
 The canonical byte forms of the workspace (kernel/tools/gen_v40_workspace_vectors.py) and their unique
 reading: two values with the same bytes are the same value. SHA-256 is a parameter.
 */
module WorkspaceForms {
  import opened Wrappers
  import opened Powers
  import opened Sorting
  import opened ByteStrings

  const ZERO: Bytes := [
    0, 0, 0, 0, 0, 0, 0, 0, 0, 0, 0, 0, 0, 0, 0, 0,
    0, 0, 0, 0, 0, 0, 0, 0, 0, 0, 0, 0, 0, 0, 0, 0]

  type Digest = b: Bytes | |b| == 32 witness ZERO

  type Hash = Bytes -> Digest

  type u32 = n: nat | n < 0x1_0000_0000

  /** No two of these messages have the same digest: the assumption on the hash, where one is made. */
  ghost predicate InjectiveOn(hash: Hash, messages: set<Bytes>) {
    forall x, y :: x in messages && y in messages && hash(x) == hash(y) ==> x == y
  }

  /** `n.to_bytes(k, 'little')`. */
  function LittleEndian(n: nat, k: nat): (r: Bytes)
    ensures |r| == k
  {
    if k == 0 then [] else [n % 256] + LittleEndian(n / 256, k - 1)
  }

  lemma {:induction false} LittleEndianReads(m: nat, n: nat, k: nat)
    requires m < Pow(256, k) && n < Pow(256, k)
    requires LittleEndian(m, k) == LittleEndian(n, k)
    ensures m == n
  {
    if k > 0 {
      assert LittleEndian(m, k)[1..] == LittleEndian(m / 256, k - 1) && LittleEndian(n, k)[1..] == LittleEndian(n / 256, k - 1);
      assert LittleEndian(m, k)[0] == m % 256 && LittleEndian(n, k)[0] == n % 256;
      QuotientBelow(m, k);
      QuotientBelow(n, k);
      LittleEndianReads(m / 256, n / 256, k - 1);
    }
  }

  lemma QuotientBelow(n: nat, k: nat)
    requires k > 0 && n < Pow(256, k)
    ensures n / 256 < Pow(256, k - 1)
  {
    assert Pow(256, k) == 256 * Pow(256, k - 1);
  }

  lemma WidePowers()
    ensures Pow(256, 2) == 0x1_0000 && Pow(256, 4) == 0x1_0000_0000 && Pow(256, 8) == 0x1_0000_0000_0000_0000
  {
    assert Pow(256, 1) == 256;
    assert Pow(256, 2) == 256 * 256;
    assert Pow(256, 3) == 256 * Pow(256, 2);
    assert Pow(256, 4) == 256 * Pow(256, 3);
    assert Pow(256, 5) == 256 * Pow(256, 4);
    assert Pow(256, 6) == 256 * Pow(256, 5);
    assert Pow(256, 7) == 256 * Pow(256, 6);
    assert Pow(256, 8) == 256 * Pow(256, 7);
  }

  /** Two concatenations whose first parts are equally long agree part by part. */
  lemma SplitEqual(a: Bytes, b: Bytes, x: Bytes, y: Bytes)
    requires |a| == |b| && a + x == b + y
    ensures a == b && x == y
  {
    assert (a + x)[..|a|] == a && (b + y)[..|b|] == b;
    assert (a + x)[|a|..] == x && (b + y)[|b|..] == y;
  }

  // ------------------------------------------------- objects and paths

  datatype Kind = File | Directory

  function KindByte(kind: Kind): byte {
    if kind.File? then 1 else 2
  }

  /** A stored object; its id is the digest of the rest. */
  datatype Obj = Obj(id: Digest, kind: Kind, contentHash: Digest, size: nat, createdBy: Digest)

  function Record(kind: Kind, contentHash: Digest, size: nat, createdBy: Digest): (r: Bytes)
    ensures |r| == 73
  {
    [KindByte(kind)] + contentHash + LittleEndian(size, 8) + createdBy
  }

  function RecordOf(o: Obj): (r: Bytes)
    ensures |r| == 73
  {
    Record(o.kind, o.contentHash, o.size, o.createdBy)
  }

  function MakeObj(kind: Kind, contentHash: Digest, size: nat, createdBy: Digest, hash: Hash): Obj {
    Obj(hash(Record(kind, contentHash, size, createdBy)), kind, contentHash, size, createdBy)
  }

  /** The id is the digest of the record, whose size field fits. */
  predicate Authentic(o: Obj, hash: Hash) {
    o.id == hash(RecordOf(o)) && o.size < 0x1_0000_0000_0000_0000
  }

  /** A path entry; the path is kept padded with zero bytes. */
  datatype Entry = Entry(pathHash: Digest, pathLen: nat, pathBytes: Bytes, id: Digest)
  {
    predicate Ok() {
      pathLen <= 256 && |pathBytes| == 256
    }

    function Path(): (r: Bytes)
      requires Ok()
      ensures |r| == pathLen
    {
      pathBytes[..pathLen]
    }
  }

  function Padding(n: nat): (r: Bytes)
    ensures |r| == n
  {
    seq(n, i => 0)
  }

  function MakeEntry(path: Bytes, id: Digest, hash: Hash): (e: Entry)
    requires |path| <= 256
    ensures e.Ok() && e.Path() == path
  {
    Entry(hash(path), |path|, path + Padding(256 - |path|), id)
  }

  function EntryBytes(e: Entry): Bytes
    requires e.Ok()
  {
    LittleEndian(e.pathLen, 2) + e.Path() + e.id
  }

  /** A record determines its object. */
  lemma RecordReads(o: Obj, p: Obj, hash: Hash)
    requires Authentic(o, hash) && Authentic(p, hash) && RecordOf(o) == RecordOf(p)
    ensures o == p
  {
    hide LittleEndian;
    WidePowers();
    var (a, b) := ([KindByte(o.kind)] + o.contentHash + LittleEndian(o.size, 8), [KindByte(p.kind)] + p.contentHash + LittleEndian(p.size, 8));
    SplitEqual(a, b, o.createdBy, p.createdBy);
    SplitEqual([KindByte(o.kind)] + o.contentHash, [KindByte(p.kind)] + p.contentHash, LittleEndian(o.size, 8), LittleEndian(p.size, 8));
    SplitEqual([KindByte(o.kind)], [KindByte(p.kind)], o.contentHash, p.contentHash);
    LittleEndianReads(o.size, p.size, 8);
  }

  // ------------------------------------------------- tables

  predicate ObjLe(a: Obj, b: Obj) {
    LexLe(a.id, b.id)
  }

  /** Sort key (path, length). */
  predicate EntryLe(a: Entry, b: Entry)
  {
    var x, y := Cut(a), Cut(b);
    if x == y then a.pathLen <= b.pathLen else LexLe(x, y)
  }

  function Cut(e: Entry): Bytes {
    if e.pathLen <= |e.pathBytes| then e.pathBytes[..e.pathLen] else e.pathBytes
  }

  function Records(objects: seq<Obj>): Bytes {
    if objects == [] then [] else RecordOf(objects[0]) + Records(objects[1..])
  }

  function EntriesBytes(entries: seq<Entry>): Bytes
    requires forall i :: 0 <= i < |entries| ==> entries[i].Ok()
  {
    if entries == [] then [] else EntryBytes(entries[0]) + EntriesBytes(entries[1..])
  }

  ghost predicate AllAuthentic(objects: seq<Obj>, hash: Hash) {
    forall i :: 0 <= i < |objects| ==> Authentic(objects[i], hash)
  }

  predicate EntriesOk(entries: seq<Entry>) {
    forall i :: 0 <= i < |entries| ==> entries[i].Ok()
  }

  /** The ASCII bytes of WSOBJTABv1, WSPATHIDXv1, WSROOTv1, WSOPv1 and of the capability and rollback texts. */
  const OBJECT_TABLE_TAG: Bytes := [87, 83, 79, 66, 74, 84, 65, 66, 118, 49]
  const PATH_INDEX_TAG: Bytes := [87, 83, 80, 65, 84, 72, 73, 68, 88, 118, 49]
  const ROOT_TAG: Bytes := [87, 83, 82, 79, 79, 84, 118, 49]
  const OPERATION_TAG: Bytes := [87, 83, 79, 80, 118, 49]
  const CAPABILITY_TEXT: Bytes := [67, 65, 80, 118, 49, 119, 114, 105, 116, 101, 58, 47, 119, 111, 114, 107, 115, 112, 97, 99, 101]

  function ObjectTableBytes(objects: seq<Obj>): Bytes {
    OBJECT_TABLE_TAG + Records(Sort(objects, ObjLe))
  }

  lemma SortedEntriesOk(entries: seq<Entry>)
    requires EntriesOk(entries)
    ensures EntriesOk(Sort(entries, EntryLe))
  {
    var sorted := Sort(entries, EntryLe);
    SameElements(sorted, entries);
    forall i | 0 <= i < |sorted|
      ensures sorted[i].Ok()
    {
      assert sorted[i] in entries;
    }
  }

  function PathIndexBytes(entries: seq<Entry>): Bytes
    requires EntriesOk(entries)
  {
    SortedEntriesOk(entries);
    PATH_INDEX_TAG + EntriesBytes(Sort(entries, EntryLe))
  }

  /** A run of records reads in one way. */
  lemma {:induction false} RecordsRead(xs: seq<Obj>, ys: seq<Obj>, hash: Hash)
    requires AllAuthentic(xs, hash) && AllAuthentic(ys, hash) && Records(xs) == Records(ys)
    ensures xs == ys
  {
    hide Authentic, RecordOf;
    if xs == [] || ys == [] {
      assert |Records(xs)| == |Records(ys)|;
    } else {
      SplitEqual(RecordOf(xs[0]), RecordOf(ys[0]), Records(xs[1..]), Records(ys[1..]));
      RecordReads(xs[0], ys[0], hash);
      RecordsRead(xs[1..], ys[1..], hash);
      assert xs == [xs[0]] + xs[1..] && ys == [ys[0]] + ys[1..];
    }
  }

  /** What the path index says of an entry: its path and its object. */
  function Link(e: Entry): (Bytes, Digest)
    requires e.Ok()
  {
    (e.Path(), e.id)
  }

  /** The bytes of an entry, whatever follows them, determine its path and object. */
  lemma EntryReads(e: Entry, f: Entry, x: Bytes, y: Bytes)
    requires e.Ok() && f.Ok() && EntryBytes(e) + x == EntryBytes(f) + y
    ensures Link(e) == Link(f) && x == y
  {
    hide LittleEndian;
    WidePowers();
    assert EntryBytes(e) + x == LittleEndian(e.pathLen, 2) + (e.Path() + (e.id + x));
    assert EntryBytes(f) + y == LittleEndian(f.pathLen, 2) + (f.Path() + (f.id + y));
    SplitEqual(LittleEndian(e.pathLen, 2), LittleEndian(f.pathLen, 2), e.Path() + (e.id + x), f.Path() + (f.id + y));
    LittleEndianReads(e.pathLen, f.pathLen, 2);
    SplitEqual(e.Path(), f.Path(), e.id + x, f.id + y);
    SplitEqual(e.id, f.id, x, y);
  }

  function Links(entries: seq<Entry>): (r: seq<(Bytes, Digest)>)
    requires EntriesOk(entries)
    ensures |r| == |entries|
    ensures forall i :: 0 <= i < |r| ==> r[i] == Link(entries[i])
  {
    if entries == [] then [] else [Link(entries[0])] + Links(entries[1..])
  }

  lemma {:induction false} EntriesRead(xs: seq<Entry>, ys: seq<Entry>)
    requires EntriesOk(xs) && EntriesOk(ys) && EntriesBytes(xs) == EntriesBytes(ys)
    ensures Links(xs) == Links(ys)
  {
    hide LittleEndian;
    if xs == [] || ys == [] {
      assert |EntriesBytes(xs)| == |EntriesBytes(ys)|;
    } else {
      EntryReads(xs[0], ys[0], EntriesBytes(xs[1..]), EntriesBytes(ys[1..]));
      EntriesRead(xs[1..], ys[1..]);
    }
  }

  // ------------------------------------------------- roots

  datatype Root = Root(version: u32, objectTableHash: Digest, pathIndexHash: Digest, previous: Option<Digest>, lastReceipt: Option<Digest>)

  function OptionBytes(d: Option<Digest>): (r: Bytes)
    ensures |r| == 33
  {
    match d case None => [0] + ZERO case Some(v) => [1] + v
  }

  function RootBytes(r: Root): Bytes {
    ROOT_TAG + LittleEndian(r.version, 4) + r.objectTableHash + r.pathIndexHash + OptionBytes(r.previous) + OptionBytes(r.lastReceipt)
  }

  lemma OptionReads(a: Option<Digest>, b: Option<Digest>)
    requires OptionBytes(a) == OptionBytes(b)
    ensures a == b
  {
    assert OptionBytes(a)[0] == if a.Some? then 1 else 0;
    assert OptionBytes(b)[0] == if b.Some? then 1 else 0;
    if a.Some? && b.Some? {
      SplitEqual([1], [1], a.value, b.value);
    }
  }

  /** The bytes of a root determine it. */
  lemma RootReads(r: Root, s: Root)
    requires RootBytes(r) == RootBytes(s)
    ensures r == s
  {
    hide LittleEndian, OptionBytes;
    WidePowers();
    var a1, b1 := ROOT_TAG + LittleEndian(r.version, 4), ROOT_TAG + LittleEndian(s.version, 4);
    var a2, b2 := a1 + r.objectTableHash, b1 + s.objectTableHash;
    var a3, b3 := a2 + r.pathIndexHash, b2 + s.pathIndexHash;
    var a4, b4 := a3 + OptionBytes(r.previous), b3 + OptionBytes(s.previous);
    SplitEqual(a4, b4, OptionBytes(r.lastReceipt), OptionBytes(s.lastReceipt));
    SplitEqual(a3, b3, OptionBytes(r.previous), OptionBytes(s.previous));
    SplitEqual(a2, b2, r.pathIndexHash, s.pathIndexHash);
    SplitEqual(a1, b1, r.objectTableHash, s.objectTableHash);
    SplitEqual(ROOT_TAG, ROOT_TAG, LittleEndian(r.version, 4), LittleEndian(s.version, 4));
    LittleEndianReads(r.version, s.version, 4);
    OptionReads(r.previous, s.previous);
    OptionReads(r.lastReceipt, s.lastReceipt);
  }
}
