/**
 What the workspace machine accepts and writes (kernel/tools/gen_v40_workspace_vectors.py), in the terms of its
 requests: every check with its constant, the order of the checks, and the place of every field in the bytes hashed.
 */
module WorkspaceMeaning {
  import opened Wrappers
  import opened Powers
  import opened Sorting
  import opened ByteStrings
  import opened WorkspaceForms
  import opened Workspace
  import opened WorkspaceRuns

  // ------------------------------------------------- which operations are accepted

  /** The digest every writer has to present. */
  function Sentinel(hash: Hash): Digest {
    hash(Ascii("CAPv1write:/workspace"))
  }

  lemma SentinelText()
    ensures CAPABILITY_TEXT == Ascii("CAPv1write:/workspace")
  {
  }

  /** An operation is accepted exactly when it names the present root, a path of 1 to 256 bytes and its digest, at most
   65536 bytes and the capability, and there is room; and when its path is there to edit, or not there to create. */
  lemma Acceptance(s: State, op: Operation, path: Bytes, hash: Hash)
    requires s.Counted() && Inv(s, hash)
    ensures Apply(s, op, path, hash).Ok?
       <==> && op.oldRoot == hash(RootBytes(s.root)) && 0 < |path| <= 256 && op.size <= 65536
            && op.capability == Sentinel(hash) && op.targetPathHash == hash(path) && |s.objects| < 128
            && (if op.kind == EditFile then path in PathMap(s.paths) else path !in PathMap(s.paths) && |s.paths| < 128)
  {
    hide Inv, RootBytes, PathMap;
    SentinelText();
    StepEffect(s, op, path, hash);
  }

  lemma FoundPath(s: State, path: Bytes)
    requires s.Counted()
    ensures Find(s.paths, path).Some? <==> path in PathMap(s.paths)
  {
    FindKnows(s.paths, path);
  }

  /** Which reason a refused operation is given: that of the first check it fails. */
  lemma Refusal(s: State, op: Operation, path: Bytes, hash: Hash)
    requires s.Counted() && Inv(s, hash)
    ensures var r := Apply(s, op, path, hash);
            var known := path in PathMap(s.paths);
            var current := op.oldRoot == hash(RootBytes(s.root));
            var short := current && 0 < |path| <= 256 && op.size <= 65536;
            var checked := short && op.capability == Sentinel(hash) && op.targetPathHash == hash(path);
            && (r == Err(InvalidOldRoot) <==> !current)
            && (r == Err(PathTooLong) <==> current && |path| > 256)
            && (r == Err(PathEmpty) <==> current && |path| == 0)
            && (r == Err(ContentTooLarge) <==> current && 0 < |path| <= 256 && op.size > 65536)
            && (r == Err(InvalidCapability) <==> short && op.capability != Sentinel(hash))
            && (r == Err(PathNotFound) <==> short && op.capability == Sentinel(hash)
                                            && (op.targetPathHash != hash(path) || (op.kind == EditFile && !known)))
            && (r == Err(PathAlreadyExists) <==> checked && op.kind != EditFile && known)
            && (r == Err(NoSlotsAvailable)
                <==> checked && if op.kind == EditFile then known && |s.objects| == 128
                                else !known && (|s.objects| == 128 || |s.paths| == 128))
  {
    hide RootBytes, PathMap, Advance, Find, AllAuthentic, Plain, Live, DistinctPaths;
    SentinelText();
    FoundPath(s, path);
  }

  /** What an accepted operation leaves behind: one object more, made from the operation, and a root that names the last one. */
  lemma Effect(s: State, op: Operation, path: Bytes, hash: Hash)
    requires s.Counted() && Inv(s, hash) && Apply(s, op, path, hash).Ok?
    ensures |path| <= 256
    ensures var t := Apply(s, op, path, hash).value;
            var receipt := hash(Payload(op, path));
            && |t.objects| == |s.objects| + 1 && t.objects[..|s.objects|] == s.objects
            && (var o := t.objects[|s.objects|];
                && o.kind == (if op.kind == CreateDirectory then Directory else File)
                && o.contentHash == op.contentHash && o.size == op.size && o.createdBy == receipt
                && o.id == hash([if o.kind == File then 1 else 2] + op.contentHash + LittleEndian(op.size, 8) + receipt)
                && PathMap(t.paths) == PathMap(s.paths)[path := o.id])
            && t.root == Root(s.root.version, hash(ObjectTableBytes(t.objects)), hash(PathIndexBytes(t.paths)),
                              Some(hash(RootBytes(s.root))), Some(receipt))
            && t.objectCount == |t.objects| && t.pathCount == |t.paths|
  {
    hide Inv, RootBytes, PathMap, Payload, ObjectTableBytes, PathIndexBytes, Find, NewPaths;
    StepEffect(s, op, path, hash);
  }

  /** The path table after an accepted operation: one entry more, or the entry of the path with the new object. */
  lemma EffectOnPaths(s: State, op: Operation, path: Bytes, hash: Hash)
    requires s.Counted() && Inv(s, hash) && Apply(s, op, path, hash).Ok?
    ensures var t := Apply(s, op, path, hash).value;
            && |t.objects| > 0
            && (var id := t.objects[|t.objects| - 1].id;
                if op.kind == EditFile then
                  exists i :: 0 <= i < |s.paths| && s.paths[i].Path() == path && t.paths == s.paths[i := s.paths[i].(id := id)]
                else
                  && |t.paths| == |s.paths| + 1 && t.paths[..|s.paths|] == s.paths
                  && (var e := t.paths[|s.paths|];
                      e.pathHash == hash(path) && e.pathLen == |path| && e.id == id && |e.pathBytes| == 256
                      && e.pathBytes[..|path|] == path && forall k :: |path| <= k < 256 ==> e.pathBytes[k] == 0))
  {
    hide Inv, RootBytes, Payload, ObjectTableBytes, PathIndexBytes, Record;
    var found := Find(s.paths, path);
    if op.kind == EditFile {
      assert s.paths[found.value].Path() == path;
    }
  }

  /** A workspace begins empty, at version 1, with nothing before it. */
  lemma InitialMeans(hash: Hash)
    ensures var s := Initial(hash);
            s.objects == [] && s.paths == [] && s.objectCount == 0 && s.pathCount == 0
            && s.root == Root(1, hash(Ascii("WSOBJTABv1")), hash(Ascii("WSPATHIDXv1")), None, None)
  {
    assert ObjectTableBytes([]) == OBJECT_TABLE_TAG == Ascii("WSOBJTABv1");
    assert PathIndexBytes([]) == PATH_INDEX_TAG == Ascii("WSPATHIDXv1");
  }

  /** Over runs: whatever was accepted presented the capability, a bounded size and a path of 1 to 256 bytes. */
  lemma AcceptedRequests(requests: seq<Request>, k: nat, hash: Hash)
    requires k < |requests| && IsAccepted(requests, k, hash)
    ensures var op := requests[k].op;
            && op.capability == Sentinel(hash) && op.size <= 65536 && 0 < |requests[k].path| <= 256
            && op.targetPathHash == hash(requests[k].path) && op.oldRoot == hash(RootBytes(StateAfter(requests[..k], hash).root))
  {
    hide Inv, RootBytes, PathMap, StateAfter, Apply;
    RunKeeps(requests[..k], hash);
    Acceptance(StateAfter(requests[..k], hash), requests[k].op, requests[k].path, hash);
  }

  // ------------------------------------------------- the bytes that are hashed

  /** Byte i of a little-endian number is its digit of weight 256 to the i. */
  lemma {:induction false} LittleEndianDigit(n: nat, k: nat, i: nat)
    requires i < k
    ensures LittleEndian(n, k)[i] == n / Pow(256, i) % 256
  {
    if i > 0 {
      LittleEndianDigit(n / 256, k - 1, i - 1);
      DivideTwice(n, Pow(256, i - 1));
    } else {
      assert Pow(256, 0) == 1;
    }
  }

  lemma DivideTwice(n: nat, p: nat)
    requires p > 0
    ensures n / 256 / p == n / (256 * p)
  {
    var (q, r) := (n / 256 / p, n / 256 % p);
    assert n / 256 == q * p + r;
    assert n == 256 * (q * p + r) + n % 256;
    assert n == q * (256 * p) + (256 * r + n % 256);
    QuotientIs(n, 256 * p, q, 256 * r + n % 256);
  }

  lemma RootFront(tag: Bytes, version: Bytes, objects: Bytes, paths: Bytes, tail: Bytes)
    requires |tag| == 8 && |version| == 4 && |objects| == 32 && |paths| == 32 && |tail| == 66
    ensures var b := tag + version + objects + paths + tail;
            |b| == 142 && b[..8] == tag && b[8..12] == version && b[12..44] == objects && b[44..76] == paths && b[76..] == tail
  {
    var b := tag + version + objects + paths + tail;
    assert b[12..44] == objects;
    assert b[44..76] == paths;
  }

  lemma RootBack(front: Bytes, previous: Bytes, receipt: Bytes)
    requires |front| == 76 && |previous| == 33 && |receipt| == 33
    ensures var b := front + (previous + receipt);
            b[76] == previous[0] && b[77..109] == previous[1..] && b[109] == receipt[0] && b[110..142] == receipt[1..]
  {
  }

  /** The place of every field of a root. */
  lemma RootLayout(r: Root)
    ensures var b := RootBytes(r);
            && |b| == 142 && b[..8] == Ascii("WSROOTv1") && b[8..12] == LittleEndian(r.version, 4)
            && b[12..44] == r.objectTableHash && b[44..76] == r.pathIndexHash
            && b[76] == (if r.previous.Some? then 1 else 0) && (r.previous.Some? ==> b[77..109] == r.previous.value)
            && b[109] == (if r.lastReceipt.Some? then 1 else 0) && (r.lastReceipt.Some? ==> b[110..142] == r.lastReceipt.value)
  {
    hide LittleEndian, OptionBytes;
    OptionLayout(r.previous);
    OptionLayout(r.lastReceipt);
    assert ROOT_TAG == Ascii("WSROOTv1");
    var front := ROOT_TAG + LittleEndian(r.version, 4) + r.objectTableHash + r.pathIndexHash;
    assert RootBytes(r) == front + (OptionBytes(r.previous) + OptionBytes(r.lastReceipt));
    RootFront(ROOT_TAG, LittleEndian(r.version, 4), r.objectTableHash, r.pathIndexHash, OptionBytes(r.previous) + OptionBytes(r.lastReceipt));
    RootBack(front, OptionBytes(r.previous), OptionBytes(r.lastReceipt));
  }

  lemma OptionLayout(d: Option<Digest>)
    ensures OptionBytes(d)[0] == (if d.Some? then 1 else 0) && (d.Some? ==> OptionBytes(d)[1..] == d.value)
  {
  }

  /** The place of every field of a hashed operation. */
  lemma PayloadLayout(op: Operation, path: Bytes)
    requires |path| <= 256
    ensures var b := Payload(op, path);
            && |b| == 403 && b[..6] == Ascii("WSOPv1") && b[6..10] == LittleEndian(op.version, 4)
            && b[10] == (match op.kind case CreateFile => 1 case EditFile => 2 case CreateDirectory => 3)
            && b[11..43] == op.oldRoot && b[43..43 + |path|] == path && (forall i :: 43 + |path| <= i < 299 ==> b[i] == 0)
            && b[299..331] == op.contentHash && b[331..339] == LittleEndian(op.size, 8)
            && b[339..371] == op.capability && b[371..403] == op.toolReceipt
  {
    hide LittleEndian;
    assert OPERATION_TAG == Ascii("WSOPv1");
    var padded := path + Padding(256 - |path|);
    var head := OPERATION_TAG + LittleEndian(op.version, 4) + [KindCode(op.kind)] + op.oldRoot;
    var tail := op.contentHash + LittleEndian(op.size, 8) + op.capability + op.toolReceipt;
    var b := Payload(op, path);
    assert b == head + padded + tail;
    assert |head| == 43 && b[..43] == head && b[43..299] == padded && b[299..] == tail;
    assert b[43..43 + |path|] == padded[..|path|] == path;
    forall i | 43 + |path| <= i < 299
      ensures b[i] == 0
    {
      assert b[i] == padded[i - 43];
    }
    HeadLayout(op);
    TailLayout(op, b[..299], tail);
  }

  lemma HeadLayout(op: Operation)
    ensures var head := OPERATION_TAG + LittleEndian(op.version, 4) + [KindCode(op.kind)] + op.oldRoot;
            head[..6] == OPERATION_TAG && head[6..10] == LittleEndian(op.version, 4) && head[10] == KindCode(op.kind)
            && head[11..43] == op.oldRoot
  {
    hide LittleEndian;
  }

  lemma TailLayout(op: Operation, front: Bytes, tail: Bytes)
    requires |front| == 299 && tail == op.contentHash + LittleEndian(op.size, 8) + op.capability + op.toolReceipt
    ensures var b := front + tail;
            && |b| == 403 && b[299..331] == op.contentHash && b[331..339] == LittleEndian(op.size, 8)
            && b[339..371] == op.capability && b[371..403] == op.toolReceipt
  {
    hide LittleEndian;
  }

  // ------------------------------------------------- the order of the tables

  function ObjectPart(o: Obj): Bytes {
    [if o.kind == File then 1 else 2] + o.contentHash + LittleEndian(o.size, 8) + o.createdBy
  }

  function ObjectParts(objects: seq<Obj>): seq<Bytes> {
    seq(|objects|, i requires 0 <= i < |objects| => ObjectPart(objects[i]))
  }

  lemma {:induction false} RecordsJoin(objects: seq<Obj>)
    ensures Records(objects) == Join(ObjectParts(objects))
  {
    hide LittleEndian;
    if objects != [] {
      RecordsJoin(objects[1..]);
      assert ObjectParts(objects)[1..] == ObjectParts(objects[1..]);
    }
  }

  /** The object table is hashed in rising order of ids, each object by its kind, content, size and operation. */
  lemma ObjectTableOrder(objects: seq<Obj>) returns (order: seq<Obj>)
    ensures multiset(order) == multiset(objects)
    ensures forall i, j :: 0 <= i < j < |order| ==> !Before(order[j].id, order[i].id)
    ensures ObjectTableBytes(objects) == Ascii("WSOBJTABv1") + Join(ObjectParts(order))
  {
    hide Sort, Before, LexLe;
    order := Sort(objects, ObjLe);
    ObjOrderCompares();
    SortSorted(objects, ObjLe);
    forall i, j | 0 <= i < j < |order|
      ensures !Before(order[j].id, order[i].id)
    {
      assert ObjLe(order[i], order[j]);
      BeforeMeans(order[j].id, order[i].id);
    }
    RecordsJoin(order);
    assert OBJECT_TABLE_TAG == Ascii("WSOBJTABv1");
  }

  function EntryPart(e: Entry): Bytes
    requires e.Ok()
  {
    [e.pathLen % 256, e.pathLen / 256] + e.pathBytes[..e.pathLen] + e.id
  }

  function EntryParts(entries: seq<Entry>): seq<Bytes>
    requires EntriesOk(entries)
  {
    seq(|entries|, i requires 0 <= i < |entries| => EntryPart(entries[i]))
  }

  lemma TwoBytes(n: nat)
    requires n < 65536
    ensures LittleEndian(n, 2) == [n % 256, n / 256]
  {
    assert LittleEndian(n, 2) == [n % 256] + LittleEndian(n / 256, 1);
    assert LittleEndian(n / 256, 1) == [n / 256 % 256] + LittleEndian(n / 256 / 256, 0);
  }

  lemma {:induction false} EntriesJoin(entries: seq<Entry>)
    requires EntriesOk(entries)
    ensures EntriesBytes(entries) == Join(EntryParts(entries))
  {
    hide LittleEndian;
    if entries != [] {
      EntriesJoin(entries[1..]);
      TwoBytes(entries[0].pathLen);
      assert EntryParts(entries)[1..] == EntryParts(entries[1..]);
    }
  }

  /** The path table is hashed in rising order of paths, each by its length, its bytes and its object. */
  lemma PathIndexOrder(paths: seq<Entry>) returns (order: seq<Entry>)
    requires EntriesOk(paths)
    ensures multiset(order) == multiset(paths) && EntriesOk(order)
    ensures forall i, j :: 0 <= i < j < |order| ==> !Before(order[j].Path(), order[i].Path())
    ensures PathIndexBytes(paths) == Ascii("WSPATHIDXv1") + Join(EntryParts(order))
  {
    hide Sort, Before, LexLe;
    order := Sort(paths, EntryLe);
    EntryOrderCompares();
    SortSorted(paths, EntryLe);
    SortedEntriesOk(paths);
    forall i, j | 0 <= i < j < |order|
      ensures !Before(order[j].Path(), order[i].Path())
    {
      assert EntryLe(order[i], order[j]);
      BeforeMeans(order[j].Path(), order[i].Path());
    }
    EntriesJoin(order);
    assert PATH_INDEX_TAG == Ascii("WSPATHIDXv1");
  }
}
