/**
 The workspace root machine (kernel/tools/gen_v40_workspace_vectors.py): operations create and edit files
 under a chain of hashed roots. What every run of it keeps.
 */
module Workspace {
  import opened Wrappers
  import opened Sorting
  import opened ByteStrings
  import opened WorkspaceForms

  const MAX_OBJECTS: nat := 128
  const MAX_PATHS: nat := 128
  const MAX_PATH_BYTES: nat := 256
  const MAX_CONTENT: nat := 65536

  datatype OpKind = CreateFile | EditFile | CreateDirectory

  datatype Operation = Operation(
    version: u32, kind: OpKind, oldRoot: Digest, targetPathHash: Digest, contentHash: Digest, size: nat,
    capability: Digest, toolReceipt: Digest)

  datatype Rejection =
    | InvalidOldRoot | PathTooLong | PathEmpty | ContentTooLarge | InvalidCapability | PathNotFound
    | PathAlreadyExists | NoSlotsAvailable

  datatype State = State(root: Root, objects: seq<Obj>, paths: seq<Entry>, objectCount: nat, pathCount: nat)
  {
    /** The counters count the lists. */
    predicate Counted() {
      objectCount == |objects| && pathCount == |paths| && EntriesOk(paths)
    }
  }

  function KindCode(kind: OpKind): byte {
    match kind case CreateFile => 1 case EditFile => 2 case CreateDirectory => 3
  }

  /** The hashed form of an operation; the path is padded with zero bytes. */
  function Payload(op: Operation, path: Bytes): Bytes
    requires |path| <= 256
  {
    OPERATION_TAG + LittleEndian(op.version, 4) + [KindCode(op.kind)] + op.oldRoot
    + (path + Padding(256 - |path|) + op.contentHash + LittleEndian(op.size, 8) + op.capability + op.toolReceipt)
  }

  function RootHash(s: State, hash: Hash): Digest {
    hash(RootBytes(s.root))
  }

  function Initial(hash: Hash): (s: State)
    ensures s.Counted()
  {
    State(Root(1, hash(ObjectTableBytes([])), hash(PathIndexBytes([])), None, None), [], [], 0, 0)
  }

  /** The position of a path in the table. */
  function Find(paths: seq<Entry>, path: Bytes): (r: Option<nat>)
    requires EntriesOk(paths)
    ensures r.Some? ==> r.value < |paths| && paths[r.value].Path() == path
    ensures r.None? ==> forall i :: 0 <= i < |paths| ==> paths[i].Path() != path
  {
    if paths == [] then None
    else if paths[0].Path() == path then Some(0)
    else match Find(paths[1..], path)
      case None => None
      case Some(i) => Some(i + 1)
  }

  /** The checks made before the tables are looked at. */
  function Precheck(s: State, op: Operation, path: Bytes, hash: Hash): Option<Rejection> {
    if RootHash(s, hash) != op.oldRoot then Some(InvalidOldRoot)
    else if |path| > MAX_PATH_BYTES then Some(PathTooLong)
    else if |path| == 0 then Some(PathEmpty)
    else if op.size > MAX_CONTENT then Some(ContentTooLarge)
    else if op.capability != hash(CAPABILITY_TEXT) then Some(InvalidCapability)
    else if hash(path) != op.targetPathHash then Some(PathNotFound)
    else None
  }

  /** The checks against the tables. */
  function Tablecheck(s: State, kind: OpKind, found: Option<nat>): Option<Rejection> {
    if kind.EditFile? then
      if found.None? then Some(PathNotFound)
      else if s.objectCount >= MAX_OBJECTS then Some(NoSlotsAvailable)
      else None
    else if found.Some? then Some(PathAlreadyExists)
    else if s.pathCount >= MAX_PATHS || s.objectCount >= MAX_OBJECTS then Some(NoSlotsAvailable)
    else None
  }

  function NewObject(op: Operation, path: Bytes, hash: Hash): Obj
    requires |path| <= 256
  {
    MakeObj(if op.kind.CreateDirectory? then Directory else File, op.contentHash, op.size, hash(Payload(op, path)), hash)
  }

  function NewPaths(paths: seq<Entry>, found: Option<nat>, path: Bytes, id: Digest, hash: Hash): (r: seq<Entry>)
    requires EntriesOk(paths) && |path| <= 256 && (found.Some? ==> found.value < |paths|)
    ensures EntriesOk(r)
  {
    match found
    case Some(i) => paths[i := paths[i].(id := id)]
    case None => paths + [MakeEntry(path, id, hash)]
  }

  function Advance(s: State, op: Operation, path: Bytes, found: Option<nat>, hash: Hash): (t: State)
    requires s.Counted() && |path| <= 256 && (found.Some? ==> found.value < |s.paths|)
    ensures t.Counted()
  {
    var created := NewObject(op, path, hash);
    var objects, paths := s.objects + [created], NewPaths(s.paths, found, path, created.id, hash);
    var root := s.root.(previous := Some(RootHash(s, hash)), lastReceipt := Some(hash(Payload(op, path))),
                        objectTableHash := hash(ObjectTableBytes(objects)), pathIndexHash := hash(PathIndexBytes(paths)));
    State(root, objects, paths, |objects|, |paths|)
  }

  function Apply(s: State, op: Operation, path: Bytes, hash: Hash): (r: Result<State, Rejection>)
    requires s.Counted()
    ensures r.Ok? ==> r.value.Counted()
  {
    match Precheck(s, op, path, hash)
    case Some(e) => Err(e)
    case None =>
      var found := Find(s.paths, path);
      match Tablecheck(s, op.kind, found)
      case Some(e) => Err(e)
      case None => Ok(Advance(s, op, path, found, hash))
  }

  // ------------------------------------------------- the program's loops

  method FindPath(s: State, path: Bytes) returns (r: Option<nat>)
    requires s.Counted()
    ensures r == Find(s.paths, path)
  {
    for i := 0 to s.pathCount
      invariant Find(s.paths, path) == match Find(s.paths[i..], path) case None => None case Some(k) => Some(k + i)
    {
      assert s.paths[i..][1..] == s.paths[i + 1..];
      var e := s.paths[i];
      if e.pathLen == |path| && e.pathBytes[..e.pathLen] == path {
        return Some(i);
      }
    }
    r := None;
  }

  method ObjectTableHash(objects: seq<Obj>, hash: Hash) returns (r: Digest)
    ensures r == hash(ObjectTableBytes(objects))
  {
    if |objects| == 0 {
      assert OBJECT_TABLE_TAG + Records([]) == OBJECT_TABLE_TAG;
      return hash(OBJECT_TABLE_TAG);
    }
    var sorted := Sort(objects, ObjLe);
    var bytes := OBJECT_TABLE_TAG;
    for i := 0 to |sorted|
      invariant OBJECT_TABLE_TAG + Records(sorted) == bytes + Records(sorted[i..])
    {
      assert sorted[i..][1..] == sorted[i + 1..];
      bytes := bytes + RecordOf(sorted[i]);
    }
    assert bytes + Records(sorted[|sorted|..]) == bytes;
    r := hash(bytes);
  }

  method PathIndexHash(paths: seq<Entry>, hash: Hash) returns (r: Digest)
    requires EntriesOk(paths)
    ensures r == hash(PathIndexBytes(paths))
  {
    if |paths| == 0 {
      assert PathIndexBytes(paths) == PATH_INDEX_TAG;
      return hash(PATH_INDEX_TAG);
    }
    SortedEntriesOk(paths);
    var sorted := Sort(paths, EntryLe);
    var bytes := PATH_INDEX_TAG;
    for i := 0 to |sorted|
      invariant PATH_INDEX_TAG + EntriesBytes(sorted) == bytes + EntriesBytes(sorted[i..])
    {
      assert sorted[i..][1..] == sorted[i + 1..];
      var e := sorted[i];
      bytes := bytes + (LittleEndian(e.pathLen, 2) + e.pathBytes[..e.pathLen] + e.id);
    }
    assert bytes + EntriesBytes(sorted[|sorted|..]) == bytes;
    r := hash(bytes);
  }

  /** One operation, on a copy of the state that is edited step by step. */
  method ApplyOperation(s: State, op: Operation, path: Bytes, hash: Hash) returns (t: State, accepted: bool, error: Option<Rejection>)
    requires s.Counted()
    ensures match Apply(s, op, path, hash)
            case Ok(u) => t == u && accepted && error == None
            case Err(e) => t == s && !accepted && error == Some(e)
  {
    hide Payload, RootBytes, ObjectTableBytes, PathIndexBytes, MakeObj, Find;
    t, accepted, error := s, false, None;
    var old' := RootHash(s, hash);
    if old' != op.oldRoot {
      return s, false, Some(InvalidOldRoot);
    }
    if |path| > MAX_PATH_BYTES {
      return s, false, Some(PathTooLong);
    }
    if |path| == 0 {
      return s, false, Some(PathEmpty);
    }
    if op.size > MAX_CONTENT {
      return s, false, Some(ContentTooLarge);
    }
    if op.capability != hash(CAPABILITY_TEXT) {
      return s, false, Some(InvalidCapability);
    }
    if hash(path) != op.targetPathHash {
      return s, false, Some(PathNotFound);
    }
    var receipt := hash(Payload(op, path));
    var found := FindPath(s, path);
    var objects, paths, objectCount, pathCount := s.objects, s.paths, s.objectCount, s.pathCount;
    if op.kind.EditFile? {
      if found.None? {
        return s, false, Some(PathNotFound);
      }
      if objectCount >= MAX_OBJECTS {
        return s, false, Some(NoSlotsAvailable);
      }
      var created := MakeObj(File, op.contentHash, op.size, receipt, hash);
      objects, objectCount := objects + [created], objectCount + 1;
      paths := paths[found.value := paths[found.value].(id := created.id)];
    } else {
      if found.Some? {
        return s, false, Some(PathAlreadyExists);
      }
      if pathCount >= MAX_PATHS || objectCount >= MAX_OBJECTS {
        return s, false, Some(NoSlotsAvailable);
      }
      var kind := if op.kind.CreateFile? then File else Directory;
      var created := MakeObj(kind, op.contentHash, op.size, receipt, hash);
      objects, objectCount := objects + [created], objectCount + 1;
      paths, pathCount := paths + [MakeEntry(path, created.id, hash)], pathCount + 1;
    }
    var tableHash := ObjectTableHash(objects, hash);
    var indexHash := PathIndexHash(paths, hash);
    var root := s.root.(previous := Some(old'), lastReceipt := Some(receipt), objectTableHash := tableHash, pathIndexHash := indexHash);
    t, accepted := State(root, objects, paths, objectCount, pathCount), true;
  }
}
