/**
 Every run of the workspace root machine from its initial state: what stays true, what its roots identify,
 and why no operation is accepted twice.
 */
module WorkspaceRuns {
  import opened Wrappers
  import opened Sorting
  import opened ByteStrings
  import opened WorkspaceForms
  import opened Workspace

  datatype Request = Request(op: Operation, path: Bytes)

  /** The state after a list of requests; a rejected request leaves it as it was. */
  function StateAfter(requests: seq<Request>, hash: Hash): (s: State)
    ensures s.Counted()
  {
    if requests == [] then Initial(hash)
    else
      var last := |requests| - 1;
      var before := StateAfter(requests[..last], hash);
      match Apply(before, requests[last].op, requests[last].path, hash)
      case Ok(t) => t
      case Err(_) => before
  }

  predicate IsAccepted(requests: seq<Request>, k: nat, hash: Hash)
    requires k < |requests|
  {
    Apply(StateAfter(requests[..k], hash), requests[k].op, requests[k].path, hash).Ok?
  }

  function AcceptedCount(requests: seq<Request>, n: nat, hash: Hash): (c: nat)
    requires n <= |requests|
    ensures c <= n
  {
    if n == 0 then 0 else AcceptedCount(requests, n - 1, hash) + if IsAccepted(requests, n - 1, hash) then 1 else 0
  }

  function CreatedCount(requests: seq<Request>, n: nat, hash: Hash): (c: nat)
    requires n <= |requests|
  {
    if n == 0 then 0
    else CreatedCount(requests, n - 1, hash)
         + if IsAccepted(requests, n - 1, hash) && !requests[n - 1].op.kind.EditFile? then 1 else 0
  }

  /** The paths of the state and the objects they stand for. */
  function PathMap(paths: seq<Entry>): map<Bytes, Digest>
    requires EntriesOk(paths)
  {
    if paths == [] then map[]
    else PathMap(paths[..|paths| - 1])[paths[|paths| - 1].Path() := paths[|paths| - 1].id]
  }

  ghost predicate DistinctPaths(paths: seq<Entry>)
    requires EntriesOk(paths)
  {
    forall i, j :: 0 <= i < j < |paths| ==> paths[i].Path() != paths[j].Path()
  }

  /** Every path stands for a stored object. */
  ghost predicate Live(paths: seq<Entry>, objects: seq<Obj>) {
    forall i :: 0 <= i < |paths| ==> exists o :: o in objects && o.id == paths[i].id
  }

  /** Entries are as they were made: nothing in them but the path, its digest and the id. */
  ghost predicate Plain(paths: seq<Entry>, hash: Hash)
    requires EntriesOk(paths)
  {
    forall i :: 0 <= i < |paths| ==> paths[i] == MakeEntry(paths[i].Path(), paths[i].id, hash)
  }

  ghost predicate Rooted(s: State, hash: Hash)
    requires EntriesOk(s.paths)
  {
    s.root.objectTableHash == hash(ObjectTableBytes(s.objects)) && s.root.pathIndexHash == hash(PathIndexBytes(s.paths))
  }

  ghost predicate Inv(s: State, hash: Hash)
    requires EntriesOk(s.paths)
  {
    && |s.objects| <= MAX_OBJECTS && |s.paths| <= MAX_PATHS
    && DistinctPaths(s.paths) && Live(s.paths, s.objects) && Plain(s.paths, hash)
    && AllAuthentic(s.objects, hash) && Rooted(s, hash)
  }

  // ------------------------------------------------- one step

  lemma {:induction false} LinkedPath(paths: seq<Entry>, path: Bytes, id: Digest)
    requires EntriesOk(paths) && (path, id) in Links(paths)
    ensures exists i :: 0 <= i < |paths| && paths[i].Path() == path
  {
    var i :| 0 <= i < |paths| && Links(paths)[i] == (path, id);
    assert paths[i].Path() == path;
  }

  /** In a table of distinct paths, the map holds exactly the links of the entries. */
  lemma {:induction false} LinkMember(paths: seq<Entry>, path: Bytes, id: Digest)
    requires EntriesOk(paths) && DistinctPaths(paths)
    ensures (path in PathMap(paths) && PathMap(paths)[path] == id) <==> (path, id) in Links(paths)
  {
    hide Links;
    if paths == [] {
      assert |Links(paths)| == 0;
    } else {
      var last := |paths| - 1;
      LinkMember(paths[..last], path, id);
      LinksSplit(paths, (path, id));
      if (path, id) in Links(paths[..last]) {
        LinkedPath(paths[..last], path, id);
      }
    }
  }

  lemma {:induction false} LinksSplit(paths: seq<Entry>, x: (Bytes, Digest))
    requires EntriesOk(paths) && paths != []
    ensures x in Links(paths) <==> x in Links(paths[..|paths| - 1]) || x == Link(paths[|paths| - 1])
  {
    hide Links;
    var last := |paths| - 1;
    var before := Links(paths[..last]);
    assert Links(paths) == before + [Link(paths[last])];
  }

  lemma {:induction false} PathKnown(paths: seq<Entry>, path: Bytes)
    requires EntriesOk(paths)
    ensures path in PathMap(paths) <==> exists i :: 0 <= i < |paths| && paths[i].Path() == path
  {
    if paths != [] {
      var last := |paths| - 1;
      PathKnown(paths[..last], path);
      if i :| 0 <= i < |paths| && paths[i].Path() == path {
        assert i < last ==> paths[..last][i].Path() == path;
      }
    }
  }

  /** Find decides whether a path is in the map. */
  lemma FindKnows(paths: seq<Entry>, path: Bytes)
    requires EntriesOk(paths)
    ensures Find(paths, path).Some? <==> path in PathMap(paths)
  {
    PathKnown(paths, path);
    var found := Find(paths, path);
  }

  /** Redirecting the entry of a path redirects the path. */
  lemma {:induction false} RedirectMap(paths: seq<Entry>, k: nat, id: Digest)
    requires EntriesOk(paths) && DistinctPaths(paths) && k < |paths|
    ensures EntriesOk(paths[k := paths[k].(id := id)])
    ensures PathMap(paths[k := paths[k].(id := id)]) == PathMap(paths)[paths[k].Path() := id]
  {
    var last, changed := |paths| - 1, paths[k := paths[k].(id := id)];
    if k == last {
      assert changed[..last] == paths[..last];
    } else {
      RedirectMap(paths[..last], k, id);
      assert changed[..last] == paths[..last][k := paths[k].(id := id)];
    }
  }

  lemma ExtendMap(paths: seq<Entry>, e: Entry)
    requires EntriesOk(paths) && e.Ok()
    ensures PathMap(paths + [e]) == PathMap(paths)[e.Path() := e.id]
  {
    assert (paths + [e])[..|paths|] == paths;
  }

  lemma NewPathsKeep(paths: seq<Entry>, found: Option<nat>, path: Bytes, id: Digest, hash: Hash)
    requires EntriesOk(paths) && |path| <= 256 && DistinctPaths(paths) && Plain(paths, hash)
    requires found.Some? ==> found.value < |paths| && paths[found.value].Path() == path
    requires found.None? ==> forall i :: 0 <= i < |paths| ==> paths[i].Path() != path
    ensures var t := NewPaths(paths, found, path, id, hash);
            && DistinctPaths(t) && Plain(t, hash) && PathMap(t) == PathMap(paths)[path := id]
            && |t| == |paths| + (if found.None? then 1 else 0)
            && (forall i :: 0 <= i < |t| ==> t[i].id == id || (i < |paths| && t[i].id == paths[i].id))
  {
    hide PathMap;
    match found
    case Some(i) => RedirectMap(paths, i, id);
    case None => ExtendMap(paths, MakeEntry(path, id, hash));
  }

  lemma StillLive(paths: seq<Entry>, objects: seq<Obj>, created: Obj, t: seq<Entry>)
    requires Live(paths, objects)
    requires forall i :: 0 <= i < |t| ==> t[i].id == created.id || (i < |paths| && t[i].id == paths[i].id)
    ensures Live(t, objects + [created])
  {
    forall i | 0 <= i < |t|
      ensures exists o :: o in objects + [created] && o.id == t[i].id
    {
      if t[i].id == created.id {
        assert created in objects + [created];
      } else {
        var o :| o in objects && o.id == paths[i].id;
        assert o in objects + [created];
      }
    }
  }

  /** What an accepted operation does, in terms of the path map, and when one is accepted. */
  lemma StepEffect(s: State, op: Operation, path: Bytes, hash: Hash)
    requires s.Counted() && Inv(s, hash)
    ensures var r := Apply(s, op, path, hash);
            && (r.Ok? <==> && Precheck(s, op, path, hash).None? && |s.objects| < MAX_OBJECTS
                           && (if op.kind.EditFile? then path in PathMap(s.paths)
                               else path !in PathMap(s.paths) && |s.paths| < MAX_PATHS))
            && (r.Ok? ==> var created := NewObject(op, path, hash);
                && Inv(r.value, hash) && r.value.objects == s.objects + [created]
                && PathMap(r.value.paths) == PathMap(s.paths)[path := created.id]
                && r.value.pathCount == s.pathCount + (if op.kind.EditFile? then 0 else 1)
                && r.value.root.previous == Some(RootHash(s, hash)))
  {
    hide Payload, RootBytes, ObjectTableBytes, PathIndexBytes, Record, PathMap, Plain, DistinctPaths, Live, NewPaths;
    var found := Find(s.paths, path);
    FindKnows(s.paths, path);
    if Apply(s, op, path, hash).Ok? {
      var created := NewObject(op, path, hash);
      NewPathsKeep(s.paths, found, path, created.id, hash);
      StillLive(s.paths, s.objects, created, NewPaths(s.paths, found, path, created.id, hash));
    }
  }

  // ------------------------------------------------- runs

  lemma InitialInv(hash: Hash)
    ensures Inv(Initial(hash), hash)
  {
  }

  /** The path map after a run: each accepted request points its path at the object it made. */
  function Replay(requests: seq<Request>, hash: Hash): map<Bytes, Digest> {
    if requests == [] then map[]
    else
      var last := |requests| - 1;
      if IsAccepted(requests, last, hash) && |requests[last].path| <= 256 then
        Replay(requests[..last], hash)[requests[last].path := NewObject(requests[last].op, requests[last].path, hash).id]
      else Replay(requests[..last], hash)
  }

  lemma {:induction false} CountsOfPrefix(requests: seq<Request>, m: nat, n: nat, hash: Hash)
    requires n <= m <= |requests|
    ensures AcceptedCount(requests[..m], n, hash) == AcceptedCount(requests, n, hash)
    ensures CreatedCount(requests[..m], n, hash) == CreatedCount(requests, n, hash)
  {
    hide StateAfter, Apply;
    if n > 0 {
      CountsOfPrefix(requests, m, n - 1, hash);
      assert requests[..m][..n - 1] == requests[..n - 1];
    }
  }

  /**
   What holds after every run: the invariant; the object count is the number of accepted operations, so at
   most 128 are ever accepted; the path count is the number of accepted creations; and the path map is the
   replay of the accepted requests.
   */
  lemma {:induction false} RunKeeps(requests: seq<Request>, hash: Hash)
    ensures var s := StateAfter(requests, hash);
            && Inv(s, hash)
            && s.objectCount == AcceptedCount(requests, |requests|, hash) <= MAX_OBJECTS
            && s.pathCount == CreatedCount(requests, |requests|, hash)
            && PathMap(s.paths) == Replay(requests, hash)
  {
    hide Inv, Apply, PathMap, NewObject;
    if requests == [] {
      InitialInv(hash);
      NoPaths(hash);
    } else {
      var last := |requests| - 1;
      RunKeeps(requests[..last], hash);
      CountsOfPrefix(requests, last, last, hash);
      StepEffect(StateAfter(requests[..last], hash), requests[last].op, requests[last].path, hash);
      if IsAccepted(requests, last, hash) {
        AcceptedIsShort(StateAfter(requests[..last], hash), requests[last].op, requests[last].path, hash);
      }
    }
    AtMostAll(requests, hash);
  }

  lemma AtMostAll(requests: seq<Request>, hash: Hash)
    requires Inv(StateAfter(requests, hash), hash)
    ensures StateAfter(requests, hash).objectCount <= MAX_OBJECTS
  {
  }

  lemma NoPaths(hash: Hash)
    ensures PathMap(Initial(hash).paths) == map[] && Initial(hash).objectCount == 0 && Initial(hash).pathCount == 0
  {
  }

  lemma AcceptedIsShort(s: State, op: Operation, path: Bytes, hash: Hash)
    requires s.Counted() && Apply(s, op, path, hash).Ok?
    ensures |path| <= 256 && op.oldRoot == RootHash(s, hash)
  {
  }

  // ------------------------------------------------- roots differ, operations do not repeat

  /** The bytes of all the roots a run passes through. */
  function RootMessages(requests: seq<Request>, hash: Hash): set<Bytes> {
    {RootBytes(StateAfter(requests, hash).root)}
    + if requests == [] then {} else RootMessages(requests[..|requests| - 1], hash)
  }

  lemma {:induction false} RootListed(requests: seq<Request>, k: nat, hash: Hash)
    requires k <= |requests|
    ensures RootBytes(StateAfter(requests[..k], hash).root) in RootMessages(requests, hash)
  {
    hide StateAfter, RootBytes;
    if k == |requests| {
      assert requests[..k] == requests;
    } else {
      RootListed(requests[..|requests| - 1], k, hash);
      assert requests[..|requests| - 1][..k] == requests[..k];
    }
  }

  /** The state after one more request. */
  lemma OneMore(requests: seq<Request>, k: nat, hash: Hash)
    requires 0 < k <= |requests|
    ensures var before := StateAfter(requests[..k - 1], hash);
            StateAfter(requests[..k], hash)
            == match Apply(before, requests[k - 1].op, requests[k - 1].path, hash) case Ok(t) => t case Err(_) => before
  {
    hide Apply;
    assert requests[..k][..k - 1] == requests[..k - 1];
  }

  /** The root after an accepted request remembers the root before it. */
  lemma RemembersRoot(requests: seq<Request>, k: nat, hash: Hash)
    requires k < |requests| && IsAccepted(requests, k, hash)
    ensures StateAfter(requests[..k + 1], hash).root.previous == Some(RootHash(StateAfter(requests[..k], hash), hash))
  {
    hide StateAfter, Payload, RootBytes, ObjectTableBytes, PathIndexBytes, MakeObj, Find;
    OneMore(requests, k + 1, hash);
  }

  lemma RejectedKeeps(requests: seq<Request>, k: nat, hash: Hash)
    requires k < |requests| && !IsAccepted(requests, k, hash)
    ensures StateAfter(requests[..k + 1], hash) == StateAfter(requests[..k], hash)
  {
    hide StateAfter, Apply;
    OneMore(requests, k + 1, hash);
  }

  lemma StartForgets(requests: seq<Request>, hash: Hash)
    ensures StateAfter(requests[..0], hash).root.previous == None
  {
  }

  /** Without collisions among its roots, a run never returns to a root hash after an accepted operation. */
  lemma {:induction false} RootsDiffer(requests: seq<Request>, i: nat, j: nat, hash: Hash)
    requires i <= j <= |requests| && AcceptedCount(requests, i, hash) < AcceptedCount(requests, j, hash)
    requires InjectiveOn(hash, RootMessages(requests, hash))
    ensures RootHash(StateAfter(requests[..i], hash), hash) != RootHash(StateAfter(requests[..j], hash), hash)
    decreases i + j
  {
    hide StateAfter, Apply, RootBytes, RootMessages, IsAccepted, InjectiveOn;
    if !IsAccepted(requests, j - 1, hash) {
      RejectedKeeps(requests, j - 1, hash);
      RootsDiffer(requests, i, j - 1, hash);
    } else if i > 0 && !IsAccepted(requests, i - 1, hash) {
      RejectedKeeps(requests, i - 1, hash);
      RootsDiffer(requests, i - 1, j, hash);
    } else {
      var s, t := StateAfter(requests[..i], hash), StateAfter(requests[..j], hash);
      RemembersRoot(requests, j - 1, hash);
      if i == 0 {
        StartForgets(requests, hash);
      } else {
        RemembersRoot(requests, i - 1, hash);
        RootsDiffer(requests, i - 1, j - 1, hash);
      }
      assert s.root != t.root;
      if RootHash(s, hash) == RootHash(t, hash) {
        RootListed(requests, i, hash);
        RootListed(requests, j, hash);
        NoCollision(hash, RootMessages(requests, hash), RootBytes(s.root), RootBytes(t.root));
        RootReads(s.root, t.root);
      }
    }
  }

  lemma NoCollision(hash: Hash, messages: set<Bytes>, x: Bytes, y: Bytes)
    requires InjectiveOn(hash, messages) && x in messages && y in messages && hash(x) == hash(y)
    ensures x == y
  {
  }

  lemma {:induction false} CountGrows(requests: seq<Request>, i: nat, j: nat, hash: Hash)
    requires i < j <= |requests| && IsAccepted(requests, i, hash)
    ensures AcceptedCount(requests, i, hash) < AcceptedCount(requests, j, hash)
  {
    hide IsAccepted;
    if i + 1 < j {
      CountGrows(requests, i, j - 1, hash);
    }
  }

  lemma AcceptedOnRoot(requests: seq<Request>, k: nat, hash: Hash)
    requires k < |requests| && IsAccepted(requests, k, hash)
    ensures |requests[k].path| <= 256 && requests[k].op.oldRoot == RootHash(StateAfter(requests[..k], hash), hash)
  {
    hide StateAfter, Apply;
    AcceptedIsShort(StateAfter(requests[..k], hash), requests[k].op, requests[k].path, hash);
  }

  /** No operation is accepted twice in a run: two accepted operations build on different roots. */
  lemma NoOperationTwice(requests: seq<Request>, i: nat, j: nat, hash: Hash)
    requires i < j < |requests| && IsAccepted(requests, i, hash) && IsAccepted(requests, j, hash)
    requires InjectiveOn(hash, RootMessages(requests, hash))
    ensures requests[i].op.oldRoot != requests[j].op.oldRoot && requests[i].op != requests[j].op
  {
    hide StateAfter, IsAccepted, RootMessages, InjectiveOn;
    CountGrows(requests, i, j, hash);
    RootsDiffer(requests, i, j, hash);
    AcceptedOnRoot(requests, i, hash);
    AcceptedOnRoot(requests, j, hash);
  }

  // ------------------------------------------------- objects do not share ids

  /** The operation and object records hashed in a run. */
  function MadeMessages(requests: seq<Request>, hash: Hash): set<Bytes> {
    if requests == [] then {}
    else
      var last := |requests| - 1;
      MadeMessages(requests[..last], hash)
      + if |requests[last].path| <= 256
        then {Payload(requests[last].op, requests[last].path), RecordOf(NewObject(requests[last].op, requests[last].path, hash))}
        else {}
  }

  lemma {:induction false} MadeListed(requests: seq<Request>, k: nat, hash: Hash)
    requires k < |requests| && |requests[k].path| <= 256
    ensures Payload(requests[k].op, requests[k].path) in MadeMessages(requests, hash)
    ensures RecordOf(NewObject(requests[k].op, requests[k].path, hash)) in MadeMessages(requests, hash)
  {
    hide Payload, NewObject, RecordOf;
    if k < |requests| - 1 {
      MadeListed(requests[..|requests| - 1], k, hash);
    }
  }

  /** The object at each place of the table was made by the accepted request of that number. */
  lemma {:induction false} ObjectOrigin(requests: seq<Request>, n: nat, a: nat, hash: Hash) returns (k: nat)
    requires n <= |requests| && a < AcceptedCount(requests, n, hash)
    ensures k < n && IsAccepted(requests, k, hash) && AcceptedCount(requests, k, hash) == a && |requests[k].path| <= 256
    ensures a < |StateAfter(requests[..n], hash).objects|
    ensures StateAfter(requests[..n], hash).objects[a] == NewObject(requests[k].op, requests[k].path, hash)
  {
    hide StateAfter, Apply, NewObject, Inv;
    var before := StateAfter(requests[..n - 1], hash);
    OneMore(requests, n, hash);
    RunKeeps(requests[..n - 1], hash);
    CountsOfPrefix(requests, n - 1, n - 1, hash);
    StepEffect(before, requests[n - 1].op, requests[n - 1].path, hash);
    if a == AcceptedCount(requests, n - 1, hash) {
      k := n - 1;
      AcceptedOnRoot(requests, k, hash);
    } else {
      k := ObjectOrigin(requests, n - 1, a, hash);
    }
  }

  lemma PayloadReads(op: Operation, path: Bytes, op': Operation, path': Bytes)
    requires |path| <= 256 && |path'| <= 256 && Payload(op, path) == Payload(op', path')
    ensures op.oldRoot == op'.oldRoot
  {
    hide LittleEndian;
    var (a, b) := (OPERATION_TAG + LittleEndian(op.version, 4) + [KindCode(op.kind)],
                   OPERATION_TAG + LittleEndian(op'.version, 4) + [KindCode(op'.kind)]);
    var (x, y) := (path + Padding(256 - |path|) + op.contentHash + LittleEndian(op.size, 8) + op.capability + op.toolReceipt,
                   path' + Padding(256 - |path'|) + op'.contentHash + LittleEndian(op'.size, 8) + op'.capability + op'.toolReceipt);
    SplitEqual(a + op.oldRoot, b + op'.oldRoot, x, y);
    SplitEqual(a, b, op.oldRoot, op'.oldRoot);
  }

  lemma RecordMaker(o: Obj, p: Obj)
    requires RecordOf(o) == RecordOf(p)
    ensures o.createdBy == p.createdBy
  {
    hide LittleEndian;
    SplitEqual([KindByte(o.kind)] + o.contentHash + LittleEndian(o.size, 8),
               [KindByte(p.kind)] + p.contentHash + LittleEndian(p.size, 8), o.createdBy, p.createdBy);
  }

  /** Without collisions, the objects of a run have different ids: a path stands for exactly one object. */
  lemma ObjectIdsDiffer(requests: seq<Request>, a: nat, b: nat, hash: Hash)
    requires a < b < |StateAfter(requests, hash).objects|
    requires InjectiveOn(hash, RootMessages(requests, hash)) && InjectiveOn(hash, MadeMessages(requests, hash))
    ensures StateAfter(requests, hash).objects[a].id != StateAfter(requests, hash).objects[b].id
  {
    hide StateAfter, IsAccepted, RootMessages, MadeMessages, InjectiveOn, Inv, Payload, Record, PathMap, Replay;
    RunKeeps(requests, hash);
    assert requests[..|requests|] == requests;
    var i := ObjectOrigin(requests, |requests|, a, hash);
    var j := ObjectOrigin(requests, |requests|, b, hash);
    if j < i {
      CountGrows(requests, j, i, hash);
    }
    NoOperationTwice(requests, i, j, hash);
    MadeListed(requests, i, hash);
    MadeListed(requests, j, hash);
    var (o, p) := (StateAfter(requests, hash).objects[a], StateAfter(requests, hash).objects[b]);
    if o.id == p.id {
      NoCollision(hash, MadeMessages(requests, hash), RecordOf(o), RecordOf(p));
      RecordMaker(o, p);
      NoCollision(hash, MadeMessages(requests, hash), Payload(requests[i].op, requests[i].path), Payload(requests[j].op, requests[j].path));
      PayloadReads(requests[i].op, requests[i].path, requests[j].op, requests[j].path);
    }
  }

  // ------------------------------------------------- what a root identifies

  lemma ObjOrderCompares()
    ensures Comparable(ObjLe)
  {
    LexIsTotalOrder();
  }

  lemma EntryOrderCompares()
    ensures Comparable(EntryLe)
  {
    hide LexLe, Cut;
    LexIsTotalOrder();
  }

  /** Authentic objects with one id are one object, if their records do not collide. */
  lemma {:induction false} ObjectsToldApart(objects: seq<Obj>, hash: Hash, records: set<Bytes>)
    requires AllAuthentic(objects, hash) && InjectiveOn(hash, records)
    requires forall o :: o in objects ==> RecordOf(o) in records
    ensures TellsApart(ObjLe, objects)
  {
    hide Record, LexLe, InjectiveOn;
    LexIsTotalOrder();
    forall x, y | x in objects && y in objects && ObjLe(x, y) && ObjLe(y, x)
      ensures x == y
    {
      assert x.id == y.id;
      NoCollision(hash, records, RecordOf(x), RecordOf(y));
      RecordReads(x, y, hash);
    }
  }

  lemma {:induction false} EntriesToldApart(paths: seq<Entry>)
    requires EntriesOk(paths) && DistinctPaths(paths)
    ensures TellsApart(EntryLe, paths)
  {
    hide LexLe;
    LexIsTotalOrder();
    forall x, y | x in paths && y in paths && EntryLe(x, y) && EntryLe(y, x)
      ensures x == y
    {
      var i :| 0 <= i < |paths| && paths[i] == x;
      var j :| 0 <= j < |paths| && paths[j] == y;
      assert x.Path() == y.Path();
    }
  }

  lemma EntryOfMap(paths: seq<Entry>, e: Entry, hash: Hash)
    requires EntriesOk(paths) && DistinctPaths(paths) && Plain(paths, hash)
    ensures e in paths <==> e.Ok() && e == MakeEntry(e.Path(), e.id, hash) && e.Path() in PathMap(paths) && PathMap(paths)[e.Path()] == e.id
  {
    hide PathMap;
    if e.Ok() {
      LinkMember(paths, e.Path(), e.id);
      if (e.Path(), e.id) in Links(paths) && e == MakeEntry(e.Path(), e.id, hash) {
        var i :| 0 <= i < |paths| && Links(paths)[i] == (e.Path(), e.id);
        assert paths[i] == e;
      }
      if e in paths {
        var i :| 0 <= i < |paths| && paths[i] == e;
        assert Links(paths)[i] == (e.Path(), e.id);
      }
    }
  }

  /** Equal path maps mean equal path tables, up to order. */
  lemma SamePathMap(x: seq<Entry>, y: seq<Entry>, hash: Hash)
    requires EntriesOk(x) && DistinctPaths(x) && Plain(x, hash)
    requires EntriesOk(y) && DistinctPaths(y) && Plain(y, hash)
    requires PathMap(x) == PathMap(y)
    ensures multiset(x) == multiset(y)
  {
    hide PathMap, Plain;
    forall e
      ensures e in x <==> e in y
    {
      EntryOfMap(x, e, hash);
      EntryOfMap(y, e, hash);
    }
    forall i, j | 0 <= i < j < |x|
      ensures x[i] != x[j]
    {
      assert x[i].Path() != x[j].Path();
    }
    forall i, j | 0 <= i < j < |y|
      ensures y[i] != y[j]
    {
      assert y[i].Path() != y[j].Path();
    }
    SameMembers(x, y);
  }

  /** Sorting a path table keeps the links it holds. */
  lemma SortedLinks(paths: seq<Entry>, x: (Bytes, Digest))
    requires EntriesOk(paths) && EntriesOk(Sort(paths, EntryLe))
    ensures x in Links(Sort(paths, EntryLe)) <==> x in Links(paths)
  {
    var sorted := Sort(paths, EntryLe);
    SameElements(sorted, paths);
    SomeLink(sorted, x);
    SomeLink(paths, x);
  }

  lemma {:induction false} SomeLink(paths: seq<Entry>, x: (Bytes, Digest))
    requires EntriesOk(paths)
    ensures x in Links(paths) <==> exists e :: e in paths && e.Ok() && Link(e) == x
  {
    if x in Links(paths) {
      var i :| 0 <= i < |paths| && Links(paths)[i] == x;
      assert paths[i] in paths;
    }
    if e :| e in paths && e.Ok() && Link(e) == x {
      var i :| 0 <= i < |paths| && paths[i] == e;
      assert Links(paths)[i] == x;
    }
  }

  predicate MapsTo<K, V(==)>(m: map<K, V>, k: K, v: V) {
    k in m && m[k] == v
  }

  lemma {:induction false} SameMap<K(!new), V(!new)>(a: map<K, V>, b: map<K, V>)
    requires forall k, v :: MapsTo(a, k, v) <==> MapsTo(b, k, v)
    ensures a == b
  {
    forall k
      ensures k in a ==> k in b && b[k] == a[k]
      ensures k in b ==> k in a
    {
      if k in a {
        assert MapsTo(a, k, a[k]);
      }
      if k in b {
        assert MapsTo(b, k, b[k]);
      }
    }
  }

  lemma {:induction false} SameLinks(x: seq<Entry>, y: seq<Entry>, path: Bytes, id: Digest)
    requires EntriesOk(x) && DistinctPaths(x) && EntriesOk(y) && DistinctPaths(y)
    requires EntriesOk(Sort(x, EntryLe)) && EntriesOk(Sort(y, EntryLe))
    requires Links(Sort(x, EntryLe)) == Links(Sort(y, EntryLe))
    ensures MapsTo(PathMap(x), path, id) <==> MapsTo(PathMap(y), path, id)
  {
    hide PathMap, Links, Sort, EntriesOk, DistinctPaths;
    LinkMember(x, path, id);
    LinkMember(y, path, id);
    SortedLinks(x, (path, id));
    SortedLinks(y, (path, id));
  }

  /** Equal serialised path tables mean equal path maps. */
  lemma {:induction false} IndexReads(x: seq<Entry>, y: seq<Entry>)
    requires EntriesOk(x) && DistinctPaths(x) && EntriesOk(y) && DistinctPaths(y)
    requires PathIndexBytes(x) == PathIndexBytes(y)
    ensures PathMap(x) == PathMap(y)
  {
    hide PathMap, Links, EntriesBytes, Sort, EntriesOk, DistinctPaths, MapsTo;
    SortedEntriesOk(x);
    SortedEntriesOk(y);
    SplitEqual(PATH_INDEX_TAG, PATH_INDEX_TAG, EntriesBytes(Sort(x, EntryLe)), EntriesBytes(Sort(y, EntryLe)));
    EntriesRead(Sort(x, EntryLe), Sort(y, EntryLe));
    forall path: Bytes, id: Digest
      ensures MapsTo(PathMap(x), path, id) <==> MapsTo(PathMap(y), path, id)
    {
      SameLinks(x, y, path, id);
    }
    SameMap(PathMap(x), PathMap(y));
  }

  /** Equal serialised object tables mean the same objects. */
  lemma TableReads(x: seq<Obj>, y: seq<Obj>, hash: Hash)
    requires AllAuthentic(x, hash) && AllAuthentic(y, hash) && ObjectTableBytes(x) == ObjectTableBytes(y)
    ensures multiset(x) == multiset(y)
  {
    hide Records, Authentic;
    var (s, t) := (Sort(x, ObjLe), Sort(y, ObjLe));
    SplitEqual(OBJECT_TABLE_TAG, OBJECT_TABLE_TAG, Records(s), Records(t));
    SortedAuthentic(x, hash);
    SortedAuthentic(y, hash);
    RecordsRead(s, t, hash);
  }

  lemma SortedAuthentic(objects: seq<Obj>, hash: Hash)
    requires AllAuthentic(objects, hash)
    ensures AllAuthentic(Sort(objects, ObjLe), hash)
  {
    hide Authentic;
    var sorted := Sort(objects, ObjLe);
    SameElements(sorted, objects);
    forall i | 0 <= i < |sorted|
      ensures Authentic(sorted[i], hash)
    {
      assert sorted[i] in objects;
    }
  }

  /** The table and root messages hashed for a state. */
  function StateMessages(s: State): set<Bytes>
    requires s.Counted()
  {
    {RootBytes(s.root), ObjectTableBytes(s.objects), PathIndexBytes(s.paths)}
  }

  function RecordMessages(objects: seq<Obj>): set<Bytes> {
    set o | o in objects :: RecordOf(o)
  }

  /** The same objects and the same path map: the contents of a workspace, whatever order they came in. */
  ghost predicate SameContents(s: State, t: State)
    requires s.Counted() && t.Counted()
  {
    multiset(s.objects) == multiset(t.objects) && PathMap(s.paths) == PathMap(t.paths)
  }

  /**
   The root hash identifies the workspace: any two states that runs reach, if their messages do not collide
   and their root hashes are equal, hold the same objects and the same path map.
   */
  lemma RootIdentifiesContents(p: seq<Request>, q: seq<Request>, hash: Hash)
    requires RootHash(StateAfter(p, hash), hash) == RootHash(StateAfter(q, hash), hash)
    requires InjectiveOn(hash, StateMessages(StateAfter(p, hash)) + StateMessages(StateAfter(q, hash)))
    ensures SameContents(StateAfter(p, hash), StateAfter(q, hash))
  {
    hide StateAfter, RootBytes, ObjectTableBytes, PathIndexBytes, PathMap, InjectiveOn, Replay;
    var (s, t) := (StateAfter(p, hash), StateAfter(q, hash));
    var messages := StateMessages(s) + StateMessages(t);
    RunKeeps(p, hash);
    RunKeeps(q, hash);
    NoCollision(hash, messages, RootBytes(s.root), RootBytes(t.root));
    RootReads(s.root, t.root);
    NoCollision(hash, messages, ObjectTableBytes(s.objects), ObjectTableBytes(t.objects));
    NoCollision(hash, messages, PathIndexBytes(s.paths), PathIndexBytes(t.paths));
    TableReads(s.objects, t.objects, hash);
    IndexReads(s.paths, t.paths);
  }

  /** Conversely the tables of a root depend on the contents only, not on the order they were entered in. */
  lemma ContentsDetermineTables(p: seq<Request>, q: seq<Request>, hash: Hash)
    requires SameContents(StateAfter(p, hash), StateAfter(q, hash))
    requires InjectiveOn(hash, RecordMessages(StateAfter(p, hash).objects))
    ensures StateAfter(p, hash).root.objectTableHash == StateAfter(q, hash).root.objectTableHash
    ensures StateAfter(p, hash).root.pathIndexHash == StateAfter(q, hash).root.pathIndexHash
  {
    hide StateAfter, RootBytes, Records, EntriesBytes, PathMap, InjectiveOn, Replay, Sort;
    var (s, t) := (StateAfter(p, hash), StateAfter(q, hash));
    RunKeeps(p, hash);
    RunKeeps(q, hash);
    ObjOrderCompares();
    ObjectsToldApart(s.objects, hash, RecordMessages(s.objects));
    SortCanonical(s.objects, t.objects, ObjLe);
    SamePathMap(s.paths, t.paths, hash);
    EntryOrderCompares();
    EntriesToldApart(s.paths);
    SortCanonical(s.paths, t.paths, EntryLe);
  }
}
