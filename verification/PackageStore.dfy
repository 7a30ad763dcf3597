/**
 Transitive package verification and installation (bogvm/store.py). Reading receipts, hashing directories and
 checking signatures are inputs: what they found is part of the record of a package.
 */
module PackageStore {
  import opened Wrappers

  /** An installed package: what its own checks find, and the dependencies of its receipt and of the index. */
  datatype Package = Package(
    readable: bool, signatureOk: bool, bundleHashOk: bool, archiveOk: bool, installDirPresent: bool, treeHashOk: bool,
    dependencies: seq<string>, indexDependencies: seq<string>)

  type Index = map<string, Package>

  datatype Failure =
    | NotInstalled(package: string) | CycleDetected(package: string) | InvalidReceipt(package: string)
    | SignatureFailed | BundleHashMismatch | MetadataMismatch | MissingDependency(package: string)
    | DependencyFailed(package: string) | ArchiveFailed | InstallDirMissing | TreeHashMismatch

  function EarlyFailures(p: Package): seq<Failure> {
    (if p.signatureOk then [] else [SignatureFailed])
    + (if p.bundleHashOk then [] else [BundleHashMismatch])
    + (if p.indexDependencies == p.dependencies then [] else [MetadataMismatch])
  }

  function LateFailures(p: Package): seq<Failure> {
    (if p.archiveOk then [] else [ArchiveFailed])
    + (if !p.installDirPresent then [InstallDirMissing] else if p.treeHashOk then [] else [TreeHashMismatch])
  }

  function MissingFailures(index: Index, dependencies: seq<string>): seq<Failure> {
    if dependencies == [] then []
    else if dependencies[0] in index then MissingFailures(index, dependencies[1..])
    else [MissingDependency(dependencies[0])] + MissingFailures(index, dependencies[1..])
  }

  lemma FewerUnseen(index: Index, package: string, seen: set<string>)
    requires package in index && package !in seen
    ensures |index.Keys - (seen + {package})| < |index.Keys - seen|
  {
    var less, more := index.Keys - (seen + {package}), index.Keys - seen;
    assert package in more && package !in less && less <= more;
    assert more == more - {package} + {package};
    assert less == more - {package};
  }

  /**
   The failures of a package and of everything it depends on; `seen` holds the packages on the way to it. Each
   level sees one more installed package, so this ends on every dependency graph.
   */
  function Verify(index: Index, package: string, seen: set<string>): seq<Failure>
    decreases |index.Keys - seen|, 0
  {
    if package !in index then [NotInstalled(package)]
    else if package in seen then [CycleDetected(package)]
    else if !index[package].readable then [InvalidReceipt(package)]
    else
      var p := index[package];
      FewerUnseen(index, package, seen);
      EarlyFailures(p) + MissingFailures(index, p.dependencies)
      + VerifyDependencies(index, p.dependencies, seen + {package}) + LateFailures(p)
  }

  function VerifyDependencies(index: Index, dependencies: seq<string>, seen: set<string>): seq<Failure>
    decreases |index.Keys - seen|, |dependencies| + 1
  {
    if dependencies == [] then []
    else if dependencies[0] in index && Verify(index, dependencies[0], seen) != [] then
      [DependencyFailed(dependencies[0])] + VerifyDependencies(index, dependencies[1..], seen)
    else VerifyDependencies(index, dependencies[1..], seen)
  }

  lemma MissingStep(index: Index, dependencies: seq<string>, i: nat, missing: seq<Failure>)
    requires i < |dependencies|
    ensures missing + MissingFailures(index, dependencies[i..])
         == missing + (if dependencies[i] in index then [] else [MissingDependency(dependencies[i])])
            + MissingFailures(index, dependencies[i + 1..])
  {
    assert dependencies[i..][1..] == dependencies[i + 1..];
  }

  method MissingOf(index: Index, dependencies: seq<string>) returns (missing: seq<Failure>)
    ensures missing == MissingFailures(index, dependencies)
  {
    hide MissingFailures;
    missing := [];
    for i := 0 to |dependencies|
      invariant MissingFailures(index, dependencies) == missing + MissingFailures(index, dependencies[i..])
    {
      MissingStep(index, dependencies, i, missing);
      if dependencies[i] !in index {
        missing := missing + [MissingDependency(dependencies[i])];
      } else {
        assert missing + [] == missing;
      }
    }
    NoneMissing(index);
    assert dependencies[|dependencies|..] == [];
  }

  lemma NoneMissing(index: Index)
    ensures MissingFailures(index, []) == []
  {
  }

  method VerifyEach(index: Index, dependencies: seq<string>, seen: set<string>) returns (failures: seq<Failure>)
    ensures failures == VerifyDependencies(index, dependencies, seen)
    decreases |index.Keys - seen|, 1
  {
    hide Verify;
    failures := [];
    for i := 0 to |dependencies|
      invariant VerifyDependencies(index, dependencies, seen) == failures + VerifyDependencies(index, dependencies[i..], seen)
    {
      assert dependencies[i..][1..] == dependencies[i + 1..];
      if dependencies[i] in index {
        var found := VerifyInstalledPackage(index, dependencies[i], seen);
        if found != [] {
          failures := failures + [DependencyFailed(dependencies[i])];
        }
      }
    }
  }

  method VerifyInstalledPackage(index: Index, package: string, seen: set<string>) returns (failures: seq<Failure>)
    ensures failures == Verify(index, package, seen)
    decreases |index.Keys - seen|, 0
  {
    hide VerifyDependencies, MissingFailures, EarlyFailures, LateFailures;
    if package !in index {
      return [NotInstalled(package)];
    }
    if package in seen {
      return [CycleDetected(package)];
    }
    var p := index[package];
    if !p.readable {
      return [InvalidReceipt(package)];
    }
    FewerUnseen(index, package, seen);
    failures := EarlyFailures(p);
    var missing := MissingOf(index, p.dependencies);
    var below := VerifyEach(index, p.dependencies, seen + {package});
    failures := failures + missing + below + LateFailures(p);
  }

  // ------------------------------------------------- what verification decides

  predicate LocallyOk(p: Package) {
    p.readable && p.signatureOk && p.bundleHashOk && p.archiveOk && p.installDirPresent && p.treeHashOk
    && p.indexDependencies == p.dependencies
  }

  /** The packages a package depends on directly, as far as its receipt can be read. */
  function Dependencies(index: Index, package: string): seq<string> {
    if package in index && index[package].readable then index[package].dependencies else []
  }

  ghost predicate IsChain(index: Index, path: seq<string>) {
    path != [] && forall i :: 0 <= i < |path| - 1 ==> path[i + 1] in Dependencies(index, path[i])
  }

  ghost predicate Reaches(index: Index, a: string, b: string) {
    exists path :: IsChain(index, path) && path[0] == a && path[|path| - 1] == b
  }

  /** Everything the package reaches is installed and in order, and none of it depends on itself. */
  ghost predicate Sound(index: Index, package: string) {
    && (forall q :: Reaches(index, package, q) ==> q in index && LocallyOk(index[q]))
    && (forall q, r :: Reaches(index, package, q) && r in Dependencies(index, q) ==> !Reaches(index, r, q))
  }

  lemma ReachesItself(index: Index, a: string)
    ensures Reaches(index, a, a)
  {
    assert IsChain(index, [a]);
  }

  lemma ReachesOn(index: Index, a: string, b: string, path: seq<string>)
    requires b in Dependencies(index, a) && IsChain(index, path) && path[0] == b
    ensures IsChain(index, [a] + path) && Reaches(index, a, path[|path| - 1])
  {
    assert IsChain(index, [a] + path);
  }

  lemma ReachesVia(index: Index, a: string, b: string, q: string)
    requires b in Dependencies(index, a) && Reaches(index, b, q)
    ensures Reaches(index, a, q)
  {
    var path :| IsChain(index, path) && path[0] == b && path[|path| - 1] == q;
    ReachesOn(index, a, b, path);
  }

  /** Without failures: installed, not on the way already, in order, and the same for every dependency. */
  lemma {:induction false} VerifyMeans(index: Index, package: string, seen: set<string>)
    ensures Verify(index, package, seen) == []
       <==> && package in index && package !in seen && LocallyOk(index[package])
            && forall d :: d in Dependencies(index, package) ==> d in index && Verify(index, d, seen + {package}) == []
  {
    if package in index && package !in seen && index[package].readable {
      var p := index[package];
      DependenciesMean(index, p.dependencies, seen + {package});
      NoneOf(EarlyFailures(p), MissingFailures(index, p.dependencies), VerifyDependencies(index, p.dependencies, seen + {package}), LateFailures(p));
      LocalMeans(p);
    }
  }

  lemma NoneOf<T>(a: seq<T>, b: seq<T>, c: seq<T>, d: seq<T>)
    ensures a + b + c + d == [] <==> a == [] && b == [] && c == [] && d == []
  {
    assert |a + b + c + d| == |a| + |b| + |c| + |d|;
  }

  lemma LocalMeans(p: Package)
    requires p.readable
    ensures EarlyFailures(p) == [] && LateFailures(p) == [] <==> LocallyOk(p)
  {
    var a: seq<Failure> := if p.signatureOk then [] else [SignatureFailed];
    var b: seq<Failure> := if p.bundleHashOk then [] else [BundleHashMismatch];
    var c: seq<Failure> := if p.indexDependencies == p.dependencies then [] else [MetadataMismatch];
    assert |EarlyFailures(p)| == |a| + |b| + |c|;
    var d: seq<Failure> := if p.archiveOk then [] else [ArchiveFailed];
    var e: seq<Failure> := if !p.installDirPresent then [InstallDirMissing] else if p.treeHashOk then [] else [TreeHashMismatch];
    assert |LateFailures(p)| == |d| + |e|;
  }

  lemma {:induction false} DependenciesMean(index: Index, dependencies: seq<string>, seen: set<string>)
    ensures MissingFailures(index, dependencies) == [] && VerifyDependencies(index, dependencies, seen) == []
       <==> forall d :: d in dependencies ==> d in index && Verify(index, d, seen) == []
  {
    hide Verify;
    if dependencies != [] {
      DependenciesMean(index, dependencies[1..], seen);
      assert dependencies == [dependencies[0]] + dependencies[1..];
    }
  }

  /** Verification is passed on along every chain, which it finds free of repetitions. */
  lemma {:induction false} ChainVerified(index: Index, path: seq<string>, seen: set<string>)
    requires IsChain(index, path) && Verify(index, path[0], seen) == []
    ensures var last := path[|path| - 1];
            last in index && LocallyOk(index[last]) && last !in seen && last !in path[..|path| - 1]
    decreases |path|
  {
    hide Verify;
    VerifyMeans(index, path[0], seen);
    if |path| > 1 {
      assert path[0 + 1] in Dependencies(index, path[0]);
      forall i | 0 <= i < |path[1..]| - 1
        ensures path[1..][i + 1] in Dependencies(index, path[1..][i])
      {
        assert path[(i + 1) + 1] in Dependencies(index, path[i + 1]);
      }
      ChainVerified(index, path[1..], seen + {path[0]});
      assert path[..|path| - 1] == [path[0]] + path[1..][..|path| - 2];
    }
  }

  lemma {:induction false} JoinChains(index: Index, x: seq<string>, y: seq<string>)
    requires IsChain(index, x) && IsChain(index, y) && y[0] in Dependencies(index, x[|x| - 1])
    ensures IsChain(index, x + y)
  {
    var path := x + y;
    forall i | 0 <= i < |path| - 1
      ensures path[i + 1] in Dependencies(index, path[i])
    {
      if i >= |x| {
        assert y[(i - |x|) + 1] in Dependencies(index, y[i - |x|]);
      }
    }
  }

  lemma ChainTo(index: Index, a: string, b: string) returns (path: seq<string>)
    requires Reaches(index, a, b)
    ensures IsChain(index, path) && path[0] == a && path[|path| - 1] == b
  {
    path :| IsChain(index, path) && path[0] == a && path[|path| - 1] == b;
  }

  /** A chain that goes on from the end of a verified one does not come back to it. */
  lemma {:induction false} NoWayBack(index: Index, path: seq<string>, back: seq<string>)
    requires IsChain(index, path) && IsChain(index, back) && back[0] in Dependencies(index, path[|path| - 1])
    requires Verify(index, path[0], {}) == []
    ensures back[|back| - 1] != path[|path| - 1]
  {
    hide Verify, LocallyOk;
    var round := path + back;
    JoinChains(index, path, back);
    ChainVerified(index, round, {});
    assert round[|path| - 1] in round[..|round| - 1];
  }

  lemma {:induction false} VerifiedNeverReturns(index: Index, package: string, q: string, r: string)
    requires Verify(index, package, {}) == [] && Reaches(index, package, q) && r in Dependencies(index, q)
    ensures !Reaches(index, r, q)
  {
    hide Verify, LocallyOk, Reaches;
    var path := ChainTo(index, package, q);
    if Reaches(index, r, q) {
      var back := ChainTo(index, r, q);
      NoWayBack(index, path, back);
    }
  }

  lemma {:induction false} VerifiedIsSound(index: Index, package: string)
    requires Verify(index, package, {}) == []
    ensures Sound(index, package)
  {
    hide Verify, LocallyOk, Reaches;
    forall q | Reaches(index, package, q)
      ensures q in index && LocallyOk(index[q])
    {
      var path := ChainTo(index, package, q);
      ChainVerified(index, path, {});
    }
    forall q, r | Reaches(index, package, q) && r in Dependencies(index, q)
      ensures !Reaches(index, r, q)
    {
      VerifiedNeverReturns(index, package, q, r);
    }
  }

  lemma {:induction false} SoundBelow(index: Index, package: string, d: string)
    requires Sound(index, package) && d in Dependencies(index, package)
    ensures Sound(index, d)
  {
    hide IsChain, LocallyOk, Reaches;
    forall q | Reaches(index, d, q)
      ensures Reaches(index, package, q)
    {
      ReachesVia(index, package, d, q);
    }
  }

  lemma {:induction false} SoundIsVerified(index: Index, package: string, seen: set<string>)
    requires Sound(index, package) && forall q :: Reaches(index, package, q) ==> q !in seen
    ensures Verify(index, package, seen) == []
    decreases |index.Keys - seen|
  {
    hide Verify, IsChain, LocallyOk, Reaches;
    ReachesItself(index, package);
    FewerUnseen(index, package, seen);
    VerifyMeans(index, package, seen);
    forall d | d in Dependencies(index, package)
      ensures d in index && Verify(index, d, seen + {package}) == []
    {
      SoundBelow(index, package, d);
      ReachesItself(index, d);
      forall q | Reaches(index, d, q)
        ensures q !in seen + {package}
      {
        ReachesVia(index, package, d, q);
        assert !Reaches(index, d, package);
      }
      SoundIsVerified(index, d, seen + {package});
    }
  }

  /**
   Verification is completed exactly when every package reached is installed and in order and none depends on
   itself. Packages reached twice, as in a diamond, are fine.
   */
  lemma VerifyDecides(index: Index, package: string)
    ensures Verify(index, package, {}) == [] <==> Sound(index, package)
  {
    hide Verify, Sound;
    if Verify(index, package, {}) == [] {
      VerifiedIsSound(index, package);
    } else if Sound(index, package) {
      SoundIsVerified(index, package, {});
    }
  }

  // ------------------------------------------------- what a verification reports

  lemma {:induction false} MissingReported(index: Index, dependencies: seq<string>, f: Failure)
    ensures f in MissingFailures(index, dependencies) <==> f.MissingDependency? && f.package in dependencies && f.package !in index
  {
    if dependencies != [] {
      MissingReported(index, dependencies[1..], f);
    }
  }

  lemma {:induction false} FailedReported(index: Index, dependencies: seq<string>, seen: set<string>, f: Failure)
    ensures f in VerifyDependencies(index, dependencies, seen)
       <==> f.DependencyFailed? && f.package in dependencies && f.package in index && Verify(index, f.package, seen) != []
    decreases |dependencies|
  {
    hide Verify;
    if dependencies != [] {
      FailedReported(index, dependencies[1..], seen, f);
    }
  }

  /** What is reported about an installed package that is readable and not on the way already: each failure for its own reason. */
  lemma {:induction false} Reported(index: Index, package: string, seen: set<string>, f: Failure)
    requires package in index && package !in seen && index[package].readable
    ensures var p := index[package];
            f in Verify(index, package, seen)
            <==> match f
                 case SignatureFailed => !p.signatureOk
                 case BundleHashMismatch => !p.bundleHashOk
                 case MetadataMismatch => p.indexDependencies != p.dependencies
                 case MissingDependency(d) => d in p.dependencies && d !in index
                 case DependencyFailed(d) => d in p.dependencies && d in index && Verify(index, d, seen + {package}) != []
                 case ArchiveFailed => !p.archiveOk
                 case InstallDirMissing => !p.installDirPresent
                 case TreeHashMismatch => p.installDirPresent && !p.treeHashOk
                 case _ => false
  {
    hide MissingFailures, VerifyDependencies;
    var p := index[package];
    MissingReported(index, p.dependencies, f);
    FailedReported(index, p.dependencies, seen + {package}, f);
    InFour(EarlyFailures(p), MissingFailures(index, p.dependencies), VerifyDependencies(index, p.dependencies, seen + {package}),
           LateFailures(p), f);
  }

  lemma InFour<T>(a: seq<T>, b: seq<T>, c: seq<T>, d: seq<T>, x: T)
    ensures x in a + b + c + d <==> x in a || x in b || x in c || x in d
  {
  }

  /** And about any other package: that it is not installed, or closes a cycle, or has no readable receipt. */
  lemma ReportedAlone(index: Index, package: string, seen: set<string>)
    ensures package !in index ==> Verify(index, package, seen) == [NotInstalled(package)]
    ensures package in index && package in seen ==> Verify(index, package, seen) == [CycleDetected(package)]
    ensures package in index && package !in seen && !index[package].readable ==> Verify(index, package, seen) == [InvalidReceipt(package)]
  {
  }

  // ------------------------------------------------- installing

  datatype InstallError = ArchiveTreeMismatch | BundleHashMismatched | UntrustedSignature | MissingDependencies | DependencyInvalid

  /** A bundle to install: what its checks find and the package it becomes. */
  datatype Bundle = Bundle(archiveTreeMatches: bool, bundleHashMatches: bool, signatureOk: bool, key: string, dependencies: seq<string>)

  /** The package as it is right after its bundle was copied and restored. */
  function Fresh(b: Bundle): (p: Package)
    ensures LocallyOk(p)
  {
    Package(true, true, true, true, true, true, b.dependencies, b.dependencies)
  }

  predicate AllInstalled(index: Index, dependencies: seq<string>) {
    forall d :: d in dependencies ==> d in index
  }

  /** Every dependency verifies. */
  predicate AllVerify(index: Index, dependencies: seq<string>) {
    forall d :: d in dependencies ==> Verify(index, d, {}) == []
  }

  /** Installs a bundle: its own checks, then its dependencies, each verified with all it depends on. */
  method InstallBundle(index: Index, b: Bundle) returns (r: Result<Index, InstallError>)
    ensures r == if !b.archiveTreeMatches then Err(ArchiveTreeMismatch)
                 else if !b.bundleHashMatches then Err(BundleHashMismatched)
                 else if !b.signatureOk then Err(UntrustedSignature)
                 else if !AllInstalled(index, b.dependencies) then Err(MissingDependencies)
                 else if !AllVerify(index, b.dependencies) then Err(DependencyInvalid)
                 else Ok(index[b.key := Fresh(b)])
  {
    hide Verify;
    if !b.archiveTreeMatches {
      return Err(ArchiveTreeMismatch);
    }
    if !b.bundleHashMatches {
      return Err(BundleHashMismatched);
    }
    if !b.signatureOk {
      return Err(UntrustedSignature);
    }
    for i := 0 to |b.dependencies|
      invariant forall k :: 0 <= k < i ==> b.dependencies[k] in index
    {
      if b.dependencies[i] !in index {
        return Err(MissingDependencies);
      }
    }
    for i := 0 to |b.dependencies|
      invariant forall k :: 0 <= k < i ==> Verify(index, b.dependencies[k], {}) == []
    {
      var failures := VerifyInstalledPackage(index, b.dependencies[i], {});
      if failures != [] {
        return Err(DependencyInvalid);
      }
    }
    r := Ok(index[b.key := Fresh(b)]);
  }

  /** Chains that do not pass through a key, except perhaps at their end, are not touched by its package. */
  lemma {:induction false} ChainElsewhere(index: Index, key: string, p: Package, path: seq<string>)
    requires path != [] && key !in path[..|path| - 1]
    ensures IsChain(index, path) <==> IsChain(index[key := p], path)
  {
    forall i | 0 <= i < |path| - 1
      ensures Dependencies(index, path[i]) == Dependencies(index[key := p], path[i])
    {
      assert path[i] in path[..|path| - 1];
    }
  }

  lemma {:induction false} CutChain(index: Index, path: seq<string>, n: nat)
    requires IsChain(index, path) && 0 < n <= |path|
    ensures IsChain(index, path[..n])
  {
  }

  /** Where a chain first meets a key. */
  lemma {:induction false} FirstMeeting(path: seq<string>, key: string) returns (n: nat)
    requires key in path
    ensures 0 < n <= |path| && path[n - 1] == key && key !in path[..n - 1]
  {
    if path[0] == key {
      n := 1;
    } else {
      var m := FirstMeeting(path[1..], key);
      n := m + 1;
      assert path[..n - 1] == [path[0]] + path[1..][..m - 1];
    }
  }

  /** Whether a package reaches the key does not depend on the package at the key. */
  lemma {:induction false} ReachesKey(index: Index, key: string, p: Package, a: string)
    ensures Reaches(index, a, key) <==> Reaches(index[key := p], a, key)
  {
    hide IsChain;
    if Reaches(index, a, key) {
      MeetsKey(index, key, p, a);
    }
    if Reaches(index[key := p], a, key) {
      var there := index[key := p];
      var path := ChainTo(there, a, key);
      var n := FirstMeeting(path, key);
      ShorterTo(there, path, n);
      ChainElsewhere(index, key, p, path[..n]);
      ReachedBy(index, path[..n]);
    }
  }

  lemma {:induction false} MeetsKey(index: Index, key: string, p: Package, a: string)
    requires Reaches(index, a, key)
    ensures Reaches(index[key := p], a, key)
  {
    hide IsChain;
    var path := ChainTo(index, a, key);
    var n := FirstMeeting(path, key);
    ShorterTo(index, path, n);
    ChainElsewhere(index, key, p, path[..n]);
    ReachedBy(index[key := p], path[..n]);
  }

  lemma ShorterTo(index: Index, path: seq<string>, n: nat)
    requires IsChain(index, path) && 0 < n <= |path|
    ensures path[..n] != [] && IsChain(index, path[..n]) && path[..n][0] == path[0] && path[..n][|path[..n]| - 1] == path[n - 1]
    ensures path[..n][..|path[..n]| - 1] == path[..n - 1]
  {
    CutChain(index, path, n);
  }

  lemma ReachedBy(index: Index, path: seq<string>)
    requires path != [] && IsChain(index, path)
    ensures Reaches(index, path[0], path[|path| - 1])
  {
  }

  /** From where the key is not reached, everything reached is the same with and without its package. */
  lemma {:induction false} ReachesElsewhere(index: Index, key: string, p: Package, a: string, q: string)
    requires !Reaches(index, a, key)
    ensures Reaches(index, a, q) <==> Reaches(index[key := p], a, q)
  {
    hide IsChain;
    ReachesKey(index, key, p, a);
    if Reaches(index, a, q) {
      AvoidsKey(index, key, p, a, q);
    }
    if Reaches(index[key := p], a, q) {
      BackAgain(index, key, p, a, q);
    }
  }

  lemma {:induction false} AvoidsKey(index: Index, key: string, p: Package, a: string, q: string)
    requires !Reaches(index, a, key) && Reaches(index, a, q)
    ensures Reaches(index[key := p], a, q)
  {
    hide IsChain;
    var path := ChainTo(index, a, q);
    NotMet(index, path, key);
    ChainElsewhere(index, key, p, path);
    ReachedBy(index[key := p], path);
  }

  lemma {:induction false} NotMet(index: Index, path: seq<string>, key: string)
    requires path != [] && IsChain(index, path) && !Reaches(index, path[0], key)
    ensures key !in path
  {
    hide IsChain;
    if key in path {
      var n := FirstMeeting(path, key);
      ShorterTo(index, path, n);
      ReachedBy(index, path[..n]);
    }
  }

  lemma {:induction false} BackAgain(index: Index, key: string, p: Package, a: string, q: string)
    requires !Reaches(index[key := p], a, key) && Reaches(index[key := p], a, q)
    ensures Reaches(index, a, q)
  {
    hide IsChain;
    var path := ChainTo(index[key := p], a, q);
    NotMet(index[key := p], path, key);
    ChainElsewhere(index, key, p, path);
    ReachedBy(index, path);
  }

  /** A package that does not reach the key verifies as before. */
  lemma {:induction false} OthersKeepSound(index: Index, key: string, p: Package, a: string)
    requires !Reaches(index, a, key) && Sound(index, a)
    ensures Sound(index[key := p], a)
  {
    hide IsChain, LocallyOk, Reaches;
    var there := index[key := p];
    forall q | Reaches(there, a, q)
      ensures q != key && Reaches(index, a, q)
    {
      ReachesElsewhere(index, key, p, a, q);
      ReachesKey(index, key, p, a);
    }
    forall q, r | Reaches(there, a, q) && r in Dependencies(there, q)
      ensures !Reaches(there, r, q)
    {
      assert Dependencies(there, q) == Dependencies(index, q);
      assert !Reaches(index, r, q);
      StillAvoids(index, key, a, q, r);
      ReachesElsewhere(index, key, p, r, q);
    }
  }

  lemma {:induction false} StillAvoids(index: Index, key: string, a: string, q: string, r: string)
    requires !Reaches(index, a, key) && Reaches(index, a, q) && r in Dependencies(index, q)
    ensures !Reaches(index, r, key)
  {
    hide IsChain;
    if Reaches(index, r, key) {
      var x := ChainTo(index, a, q);
      var y := ChainTo(index, r, key);
      JoinAt(index, x, y);
      ReachedBy(index, x + y);
    }
  }

  lemma JoinAt(index: Index, x: seq<string>, y: seq<string>)
    requires x != [] && y != [] && IsChain(index, x) && IsChain(index, y) && y[0] in Dependencies(index, x[|x| - 1])
    ensures IsChain(index, x + y)
  {
    JoinChains(index, x, y);
  }

  lemma SoundReach(index: Index, a: string, q: string)
    requires Sound(index, a) && Reaches(index, a, q)
    ensures q in index
  {
  }

  lemma {:induction false} FirstStep(index: Index, a: string, q: string) returns (d: string)
    requires Reaches(index, a, q) && q != a
    ensures d in Dependencies(index, a) && Reaches(index, d, q)
  {
    var path := ChainTo(index, a, q);
    d := path[1];
    assert path[0 + 1] in Dependencies(index, path[0]);
    forall i | 0 <= i < |path[1..]| - 1
      ensures path[1..][i + 1] in Dependencies(index, path[1..][i])
    {
      assert path[(i + 1) + 1] in Dependencies(index, path[i + 1]);
    }
    ReachedBy(index, path[1..]);
  }

  /** Sound packages make a sound whole, unless one of them leads back. */
  lemma {:induction false} SoundAbove(index: Index, package: string)
    requires package in index && LocallyOk(index[package])
    requires forall d :: d in Dependencies(index, package) ==> Sound(index, d) && !Reaches(index, d, package)
    ensures Sound(index, package)
  {
    hide IsChain, LocallyOk, Reaches;
    forall q | Reaches(index, package, q)
      ensures q in index && LocallyOk(index[q])
      ensures forall r :: r in Dependencies(index, q) ==> !Reaches(index, r, q)
    {
      if q != package {
        var d := FirstStep(index, package, q);
      }
    }
  }

  /**
   After an installation the new package verifies exactly when none of its dependencies led to its key before:
   always for a new key, but not when an installed package is replaced by one that depends on its dependents.
   */
  lemma InstalledVerifies(index: Index, b: Bundle)
    requires AllInstalled(index, b.dependencies) && AllVerify(index, b.dependencies)
    ensures Verify(index[b.key := Fresh(b)], b.key, {}) == [] <==> forall d :: d in b.dependencies ==> !Reaches(index, d, b.key)
    ensures b.key !in index ==> Verify(index[b.key := Fresh(b)], b.key, {}) == []
  {
    hide Verify, Sound, Reaches;
    var there := index[b.key := Fresh(b)];
    assert Dependencies(there, b.key) == b.dependencies;
    VerifyDecides(there, b.key);
    forall d | d in b.dependencies
      ensures Sound(index, d) && (Reaches(index, d, b.key) <==> Reaches(there, d, b.key))
      ensures b.key !in index ==> !Reaches(index, d, b.key)
    {
      VerifyDecides(index, d);
      ReachesKey(index, b.key, Fresh(b), d);
      if Reaches(index, d, b.key) {
        SoundReach(index, d, b.key);
      }
    }
    if forall d :: d in b.dependencies ==> !Reaches(index, d, b.key) {
      forall d | d in b.dependencies
        ensures Sound(there, d)
      {
        OthersKeepSound(index, b.key, Fresh(b), d);
      }
      SoundAbove(there, b.key);
    } else if Sound(there, b.key) {
      LeadsBack(there, b.key);
    }
  }

  lemma LeadsBack(index: Index, package: string)
    requires Sound(index, package)
    ensures forall d :: d in Dependencies(index, package) ==> !Reaches(index, d, package)
  {
    hide Reaches;
    ReachesItself(index, package);
  }

  /** What is reached without the help of the key was reached before. */
  lemma {:induction false} ReachedBefore(index: Index, key: string, p: Package, a: string, q: string)
    requires Reaches(index[key := p], a, q) && !Reaches(index[key := p], key, q)
    ensures Reaches(index, a, q)
  {
    hide IsChain;
    var there := index[key := p];
    var path := ChainTo(there, a, q);
    if key in path {
      var n := FirstMeeting(path, key);
      ChainFrom(there, path, n - 1);
      ReachedBy(there, path[n - 1..]);
    } else {
      ChainElsewhere(index, key, p, path);
      ReachedBy(index, path);
    }
  }

  lemma {:induction false} ChainFrom(index: Index, path: seq<string>, k: nat)
    requires IsChain(index, path) && k < |path|
    ensures path[k..] != [] && IsChain(index, path[k..])
    ensures path[k..][0] == path[k] && path[k..][|path[k..]| - 1] == path[|path| - 1]
  {
    forall i | 0 <= i < |path[k..]| - 1
      ensures path[k..][i + 1] in Dependencies(index, path[k..][i])
    {
      assert path[(k + i) + 1] in Dependencies(index, path[k + i]);
    }
  }

  /** If the replaced package is sound, so is everything that was. */
  lemma {:induction false} StillSound(index: Index, key: string, p: Package, a: string)
    requires Sound(index, a) && Sound(index[key := p], key)
    ensures Sound(index[key := p], a)
  {
    hide IsChain, LocallyOk, Reaches;
    var there := index[key := p];
    ReachesItself(there, key);
    forall q | Reaches(there, a, q)
      ensures q in there && LocallyOk(there[q])
      ensures forall r :: r in Dependencies(there, q) ==> !Reaches(there, r, q)
    {
      if !Reaches(there, key, q) {
        ReachedBefore(index, key, p, a, q);
        assert Dependencies(there, q) == Dependencies(index, q);
        forall r | r in Dependencies(there, q)
          ensures !Reaches(there, r, q)
        {
          assert !Reaches(index, r, q);
          if Reaches(there, r, q) {
            ReachedBefore(index, key, p, r, q);
          }
        }
      }
    }
  }

  /**
   What an installation, of a new package or over an installed one, does to another verified package: it stays
   verified exactly when it does not reach the key, or none of the new dependencies does.
   */
  lemma OthersStayVerified(index: Index, b: Bundle, a: string)
    requires AllInstalled(index, b.dependencies) && AllVerify(index, b.dependencies) && Verify(index, a, {}) == []
    ensures Verify(index[b.key := Fresh(b)], a, {}) == []
       <==> (Reaches(index, a, b.key) ==> forall d :: d in b.dependencies ==> !Reaches(index, d, b.key))
  {
    hide Verify, Sound, Reaches;
    var there := index[b.key := Fresh(b)];
    VerifyDecides(index, a);
    VerifyDecides(there, a);
    VerifyDecides(there, b.key);
    ReachesKey(index, b.key, Fresh(b), a);
    InstalledVerifies(index, b);
    if !Reaches(index, a, b.key) {
      OthersKeepSound(index, b.key, Fresh(b), a);
    } else if Sound(there, b.key) {
      StillSound(index, b.key, Fresh(b), a);
    } else if Sound(there, a) {
      SoundWithin(there, a, b.key);
    }
  }

  /** What a sound package reaches is sound. */
  lemma {:induction false} SoundWithin(index: Index, a: string, q: string)
    requires Sound(index, a) && Reaches(index, a, q)
    ensures Sound(index, q)
  {
    hide IsChain, LocallyOk;
    forall r | Reaches(index, q, r)
      ensures Reaches(index, a, r)
    {
      ReachesThrough(index, a, q, r);
    }
  }

  lemma {:induction false} ReachesThrough(index: Index, a: string, q: string, r: string)
    requires Reaches(index, a, q) && Reaches(index, q, r)
    ensures Reaches(index, a, r)
  {
    var x := ChainTo(index, a, q);
    var y := ChainTo(index, q, r);
    if |y| == 1 {
      ReachedBy(index, x);
    } else {
      assert y[0 + 1] in Dependencies(index, y[0]);
      ChainFrom(index, y, 1);
      JoinChains(index, x, y[1..]);
      ReachedBy(index, x + y[1..]);
    }
  }

  // ------------------------------------------------- an installation that breaks a package

  function Plain(dependencies: seq<string>): Package {
    Package(true, true, true, true, true, true, dependencies, dependencies)
  }

  /** Package B depends on A. */
  const TWO: Index := map["A" := Plain([]), "B" := Plain(["A"])]

  /** A new A that depends on B. */
  const TURNED: Bundle := Bundle(true, true, true, "A", ["B"])

  lemma TwoVerify()
    ensures Verify(TWO, "A", {"B"}) == [] && Verify(TWO, "B", {}) == []
  {
    hide Verify;
    VerifyMeans(TWO, "A", {"B"});
    VerifyMeans(TWO, "B", {});
    assert {} + {"B"} == {"B"};
  }

  /** `InstallBundle` accepts this bundle, and the package it installs does not verify afterwards. */
  lemma ReplacementClosesCycle()
    ensures TURNED.archiveTreeMatches && TURNED.bundleHashMatches && TURNED.signatureOk
    ensures AllInstalled(TWO, TURNED.dependencies) && AllVerify(TWO, TURNED.dependencies)
    ensures Verify(TWO[TURNED.key := Fresh(TURNED)], TURNED.key, {}) != []
  {
    hide Verify;
    TwoVerify();
    InstalledVerifies(TWO, TURNED);
    assert IsChain(TWO, ["B", "A"]);
    ReachedBy(TWO, ["B", "A"]);
    assert "B" in TURNED.dependencies;
  }
}
