/**
 Deterministic conflict resolution between signed claims (bogvm/mesh.py). Whether a claim verifies is an
 input; values and contexts are their canonical JSON as UTF-8, whose byte order is Python's string order.
 */
module Mesh {
  import opened Wrappers
  import opened Sorting
  import opened ByteStrings

  datatype Claim = Claim(
    id: Bytes, namespace: Bytes, value: Bytes, context: Bytes, authority: int, support: int,
    hashMatches: bool, trusted: bool, scoped: bool)
  {
    /** `_verify_claim` finds no failure. */
    predicate Verifies() {
      hashMatches && trusted && support >= 1 && scoped
    }
  }

  type ValueHash = Bytes -> Bytes

  /** One value with all the claims for it. */
  datatype Candidate = Candidate(valueHash: Bytes, value: Bytes, pressure: int, authority: int, claims: seq<Bytes>)

  datatype Policy = Converge | Winner | Split

  datatype Outcome = Outcome(context: Bytes, policy: Policy, selected: Option<Candidate>, candidates: seq<Candidate>)

  // ------------------------------------------------- grouping

  /** The elements of s whose key is k, in order. */
  function Having<T, K(==)>(key: T -> K, k: K, s: seq<T>): seq<T> {
    if s == [] then []
    else if key(s[|s| - 1]) == k then Having(key, k, s[..|s| - 1]) + [s[|s| - 1]]
    else Having(key, k, s[..|s| - 1])
  }

  /** The keys of a list in order of first appearance, as the keys of a filled dict. */
  function Keys<T, K(==)>(key: T -> K, s: seq<T>): (r: seq<K>) {
    if s == [] then []
    else
      var before := Keys(key, s[..|s| - 1]);
      if key(s[|s| - 1]) in before then before else before + [key(s[|s| - 1])]
  }

  function Hashed(hash: ValueHash): Claim -> Bytes {
    (c: Claim) => hash(c.value)
  }

  function Supporters(claims: seq<Claim>, h: Bytes, hash: ValueHash): seq<Claim> {
    Having(Hashed(hash), h, claims)
  }

  function TotalSupport(claims: seq<Claim>): int {
    if claims == [] then 0 else TotalSupport(claims[..|claims| - 1]) + claims[|claims| - 1].support
  }

  /** The greatest authority; 0 for no claims, which does not occur. */
  function TopAuthority(claims: seq<Claim>): int {
    if claims == [] then 0
    else if |claims| == 1 then claims[0].authority
    else MaxInt(TopAuthority(claims[..|claims| - 1]), claims[|claims| - 1].authority)
  }

  function MaxInt(a: int, b: int): int {
    if a < b then b else a
  }

  function IdOf(c: Claim): Bytes {
    c.id
  }

  function CandidateOf(claims: seq<Claim>, h: Bytes, hash: ValueHash): Candidate {
    var supporters := Supporters(claims, h, hash);
    Candidate(h, if supporters == [] then [] else supporters[0].value,
              TotalSupport(supporters), TopAuthority(supporters), Sort(Map(IdOf, supporters), LexLe))
  }

  /** Sort key (-authority, -pressure, value hash). */
  predicate RankLe(a: Candidate, b: Candidate) {
    if a.authority != b.authority then a.authority > b.authority
    else if a.pressure != b.pressure then a.pressure > b.pressure
    else LexLe(a.valueHash, b.valueHash)
  }

  function Candidates(claims: seq<Claim>, hash: ValueHash): seq<Candidate> {
    Map((h: Bytes) => CandidateOf(claims, h, hash), Keys(Hashed(hash), claims))
  }

  function Ranked(claims: seq<Claim>, hash: ValueHash): seq<Candidate> {
    Sort(Candidates(claims, hash), RankLe)
  }

  function Decide(ranked: seq<Candidate>): (Policy, Option<Candidate>)
    requires ranked != []
  {
    if |ranked| == 1 then (Converge, Some(ranked[0]))
    else if ranked[0].authority > ranked[1].authority || ranked[0].pressure > ranked[1].pressure then (Winner, Some(ranked[0]))
    else (Split, None)
  }

  function InContext(claims: seq<Claim>, context: Bytes): seq<Claim> {
    Having(ContextOf, context, claims)
  }

  function OutcomeOf(claims: seq<Claim>, context: Bytes, hash: ValueHash): Outcome {
    var ranked := Ranked(InContext(claims, context), hash);
    if ranked == [] then Outcome(context, Split, None, [])
    else Outcome(context, Decide(ranked).0, Decide(ranked).1, ranked)
  }

  function ContextOf(c: Claim): Bytes {
    c.context
  }

  /** Whether a claim verifies and is in the namespace. */
  function Admitted(namespace: Bytes): Claim -> bool {
    (c: Claim) => c.namespace == namespace && c.Verifies()
  }

  function ValidClaims(claims: seq<Claim>, namespace: Bytes): seq<Claim> {
    Having(Admitted(namespace), true, claims)
  }

  /** Claims in the namespace that fail the check. */
  function Quarantined(namespace: Bytes): Claim -> bool {
    (c: Claim) => c.namespace == namespace && !c.Verifies()
  }

  function QuarantinedIds(claims: seq<Claim>, namespace: Bytes): seq<Bytes> {
    Map((c: Claim) => c.id, Having(Quarantined(namespace), true, claims))
  }

  function Resolve(claims: seq<Claim>, namespace: Bytes, hash: ValueHash): seq<Outcome> {
    var valid := ValidClaims(claims, namespace);
    Map((context: Bytes) => OutcomeOf(valid, context, hash), Sort(Keys(ContextOf, valid), LexLe))
  }

  // ------------------------------------------------- the program's loops

  /** Fills a dict of lists, keys in order of first appearance. */
  method GroupBy<K(==)>(key: Claim -> K, claims: seq<Claim>) returns (keys: seq<K>, groups: map<K, seq<Claim>>)
    ensures keys == Keys(key, claims)
    ensures groups.Keys == set k | k in keys
    ensures forall k :: k in groups ==> groups[k] == Having(key, k, claims)
  {
    keys, groups := [], map[];
    for i := 0 to |claims|
      invariant keys == Keys(key, claims[..i])
      invariant groups.Keys == set k | k in keys
      invariant forall k :: k in groups ==> groups[k] == Having(key, k, claims[..i])
    {
      var c := claims[i];
      var k := key(c);
      assert claims[..i + 1][..i] == claims[..i];
      if k !in groups {
        keys := keys + [k];
        NoneYet(key, claims[..i], k);
        groups := groups[k := [c]];
      } else {
        groups := groups[k := groups[k] + [c]];
      }
    }
    assert claims[..|claims|] == claims;
  }

  /** A key that has not appeared has no claims. */
  lemma {:induction false} NoneYet<K>(key: Claim -> K, claims: seq<Claim>, k: K)
    requires k !in Keys(key, claims)
    ensures Having(key, k, claims) == []
  {
    if claims != [] {
      NoneYet(key, claims[..|claims| - 1], k);
    }
  }

  method RankGroup(claims: seq<Claim>, hash: ValueHash) returns (ranked: seq<Candidate>)
    ensures ranked == Ranked(claims, hash)
  {
    hide Sort, Having, Keys, TotalSupport, TopAuthority;
    var keys, byValue := GroupBy(Hashed(hash), claims);
    var unsorted: seq<Candidate> := [];
    for i := 0 to |keys|
      invariant |unsorted| == i
      invariant forall k :: 0 <= k < i ==> unsorted[k] == CandidateOf(claims, keys[k], hash)
    {
      var h := keys[i];
      var supporters := byValue[h];
      var pressure := SumSupport(supporters);
      var authority := GreatestAuthority(supporters);
      unsorted := unsorted + [Candidate(h, if supporters == [] then [] else supporters[0].value, pressure, authority,
                                        Sort(Map(IdOf, supporters), LexLe))];
    }
    assert unsorted == Candidates(claims, hash);
    ranked := Sort(unsorted, RankLe);
  }

  method SumSupport(claims: seq<Claim>) returns (total: int)
    ensures total == TotalSupport(claims)
  {
    total := 0;
    for i := 0 to |claims|
      invariant total == TotalSupport(claims[..i])
    {
      assert claims[..i + 1][..i] == claims[..i];
      total := total + claims[i].support;
    }
    assert claims[..|claims|] == claims;
  }

  method GreatestAuthority(claims: seq<Claim>) returns (top: int)
    ensures top == TopAuthority(claims)
  {
    top := 0;
    for i := 0 to |claims|
      invariant top == TopAuthority(claims[..i])
    {
      assert claims[..i + 1][..i] == claims[..i];
      top := if i == 0 then claims[i].authority else MaxInt(top, claims[i].authority);
    }
    assert claims[..|claims|] == claims;
  }

  method ResolveNamespace(claims: seq<Claim>, namespace: Bytes, hash: ValueHash) returns (outcomes: seq<Outcome>, quarantined: seq<Bytes>)
    ensures outcomes == Resolve(claims, namespace, hash) && quarantined == QuarantinedIds(claims, namespace)
  {
    hide Sort, Having, Keys, Ranked, Decide;
    var valid, refused := AdmittedOf(claims, namespace);
    quarantined := Map((c: Claim) => c.id, refused);
    var contexts, groups := GroupBy(ContextOf, valid);
    var sorted := Sort(contexts, LexLe);
    SameElements(sorted, contexts);
    outcomes := [];
    for i := 0 to |sorted|
      invariant |outcomes| == i
      invariant forall k :: 0 <= k < i ==> outcomes[k] == OutcomeOf(valid, sorted[k], hash)
    {
      assert sorted[i] in contexts;
      var ranked := RankGroup(groups[sorted[i]], hash);
      if ranked == [] {
        outcomes := outcomes + [Outcome(sorted[i], Split, None, [])];
      } else {
        var decision := Decide(ranked);
        outcomes := outcomes + [Outcome(sorted[i], decision.0, decision.1, ranked)];
      }
    }
    assert outcomes == Map((context: Bytes) => OutcomeOf(valid, context, hash), sorted);
  }

  method AdmittedOf(claims: seq<Claim>, namespace: Bytes) returns (valid: seq<Claim>, refused: seq<Claim>)
    ensures valid == ValidClaims(claims, namespace) && refused == Having(Quarantined(namespace), true, claims)
  {
    valid, refused := [], [];
    for i := 0 to |claims|
      invariant valid == ValidClaims(claims[..i], namespace) && refused == Having(Quarantined(namespace), true, claims[..i])
    {
      assert claims[..i + 1][..i] == claims[..i];
      if claims[i].namespace == namespace {
        if claims[i].Verifies() {
          valid := valid + [claims[i]];
        } else {
          refused := refused + [claims[i]];
        }
      }
    }
    assert claims[..|claims|] == claims;
  }

  // ------------------------------------------------- ranking

  lemma RankCompares()
    ensures Comparable(RankLe)
  {
    hide LexLe;
    LexIsTotalOrder();
  }

  lemma {:induction false} HavingMembers<T, K>(key: T -> K, k: K, s: seq<T>, x: T)
    ensures x in Having(key, k, s) <==> x in s && key(x) == k
  {
    if s != [] {
      HavingMembers(key, k, s[..|s| - 1], x);
      assert s == s[..|s| - 1] + [s[|s| - 1]];
    }
  }

  lemma {:induction false} KeysMembers<T(!new), K(!new)>(key: T -> K, s: seq<T>, k: K)
    ensures k in Keys(key, s) <==> exists x :: x in s && key(x) == k
  {
    if s != [] {
      var last := s[|s| - 1];
      KeysMembers(key, s[..|s| - 1], k);
      assert s == s[..|s| - 1] + [last];
      if x :| x in s && key(x) == k {
        assert x in s[..|s| - 1] || x == last;
      }
    }
  }

  lemma {:induction false} KeysDiffer<T, K>(key: T -> K, s: seq<T>)
    ensures NoRepeats(Keys(key, s))
  {
    if s != [] {
      KeysDiffer(key, s[..|s| - 1]);
    }
  }

  /** No two candidates are for the same value. */
  ghost predicate OneEach(candidates: seq<Candidate>) {
    forall i, j :: 0 <= i < j < |candidates| ==> candidates[i].valueHash != candidates[j].valueHash
  }

  lemma CandidatesOneEach(claims: seq<Claim>, hash: ValueHash)
    ensures OneEach(Candidates(claims, hash))
  {
    KeysDiffer(Hashed(hash), claims);
  }

  lemma {:induction false} OneEachToldApart(candidates: seq<Candidate>)
    requires OneEach(candidates)
    ensures TellsApart(RankLe, candidates)
  {
    hide LexLe;
    LexIsTotalOrder();
    forall x, y | x in candidates && y in candidates && RankLe(x, y) && RankLe(y, x)
      ensures x == y
    {
      var i :| 0 <= i < |candidates| && candidates[i] == x;
      var j :| 0 <= j < |candidates| && candidates[j] == y;
      assert x.valueHash == y.valueHash;
    }
  }

  /** Strictly ahead by authority, then by total support. */
  predicate Beats(a: Candidate, b: Candidate) {
    a.authority > b.authority || (a.authority == b.authority && a.pressure > b.pressure)
  }

  ghost predicate UniqueMaximum(c: Candidate, candidates: seq<Candidate>) {
    c in candidates && forall d :: d in candidates && d != c ==> Beats(c, d)
  }

  lemma {:induction false} SortedHead(candidates: seq<Candidate>, ranked: seq<Candidate>, d: Candidate)
    requires OneEach(candidates) && ranked == Sort(candidates, RankLe) && d in candidates
    ensures ranked != [] && ranked[0] in candidates
    ensures d == ranked[0] || (|ranked| > 1 && (d == ranked[1] || RankLe(ranked[1], d)))
    ensures |ranked| > 1 ==> ranked[1] in candidates && ranked[0] != ranked[1] && RankLe(ranked[0], ranked[1])
  {
    hide RankLe, Sort;
    RankCompares();
    SortSorted(candidates, RankLe);
    SameElements(ranked, candidates);
    assert d in ranked;
    assert ranked[0] in candidates;
    if |ranked| > 1 {
      assert ranked[1] in candidates;
      NotTwice(candidates, ranked);
    }
  }

  /** A rearrangement of different elements has no element twice. */
  lemma {:induction false} NotTwice(candidates: seq<Candidate>, ranked: seq<Candidate>)
    requires OneEach(candidates) && multiset(candidates) == multiset(ranked) && |ranked| > 1
    ensures ranked[0] != ranked[1]
  {
    assert NoRepeats(candidates);
    OnceEach(candidates, ranked[0]);
    CountOfFirst(ranked);
  }

  lemma CountOfFirst(ranked: seq<Candidate>)
    requires |ranked| > 1
    ensures multiset(ranked)[ranked[0]] >= if ranked[0] == ranked[1] then 2 else 1
  {
    assert ranked == [ranked[0]] + [ranked[1]] + ranked[2..];
  }

  /**
   What a context selects: a candidate is selected exactly when it is the unique maximum by authority and then
   total support, and the context is split exactly when the first two of the ranking tie on both.
   */
  lemma {:induction false} SelectedExactly(claims: seq<Claim>, hash: ValueHash, c: Candidate)
    requires Candidates(claims, hash) != []
    ensures var ranked := Ranked(claims, hash);
            && ranked != []
            && (Decide(ranked).1 == Some(c) <==> UniqueMaximum(c, Candidates(claims, hash)))
            && (Decide(ranked).0 == Split <==> |ranked| > 1 && ranked[0].authority == ranked[1].authority
                                               && ranked[0].pressure == ranked[1].pressure)
            && (Decide(ranked).0 == Split <==> Decide(ranked).1 == None)
  {
    hide Candidates, Sort;
    var candidates, ranked := Candidates(claims, hash), Ranked(claims, hash);
    CandidatesOneEach(claims, hash);
    forall d | d in candidates
      ensures d == ranked[0] || (|ranked| > 1 && (d == ranked[1] || RankLe(ranked[1], d)))
      ensures ranked[0] in candidates
      ensures |ranked| > 1 ==> ranked[1] in candidates && ranked[0] != ranked[1] && RankLe(ranked[0], ranked[1])
    {
      SortedHead(candidates, ranked, d);
    }
    assert candidates[0] in candidates;
  }

  // ------------------------------------------------- order does not matter

  lemma {:induction false} HavingPermutes<T(!new), K>(key: T -> K, k: K, s: seq<T>, t: seq<T>)
    requires multiset(s) == multiset(t)
    ensures multiset(Having(key, k, s)) == multiset(Having(key, k, t))
  {
    forall x
      ensures multiset(Having(key, k, s))[x] == multiset(Having(key, k, t))[x]
    {
      HavingCount(key, k, s, x);
      HavingCount(key, k, t, x);
    }
  }

  lemma {:induction false} HavingCount<T, K>(key: T -> K, k: K, s: seq<T>, x: T)
    ensures multiset(Having(key, k, s))[x] == if key(x) == k then multiset(s)[x] else 0
  {
    if s != [] {
      var last := |s| - 1;
      assert s == s[..last] + [s[last]];
      HavingCount(key, k, s[..last], x);
    }
  }

  lemma {:induction false} KeysPermute<T(!new), K(!new)>(key: T -> K, s: seq<T>, t: seq<T>)
    requires multiset(s) == multiset(t)
    ensures multiset(Keys(key, s)) == multiset(Keys(key, t))
  {
    hide Keys;
    SameElements(s, t);
    forall k
      ensures k in Keys(key, s) <==> k in Keys(key, t)
    {
      KeysMembers(key, s, k);
      KeysMembers(key, t, k);
    }
    KeysDiffer(key, s);
    KeysDiffer(key, t);
    SameMembers(Keys(key, s), Keys(key, t));
  }

  lemma {:induction false} SupportWithout(claims: seq<Claim>, p: nat)
    requires p < |claims|
    ensures TotalSupport(claims) == TotalSupport(claims[..p] + claims[p + 1..]) + claims[p].support
  {
    var last := |claims| - 1;
    if p == last {
      assert claims[..p] + claims[p + 1..] == claims[..last];
    } else {
      SupportWithout(claims[..last], p);
      var without := claims[..p] + claims[p + 1..];
      assert without[..|without| - 1] == claims[..last][..p] + claims[..last][p + 1..];
    }
  }

  lemma {:induction false} SupportPermutes(s: seq<Claim>, t: seq<Claim>)
    requires multiset(s) == multiset(t)
    ensures TotalSupport(s) == TotalSupport(t)
    decreases |s|
  {
    hide TotalSupport;
    if s == [] {
      assert |multiset(t)| == 0;
    } else {
      var p := FindHead(s, t);
      SupportPermutes(s[..0] + s[1..], t[..p] + t[p + 1..]);
      SupportWithout(s, 0);
      SupportWithout(t, p);
    }
  }

  lemma {:induction false} TopIsGreatest(claims: seq<Claim>)
    requires claims != []
    ensures forall c :: c in claims ==> c.authority <= TopAuthority(claims)
    ensures exists c :: c in claims && c.authority == TopAuthority(claims)
  {
    var last := |claims| - 1;
    assert claims == claims[..last] + [claims[last]];
    assert claims[last] in claims;
    if last > 0 {
      TopIsGreatest(claims[..last]);
      var c :| c in claims[..last] && c.authority == TopAuthority(claims[..last]);
      assert c in claims;
    }
  }

  lemma {:induction false} TopPermutes(s: seq<Claim>, t: seq<Claim>)
    requires multiset(s) == multiset(t)
    ensures TopAuthority(s) == TopAuthority(t)
  {
    hide TopAuthority;
    SameElements(s, t);
    if s != [] {
      assert s[0] in t;
      TopIsGreatest(s);
      TopIsGreatest(t);
    } else {
      assert |t| == |multiset(t)| == 0;
    }
  }

  /** The values of these claims do not collide under the value hash. */
  ghost predicate ValuesApart(claims: seq<Claim>, hash: ValueHash) {
    forall c, d :: c in claims && d in claims && hash(c.value) == hash(d.value) ==> c.value == d.value
  }

  lemma {:induction false} CandidatePermutes(s: seq<Claim>, t: seq<Claim>, h: Bytes, hash: ValueHash)
    requires multiset(s) == multiset(t) && ValuesApart(s, hash)
    ensures CandidateOf(s, h, hash) == CandidateOf(t, h, hash)
  {
    hide Having, TotalSupport, TopAuthority, Sort, LexLe;
    var (x, y) := (Supporters(s, h, hash), Supporters(t, h, hash));
    HavingPermutes(Hashed(hash), h, s, t);
    SupportPermutes(x, y);
    TopPermutes(x, y);
    MapPermutes(IdOf, x, y);
    LexIsTotalOrder();
    SortCanonical(Map(IdOf, x), Map(IdOf, y), LexLe);
    assert |x| == |multiset(x)| == |multiset(y)| == |y|;
    if x != [] {
      SameElements(s, t);
      HavingMembers(Hashed(hash), h, s, x[0]);
      HavingMembers(Hashed(hash), h, t, y[0]);
    }
  }

  lemma {:induction false} RankedPermutes(s: seq<Claim>, t: seq<Claim>, hash: ValueHash)
    requires multiset(s) == multiset(t) && ValuesApart(s, hash)
    ensures Ranked(s, hash) == Ranked(t, hash)
  {
    hide Keys, CandidateOf, Sort, RankLe, ValuesApart;
    var f, g := (h: Bytes) => CandidateOf(s, h, hash), (h: Bytes) => CandidateOf(t, h, hash);
    var x, y := Keys(Hashed(hash), s), Keys(Hashed(hash), t);
    KeysPermute(Hashed(hash), s, t);
    MapPermutes(f, x, y);
    forall i | 0 <= i < |y|
      ensures f(y[i]) == g(y[i])
    {
      CandidatePermutes(s, t, y[i], hash);
    }
    assert Map(f, y) == Map(g, y);
    RankCompares();
    CandidatesOneEach(s, hash);
    OneEachToldApart(Candidates(s, hash));
    SortCanonical(Candidates(s, hash), Candidates(t, hash), RankLe);
  }

  /** Resolution depends on which valid claims there are, not on the order they are listed in. */
  lemma {:induction false} OrderDoesNotMatter(s: seq<Claim>, t: seq<Claim>, namespace: Bytes, hash: ValueHash)
    requires multiset(ValidClaims(s, namespace)) == multiset(ValidClaims(t, namespace))
    requires ValuesApart(ValidClaims(s, namespace), hash)
    ensures Resolve(s, namespace, hash) == Resolve(t, namespace, hash)
  {
    hide Keys, Having, Ranked, Sort, LexLe, ValuesApart, Decide;
    var (x, y) := (ValidClaims(s, namespace), ValidClaims(t, namespace));
    KeysPermute(ContextOf, x, y);
    LexIsTotalOrder();
    SortCanonical(Keys(ContextOf, x), Keys(ContextOf, y), LexLe);
    var contexts := Sort(Keys(ContextOf, x), LexLe);
    forall i | 0 <= i < |contexts|
      ensures OutcomeOf(x, contexts[i], hash) == OutcomeOf(y, contexts[i], hash)
    {
      HavingPermutes(ContextOf, contexts[i], x, y);
      PartApart(x, contexts[i], hash);
      RankedPermutes(InContext(x, contexts[i]), InContext(y, contexts[i]), hash);
    }
    assert Resolve(s, namespace, hash) == Resolve(t, namespace, hash);
  }

  lemma {:induction false} PartApart(claims: seq<Claim>, context: Bytes, hash: ValueHash)
    requires ValuesApart(claims, hash)
    ensures ValuesApart(InContext(claims, context), hash)
  {
    hide Having;
    forall c | c in InContext(claims, context)
      ensures c in claims
    {
      HavingMembers(ContextOf, context, claims, c);
    }
  }

  // ------------------------------------------------- every outcome

  lemma {:induction false} CandidateMember(claims: seq<Claim>, hash: ValueHash, d: Candidate)
    ensures d in Candidates(claims, hash)
       <==> d.valueHash in Keys(Hashed(hash), claims) && d == CandidateOf(claims, d.valueHash, hash)
  {
    hide Keys, Having, Sort, TotalSupport, TopAuthority;
    var keys := Keys(Hashed(hash), claims);
    if d in Candidates(claims, hash) {
      var i :| 0 <= i < |Candidates(claims, hash)| && Candidates(claims, hash)[i] == d;
      assert d == CandidateOf(claims, keys[i], hash) && keys[i] in keys;
    }
    if d.valueHash in keys && d == CandidateOf(claims, d.valueHash, hash) {
      var i :| 0 <= i < |keys| && keys[i] == d.valueHash;
      assert Candidates(claims, hash)[i] == d;
    }
  }

  /** The contexts that are resolved are those of valid claims, each once. */
  lemma {:induction false} OutcomeMember(claims: seq<Claim>, namespace: Bytes, hash: ValueHash, o: Outcome)
    ensures o in Resolve(claims, namespace, hash)
       <==> o.context in Keys(ContextOf, ValidClaims(claims, namespace)) && o == OutcomeOf(ValidClaims(claims, namespace), o.context, hash)
  {
    hide Keys, Having, Ranked, Decide, Sort, LexLe;
    var valid := ValidClaims(claims, namespace);
    var contexts := Sort(Keys(ContextOf, valid), LexLe);
    SameElements(contexts, Keys(ContextOf, valid));
    var outcomes := Resolve(claims, namespace, hash);
    if o in outcomes {
      var i :| 0 <= i < |outcomes| && outcomes[i] == o;
      assert o == OutcomeOf(valid, contexts[i], hash) && contexts[i] in contexts;
    }
    if o.context in Keys(ContextOf, valid) && o == OutcomeOf(valid, o.context, hash) {
      assert o.context in contexts;
      var i :| 0 <= i < |contexts| && contexts[i] == o.context;
      assert outcomes[i] == o;
    }
  }

  lemma {:induction false} ContextHasCandidates(claims: seq<Claim>, context: Bytes, hash: ValueHash)
    requires context in Keys(ContextOf, claims)
    ensures InContext(claims, context) != [] && Candidates(InContext(claims, context), hash) != []
  {
    hide Keys, Having, CandidateOf;
    KeysMembers(ContextOf, claims, context);
    var x :| x in claims && ContextOf(x) == context;
    HavingMembers(ContextOf, context, claims, x);
    var group := InContext(claims, context);
    KeysMembers(Hashed(hash), group, hash(x.value));
    assert Hashed(hash)(x) == hash(x.value) && hash(x.value) in Keys(Hashed(hash), group);
  }

  /**
   Every outcome of a resolution: its candidates are one for each value claimed in its context, each with the
   claims for it; one is selected exactly when it is the unique maximum by authority and then total support; and
   the policy is a split exactly when the first two tie on both.
   */
  lemma {:induction false} EveryOutcome(claims: seq<Claim>, namespace: Bytes, hash: ValueHash, o: Outcome, c: Candidate)
    requires o in Resolve(claims, namespace, hash)
    ensures var group := InContext(ValidClaims(claims, namespace), o.context);
            && o.candidates != [] && multiset(o.candidates) == multiset(Candidates(group, hash))
            && (o.selected == Some(c) <==> UniqueMaximum(c, o.candidates))
            && (o.policy == Split <==> |o.candidates| > 1 && o.candidates[0].authority == o.candidates[1].authority
                                       && o.candidates[0].pressure == o.candidates[1].pressure)
            && (o.policy == Split <==> o.selected == None)
  {
    hide Keys, Having, Candidates, Sort, Decide, Resolve;
    OutcomeMember(claims, namespace, hash, o);
    var group := InContext(ValidClaims(claims, namespace), o.context);
    ContextHasCandidates(ValidClaims(claims, namespace), o.context, hash);
    SelectedExactly(group, hash, c);
    SameElements(o.candidates, Candidates(group, hash));
  }

  // ------------------------------------------------- more support does not unseat

  lemma {:induction false} HavingConcat<T, K>(key: T -> K, k: K, x: seq<T>, y: seq<T>)
    ensures Having(key, k, x + y) == Having(key, k, x) + Having(key, k, y)
  {
    if y == [] {
      assert x + y == x;
    } else {
      assert (x + y)[..|x + y| - 1] == x + y[..|y| - 1];
      HavingConcat(key, k, x, y[..|y| - 1]);
    }
  }

  lemma {:induction false} HavingInsert<T, K>(key: T -> K, k: K, x: seq<T>, c: T, y: seq<T>)
    ensures key(c) == k ==> Having(key, k, x + [c] + y) == Having(key, k, x) + [c] + Having(key, k, y)
    ensures key(c) != k ==> Having(key, k, x + [c] + y) == Having(key, k, x + y)
  {
    HavingConcat(key, k, x + [c], y);
    HavingConcat(key, k, x, [c]);
    HavingConcat(key, k, x, y);
    assert [c][..0] == [];
  }

  lemma {:induction false} SupportConcat(x: seq<Claim>, y: seq<Claim>)
    ensures TotalSupport(x + y) == TotalSupport(x) + TotalSupport(y)
  {
    if y == [] {
      assert x + y == x;
    } else {
      assert (x + y)[..|x + y| - 1] == x + y[..|y| - 1];
      SupportConcat(x, y[..|y| - 1]);
    }
  }

  lemma {:induction false} TopGrows(x: seq<Claim>, c: Claim, y: seq<Claim>)
    requires x + y != []
    ensures TopAuthority(x + [c] + y) >= TopAuthority(x + y)
  {
    hide TopAuthority;
    TopIsGreatest(x + y);
    TopIsGreatest(x + [c] + y);
    var top :| top in x + y && top.authority == TopAuthority(x + y);
    assert top in x + [c] + y;
  }

  /** One more claim, anywhere in the list, adds to its own value and leaves the others as they were. */
  lemma {:induction false} CandidateGrows(x: seq<Claim>, c: Claim, y: seq<Claim>, hash: ValueHash, h: Bytes)
    ensures h != hash(c.value) ==> CandidateOf(x + [c] + y, h, hash) == CandidateOf(x + y, h, hash)
    ensures h == hash(c.value) ==>
              && CandidateOf(x + [c] + y, h, hash).pressure == CandidateOf(x + y, h, hash).pressure + c.support
              && (Supporters(x + y, h, hash) != [] ==>
                    CandidateOf(x + [c] + y, h, hash).authority >= CandidateOf(x + y, h, hash).authority)
  {
    hide Sort, LexLe, Having, TotalSupport, TopAuthority;
    HavingInsert(Hashed(hash), h, x, c, y);
    if h == hash(c.value) {
      var (a, b) := (Supporters(x, h, hash), Supporters(y, h, hash));
      HavingConcat(Hashed(hash), h, x, y);
      SupportConcat(a + [c], b);
      SupportConcat(a, [c]);
      SupportConcat(a, b);
      SupportOfOne(c);
      if a + b != [] {
        TopGrows(a, c, b);
      }
    }
  }

  lemma SupportOfOne(c: Claim)
    ensures TotalSupport([c]) == c.support
  {
    assert [c][..0] == [];
  }

  /** Claiming a value that is claimed already adds no key. */
  lemma {:induction false} KeysStay<K(!new)>(key: Claim -> K, x: seq<Claim>, c: Claim, y: seq<Claim>, k: K)
    requires key(c) in Keys(key, x + y)
    ensures k in Keys(key, x + [c] + y) <==> k in Keys(key, x + y)
  {
    hide Keys;
    KeysMembers(key, x + [c] + y, k);
    KeysMembers(key, x + y, k);
    KeysMembers(key, x + y, key(c));
    if d :| d in x + [c] + y && key(d) == k {
      assert d in x + y || d == c;
    }
    if d :| d in x + y && key(d) == k {
      assert d in x + [c] + y;
    }
  }

  lemma {:induction false} KeySupported(claims: seq<Claim>, hash: ValueHash, h: Bytes)
    requires h in Keys(Hashed(hash), claims)
    ensures Supporters(claims, h, hash) != []
  {
    hide Keys, Having;
    KeysMembers(Hashed(hash), claims, h);
    var x :| x in claims && Hashed(hash)(x) == h;
    HavingMembers(Hashed(hash), h, claims, x);
  }

  /**
   In one context: a further claim for the selected value, wherever it comes in the list and whatever its
   authority and support, keeps that value the unique maximum.
   */
  lemma {:induction false} SupportNeverUnseats(x: seq<Claim>, c: Claim, y: seq<Claim>, selected: Candidate, hash: ValueHash)
    requires c.support >= 1 && UniqueMaximum(selected, Candidates(x + y, hash)) && hash(c.value) == selected.valueHash
    ensures var better := CandidateOf(x + [c] + y, selected.valueHash, hash);
            && UniqueMaximum(better, Candidates(x + [c] + y, hash)) && better.valueHash == selected.valueHash
            && better.pressure == selected.pressure + c.support && better.authority >= selected.authority
  {
    hide Candidates, CandidateOf, Keys, Having;
    var h, key := selected.valueHash, Hashed(hash);
    var better := CandidateOf(x + [c] + y, h, hash);
    CandidateMember(x + y, hash, selected);
    KeySupported(x + y, hash, h);
    CandidateGrows(x, c, y, hash, h);
    ValueOf(x + [c] + y, h, hash);
    KeysStay(key, x, c, y, h);
    CandidateMember(x + [c] + y, hash, better);
    forall d | d in Candidates(x + [c] + y, hash) && d != better
      ensures Beats(better, d)
    {
      CandidateMember(x + [c] + y, hash, d);
      KeysStay(key, x, c, y, d.valueHash);
      CandidateGrows(x, c, y, hash, d.valueHash);
      CandidateMember(x + y, hash, d);
    }
  }

  lemma ValueOf(claims: seq<Claim>, h: Bytes, hash: ValueHash)
    ensures CandidateOf(claims, h, hash).valueHash == h
  {
  }

  /** The claims of a context after a valid claim came in somewhere. */
  lemma {:induction false} GroupInsert(x: seq<Claim>, c: Claim, y: seq<Claim>, namespace: Bytes, context: Bytes)
    requires c.namespace == namespace && c.Verifies()
    ensures ValidClaims(x + [c] + y, namespace) == ValidClaims(x, namespace) + [c] + ValidClaims(y, namespace)
    ensures ValidClaims(x + y, namespace) == ValidClaims(x, namespace) + ValidClaims(y, namespace)
    ensures var (a, b) := (InContext(ValidClaims(x, namespace), context), InContext(ValidClaims(y, namespace), context));
            && InContext(ValidClaims(x + y, namespace), context) == a + b
            && InContext(ValidClaims(x + [c] + y, namespace), context) == if c.context == context then a + [c] + b else a + b
  {
    hide Having;
    HavingInsert(Admitted(namespace), true, x, c, y);
    HavingConcat(Admitted(namespace), true, x, y);
    var (u, v) := (ValidClaims(x, namespace), ValidClaims(y, namespace));
    HavingConcat(ContextOf, context, u, v);
    HavingInsert(ContextOf, context, u, c, v);
  }

  /** The outcome of a context, if it has valid claims. */
  lemma {:induction false} OutcomeThere(claims: seq<Claim>, namespace: Bytes, hash: ValueHash, context: Bytes)
    requires context in Keys(ContextOf, ValidClaims(claims, namespace))
    ensures var o := OutcomeOf(ValidClaims(claims, namespace), context, hash);
            o.context == context && o in Resolve(claims, namespace, hash)
  {
    hide Keys, Having, Ranked, Decide, Resolve;
    OutcomeMember(claims, namespace, hash, OutcomeOf(ValidClaims(claims, namespace), context, hash));
  }

  /**
   A further valid claim for the selected value never unseats it: wherever its file comes in the listing, the
   outcome of its context still selects that value, with its support added and no less authority.
   */
  lemma {:induction false} SelectedStaysSelected(x: seq<Claim>, c: Claim, y: seq<Claim>, namespace: Bytes, hash: ValueHash, o: Outcome)
      returns (after: Outcome)
    requires o in Resolve(x + y, namespace, hash) && o.selected.Some?
    requires c.namespace == namespace && c.Verifies() && c.context == o.context && hash(c.value) == o.selected.value.valueHash
    ensures after in Resolve(x + [c] + y, namespace, hash) && after.context == o.context && after.selected.Some?
    ensures after.selected.value.valueHash == o.selected.value.valueHash
    ensures after.selected.value.pressure == o.selected.value.pressure + c.support
    ensures after.selected.value.authority >= o.selected.value.authority
  {
    hide Candidates, CandidateOf, Keys, Having, Resolve, UniqueMaximum, OutcomeOf, ValidClaims, InContext;
    var (u, v) := (ValidClaims(x, namespace), ValidClaims(y, namespace));
    var (a, b) := (InContext(u, o.context), InContext(v, o.context));
    GroupInsert(x, c, y, namespace, o.context);
    OutcomeMember(x + y, namespace, hash, o);
    KeysStay(ContextOf, u, c, v, o.context);
    OutcomeThere(x + [c] + y, namespace, hash, o.context);
    after := OutcomeOf(ValidClaims(x + [c] + y, namespace), o.context, hash);
    var selected := o.selected.value;
    EveryOutcome(x + y, namespace, hash, o, selected);
    SameUnique(selected, o.candidates, Candidates(a + b, hash));
    SupportNeverUnseats(a, c, b, selected, hash);
    var better := CandidateOf(a + [c] + b, selected.valueHash, hash);
    EveryOutcome(x + [c] + y, namespace, hash, after, better);
    SameUnique(better, Candidates(a + [c] + b, hash), after.candidates);
  }

  lemma {:induction false} SameUnique(c: Candidate, x: seq<Candidate>, y: seq<Candidate>)
    requires multiset(x) == multiset(y)
    ensures UniqueMaximum(c, x) <==> UniqueMaximum(c, y)
  {
    SameElements(x, y);
  }

  /** And it changes the outcome of no other context. */
  lemma {:induction false} OtherContextsStay(x: seq<Claim>, c: Claim, y: seq<Claim>, namespace: Bytes, hash: ValueHash, o: Outcome)
    requires c.namespace == namespace && c.Verifies() && c.context != o.context
    ensures o in Resolve(x + [c] + y, namespace, hash) <==> o in Resolve(x + y, namespace, hash)
  {
    hide Keys, Having, Ranked, Decide, Resolve, ValidClaims, InContext;
    var (u, v) := (ValidClaims(x, namespace), ValidClaims(y, namespace));
    GroupInsert(x, c, y, namespace, o.context);
    OutcomeMember(x + y, namespace, hash, o);
    OutcomeMember(x + [c] + y, namespace, hash, o);
    KeysElsewhere(u, c, v, o.context);
  }

  lemma {:induction false} KeysElsewhere(x: seq<Claim>, c: Claim, y: seq<Claim>, context: Bytes)
    requires c.context != context
    ensures context in Keys(ContextOf, x + [c] + y) <==> context in Keys(ContextOf, x + y)
  {
    hide Keys;
    KeysMembers(ContextOf, x + [c] + y, context);
    KeysMembers(ContextOf, x + y, context);
    if d :| d in x + [c] + y && ContextOf(d) == context {
      assert d in x + y;
    }
    if d :| d in x + y && ContextOf(d) == context {
      assert d in x + [c] + y;
    }
  }
}
