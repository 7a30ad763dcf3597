/**
 What a mesh resolution contains (bogvm/mesh.py), read off the claims themselves: which claims stand behind each
 candidate and what they add up to, which are quarantined, and the order of candidates and outcomes.
 */
module MeshMeaning {
  import opened Wrappers
  import opened Sorting
  import opened ByteStrings
  import opened Mesh

  /** A claim of the namespace that may speak: hashed, signed by a trusted key, supported and scoped. */
  predicate Speaks(c: Claim, namespace: Bytes) {
    c.namespace == namespace && c.hashMatches && c.trusted && c.support >= 1 && c.scoped
  }

  /** A claim that stands behind a value in a context. */
  predicate Backs(c: Claim, namespace: Bytes, context: Bytes, h: Bytes, hash: ValueHash) {
    Speaks(c, namespace) && c.context == context && hash(c.value) == h
  }

  function SupportFor(claims: seq<Claim>, namespace: Bytes, context: Bytes, h: Bytes, hash: ValueHash): int {
    if claims == [] then 0
    else
      var last := claims[|claims| - 1];
      SupportFor(claims[..|claims| - 1], namespace, context, h, hash) + if Backs(last, namespace, context, h, hash) then last.support else 0
  }

  function BackerIds(claims: seq<Claim>, namespace: Bytes, context: Bytes, h: Bytes, hash: ValueHash): multiset<Bytes> {
    if claims == [] then multiset{}
    else
      var last := claims[|claims| - 1];
      BackerIds(claims[..|claims| - 1], namespace, context, h, hash)
      + if Backs(last, namespace, context, h, hash) then multiset{last.id} else multiset{}
  }

  /** The claims behind a value, picked out by the three filters of the resolution. */
  function Backers(claims: seq<Claim>, namespace: Bytes, context: Bytes, h: Bytes, hash: ValueHash): seq<Claim> {
    Supporters(InContext(ValidClaims(claims, namespace), context), h, hash)
  }

  lemma {:induction false} BackersStep(front: seq<Claim>, c: Claim, namespace: Bytes, context: Bytes, h: Bytes, hash: ValueHash)
    ensures Backers(front + [c], namespace, context, h, hash)
         == Backers(front, namespace, context, h, hash) + if Backs(c, namespace, context, h, hash) then [c] else []
  {
    hide Having;
    var valid := ValidClaims(front, namespace);
    HavingConcat(Admitted(namespace), true, front, [c]);
    HavingOne(Admitted(namespace), true, c);
    if Speaks(c, namespace) {
      HavingConcat(ContextOf, context, valid, [c]);
      HavingOne(ContextOf, context, c);
      if c.context == context {
        HavingConcat(Hashed(hash), h, InContext(valid, context), [c]);
        HavingOne(Hashed(hash), h, c);
      } else {
        assert InContext(valid, context) + [] == InContext(valid, context);
      }
    } else {
      assert valid + [] == valid;
    }
  }

  lemma HavingOne<T, K>(key: T -> K, k: K, x: T)
    ensures Having(key, k, [x]) == if key(x) == k then [x] else []
  {
    assert [x][..0] == [];
  }

  lemma {:induction false} NoBackers(namespace: Bytes, context: Bytes, h: Bytes, hash: ValueHash)
    ensures Backers([], namespace, context, h, hash) == []
  {
  }

  lemma {:induction false} BackersMean(claims: seq<Claim>, namespace: Bytes, context: Bytes, h: Bytes, hash: ValueHash)
    ensures var backers := Backers(claims, namespace, context, h, hash);
            && TotalSupport(backers) == SupportFor(claims, namespace, context, h, hash)
            && multiset(Map(IdOf, backers)) == BackerIds(claims, namespace, context, h, hash)
            && forall c :: c in backers <==> c in claims && Backs(c, namespace, context, h, hash)
  {
    hide Backers, Backs, TotalSupport, Map;
    if claims == [] {
      NoBackers(namespace, context, h, hash);
      NothingAdds();
    } else {
      var n := |claims| - 1;
      var (front, c) := (claims[..n], claims[n]);
      assert claims == front + [c];
      BackersMean(front, namespace, context, h, hash);
      BackersStep(front, c, namespace, context, h, hash);
      var backers := Backers(front, namespace, context, h, hash);
      if Backs(c, namespace, context, h, hash) {
        OneMoreBacker(backers, c);
      } else {
        assert backers + [] == backers;
      }
    }
  }

  lemma NothingAdds()
    ensures TotalSupport([]) == 0 && multiset(Map(IdOf, [])) == multiset{}
  {
  }

  lemma OneMoreBacker(backers: seq<Claim>, c: Claim)
    ensures TotalSupport(backers + [c]) == TotalSupport(backers) + c.support
    ensures multiset(Map(IdOf, backers + [c])) == multiset(Map(IdOf, backers)) + multiset{c.id}
  {
    assert (backers + [c])[..|backers|] == backers;
    assert Map(IdOf, backers + [c]) == Map(IdOf, backers) + [c.id];
  }

  /** Ahead in the ranking: by authority, then by support, then by the hash of the value. */
  ghost predicate Ahead(a: Candidate, b: Candidate) {
    || a.authority > b.authority
    || (a.authority == b.authority && a.pressure > b.pressure)
    || (a.authority == b.authority && a.pressure == b.pressure && !Before(b.valueHash, a.valueHash))
  }

  /** What stands behind a candidate of an outcome: its claims, their support in all, the greatest authority among them. */
  lemma {:induction false} CandidateMeans(claims: seq<Claim>, namespace: Bytes, hash: ValueHash, o: Outcome, d: Candidate)
    requires o in Resolve(claims, namespace, hash) && d in o.candidates
    ensures d.pressure == SupportFor(claims, namespace, o.context, d.valueHash, hash)
    ensures multiset(d.claims) == BackerIds(claims, namespace, o.context, d.valueHash, hash)
    ensures forall i, j :: 0 <= i < j < |d.claims| ==> !Before(d.claims[j], d.claims[i])
    ensures forall c :: c in claims && Backs(c, namespace, o.context, d.valueHash, hash) ==> c.authority <= d.authority
    ensures exists c :: c in claims && Backs(c, namespace, o.context, d.valueHash, hash) && c.authority == d.authority
    ensures exists c :: c in claims && Backs(c, namespace, o.context, d.valueHash, hash) && c.value == d.value
  {
    hide Having, Keys, Candidates, Resolve, Backs, TotalSupport, TopAuthority, SupportFor, BackerIds, InContext, ValidClaims, Sort, Before,
         CandidateOf, Supporters;
    var group := InContext(ValidClaims(claims, namespace), o.context);
    EveryOutcome(claims, namespace, hash, o, d);
    SameElements(o.candidates, Candidates(group, hash));
    CandidateMember(group, hash, d);
    KeySupported(group, hash, d.valueHash);
    BackersMean(claims, namespace, o.context, d.valueHash, hash);
    var backers := Supporters(group, d.valueHash, hash);
    assert backers == Backers(claims, namespace, o.context, d.valueHash, hash);
    CandidateParts(group, d.valueHash, hash);
    TopIsGreatest(backers);
    assert backers[0] in backers;
  }

  lemma CandidateParts(group: seq<Claim>, h: Bytes, hash: ValueHash)
    requires Supporters(group, h, hash) != []
    ensures var (d, backers) := (CandidateOf(group, h, hash), Supporters(group, h, hash));
            && d.pressure == TotalSupport(backers) && d.authority == TopAuthority(backers) && d.value == backers[0].value
            && multiset(d.claims) == multiset(Map(IdOf, backers))
            && forall i, j :: 0 <= i < j < |d.claims| ==> !Before(d.claims[j], d.claims[i])
  {
    hide Supporters, TotalSupport, TopAuthority, Before, LexLe;
    var ids := Map(IdOf, Supporters(group, h, hash));
    var sorted := Sort(ids, LexLe);
    LexIsTotalOrder();
    SortSorted(ids, LexLe);
    forall i, j | 0 <= i < j < |sorted|
      ensures !Before(sorted[j], sorted[i])
    {
      BeforeMeans(sorted[j], sorted[i]);
    }
  }

  /** The candidates of an outcome are ranked, and the outcomes follow the order of their contexts. */
  lemma {:induction false} OutcomesInOrder(claims: seq<Claim>, namespace: Bytes, hash: ValueHash)
    ensures var all := Resolve(claims, namespace, hash);
            && (forall i, j :: 0 <= i < j < |all| ==> Before(all[i].context, all[j].context))
            && (forall o, i, j :: o in all && 0 <= i < j < |o.candidates| ==> Ahead(o.candidates[i], o.candidates[j]))
  {
    hide Having, Keys, Candidates, Before, LexLe, CandidateOf, ValidClaims, Sort, Decide;
    var (all, valid) := (Resolve(claims, namespace, hash), ValidClaims(claims, namespace));
    var contexts := Sort(Keys(ContextOf, valid), LexLe);
    LexIsTotalOrder();
    SortSorted(Keys(ContextOf, valid), LexLe);
    KeysDiffer(ContextOf, valid);
    forall i, j | 0 <= i < j < |all|
      ensures Before(all[i].context, all[j].context)
    {
      assert all[i].context == contexts[i] && all[j].context == contexts[j];
      StillDiffer(Keys(ContextOf, valid), contexts, i, j);
      BeforeMeans(contexts[i], contexts[j]);
    }
    forall o, i, j | o in all && 0 <= i < j < |o.candidates|
      ensures Ahead(o.candidates[i], o.candidates[j])
    {
      RankedInOrder(InContext(valid, o.context), hash, i, j);
    }
  }

  /** A context converges when one value is claimed in it; it has a winner or is split when there are more. */
  lemma {:induction false} PolicyMeans(claims: seq<Claim>, namespace: Bytes, hash: ValueHash, o: Outcome)
    requires o in Resolve(claims, namespace, hash)
    ensures o.policy == Converge <==> |o.candidates| == 1
    ensures o.policy == Split <==> o.selected == None
    ensures o.selected.Some? ==> o.candidates != [] && o.selected.value == o.candidates[0]
  {
    hide Keys, Having, Resolve, ValidClaims, InContext, Candidates, Sort;
    OutcomeMember(claims, namespace, hash, o);
    ContextHasCandidates(ValidClaims(claims, namespace), o.context, hash);
  }

  lemma StillDiffer<T(!new)>(s: seq<T>, t: seq<T>, i: nat, j: nat)
    requires NoRepeats(s) && multiset(s) == multiset(t) && i < j < |t|
    ensures t[i] != t[j]
  {
    OnceEach(s, t[i]);
    assert t == t[..j] + [t[j]] + t[j + 1..];
  }

  lemma RankedInOrder(group: seq<Claim>, hash: ValueHash, i: nat, j: nat)
    requires i < j < |Ranked(group, hash)|
    ensures Ahead(Ranked(group, hash)[i], Ranked(group, hash)[j])
  {
    hide Candidates, Before, LexLe;
    RankCompares();
    SortSorted(Candidates(group, hash), RankLe);
    var (a, b) := (Ranked(group, hash)[i], Ranked(group, hash)[j]);
    assert RankLe(a, b);
    BeforeMeans(b.valueHash, a.valueHash);
  }

  /** Every claim of the namespace is heard in the outcome of its context or, if it may not speak, quarantined. */
  lemma {:induction false} EveryClaim(claims: seq<Claim>, namespace: Bytes, hash: ValueHash, c: Claim)
    requires c in claims && c.namespace == namespace
    ensures Speaks(c, namespace) ==>
              exists o, d :: o in Resolve(claims, namespace, hash) && o.context == c.context && d in o.candidates && d.valueHash == hash(c.value)
    ensures !Speaks(c, namespace) ==> c.id in QuarantinedIds(claims, namespace)
  {
    hide Having, Keys, Candidates, Resolve, CandidateOf, Sort, Decide;
    if Speaks(c, namespace) {
      var valid := ValidClaims(claims, namespace);
      HavingMembers(Admitted(namespace), true, claims, c);
      KeysMembers(ContextOf, valid, c.context);
      OutcomeThere(claims, namespace, hash, c.context);
      var o := OutcomeOf(valid, c.context, hash);
      var group := InContext(valid, c.context);
      HavingMembers(ContextOf, c.context, valid, c);
      KeysMembers(Hashed(hash), group, hash(c.value));
      var d := CandidateOf(group, hash(c.value), hash);
      ValueOf(group, hash(c.value), hash);
      CandidateMember(group, hash, d);
      EveryOutcome(claims, namespace, hash, o, d);
      SameElements(o.candidates, Candidates(group, hash));
    } else {
      QuarantinedMeans(claims, namespace, c.id);
    }
  }

  /** Quarantined are the ids of the claims of the namespace that may not speak, and no others. */
  lemma {:induction false} QuarantinedMeans(claims: seq<Claim>, namespace: Bytes, id: Bytes)
    ensures id in QuarantinedIds(claims, namespace) <==> exists c :: c in claims && c.namespace == namespace && !Speaks(c, namespace) && c.id == id
  {
    hide Having;
    var refused := Having(Quarantined(namespace), true, claims);
    var ids := QuarantinedIds(claims, namespace);
    forall c
      ensures c in refused <==> c in claims && c.namespace == namespace && !Speaks(c, namespace)
    {
      HavingMembers(Quarantined(namespace), true, claims, c);
    }
    if id in ids {
      var i :| 0 <= i < |ids| && ids[i] == id;
      assert refused[i] in refused;
    }
    if c :| c in claims && c.namespace == namespace && !Speaks(c, namespace) && c.id == id {
      assert c in refused;
      var i :| 0 <= i < |refused| && refused[i] == c;
      assert ids[i] == id;
    }
  }
}
