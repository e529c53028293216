/**
  Resolving a pinned revision: the snapshot given to a run, the check of its
  secret references, and the secret values alone.
 */
module ConfigurationResolverModel {
  import opened Wrappers
  import opened Environment
  import opened EnvironmentStore
  import opened Sorting

  datatype Reference = Reference(category: Category, name: Name, ref: SecretRef)
  datatype ResolvedSecret = ResolvedSecret(reference: Reference, text: string)

  // ------------------------------------------------------------------ canonical order

  predicate TextBefore(a: string, b: string) {
    b != [] && (a == [] || a[0] < b[0] || (a[0] == b[0] && TextBefore(a[1..], b[1..])))
  }

  /** By category value, then name, then reference. */
  predicate Before(a: Reference, b: Reference) {
    || (a.category == CommonParameter && b.category == EnvironmentVariable)
    || (&& a.category == b.category
        && (TextBefore(a.name.text, b.name.text) || (a.name == b.name && a.ref < b.ref)))
  }

  predicate NotAfter(a: Reference, b: Reference) {
    a == b || Before(a, b)
  }

  function Members(refs: seq<Reference>): set<Reference> {
    set r | r in refs
  }

  predicate Distinct(refs: seq<Reference>) {
    |refs| == |Members(refs)|
  }

  lemma {:induction false} TextOrderIsTotal(a: string, b: string)
    ensures !(TextBefore(a, b) && TextBefore(b, a)) && !TextBefore(a, a)
    ensures a == b || TextBefore(a, b) || TextBefore(b, a)
    decreases |a|
  {
    if a != [] && b != [] {
      TextOrderIsTotal(a[1..], b[1..]);
      assert a == [a[0]] + a[1..] && b == [b[0]] + b[1..];
    } else if a != [] {
      TextOrderIsTotal(a[1..], b);
    }
  }

  lemma {:induction false} TextOrderIsTransitive(a: string, b: string, c: string)
    requires TextBefore(a, b) && TextBefore(b, c)
    ensures TextBefore(a, c)
    decreases |a|
  {
    if a != [] && a[0] == b[0] && b[0] == c[0] { TextOrderIsTransitive(a[1..], b[1..], c[1..]); }
  }

  lemma OrderIsTotal(a: Reference, b: Reference)
    ensures !(Before(a, b) && Before(b, a)) && !Before(a, a)
    ensures a == b || Before(a, b) || Before(b, a)
  {
    TextOrderIsTotal(a.name.text, b.name.text);
    TextOrderIsTotal(b.name.text, a.name.text);
  }

  lemma OrderIsTransitive(a: Reference, b: Reference, c: Reference)
    requires Before(a, b) && Before(b, c)
    ensures Before(a, c)
  {
    if TextBefore(a.name.text, b.name.text) && TextBefore(b.name.text, c.name.text) {
      TextOrderIsTransitive(a.name.text, b.name.text, c.name.text);
    }
  }

  function InCanonicalOrder(refs: seq<Reference>): (s: seq<Reference>)
    ensures |s| == |refs| && forall x :: x in s <==> x in refs
  {
    OrderIsPreorder();
    SortedKeeps(NotAfter, refs);
    Sorted(NotAfter, refs)
  }

  function CanonicalReferences(refs: seq<Reference>): Result<seq<Reference>, Error> {
    if Distinct(refs) then Ok(InCanonicalOrder(refs)) else Err(DuplicateReference)
  }

  lemma OrderIsPreorder()
    ensures Preorder(NotAfter) && forall a, b | NotAfter(a, b) && NotAfter(b, a) :: a == b
  {
    hide Before;
    forall a, b ensures NotAfter(a, b) || NotAfter(b, a) ensures NotAfter(a, b) && NotAfter(b, a) ==> a == b {
      OrderIsTotal(a, b);
    }
    forall a, b, c | NotAfter(a, b) && NotAfter(b, c) ensures NotAfter(a, c) {
      if Before(a, b) && Before(b, c) { OrderIsTransitive(a, b, c); }
    }
  }

  lemma {:induction false} DistinctTail(refs: seq<Reference>)
    requires refs != []
    ensures Distinct(refs) <==> Distinct(refs[1..]) && refs[0] !in refs[1..]
  {
    var rest := Members(refs[1..]);
    assert refs == [refs[0]] + refs[1..];
    assert Members(refs) == rest + {refs[0]};
    MembersAreFew(refs[1..]);
  }

  lemma {:induction false} MembersAreFew(refs: seq<Reference>)
    ensures |Members(refs)| <= |refs|
  {
    if refs != [] {
      assert refs == [refs[0]] + refs[1..];
      assert Members(refs) == Members(refs[1..]) + {refs[0]};
      MembersAreFew(refs[1..]);
    }
  }

  lemma {:induction false} DistinctOccurOnce(refs: seq<Reference>)
    requires Distinct(refs)
    ensures forall x | x in refs :: multiset(refs)[x] == 1
  {
    if refs != [] {
      DistinctTail(refs);
      DistinctOccurOnce(refs[1..]);
      assert refs == [refs[0]] + refs[1..];
    }
  }

  /** The canonical list does not depend on the order in which the references are given. */
  lemma CanonicalIsOrderFree(refs: seq<Reference>, other: seq<Reference>)
    requires |refs| == |other| && Members(refs) == Members(other)
    ensures CanonicalReferences(refs) == CanonicalReferences(other)
  {
    if Distinct(refs) {
      DistinctOccurOnce(refs);
      DistinctOccurOnce(other);
      forall x ensures multiset(refs)[x] == multiset(other)[x] {
        assert x in refs <==> x in Members(refs);
        assert x in other <==> x in Members(other);
      }
      OrderIsPreorder();
      SortedKeeps(NotAfter, refs);
      SortedKeeps(NotAfter, other);
      SortedIsUnique(NotAfter, InCanonicalOrder(refs), InCanonicalOrder(other));
    }
  }

  /** The two texts agree up to place `k`, where the first ends or has the smaller character. */
  predicate DiffersAt(a: string, b: string, k: nat) {
    k <= |a| && k < |b| && a[..k] == b[..k] && (k == |a| || a[k] < b[k])
  }

  lemma {:induction false} TextBeforeExactly(a: string, b: string)
    ensures TextBefore(a, b) <==> exists k: nat :: DiffersAt(a, b, k)
    decreases |a|
  {
    if TextBefore(a, b) {
      if a == [] || a[0] < b[0] {
        assert DiffersAt(a, b, 0);
      } else {
        TextBeforeExactly(a[1..], b[1..]);
        var k: nat :| DiffersAt(a[1..], b[1..], k);
        LaterDifference(a, b, k + 1);
      }
    }
    if k: nat :| DiffersAt(a, b, k) {
      if k > 0 {
        EarlierDifference(a, b, k);
        TextBeforeExactly(a[1..], b[1..]);
      }
    }
  }

  lemma LaterDifference(a: string, b: string, k: nat)
    requires a != [] && b != [] && a[0] == b[0] && k > 0 && DiffersAt(a[1..], b[1..], k - 1)
    ensures DiffersAt(a, b, k)
  {
    assert a[..k] == [a[0]] + a[1..][..k - 1] && b[..k] == [b[0]] + b[1..][..k - 1];
  }

  lemma EarlierDifference(a: string, b: string, k: nat)
    requires k > 0 && DiffersAt(a, b, k)
    ensures a != [] && b != [] && a[0] == b[0] && DiffersAt(a[1..], b[1..], k - 1)
  {
    assert a[..k][0] == b[..k][0];
    assert a[1..][..k - 1] == a[..k][1..] && b[1..][..k - 1] == b[..k][1..];
  }

  /** Parameters come before variables, then names in text order, then references. */
  ghost predicate Precedes(a: Reference, b: Reference) {
    || (a.category == CommonParameter && b.category == EnvironmentVariable)
    || (a.category == b.category && exists k: nat :: DiffersAt(a.name.text, b.name.text, k))
    || (a.category == b.category && a.name == b.name && a.ref < b.ref)
  }

  /** The canonical list of duplicate-free references is the ascending one. */
  lemma CanonicalAscends(refs: seq<Reference>, i: nat, j: nat)
    requires CanonicalReferences(refs).Ok? && i < j < |refs|
    ensures |CanonicalReferences(refs).value| == |refs|
    ensures Precedes(CanonicalReferences(refs).value[i], CanonicalReferences(refs).value[j])
  {
    hide TextBefore, DiffersAt;
    var canonical := InCanonicalOrder(refs);
    OrderIsPreorder();
    SortedKeeps(NotAfter, refs);
    assert NotAfter(canonical[i], canonical[j]);
    DistinctOccurOnce(refs);
    if canonical[i] == canonical[j] {
      OccursTwice(canonical, i, j);
    }
    assert canonical[i] in refs;
    TextBeforeExactly(canonical[i].name.text, canonical[j].name.text);
  }

  lemma OccursTwice(refs: seq<Reference>, i: nat, j: nat)
    requires i < j < |refs| && refs[i] == refs[j]
    ensures multiset(refs)[refs[i]] >= 2
  {
    assert refs == refs[..j] + refs[j..];
    assert refs[..j][i] in multiset(refs[..j]) && refs[j..][0] in multiset(refs[j..]);
  }

  // ------------------------------------------------------------------ resolving

  function Pinned(s: Store, project: ProjectId, id: EnvironmentId, revision: int): Result<EnvironmentRecord, Error> {
    match RevisionAt(s, id, revision)
    case Err(e) => Err(e)
    case Ok(r) => if r.project != project then Err(NotFound) else if r.status != ACTIVE then Err(NotActive) else Ok(r)
  }

  function RefOf(v: ConfigurationValue): Reference
    requires v.Secret?
  {
    Reference(v.category, v.name, v.ref)
  }

  /** The two dictionaries being filled, and the references met so far. */
  datatype Entries = Entries(variables: map<Name, Option<Json>>, parameters: map<Name, Option<Json>>,
                             matched: set<Reference>)

  function Dict(e: Entries, category: Category): map<Name, Option<Json>> {
    if category == EnvironmentVariable then e.variables else e.parameters
  }

  function Put(e: Entries, category: Category, name: Name, value: Option<Json>): Entries {
    if category == EnvironmentVariable then e.(variables := e.variables[name := value])
    else e.(parameters := e.parameters[name := value])
  }

  function Take(e: Entries, enc: Encryptor, r: EnvironmentRecord, requested: set<Reference>, v: ConfigurationValue)
    : Result<Entries, Error>
  {
    if v.Public? then Ok(Put(e, v.category, v.name, v.value))
    else if RefOf(v) !in requested then Ok(e)
    else
      match Decrypt(enc, v.encrypted, AadOf(r, v))
      case Err(error) => Err(error)
      case Ok(text) =>
        var filled := Put(e, v.category, v.name, Some(Text(text)));
        Ok(filled.(matched := filled.matched + {RefOf(v)}))
  }

  function TakeUpTo(enc: Encryptor, r: EnvironmentRecord, requested: set<Reference>, n: nat): Result<Entries, Error>
    requires n <= |r.values|
  {
    if n == 0 then Ok(Entries(map[], map[], {}))
    else
      match TakeUpTo(enc, r, requested, n - 1)
      case Err(error) => Err(error)
      case Ok(e) => Take(e, enc, r, requested, r.values[n - 1])
  }

  function SnapshotOf(s: Store, enc: Encryptor, project: ProjectId, id: EnvironmentId, revision: int,
                      refs: seq<Reference>): Result<Entries, Error>
  {
    match Pinned(s, project, id, revision)
    case Err(error) => Err(error)
    case Ok(r) =>
      match TakeUpTo(enc, r, Members(refs), |r.values|)
      case Err(error) => Err(error)
      case Ok(e) => if e.matched != Members(refs) then Err(ReferenceMismatch) else Ok(e)
  }

  function Available(r: EnvironmentRecord): set<Reference> {
    set v | v in r.values && v.Secret? :: RefOf(v)
  }

  function ValidatedRecord(s: Store, project: ProjectId, id: EnvironmentId, revision: int, refs: seq<Reference>)
    : Result<(EnvironmentRecord, seq<Reference>), Error>
  {
    match Pinned(s, project, id, revision)
    case Err(error) => Err(error)
    case Ok(r) =>
      match CanonicalReferences(refs)
      case Err(error) => Err(error)
      case Ok(canonical) => if Members(canonical) <= Available(r) then Ok((r, canonical)) else Err(ReferenceMismatch)
  }

  /** The last value filed under a reference; references are unique within a revision. */
  function ValueFor(values: seq<ConfigurationValue>, ref: Reference): (v: ConfigurationValue)
    requires exists v | v in values :: v.Secret? && RefOf(v) == ref
    ensures v in values && v.Secret? && RefOf(v) == ref
  {
    var last := values[|values| - 1];
    if last.Secret? && RefOf(last) == ref then last
    else
      assert values == values[..|values| - 1] + [last];
      ValueFor(values[..|values| - 1], ref)
  }

  function ResolveUpTo(enc: Encryptor, r: EnvironmentRecord, canonical: seq<Reference>, n: nat)
    : (result: Result<seq<ResolvedSecret>, Error>)
    requires n <= |canonical| && Members(canonical) <= Available(r)
    ensures result.Ok? ==> |result.value| == n && forall i | 0 <= i < n :: result.value[i].reference == canonical[i]
  {
    if n == 0 then Ok([])
    else
      match ResolveUpTo(enc, r, canonical, n - 1)
      case Err(error) => Err(error)
      case Ok(resolved) =>
        assert canonical[n - 1] in Members(canonical);
        var v := ValueFor(r.values, canonical[n - 1]);
        match Decrypt(enc, v.encrypted, AadOf(r, v))
        case Err(error) => Err(error)
        case Ok(text) => Ok(resolved + [ResolvedSecret(canonical[n - 1], text)])
  }

  function ResolvedOf(s: Store, enc: Encryptor, project: ProjectId, id: EnvironmentId, revision: int,
                      refs: seq<Reference>)
    : Result<seq<ResolvedSecret>, Error>
  {
    match ValidatedRecord(s, project, id, revision, refs)
    case Err(error) => Err(error)
    case Ok(pinned) => ResolveUpTo(enc, pinned.0, pinned.1, |pinned.1|)
  }

  // ------------------------------------------------------------------ what a snapshot holds

  /** Public values are always visible, secrets when requested. */
  predicate Visible(v: ConfigurationValue, requested: set<Reference>) {
    v.Public? || RefOf(v) in requested
  }

  function Reading(enc: Encryptor, r: EnvironmentRecord, v: ConfigurationValue): Option<Json>
    requires v.Secret? ==> Decrypt(enc, v.encrypted, AadOf(r, v)).Ok?
  {
    if v.Public? then v.value else Some(Text(Decrypt(enc, v.encrypted, AadOf(r, v)).value))
  }

  ghost predicate VisibleAt(r: EnvironmentRecord, requested: set<Reference>, n: nat, category: Category, name: Name)
    requires n <= |r.values|
  {
    exists i | 0 <= i < n ::
      Visible(r.values[i], requested) && r.values[i].category == category && r.values[i].name == name
  }

  ghost predicate ReadsVisible(enc: Encryptor, r: EnvironmentRecord, requested: set<Reference>, n: nat, e: Entries)
    requires n <= |r.values| && SecretsOpen(enc, r)
  {
    forall i | 0 <= i < n && Visible(r.values[i], requested) ::
      var v := r.values[i]; v.name in Dict(e, v.category) && Dict(e, v.category)[v.name] == Reading(enc, r, v)
  }

  ghost predicate OnlyVisible(r: EnvironmentRecord, requested: set<Reference>, n: nat, e: Entries)
    requires n <= |r.values|
  {
    && (forall name | name in e.variables :: VisibleAt(r, requested, n, EnvironmentVariable, name))
    && (forall name | name in e.parameters :: VisibleAt(r, requested, n, CommonParameter, name))
  }

  function Met(r: EnvironmentRecord, requested: set<Reference>, n: nat): set<Reference>
    requires n <= |r.values|
  {
    set i | 0 <= i < n && r.values[i].Secret? && RefOf(r.values[i]) in requested :: RefOf(r.values[i])
  }

  /** The entries hold exactly the visible values among the first `n`. */
  ghost predicate HoldsVisible(enc: Encryptor, r: EnvironmentRecord, requested: set<Reference>, n: nat, e: Entries)
    requires n <= |r.values| && SecretsOpen(enc, r)
  {
    ReadsVisible(enc, r, requested, n, e) && OnlyVisible(r, requested, n, e) && e.matched == Met(r, requested, n)
  }

  lemma {:induction false} TakeHoldsVisible(enc: Encryptor, r: EnvironmentRecord, requested: set<Reference>, n: nat)
    requires n <= |r.values| && SecretsOpen(enc, r) && SlotsDistinct(r.values)
    ensures TakeUpTo(enc, r, requested, n).Ok?
    ensures HoldsVisible(enc, r, requested, n, TakeUpTo(enc, r, requested, n).value)
  {
    if n > 0 {
      TakeHoldsVisible(enc, r, requested, n - 1);
      var before := TakeUpTo(enc, r, requested, n - 1).value;
      TakeReads(enc, r, requested, n, before);
      TakeAddsOne(enc, r, requested, n, before);
    }
  }

  lemma TakeReads(enc: Encryptor, r: EnvironmentRecord, requested: set<Reference>, n: nat, before: Entries)
    requires 0 < n <= |r.values| && SecretsOpen(enc, r) && SlotsDistinct(r.values)
    requires ReadsVisible(enc, r, requested, n - 1, before)
    ensures Take(before, enc, r, requested, r.values[n - 1]).Ok?
    ensures ReadsVisible(enc, r, requested, n, Take(before, enc, r, requested, r.values[n - 1]).value)
  {
    hide Decrypt;
    var v := r.values[n - 1];
    forall i | 0 <= i < n - 1 ensures !SameSlot(r.values[i], v) {
    }
  }

  lemma TakeAddsOne(enc: Encryptor, r: EnvironmentRecord, requested: set<Reference>, n: nat, before: Entries)
    requires 0 < n <= |r.values| && Take(before, enc, r, requested, r.values[n - 1]).Ok?
    requires OnlyVisible(r, requested, n - 1, before) && before.matched == Met(r, requested, n - 1)
    ensures var e := Take(before, enc, r, requested, r.values[n - 1]).value;
            OnlyVisible(r, requested, n, e) && e.matched == Met(r, requested, n)
  {
    hide Decrypt;
    forall category,
           name | VisibleAt(r, requested, n - 1, category, name) ensures VisibleAt(r, requested, n, category, name) {
    }
    var v := r.values[n - 1];
    assert Visible(v, requested) ==> VisibleAt(r, requested, n, v.category, v.name);
    assert Met(r, requested, n)
        == Met(r, requested, n - 1) + (if v.Secret? && RefOf(v) in requested then {RefOf(v)} else {});
  }

  lemma PinnedIsOk(s: Store, enc: Encryptor, project: ProjectId, id: EnvironmentId, revision: int)
    requires StoreOk(s, enc) && Pinned(s, project, id, revision).Ok?
    ensures RevisionOk(enc, Pinned(s, project, id, revision).value, s.nextRef)
  {
    assert ChainOk(enc, id, s.revisions[id], s.nextRef);
  }

  lemma SnapshotSucceedsExactly(s: Store, enc: Encryptor, project: ProjectId, id: EnvironmentId, revision: int,
                                refs: seq<Reference>)
    requires StoreOk(s, enc)
    ensures var pinned := Pinned(s, project, id, revision);
            SnapshotOf(s, enc, project, id, revision, refs).Ok?
            <==> pinned.Ok? && Members(refs) <= Available(pinned.value)
  {
    hide StoreOk, Take, TakeUpTo, Pinned, Dict, Visible;
    var pinned := Pinned(s, project, id, revision);
    if pinned.Ok? {
      var r := pinned.value;
      PinnedIsOk(s, enc, project, id, revision);
      TakeHoldsVisible(enc, r, Members(refs), |r.values|);
      var matched := TakeUpTo(enc, r, Members(refs), |r.values|).value.matched;
      forall x ensures x in matched <==> x in Members(refs) && x in Available(r) {
        if x in Available(r) {
          var v :| v in r.values && v.Secret? && RefOf(v) == x;
          var i :| 0 <= i < |r.values| && r.values[i] == v;
        }
      }
      assert matched == Members(refs) * Available(r);
    }
  }

  /** A snapshot holds every public value, every requested secret under its own text, and no other secret. */
  lemma SnapshotHoldsExactly(s: Store, enc: Encryptor, project: ProjectId, id: EnvironmentId, revision: int,
                             refs: seq<Reference>)
    requires StoreOk(s, enc) && SnapshotOf(s, enc, project, id, revision, refs).Ok?
    ensures var e := SnapshotOf(s, enc, project, id, revision, refs).value;
            var r := Pinned(s, project, id, revision).value;
            && SecretsOpen(enc, r) && HoldsVisible(enc, r, Members(refs), |r.values|, e)
  {
    hide StoreOk, Take, TakeUpTo;
    var r := Pinned(s, project, id, revision).value;
    PinnedIsOk(s, enc, project, id, revision);
    TakeHoldsVisible(enc, r, Members(refs), |r.values|);
  }

  // ------------------------------------------------------------------ agreement

  lemma {:induction false} ResolveOpensAll(enc: Encryptor, r: EnvironmentRecord, canonical: seq<Reference>, n: nat)
    requires n <= |canonical| && Members(canonical) <= Available(r) && SecretsOpen(enc, r)
    ensures ResolveUpTo(enc, r, canonical, n).Ok?
    ensures forall i | 0 <= i < n ::
              && canonical[i] in Available(r)
              && Ok(ResolveUpTo(enc, r, canonical, n).value[i].text)
                 == Decrypt(enc, ValueFor(r.values, canonical[i]).encrypted, AadOf(r, ValueFor(r.values, canonical[i])))
  {
    forall i | 0 <= i < n ensures canonical[i] in Available(r) {
      assert canonical[i] in Members(canonical);
    }
    if n > 0 {
      ResolveOpensAll(enc, r, canonical, n - 1);
      var v := ValueFor(r.values, canonical[n - 1]);
      assert Decrypt(enc, v.encrypted, AadOf(r, v)).Ok?;
    }
  }

  lemma SortedHasSameMembers(refs: seq<Reference>)
    ensures Members(InCanonicalOrder(refs)) == Members(refs)
  {
  }

  /**
    The check and the resolution accept exactly the duplicate-free requests
    that the snapshot accepts; the snapshot alone also takes duplicates.
   */
  lemma ResolversAgreeExactly(s: Store, enc: Encryptor, project: ProjectId, id: EnvironmentId, revision: int,
                              refs: seq<Reference>)
    requires StoreOk(s, enc)
    ensures ValidatedRecord(s, project, id, revision, refs).Ok?
       <==> Distinct(refs) && SnapshotOf(s, enc, project, id, revision, refs).Ok?
    ensures ResolvedOf(s, enc, project, id, revision, refs).Ok?
       <==> Distinct(refs) && SnapshotOf(s, enc, project, id, revision, refs).Ok?
  {
    hide StoreOk, SnapshotOf, InCanonicalOrder, ResolveUpTo;
    SnapshotSucceedsExactly(s, enc, project, id, revision, refs);
    SortedHasSameMembers(refs);
    if ValidatedRecord(s, project, id, revision, refs).Ok? {
      PinnedIsOk(s, enc, project, id, revision);
      var pinned := ValidatedRecord(s, project, id, revision, refs).value;
      ResolveOpensAll(enc, pinned.0, pinned.1, |pinned.1|);
    }
  }

  /** Where they succeed, the resolved texts are the snapshot's entries, in canonical order. */
  lemma ResolvedTextsAreTheSnapshots(s: Store, enc: Encryptor, project: ProjectId, id: EnvironmentId, revision: int,
                                     refs: seq<Reference>, i: nat)
    requires StoreOk(s, enc) && ResolvedOf(s, enc, project, id, revision, refs).Ok?
    requires i < |ResolvedOf(s, enc, project, id, revision, refs).value|
    ensures var resolved := ResolvedOf(s, enc, project, id, revision, refs).value;
            var snapshot := SnapshotOf(s, enc, project, id, revision, refs);
            var ref := resolved[i].reference;
            && |resolved| == |refs| && ref == InCanonicalOrder(refs)[i]
            && snapshot.Ok? && ref.name in Dict(snapshot.value, ref.category)
            && Dict(snapshot.value, ref.category)[ref.name] == Some(Text(resolved[i].text))
  {
    hide StoreOk, SnapshotOf, InCanonicalOrder, ResolveUpTo, Dict;
    ResolversAgreeExactly(s, enc, project, id, revision, refs);
    SnapshotHoldsExactly(s, enc, project, id, revision, refs);
    SortedHasSameMembers(refs);
    var pinned := ValidatedRecord(s, project, id, revision, refs).value;
    var r, canonical := pinned.0, pinned.1;
    ResolveOpensAll(enc, r, canonical, |canonical|);
    assert canonical[i] in Members(canonical);
    var v := ValueFor(r.values, canonical[i]);
    var j :| 0 <= j < |r.values| && r.values[j] == v;
    assert Visible(r.values[j], Members(refs));
  }

  // ------------------------------------------------------------------ the resolver

  class ConfigurationResolver {
    const repository: EnvironmentRepository
    const encryptor: Encryptor

    constructor (repository: EnvironmentRepository, encryptor: Encryptor)
      ensures this.repository == repository && this.encryptor == encryptor
    {
      this.repository, this.encryptor := repository, encryptor;
    }

    method PinnedRecord(project: ProjectId, id: EnvironmentId, revision: int)
      returns (result: Result<EnvironmentRecord, Error>)
      requires repository.Valid()
      ensures result == Pinned(repository.State(), project, id, revision)
    {
      var found := repository.GetRevision(id, revision);
      if found.Err? {
        return found;
      }
      if found.value.project != project {
        return Err(NotFound);
      }
      if found.value.status != ACTIVE {
        return Err(NotActive);
      }
      return found;
    }

    method Snapshot(project: ProjectId, id: EnvironmentId, revision: int, refs: seq<Reference>)
      returns (result: Result<Entries, Error>)
      requires repository.Valid()
      ensures result == SnapshotOf(repository.State(), encryptor, project, id, revision, refs)
    {
      hide StoreOk;
      var pinned := PinnedRecord(project, id, revision);
      if pinned.Err? {
        return Err(pinned.error);
      }
      var record := pinned.value;
      var requested := set r | r in refs;
      var entries := Entries(map[], map[], {});
      for i := 0 to |record.values|
        invariant TakeUpTo(encryptor, record, requested, i) == Ok(entries)
      {
        var v := record.values[i];
        if v.Public? {
          entries := Put(entries, v.category, v.name, v.value);
          continue;
        }
        if RefOf(v) !in requested {
          continue;
        }
        var text := Decrypt(encryptor, v.encrypted, AadOf(record, v));
        if text.Err? {
          FirstErrorStands(encryptor, record, requested, i + 1, |record.values|);
          return Err(text.error);
        }
        entries := Put(entries, v.category, v.name, Some(Text(text.value)));
        entries := entries.(matched := entries.matched + {RefOf(v)});
      }
      if entries.matched != requested {
        return Err(ReferenceMismatch);
      }
      return Ok(entries);
    }

    method ResolveSecretValues(project: ProjectId, id: EnvironmentId, revision: int, refs: seq<Reference>)
      returns (result: Result<seq<ResolvedSecret>, Error>)
      requires repository.Valid()
      ensures result == ResolvedOf(repository.State(), encryptor, project, id, revision, refs)
    {
      hide StoreOk;
      var pinned := PinnedRecord(project, id, revision);
      if pinned.Err? {
        return Err(pinned.error);
      }
      var record := pinned.value;
      var canonical := CanonicalReferences(refs);
      if canonical.Err? {
        return Err(canonical.error);
      }
      if !(Members(canonical.value) <= Available(record)) {
        return Err(ReferenceMismatch);
      }
      var resolved := [];
      for i := 0 to |canonical.value|
        invariant ResolveUpTo(encryptor, record, canonical.value, i) == Ok(resolved)
      {
        assert canonical.value[i] in Members(canonical.value);
        var v := ValueFor(record.values, canonical.value[i]);
        var text := Decrypt(encryptor, v.encrypted, AadOf(record, v));
        if text.Err? {
          FirstUnreadableStands(encryptor, record, canonical.value, i + 1, |canonical.value|);
          return Err(text.error);
        }
        resolved := resolved + [ResolvedSecret(canonical.value[i], text.value)];
      }
      return Ok(resolved);
    }
  }

  lemma {:induction false} FirstErrorStands(enc: Encryptor, r: EnvironmentRecord, requested: set<Reference>, m: nat,
                                            n: nat)
    requires m <= n <= |r.values| && TakeUpTo(enc, r, requested, m).Err?
    ensures TakeUpTo(enc, r, requested, n) == TakeUpTo(enc, r, requested, m)
  {
    if m < n { FirstErrorStands(enc, r, requested, m, n - 1); }
  }

  lemma {:induction false} FirstUnreadableStands(enc: Encryptor, r: EnvironmentRecord, canonical: seq<Reference>,
                                                 m: nat, n: nat)
    requires m <= n <= |canonical| && Members(canonical) <= Available(r) && ResolveUpTo(enc, r, canonical, m).Err?
    ensures ResolveUpTo(enc, r, canonical, n) == ResolveUpTo(enc, r, canonical, m)
  {
    if m < n { FirstUnreadableStands(enc, r, canonical, m, n - 1); }
  }
}
