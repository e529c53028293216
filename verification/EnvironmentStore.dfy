/**
  The environment repository: every update appends a revision, and a secret
  carried by reference is opened under the current revision and sealed again
  under the new one.
 */
module EnvironmentStore {
  import opened Wrappers
  import opened Environment
  import opened PythonText

  /** Names are unique within a project. */
  datatype Owned = Owned(project: ProjectId, name: Name)

  /** `nextId` and `nextRef` stand for the supply of fresh identifiers. */
  datatype Store = Store(environments: map<EnvironmentId, EnvironmentRecord>,
                         revisions: map<EnvironmentId, seq<EnvironmentRecord>>,
                         names: map<Owned, EnvironmentId>, nextId: nat, nextRef: nat)

  const EMPTY := Store(map[], map[], map[], 0, 0)

  datatype Request =
    | Create(project: ProjectId, name: Name, variables: seq<ValueInput>, parameters: seq<ValueInput>)
    | Update(id: EnvironmentId, expectedVersion: int, name: Name, status: Status,
             variables: seq<ValueInput>, parameters: seq<ValueInput>)

  datatype Outcome = Outcome(store: Store, result: Result<EnvironmentRecord, Error>)

  // ------------------------------------------------------------------ names

  function Normalized(name: Name): Result<Name, Error> {
    var text := Strip(name.text);
    if text == [] || |text| > 255 then Err(InvalidName) else Ok(Name(text))
  }

  // ------------------------------------------------------------------ steps

  function Created(s: Store, record: EnvironmentRecord): Outcome {
    Outcome(Store(s.environments[record.id := record], s.revisions[record.id := [record]],
                  s.names[Owned(record.project, record.name) := record.id],
                  record.id + 1, s.nextRef + |record.values|),
            Ok(record))
  }

  function Renamed(names: map<Owned, EnvironmentId>, current: EnvironmentRecord, name: Name): map<Owned, EnvironmentId>
  {
    if name == current.name then names
    else (names - {Owned(current.project, current.name)})[Owned(current.project, name) := current.id]
  }

  function Updated(s: Store, current: EnvironmentRecord, record: EnvironmentRecord): Outcome
    requires current.id in s.revisions
  {
    Outcome(Store(s.environments[current.id := record], s.revisions[current.id := s.revisions[current.id] + [record]],
                  Renamed(s.names, current, record.name), s.nextId, s.nextRef + |record.values|),
            Ok(record))
  }

  /** The checks an update makes before any value is looked at. */
  function UpdateObjection(s: Store, req: Request): Option<Error>
    requires req.Update?
  {
    var normalized := Normalized(req.name);
    if normalized.Err? then Some(normalized.error)
    else if req.id !in s.environments then Some(NotFound)
    else
      var current := s.environments[req.id];
      var key := Owned(current.project, normalized.value);
      if current.version != req.expectedVersion then Some(VersionConflict)
      else if !MayMove(current.status, req.status) then Some(InvalidTransition)
      else if key in s.names && s.names[key] != req.id then Some(NameConflict)
      else None
  }

  function Rebuilt(s: Store, enc: Encryptor, req: Request): Result<seq<ConfigurationValue>, Error>
    requires req.Update? && req.id in s.environments
  {
    var current := s.environments[req.id];
    Build(enc, Owner(current.project, current.id, current.revision + 1), req.variables, req.parameters, Some(current),
          s.nextRef)
  }

  /** Records are filed under their own identifier. */
  predicate Indexed(s: Store) {
    s.environments.Keys <= s.revisions.Keys && forall id | id in s.environments :: s.environments[id].id == id
  }

  function Apply(s: Store, enc: Encryptor, req: Request): (o: Outcome)
    requires Indexed(s)
  {
    match req
    case Create(project, name, variables, parameters) =>
      (match Normalized(name)
       case Err(e) => Outcome(s, Err(e))
       case Ok(normalized) =>
         if Owned(project, normalized) in s.names then Outcome(s, Err(NameConflict))
         else
           match Build(enc, Owner(project, s.nextId, 1), variables, parameters, None, s.nextRef)
           case Err(e) => Outcome(s, Err(e))
           case Ok(values) => Created(s, EnvironmentRecord(s.nextId, project, normalized, DRAFT, 1, 0, values)))
    case Update(id, _, name, status, _, _) =>
      match UpdateObjection(s, req)
      case Some(e) => Outcome(s, Err(e))
      case None =>
        var current := s.environments[id];
        match Rebuilt(s, enc, req)
        case Err(e) => Outcome(s, Err(e))
        case Ok(values) =>
          Updated(s, current,
                  current.(name := Normalized(name).value, status := status, revision := current.revision + 1,
                                       version := current.version + 1, values := values))
  }

  // ------------------------------------------------------------------ invariant

  /** Every reference of the earlier revision was drawn before every reference of the later one. */
  predicate DrawnBefore(r: EnvironmentRecord, later: EnvironmentRecord) {
    forall i, j | && 0 <= i < |r.values| && 0 <= j < |later.values|
                  && r.values[i].Secret? && later.values[j].Secret? :: r.values[i].ref < later.values[j].ref
  }

  predicate RevisionOk(enc: Encryptor, r: EnvironmentRecord, nextRef: nat) {
    SecretsOpen(enc, r) && SlotsDistinct(r.values) && RefsWithin(r.values, 0, nextRef)
  }

  predicate ChainOk(enc: Encryptor, id: EnvironmentId, chain: seq<EnvironmentRecord>, nextRef: nat) {
    && chain != []
    && (forall k | 0 <= k < |chain| ::
          && chain[k].id == id && chain[k].project == chain[0].project
          && chain[k].revision == k + 1 && chain[k].version == k && RevisionOk(enc, chain[k], nextRef))
    && chain[0].status == DRAFT && (forall k | 0 < k < |chain| :: MayMove(chain[k - 1].status, chain[k].status))
    && forall k, l | 0 <= k < l < |chain| :: DrawnBefore(chain[k], chain[l])
  }

  predicate NamesOk(s: Store) {
    && (forall id | id in s.environments ::
          var key := Owned(s.environments[id].project, s.environments[id].name); key in s.names && s.names[key] == id)
    && forall key | key in s.names ::
         && s.names[key] in s.environments
         && key == Owned(s.environments[s.names[key]].project, s.environments[s.names[key]].name)
  }

  predicate StoreOk(s: Store, enc: Encryptor)
    ensures StoreOk(s, enc) ==> Indexed(s)
  {
    && s.environments.Keys == s.revisions.Keys
    && (forall id | id in s.revisions ::
          && id < s.nextId && ChainOk(enc, id, s.revisions[id], s.nextRef)
          && s.environments[id] == s.revisions[id][|s.revisions[id]| - 1])
    && NamesOk(s)
  }

  lemma ChainExtends(enc: Encryptor, id: EnvironmentId, chain: seq<EnvironmentRecord>, low: nat, r: EnvironmentRecord,
                     high: nat)
    requires ChainOk(enc, id, chain, low) && low <= high
    requires r.id == id && r.project == chain[0].project && r.revision == |chain| + 1 && r.version == |chain|
    requires SecretsOpen(enc, r) && SlotsDistinct(r.values) && RefsWithin(r.values, low, high)
    requires MayMove(chain[|chain| - 1].status, r.status)
    ensures ChainOk(enc, id, chain + [r], high)
  {
    forall k | 0 <= k < |chain| ensures DrawnBefore(chain[k], r) && RevisionOk(enc, chain[k], high) {
      assert RevisionOk(enc, chain[k], low);
    }
  }

  lemma ChainStays(enc: Encryptor, id: EnvironmentId, chain: seq<EnvironmentRecord>, low: nat, high: nat)
    requires ChainOk(enc, id, chain, low) && low <= high
    ensures ChainOk(enc, id, chain, high)
  {
    forall k | 0 <= k < |chain| ensures RevisionOk(enc, chain[k], high) {
      assert RevisionOk(enc, chain[k], low);
    }
  }

  /** A successful creation starts a chain of one revision. */
  lemma CreateStartsChain(s: Store, enc: Encryptor, req: Request)
    requires StoreOk(s, enc) && req.Create? && Apply(s, enc, req).result.Ok?
    ensures var r := Apply(s, enc, req).result.value;
            && Apply(s, enc, req) == Created(s, r)
            && Owned(r.project, r.name) !in s.names && r.id == s.nextId && r.id !in s.revisions
            && ChainOk(enc, r.id, [r], s.nextRef + |r.values|)
  {
    hide SecretsOpen, SlotsDistinct, RefsWithin, Build, NamesOk;
    var r := Apply(s, enc, req).result.value;
    BuildIsSound(enc, Owner(req.project, s.nextId, 1), req.variables, req.parameters, None, s.nextRef, r);
    FirstRevision(enc, r, s.nextRef);
  }

  /** A successful update appends one revision, rebuilt from its inputs and the current revision. */
  lemma UpdateExtendsChain(s: Store, enc: Encryptor, req: Request)
    requires StoreOk(s, enc) && req.Update? && Apply(s, enc, req).result.Ok?
    ensures req.id in s.environments && UpdateObjection(s, req).None?
    ensures var r := Apply(s, enc, req).result.value;
            && Apply(s, enc, req) == Updated(s, s.environments[req.id], r)
            && r.id == req.id && r.project == s.environments[req.id].project
            && r.revision == s.environments[req.id].revision + 1 && Normalized(req.name) == Ok(r.name)
            && Rebuilt(s, enc, req) == Ok(r.values)
            && ChainOk(enc, req.id, s.revisions[req.id] + [r], s.nextRef + |r.values|)
  {
    hide SecretsOpen, SlotsDistinct, RefsWithin, Build, NamesOk, DrawnBefore, RevisionOk, MayMove, Strip;
    var r := Apply(s, enc, req).result.value;
    var current := s.environments[req.id];
    var owner := Owner(current.project, current.id, current.revision + 1);
    BuildIsSound(enc, owner, req.variables, req.parameters, Some(current), s.nextRef, r);
    ChainExtends(enc, req.id, s.revisions[req.id], s.nextRef, r, s.nextRef + |r.values|);
  }

  lemma FirstRevision(enc: Encryptor, r: EnvironmentRecord, low: nat)
    requires SecretsOpen(enc, r) && SlotsDistinct(r.values) && RefsWithin(r.values, low, low + |r.values|)
    requires r.revision == 1 && r.version == 0 && r.status == DRAFT
    ensures ChainOk(enc, r.id, [r], low + |r.values|)
  {
  }

  lemma CreatedKeepsNames(s: Store, record: EnvironmentRecord)
    requires NamesOk(s) && record.id !in s.environments && Owned(record.project, record.name) !in s.names
    ensures NamesOk(Created(s, record).store)
  {
  }

  lemma UpdatedKeepsNames(s: Store, current: EnvironmentRecord, record: EnvironmentRecord)
    requires NamesOk(s) && current.id in s.environments && current.id in s.revisions
    requires current == s.environments[current.id] && record.project == current.project
    requires var key := Owned(current.project, record.name); key in s.names ==> s.names[key] == current.id
    ensures NamesOk(Updated(s, current, record).store)
  {
    var s' := Updated(s, current, record).store;
    forall key | key in s'.names
      ensures && s'.names[key] in s'.environments
              && key == Owned(s'.environments[s'.names[key]].project, s'.environments[s'.names[key]].name) {
      assert key != Owned(current.project, record.name) ==> key in s.names && s.names[key] == s'.names[key];
    }
    forall id | id in s'.environments && id != current.id
      ensures var key := Owned(s'.environments[id].project, s'.environments[id].name);
              key in s'.names && s'.names[key] == id {
      assert s'.environments[id] == s.environments[id];
    }
  }

  lemma CreatedKeepsStore(s: Store, enc: Encryptor, record: EnvironmentRecord)
    requires StoreOk(s, enc) && record.id == s.nextId && Owned(record.project, record.name) !in s.names
    requires ChainOk(enc, record.id, [record], s.nextRef + |record.values|)
    ensures StoreOk(Created(s, record).store, enc)
  {
    hide ChainOk, NamesOk;
    CreatedKeepsNames(s, record);
    ChainsStay(s, enc, s.nextRef + |record.values|);
  }

  lemma UpdatedKeepsStore(s: Store, enc: Encryptor, current: EnvironmentRecord, record: EnvironmentRecord)
    requires StoreOk(s, enc) && current.id in s.environments && current == s.environments[current.id]
    requires record.project == current.project
    requires var key := Owned(current.project, record.name); key in s.names ==> s.names[key] == current.id
    requires ChainOk(enc, current.id, s.revisions[current.id] + [record], s.nextRef + |record.values|)
    ensures StoreOk(Updated(s, current, record).store, enc)
  {
    hide ChainOk, NamesOk, Renamed;
    UpdatedKeepsNames(s, current, record);
    ChainsStay(s, enc, s.nextRef + |record.values|);
  }

  lemma ChainsStay(s: Store, enc: Encryptor, high: nat)
    requires StoreOk(s, enc) && s.nextRef <= high
    ensures forall id | id in s.revisions :: ChainOk(enc, id, s.revisions[id], high)
  {
    hide ChainOk, NamesOk;
    forall id | id in s.revisions ensures ChainOk(enc, id, s.revisions[id], high) {
      ChainStays(enc, id, s.revisions[id], s.nextRef, high);
    }
  }

  /** A refused request changes nothing. */
  lemma RefusedChangesNothing(s: Store, enc: Encryptor, req: Request)
    requires Indexed(s) && Apply(s, enc, req).result.Err?
    ensures Apply(s, enc, req).store == s
  {
  }

  /** Every request, refused or not, keeps the store consistent. */
  lemma ApplyKeepsStore(s: Store, enc: Encryptor, req: Request)
    requires StoreOk(s, enc)
    ensures StoreOk(Apply(s, enc, req).store, enc)
  {
    hide StoreOk, Apply, Rebuilt, MayMove, Normalized;
    var o := Apply(s, enc, req);
    if o.result.Err? {
      RefusedChangesNothing(s, enc, req);
    } else if req.Update? {
      UpdateExtendsChain(s, enc, req);
      UpdatedKeepsStore(s, enc, s.environments[req.id], o.result.value);
    } else {
      CreateStartsChain(s, enc, req);
      CreatedKeepsStore(s, enc, o.result.value);
    }
  }

  // ------------------------------------------------------------------ histories

  function Run(s: Store, enc: Encryptor, requests: seq<Request>): (s': Store)
    requires StoreOk(s, enc)
    ensures StoreOk(s', enc)
    decreases |requests|
  {
    if requests == [] then s
    else
      ApplyKeepsStore(s, enc, requests[0]);
      Run(Apply(s, enc, requests[0]).store, enc, requests[1..])
  }

  /** In every history, every secret of every revision opens under that revision's own associated data and no other. */
  lemma EverySecretOpens(enc: Encryptor, requests: seq<Request>, id: EnvironmentId, k: nat, v: ConfigurationValue,
                         aad: Aad)
    requires var s := Run(EMPTY, enc, requests);
             id in s.revisions && k < |s.revisions[id]| && v in s.revisions[id][k].values && v.Secret?
    ensures var r := Run(EMPTY, enc, requests).revisions[id][k];
            Decrypt(enc, v.encrypted, aad).Ok? <==> aad == Aad(r.project, id, k + 1, v.category, v.name)
  {
    var s := Run(EMPTY, enc, requests);
    assert ChainOk(enc, id, s.revisions[id], s.nextRef);
    var r := s.revisions[id][k];
    assert RevisionOk(enc, r, s.nextRef);
    assert Decrypt(enc, v.encrypted, AadOf(r, v)).Ok?;
  }

  /** Environments start as drafts, become active and then archived, and an archived one is never revised again. */
  lemma ArchivedIsFinal(enc: Encryptor, requests: seq<Request>, id: EnvironmentId, k: nat)
    requires var s := Run(EMPTY, enc, requests); id in s.revisions && k < |s.revisions[id]|
    ensures var chain := Run(EMPTY, enc, requests).revisions[id];
            && (k == 0 ==> chain[k].status == DRAFT)
            && (chain[k].status == ARCHIVED ==> k == |chain| - 1)
            && (k > 0 && chain[k].status == DRAFT ==> chain[k - 1].status == DRAFT)
  {
    var s := Run(EMPTY, enc, requests);
    var chain := s.revisions[id];
    assert ChainOk(enc, id, chain, s.nextRef);
    if k + 1 < |chain| { assert MayMove(chain[k].status, chain[k + 1].status); }
    if k > 0 { assert MayMove(chain[k - 1].status, chain[k].status); }
  }

  /** Two environments of one project never have the same name. */
  lemma NamesAreUnique(enc: Encryptor, requests: seq<Request>, a: EnvironmentId, b: EnvironmentId)
    requires var s := Run(EMPTY, enc, requests); a in s.environments && b in s.environments && a != b
    ensures var s := Run(EMPTY, enc, requests);
            s.environments[a].project == s.environments[b].project ==> s.environments[a].name != s.environments[b].name
  {
    var s := Run(EMPTY, enc, requests);
    assert NamesOk(s);
  }

  lemma ApplyOnlyAppends(s: Store, enc: Encryptor, req: Request, id: EnvironmentId)
    requires StoreOk(s, enc) && id in s.revisions
    ensures var o := Apply(s, enc, req);
            && id in o.store.revisions && s.revisions[id] <= o.store.revisions[id]
            && (o.store.revisions[id] == s.revisions[id]
                || (&& req.Update? && req.id == id && o.result.Ok?
                    && o.store.revisions[id] == s.revisions[id] + [o.result.value]))
  {
    hide StoreOk, Apply, Rebuilt, MayMove, Normalized;
    var o := Apply(s, enc, req);
    FiledTogether(s, enc);
    if o.result.Err? {
      RefusedChangesNothing(s, enc, req);
    } else if req.Update? {
      UpdateExtendsChain(s, enc, req);
    } else {
      CreateStartsChain(s, enc, req);
    }
  }

  lemma FiledTogether(s: Store, enc: Encryptor)
    requires StoreOk(s, enc)
    ensures s.environments.Keys == s.revisions.Keys
    ensures forall id | id in s.environments :: s.environments[id].id == id && s.revisions[id] != []
                                                && s.environments[id] == s.revisions[id][|s.revisions[id]| - 1]
                                                && s.environments[id].revision == |s.revisions[id]|
  {
    forall id | id in s.environments ensures ChainOk(enc, id, s.revisions[id], s.nextRef) {
    }
  }

  /** Earlier revisions never change, whatever is requested later. */
  lemma {:induction false} RevisionsNeverChange(s: Store, enc: Encryptor, requests: seq<Request>, id: EnvironmentId)
    requires StoreOk(s, enc) && id in s.revisions
    ensures id in Run(s, enc, requests).revisions && s.revisions[id] <= Run(s, enc, requests).revisions[id]
    decreases |requests|
  {
    hide StoreOk, Apply;
    if requests != [] {
      ApplyKeepsStore(s, enc, requests[0]);
      ApplyOnlyAppends(s, enc, requests[0], id);
      RevisionsNeverChange(Apply(s, enc, requests[0]).store, enc, requests[1..], id);
    }
  }

  // ------------------------------------------------------------------ carried secrets

  /** If the request updates this environment, it gives this slot by reference. */
  ghost predicate Carries(req: Request, id: EnvironmentId, category: Category, name: Name) {
    req.Update? && req.id == id ==>
      exists item | item in InputsOf(category, req.variables, req.parameters) ::
        item.secret && item.name == name && item.secretRef.Some?
  }

  /** Every update of the history that succeeds on this environment carries the slot. */
  ghost predicate AlwaysCarries(s: Store, enc: Encryptor, requests: seq<Request>, id: EnvironmentId, category: Category,
                                name: Name)
    requires StoreOk(s, enc)
    decreases |requests|
  {
    requests == []
    || (&& (Apply(s, enc, requests[0]).result.Ok? ==> Carries(requests[0], id, category, name))
        && StoreOk(Apply(s, enc, requests[0]).store, enc)
        && AlwaysCarries(Apply(s, enc, requests[0]).store, enc, requests[1..], id, category, name))
  }

  /** In a revision without a slot used twice, a reference and the slot name the same secret. */
  lemma ReferenceReadsSlot(enc: Encryptor, r: EnvironmentRecord, category: Category, item: ValueInput, text: string)
    requires SlotsDistinct(r.values) && item.secret && item.secretRef.Some?
    requires Holds(enc, r, category, item.name, text)
    requires SecretText(enc, category, item, Some(r)).Ok?
    ensures SecretText(enc, category, item, Some(r)) == Ok(text)
  {
    var v :| v in r.values && v.Secret? && v.category == category && v.name == item.name
             && Decrypt(enc, v.encrypted, AadOf(r, v)) == Ok(text);
    var found := FindSecret(r.values, category, item.name, item.secretRef.value).value;
    var i :| 0 <= i < |r.values| && r.values[i] == v;
    var j :| 0 <= j < |r.values| && r.values[j] == found;
    assert SameSlot(r.values[i], r.values[j]) && SameSlot(r.values[j], r.values[i]);
  }

  lemma UpdateCarries(s: Store, enc: Encryptor, req: Request, category: Category, name: Name, text: string)
    requires StoreOk(s, enc) && req.Update? && Apply(s, enc, req).result.Ok?
    requires Carries(req, req.id, category, name)
    requires req.id in s.environments && Holds(enc, s.environments[req.id], category, name, text)
    ensures Holds(enc, Apply(s, enc, req).result.value, category, name, text)
  {
    hide StoreOk, Apply, Holds, SecretText, Build, UpdateObjection, ChainOk;
    var current := s.environments[req.id];
    var r := Apply(s, enc, req).result.value;
    UpdateExtendsChain(s, enc, req);
    var item :| item in InputsOf(category, req.variables,
                                 req.parameters) && item.secret && item.name == name && item.secretRef.Some?;
    CurrentIsOk(s, enc, req.id);
    BuildReadsBack(enc, Owner(current.project, current.id, current.revision + 1), req.variables, req.parameters,
                   Some(current), s.nextRef, r, category, item);
    ReferenceReadsSlot(enc, current, category, item, text);
  }

  lemma CurrentIsOk(s: Store, enc: Encryptor, id: EnvironmentId)
    requires StoreOk(s, enc) && id in s.environments
    ensures RevisionOk(enc, s.environments[id], s.nextRef) && s.environments[id].id == id
  {
    assert ChainOk(enc, id, s.revisions[id], s.nextRef);
  }

  /**
    A secret carried by reference keeps its text through any number of updates,
    interleaved with any other requests, in every revision they make.
   */
  lemma {:induction false} CarriedSecretKeepsText(s: Store, enc: Encryptor, requests: seq<Request>, id: EnvironmentId,
                                                  category: Category, name: Name, text: string, k: nat)
    requires StoreOk(s, enc) && id in s.environments && Holds(enc, s.environments[id], category, name, text)
    requires AlwaysCarries(s, enc, requests, id, category, name)
    requires id in Run(s, enc, requests).revisions
    requires |s.revisions[id]| - 1 <= k < |Run(s, enc, requests).revisions[id]|
    ensures Holds(enc, Run(s, enc, requests).revisions[id][k], category, name, text)
    decreases |requests|
  {
    hide StoreOk, Apply, Holds, Carries, Updated;
    FiledTogether(s, enc);
    if requests != [] {
      var o := Apply(s, enc, requests[0]);
      ApplyKeepsStore(s, enc, requests[0]);
      ApplyOnlyAppends(s, enc, requests[0], id);
      FiledTogether(o.store, enc);
      if o.store.revisions[id] != s.revisions[id] {
        UpdateCarries(s, enc, requests[0], category, name, text);
      }
      if k >= |o.store.revisions[id]| - 1 {
        CarriedSecretKeepsText(o.store, enc, requests[1..], id, category, name, text, k);
      } else {
        RevisionsNeverChange(o.store, enc, requests[1..], id);
      }
    }
  }

  // ------------------------------------------------------------------ when a request succeeds

  /** An update succeeds exactly when its checks pass, its inputs are valid, and its references are current. */
  lemma UpdateSucceedsExactly(s: Store, enc: Encryptor, req: Request)
    requires StoreOk(s, enc) && req.Update?
    ensures Apply(s, enc, req).result.Ok?
       <==> && UpdateObjection(s, req).None?
            && forall category :: && ValidInputs(category, InputsOf(category, req.variables, req.parameters))
                                  && ReferencesMatch(enc, category, InputsOf(category, req.variables, req.parameters),
                                                     Some(s.environments[req.id]))
  {
    hide ValidInputs, ReferencesMatch, Build, StoreOk, Normalized, MayMove;
    if UpdateObjection(s, req).None? {
      var current := s.environments[req.id];
      CurrentIsOk(s, enc, req.id);
      BuildSucceedsExactly(enc, Owner(current.project, current.id, current.revision + 1), req.variables, req.parameters,
                           Some(current), s.nextRef);
    }
  }

  /** A reference that is not the slot's current one refuses the update and leaves the store as it was. */
  lemma ForeignReferenceRejected(s: Store, enc: Encryptor, req: Request, category: Category, item: ValueInput)
    requires StoreOk(s, enc) && req.Update? && item in InputsOf(category, req.variables, req.parameters)
    requires item.secret && item.secretRef.Some?
    requires req.id in s.environments ==>
               forall v | v in s.environments[req.id].values :: !Matches(v, category, item.name, item.secretRef.value)
    ensures Apply(s, enc, req).result.Err? && Apply(s, enc, req).store == s
  {
    hide StoreOk, Apply, ValidInputs;
    UpdateSucceedsExactly(s, enc, req);
    if UpdateObjection(s, req).None? {
      assert !ReferencesMatch(enc, category, InputsOf(category, req.variables, req.parameters),
                              Some(s.environments[req.id]));
    }
    RefusedChangesNothing(s, enc, req);
  }

  /** Every update replaces every reference: those of an earlier revision are no longer accepted. */
  lemma StaleReferenceRejected(s: Store, enc: Encryptor, req: Request, category: Category, item: ValueInput, k: nat,
                               v: ConfigurationValue)
    requires StoreOk(s, enc) && req.Update? && item in InputsOf(category, req.variables, req.parameters)
    requires req.id in s.revisions && k < |s.revisions[req.id]| - 1
    requires v in s.revisions[req.id][k].values && v.Secret? && item.secret && item.secretRef == Some(v.ref)
    ensures Apply(s, enc, req).result.Err? && Apply(s, enc, req).store == s
  {
    hide Apply;
    var chain := s.revisions[req.id];
    assert ChainOk(enc, req.id, chain, s.nextRef);
    assert DrawnBefore(chain[k], chain[|chain| - 1]);
    ForeignReferenceRejected(s, enc, req, category, item);
  }

  // ------------------------------------------------------------------ the repository

  class EnvironmentRepository {
    const encryptor: Encryptor
    var environments: map<EnvironmentId, EnvironmentRecord>
    var revisions: map<EnvironmentId, seq<EnvironmentRecord>>
    var names: map<Owned, EnvironmentId>
    var nextId: nat
    var nextRef: nat

    function State(): Store
      reads this
    {
      Store(environments, revisions, names, nextId, nextRef)
    }

    ghost predicate Valid()
      reads this
    {
      StoreOk(State(), encryptor)
    }

    constructor (encryptor: Encryptor)
      ensures Valid() && State() == EMPTY && this.encryptor == encryptor
    {
      this.encryptor := encryptor;
      environments, revisions, names, nextId, nextRef := map[], map[], map[], 0, 0;
    }

    method CreateEnvironment(project: ProjectId, name: Name, variables: seq<ValueInput>, parameters: seq<ValueInput>)
      returns (result: Result<EnvironmentRecord, Error>)
      requires Valid()
      modifies this
      ensures Valid()
      ensures Outcome(State(), result) == Apply(old(State()), encryptor, Create(project, name, variables, parameters))
    {
      hide StoreOk;
      ApplyKeepsStore(State(), encryptor, Create(project, name, variables, parameters));
      var normalized := Normalized(name);
      if normalized.Err? {
        return Err(normalized.error);
      }
      var id := nextId;
      var key := Owned(project, normalized.value);
      if key in names {
        return Err(NameConflict);
      }
      var values := BuildConfigurationValues(encryptor, Owner(project, id, 1), variables, parameters, None, nextRef);
      if values.Err? {
        return Err(values.error);
      }
      var record := EnvironmentRecord(id, project, normalized.value, DRAFT, 1, 0, values.value);
      nextId, nextRef := id + 1, nextRef + |values.value|;
      environments := environments[id := record];
      revisions := revisions[id := [record]];
      names := names[key := id];
      return Ok(record);
    }

    method GetEnvironment(id: EnvironmentId) returns (result: Result<EnvironmentRecord, Error>)
      requires Valid()
      ensures result == if id in environments then Ok(environments[id]) else Err(NotFound)
    {
      return if id in environments then Ok(environments[id]) else Err(NotFound);
    }

    method UpdateEnvironment(id: EnvironmentId, expectedVersion: int, name: Name, status: Status,
                             variables: seq<ValueInput>, parameters: seq<ValueInput>)
      returns (result: Result<EnvironmentRecord, Error>)
      requires Valid()
      modifies this
      ensures Valid()
      ensures Outcome(State(), result)
              == Apply(old(State()), encryptor, Update(id, expectedVersion, name, status, variables, parameters))
    {
      hide StoreOk, Normalized, MayMove, Build;
      ghost var req := Update(id, expectedVersion, name, status, variables, parameters);
      ApplyKeepsStore(State(), encryptor, req);
      var normalized := Normalized(name);
      if normalized.Err? {
        return Err(normalized.error);
      }
      var found := GetEnvironment(id);
      if found.Err? {
        return found;
      }
      var current := found.value;
      if current.version != expectedVersion {
        return Err(VersionConflict);
      }
      if !MayMove(current.status, status) {
        return Err(InvalidTransition);
      }
      var key := Owned(current.project, normalized.value);
      if key in names && names[key] != id {
        return Err(NameConflict);
      }
      var values := BuildConfigurationValues(encryptor, Owner(current.project, current.id, current.revision + 1),
                                             variables, parameters, Some(current), nextRef);
      if values.Err? {
        return Err(values.error);
      }
      var updated := current.(name := normalized.value, status := status, revision := current.revision + 1,
                              version := current.version + 1, values := values.value);
      if normalized.value != current.name {
        names := names - {Owned(current.project, current.name)};
        names := names[key := id];
      }
      nextRef := nextRef + |values.value|;
      environments := environments[id := updated];
      revisions := revisions[id := revisions[id] + [updated]];
      return Ok(updated);
    }

    method GetRevision(id: EnvironmentId, revision: int) returns (result: Result<EnvironmentRecord, Error>)
      requires Valid()
      ensures result == RevisionAt(State(), id, revision)
    {
      var found := GetEnvironment(id);
      if found.Err? {
        return found;
      }
      if revision < 1 || revision > |revisions[id]| {
        return Err(NotFound);
      }
      return Ok(revisions[id][revision - 1]);
    }
  }

  function RevisionAt(s: Store, id: EnvironmentId, revision: int): Result<EnvironmentRecord, Error> {
    if id in s.revisions && 1 <= revision <= |s.revisions[id]| then Ok(s.revisions[id][revision - 1]) else Err(NotFound)
  }

  /** A revision that was ever readable reads the same for good. */
  lemma PinnedRevisionStays(s: Store, enc: Encryptor, requests: seq<Request>, id: EnvironmentId, revision: int)
    requires StoreOk(s, enc) && RevisionAt(s, id, revision).Ok?
    ensures RevisionAt(Run(s, enc, requests), id, revision) == RevisionAt(s, id, revision)
  {
    RevisionsNeverChange(s, enc, requests, id);
  }
}
