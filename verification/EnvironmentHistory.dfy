/**
  What a history of requests leaves readable: the revisions are the accepted
  requests in order, and a run is resolved from the one it is pinned to.
 */
module EnvironmentHistory {
  import opened Wrappers
  import opened Environment
  import opened EnvironmentStore
  import opened ConfigurationResolverModel
  import opened PythonText

  // ------------------------------------------------------------------ revisions

  /** The records returned for the environment by the requests that succeeded, in order. */
  function Accepted(s: Store, enc: Encryptor, requests: seq<Request>, id: EnvironmentId): seq<EnvironmentRecord>
    requires StoreOk(s, enc)
    decreases |requests|
  {
    if requests == [] then []
    else
      ApplyKeepsStore(s, enc, requests[0]);
      var o := Apply(s, enc, requests[0]);
      Returned(o.result, id) + Accepted(o.store, enc, requests[1..], id)
  }

  function Returned(result: Result<EnvironmentRecord, Error>, id: EnvironmentId): seq<EnvironmentRecord> {
    if result.Ok? && result.value.id == id then [result.value] else []
  }

  function ChainOf(s: Store, id: EnvironmentId): seq<EnvironmentRecord> {
    if id in s.revisions then s.revisions[id] else []
  }

  lemma RequestAppends(s: Store, enc: Encryptor, req: Request, id: EnvironmentId)
    requires StoreOk(s, enc)
    ensures var o := Apply(s, enc, req); ChainOf(o.store, id) == ChainOf(s, id) + Returned(o.result, id)
  {
    hide StoreOk, Apply, Rebuilt, MayMove, Normalized;
    var o := Apply(s, enc, req);
    FiledTogether(s, enc);
    if o.result.Err? {
      RefusedChangesNothing(s, enc, req);
    } else if req.Update? {
      UpdateExtendsChain(s, enc, req);
    } else {
      CreateStartsChain(s, enc, req);
    }
  }

  lemma {:induction false} ChainIsAccepted(s: Store, enc: Encryptor, requests: seq<Request>, id: EnvironmentId)
    requires StoreOk(s, enc)
    ensures ChainOf(Run(s, enc, requests), id) == ChainOf(s, id) + Accepted(s, enc, requests, id)
    decreases |requests|
  {
    hide StoreOk, Apply, ChainOf;
    if requests != [] {
      ApplyKeepsStore(s, enc, requests[0]);
      RequestAppends(s, enc, requests[0], id);
      ChainIsAccepted(Apply(s, enc, requests[0]).store, enc, requests[1..], id);
    }
  }

  lemma RevisionNumbers(s: Store, enc: Encryptor, id: EnvironmentId, k: nat)
    requires StoreOk(s, enc) && k < |ChainOf(s, id)|
    ensures ChainOf(s, id)[k].id == id && ChainOf(s, id)[k].revision == k + 1
  {
    assert ChainOk(enc, id, s.revisions[id], s.nextRef);
  }

  /**
    In every history revision `k` of an environment can be read exactly if at
    least `k` requests have succeeded on it, and it is what the `k`-th of them
    returned.
   */
  lemma RevisionsAreTheAccepted(enc: Encryptor, requests: seq<Request>, id: EnvironmentId, revision: int)
    ensures var read := RevisionAt(Run(EMPTY, enc, requests), id, revision);
            var accepted := Accepted(EMPTY, enc, requests, id);
            if 1 <= revision <= |accepted|
            then && read == Ok(accepted[revision - 1])
                 && accepted[revision - 1].id == id && accepted[revision - 1].revision == revision
            else read == Err(NotFound)
  {
    ChainIsAccepted(EMPTY, enc, requests, id);
    var s := Run(EMPTY, enc, requests);
    if 1 <= revision <= |ChainOf(s, id)| {
      RevisionNumbers(s, enc, id, revision - 1);
    }
  }

  // ------------------------------------------------------------------ what a run is resolved from

  lemma EmptyIsOk(enc: Encryptor)
    ensures StoreOk(EMPTY, enc)
  {
  }

  /** A run gets the pinned revision only if it is ACTIVE and of its own project. */
  lemma PinnedIsAccepted(enc: Encryptor, requests: seq<Request>, project: ProjectId, id: EnvironmentId, revision: int)
    ensures var pinned := Pinned(Run(EMPTY, enc, requests), project, id, revision);
            var accepted := Accepted(EMPTY, enc, requests, id);
            if !(1 <= revision <= |accepted|) || accepted[revision - 1].project != project then pinned == Err(NotFound)
            else if accepted[revision - 1].status != ACTIVE then pinned == Err(NotActive)
            else pinned == Ok(accepted[revision - 1])
  {
    hide Run, Accepted, RevisionAt;
    RevisionsAreTheAccepted(enc, requests, id, revision);
  }

  /** The pinned revision was accepted, is ACTIVE, is of the project, and has every requested secret. */
  ghost predicate Resolvable(accepted: seq<EnvironmentRecord>, project: ProjectId, revision: int,
                             refs: seq<Reference>)
  {
    && 1 <= revision <= |accepted|
    && var r := accepted[revision - 1];
       && r.project == project && r.status == ACTIVE
       && forall ref | ref in refs :: exists v | v in r.values :: v.Secret? && RefOf(v) == ref
  }

  /** The secret of the record filed under `ref` reads `text`. */
  ghost predicate ReadsAs(enc: Encryptor, r: EnvironmentRecord, ref: Reference, text: string) {
    exists v | v in r.values :: v.Secret? && RefOf(v) == ref && Decrypt(enc, v.encrypted, AadOf(r, v)) == Ok(text)
  }

  lemma AvailableExactly(r: EnvironmentRecord, refs: seq<Reference>)
    ensures Members(refs) <= Available(r)
       <==> forall ref | ref in refs :: exists v | v in r.values :: v.Secret? && RefOf(v) == ref
  {
    assert forall ref | ref in refs :: ref in Members(refs);
  }

  /**
    In every history a snapshot succeeds exactly when the pinned revision was
    accepted, is ACTIVE, is of the project and has all the requested secrets; it
    then holds that revision's public values and its requested secrets.
   */
  lemma SnapshotIsOfTheAccepted(enc: Encryptor, requests: seq<Request>, project: ProjectId, id: EnvironmentId,
                                revision: int, refs: seq<Reference>)
    ensures var snapshot := SnapshotOf(Run(EMPTY, enc, requests), enc, project, id, revision, refs);
            var accepted := Accepted(EMPTY, enc, requests, id);
            && (snapshot.Ok? <==> Resolvable(accepted, project, revision, refs))
            && (snapshot.Ok? ==>
                  var r := accepted[revision - 1];
                  SecretsOpen(enc, r) && HoldsVisible(enc, r, Members(refs), |r.values|, snapshot.value))
  {
    hide Run, Accepted, Pinned, SnapshotOf, StoreOk, SecretsOpen, HoldsVisible;
    EmptyIsOk(enc);
    var s := Run(EMPTY, enc, requests);
    PinnedIsAccepted(enc, requests, project, id, revision);
    SnapshotSucceedsExactly(s, enc, project, id, revision, refs);
    var pinned := Pinned(s, project, id, revision);
    if pinned.Ok? {
      AvailableExactly(pinned.value, refs);
    }
    if SnapshotOf(s, enc, project, id, revision, refs).Ok? {
      SnapshotHoldsExactly(s, enc, project, id, revision, refs);
    }
  }

  /** The secret values alone: the same revision, every requested secret once, each under its own text. */
  lemma ResolvedIsOfTheAccepted(enc: Encryptor, requests: seq<Request>, project: ProjectId, id: EnvironmentId,
                                revision: int, refs: seq<Reference>)
    ensures var resolved := ResolvedOf(Run(EMPTY, enc, requests), enc, project, id, revision, refs);
            var accepted := Accepted(EMPTY, enc, requests, id);
            && (resolved.Ok? <==> Distinct(refs) && Resolvable(accepted, project, revision, refs))
            && (resolved.Ok? ==>
                  && |resolved.value| == |refs|
                  && (forall ref | ref in refs :: exists x | x in resolved.value :: x.reference == ref)
                  && forall x | x in resolved.value ::
                       x.reference in refs && ReadsAs(enc, accepted[revision - 1], x.reference, x.text))
  {
    hide Run, Accepted, Pinned, SnapshotOf, StoreOk, ReadsAs, ValidatedRecord, ResolveUpTo, Resolvable, Distinct;
    EmptyIsOk(enc);
    var s := Run(EMPTY, enc, requests);
    SnapshotIsOfTheAccepted(enc, requests, project, id, revision, refs);
    ResolversAgreeExactly(s, enc, project, id, revision, refs);
    if ResolvedOf(s, enc, project, id, revision, refs).Ok? {
      PinnedIsAccepted(enc, requests, project, id, revision);
      ResolvedReads(s, enc, project, id, revision, refs);
    }
  }

  lemma ResolvedReads(s: Store, enc: Encryptor, project: ProjectId, id: EnvironmentId, revision: int,
                      refs: seq<Reference>)
    requires StoreOk(s, enc) && ResolvedOf(s, enc, project, id, revision, refs).Ok?
    ensures Pinned(s, project, id, revision).Ok?
    ensures var resolved := ResolvedOf(s, enc, project, id, revision, refs).value;
            && |resolved| == |refs|
            && (forall ref | ref in refs :: exists x | x in resolved :: x.reference == ref)
            && forall x | x in resolved ::
                 x.reference in refs && ReadsAs(enc, Pinned(s, project, id, revision).value, x.reference, x.text)
  {
    hide StoreOk, Pinned, InCanonicalOrder, ResolveUpTo, Decrypt;
    PinnedIsOk(s, enc, project, id, revision);
    SortedHasSameMembers(refs);
    var pinned := ValidatedRecord(s, project, id, revision, refs).value;
    var r, canonical := pinned.0, pinned.1;
    ResolveOpensAll(enc, r, canonical, |canonical|);
    var resolved := ResolvedOf(s, enc, project, id, revision, refs).value;
    forall x | x in resolved
      ensures x.reference in refs && ReadsAs(enc, r, x.reference, x.text)
    {
      var i :| 0 <= i < |resolved| && resolved[i] == x;
      var v := ValueFor(r.values, canonical[i]);
      assert Decrypt(enc, v.encrypted, AadOf(r, v)) == Ok(x.text);
    }
    forall ref | ref in refs
      ensures exists x | x in resolved :: x.reference == ref
    {
      assert ref in canonical;
      var i :| 0 <= i < |canonical| && canonical[i] == ref;
      assert resolved[i] in resolved;
    }
  }

  // ------------------------------------------------------------------ which requests are accepted

  /** A name as it is stored: the requested one without its outer white space. */
  ghost predicate NameFrom(requested: Name, stored: Name) {
    && 1 <= |stored.text| <= 255
    && exists i: nat, j: nat :: Trims(requested.text, i, j) && stored.text == requested.text[i..j]
  }

  lemma NormalizedExactly(requested: Name, stored: Name)
    ensures Normalized(requested) == Ok(stored) <==> NameFrom(requested, stored)
  {
    hide Trims, Strip;
    StripExactly(requested.text, stored.text);
  }

  ghost predicate SoundInput(category: Category, item: ValueInput) {
    && ValidKey(category, item.name)
    && (item.secret ==> (if item.secretRef.Some? then item.value.None? else item.value.Some? && item.value.value.Text?))
    && (!item.secret ==> && item.secretRef.None?
                         && (category == EnvironmentVariable ==> item.value.Some? && item.value.value.Text?))
    && item.encodedBytes.Some? && item.encodedBytes.value <= 65_536
  }

  ghost predicate SoundInputs(category: Category, inputs: seq<ValueInput>) {
    && |inputs| <= 100 && (forall item | item in inputs :: SoundInput(category, item))
    && forall i, j | 0 <= i < j < |inputs| :: inputs[i].name != inputs[j].name
  }

  /** The inputs the validator lets through, as a whole. */
  lemma ValidInputsExactly(category: Category, inputs: seq<ValueInput>)
    ensures ValidInputs(category, inputs) <==> SoundInputs(category, inputs)
  {
    hide ValidKey;
    if ValidInputs(category, inputs) {
      forall item | item in inputs
        ensures SoundInput(category, item)
      {
        var i :| 0 <= i < |inputs| && inputs[i] == item;
        assert Objection(category, inputs, i).None?;
      }
      forall i, j | 0 <= i < j < |inputs|
        ensures inputs[i].name != inputs[j].name
      {
        assert Objection(category, inputs, j).None?;
      }
    }
    if SoundInputs(category, inputs) {
      forall i | 0 <= i < |inputs|
        ensures Objection(category, inputs, i).None?
      {
        assert SoundInput(category, inputs[i]);
      }
    }
  }

  /** Another environment of the project already has this name. */
  ghost predicate IsTaken(s: Store, project: ProjectId, name: Name, except: Option<EnvironmentId>) {
    exists id | id in s.environments ::
      Some(id) != except && s.environments[id].project == project && s.environments[id].name == name
  }

  predicate Permitted(current: Status, target: Status) {
    (current, target) in {(DRAFT, DRAFT), (DRAFT, ACTIVE), (ACTIVE, ACTIVE), (ACTIVE, ARCHIVED)}
  }

  lemma TakenExactly(s: Store, enc: Encryptor, project: ProjectId, name: Name, except: Option<EnvironmentId>)
    requires StoreOk(s, enc)
    ensures IsTaken(s, project, name, except)
       <==> Owned(project, name) in s.names && Some(s.names[Owned(project, name)]) != except
  {
    hide ChainOk;
    assert NamesOk(s);
  }

  /** What an update has to satisfy besides its values. */
  ghost predicate MayUpdate(s: Store, req: Request)
    requires req.Update?
  {
    && req.id in s.environments && s.environments[req.id].version == req.expectedVersion
    && Permitted(s.environments[req.id].status, req.status)
    && exists stored :: NameFrom(req.name, stored)
                        && !IsTaken(s, s.environments[req.id].project, stored, Some(req.id))
  }

  lemma MayUpdateExactly(s: Store, enc: Encryptor, req: Request)
    requires StoreOk(s, enc) && req.Update?
    ensures UpdateObjection(s, req).None? <==> MayUpdate(s, req)
  {
    hide StoreOk, NameFrom, IsTaken, Normalized;
    forall stored
      ensures Normalized(req.name) == Ok(stored) <==> NameFrom(req.name, stored)
    {
      NormalizedExactly(req.name, stored);
    }
    if Normalized(req.name).Ok? && req.id in s.environments {
      TakenExactly(s, enc, s.environments[req.id].project, Normalized(req.name).value, Some(req.id));
    }
  }

  /** Exactly which updates succeed. */
  lemma UpdatesAcceptedExactly(s: Store, enc: Encryptor, req: Request)
    requires StoreOk(s, enc) && req.Update?
    ensures Apply(s, enc, req).result.Ok?
       <==> && MayUpdate(s, req)
            && forall category ::
                 && SoundInputs(category, InputsOf(category, req.variables, req.parameters))
                 && ReferencesMatch(enc, category, InputsOf(category, req.variables, req.parameters),
                                    Some(s.environments[req.id]))
  {
    hide StoreOk, Apply, MayUpdate, ValidInputs, SoundInputs, ReferencesMatch, UpdateObjection;
    UpdateSucceedsExactly(s, enc, req);
    MayUpdateExactly(s, enc, req);
    forall category
      ensures ValidInputs(category, InputsOf(category, req.variables, req.parameters))
         <==> SoundInputs(category, InputsOf(category, req.variables, req.parameters))
    {
      ValidInputsExactly(category, InputsOf(category, req.variables, req.parameters));
    }
  }

  /** Exactly which creations succeed. */
  lemma CreationsAcceptedExactly(s: Store, enc: Encryptor, req: Request)
    requires StoreOk(s, enc) && req.Create?
    ensures Apply(s, enc, req).result.Ok?
       <==> && (exists stored :: NameFrom(req.name, stored) && !IsTaken(s, req.project, stored, None))
            && forall category ::
                 && SoundInputs(category, InputsOf(category, req.variables, req.parameters))
                 && ReferencesMatch(enc, category, InputsOf(category, req.variables, req.parameters), None)
  {
    hide StoreOk, ValidInputs, SoundInputs, ReferencesMatch, NameFrom, IsTaken, Normalized, Build;
    forall stored
      ensures Normalized(req.name) == Ok(stored) <==> NameFrom(req.name, stored)
    {
      NormalizedExactly(req.name, stored);
    }
    if Normalized(req.name).Ok? {
      TakenExactly(s, enc, req.project, Normalized(req.name).value, None);
    }
    BuildSucceedsExactly(enc, Owner(req.project, s.nextId, 1), req.variables, req.parameters, None, s.nextRef);
    forall category
      ensures ValidInputs(category, InputsOf(category, req.variables, req.parameters))
         <==> SoundInputs(category, InputsOf(category, req.variables, req.parameters))
    {
      ValidInputsExactly(category, InputsOf(category, req.variables, req.parameters));
    }
  }

  /** The record an accepted request returns is the requested one. */
  lemma RequestIsHonoured(s: Store, enc: Encryptor, req: Request)
    requires StoreOk(s, enc) && Apply(s, enc, req).result.Ok?
    ensures var r := Apply(s, enc, req).result.value;
            && NameFrom(req.name, r.name)
            && (req.Create? ==> r.id !in s.environments && r.project == req.project
                                && r.status == DRAFT && r.revision == 1 && r.version == 0)
            && (req.Update? ==> && r.id == req.id && req.id in s.environments && r.status == req.status
                                && r.project == s.environments[req.id].project
                                && r.revision == s.environments[req.id].revision + 1
                                && r.version == req.expectedVersion + 1)
  {
    hide StoreOk, NameFrom, Normalized, MayMove, Build;
    FiledTogether(s, enc);
    NormalizedExactly(req.name, Apply(s, enc, req).result.value.name);
    if req.Create? {
      CreateStartsChain(s, enc, req);
    }
  }

  lemma RequestIsBuilt(s: Store, enc: Encryptor, req: Request)
    requires StoreOk(s, enc) && Apply(s, enc, req).result.Ok?
    ensures req.Update? ==> req.id in s.environments
    ensures var r := Apply(s, enc, req).result.value;
            Build(enc, Owner(r.project, r.id, r.revision), req.variables, req.parameters,
                  if req.Create? then None else Some(s.environments[req.id]), s.nextRef) == Ok(r.values)
  {
    hide StoreOk, Normalized, MayMove, Build;
    FiledTogether(s, enc);
    if req.Create? {
      CreateStartsChain(s, enc, req);
    }
  }

  /** The values stand in the order of the inputs, variables before parameters. */
  lemma InputsKeepTheirOrder(s: Store, enc: Encryptor, req: Request, i: nat)
    requires StoreOk(s, enc) && Apply(s, enc, req).result.Ok?
    ensures var values, n := Apply(s, enc, req).result.value.values, |req.variables|;
            && |values| == n + |req.parameters|
            && (i < n ==> values[i].category == EnvironmentVariable && values[i].name == req.variables[i].name)
            && (n <= i < |values| ==>
                  values[i].category == CommonParameter && values[i].name == req.parameters[i - n].name)
  {
    hide StoreOk, Apply, BuildCategory;
    var r := Apply(s, enc, req).result.value;
    var owner := Owner(r.project, r.id, r.revision);
    RequestIsBuilt(s, enc, req);
    var previous := if req.Create? then None else Some(s.environments[req.id]);
    var first := BuildCategory(enc, owner, EnvironmentVariable, req.variables, previous, s.nextRef).value;
    CategoryIsSound(enc, owner, EnvironmentVariable, req.variables, previous, s.nextRef);
    CategoryIsSound(enc, owner, CommonParameter, req.parameters, previous, s.nextRef + |first|);
  }

  /** It holds one value for every input: public ones as given, new secrets under the given text. */
  lemma InputsAreHonoured(s: Store, enc: Encryptor, req: Request, category: Category, item: ValueInput)
    requires StoreOk(s, enc) && Apply(s, enc, req).result.Ok?
    requires item in InputsOf(category, req.variables, req.parameters)
    ensures var r := Apply(s, enc, req).result.value;
            && |r.values| == |req.variables| + |req.parameters|
            && (!item.secret ==> Public(category, item.name, item.value) in r.values)
            && (item.secret && item.secretRef.None? ==>
                  && item.value.Some? && item.value.value.Text?
                  && Holds(enc, r, category, item.name, item.value.value.s))
  {
    hide StoreOk, Apply, Holds, BuildCategory;
    var r := Apply(s, enc, req).result.value;
    var owner := Owner(r.project, r.id, r.revision);
    RequestIsBuilt(s, enc, req);
    var previous := if req.Create? then None else Some(s.environments[req.id]);
    BuildReadsBack(enc, owner, req.variables, req.parameters, previous, s.nextRef, r, category, item);
    var first := BuildCategory(enc, owner, EnvironmentVariable, req.variables, previous, s.nextRef).value;
    CategoryIsSound(enc, owner, EnvironmentVariable, req.variables, previous, s.nextRef);
    CategoryIsSound(enc, owner, CommonParameter, req.parameters, previous, s.nextRef + |first|);
  }
}
