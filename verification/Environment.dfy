/**
  Versioned environment configuration with encrypted secrets. Encryption is
  symbolic: a box opens exactly under the key and associated data it was made
  with (section 7 of NIST SP 800-38D).
 */
module Environment {
  import opened Wrappers

  type ProjectId = nat
  type EnvironmentId = nat
  type SecretRef = nat

  datatype Name = Name(text: string)
  datatype Category = EnvironmentVariable | CommonParameter
  datatype Status = DRAFT | ACTIVE | ARCHIVED

  datatype Error =
    | InvalidName | NotFound | NameConflict | VersionConflict | InvalidTransition
    | TooManyValues | InvalidKey | DuplicateKey | SecretNotText | ValueAndReference | PublicReference
    | VariableNotText | NotSerializable | ValueTooLarge
    | ReferenceDuringCreation | ReferenceMismatch | NotActive | DuplicateReference
    | EncryptionUnavailable | DecryptionFailed

  // ------------------------------------------------------------------ crypto

  /** The canonical associated data of a secret. */
  datatype Aad = Aad(project: ProjectId, environment: EnvironmentId, revision: nat, category: Category, name: Name)
  datatype AssociatedData = ForValue(aad: Aad) | ForKey(aad: Aad)

  type Key = nat
  datatype Box<T> = Box(key: Key, aad: AssociatedData, payload: T)

  function Open<T>(box: Box<T>, key: Key, aad: AssociatedData): Option<T> {
    if box.key == key && box.aad == aad then Some(box.payload) else None
  }

  const ALGORITHM := "AES-256-GCM"

  datatype EncryptedSecret = EncryptedSecret(sealed: Box<string>, wrappedKey: Box<Key>, keyId: string,
                                             algorithm: string)

  /** The key-encryption key and its identifier, if configured. */
  datatype Encryptor = Encryptor(kek: Option<(Key, string)>)

  /** `dek` is the fresh data key drawn for this secret. */
  function Encrypt(enc: Encryptor, plaintext: string, aad: Aad, dek: Key): Result<EncryptedSecret, Error> {
    if enc.kek.None? then Err(EncryptionUnavailable)
    else Ok(EncryptedSecret(Box(dek, ForValue(aad), plaintext), Box(enc.kek.value.0, ForKey(aad), dek), enc.kek.value.1,
                            ALGORITHM))
  }

  function Decrypt(enc: Encryptor, secret: EncryptedSecret, aad: Aad): Result<string, Error> {
    if enc.kek.None? then Err(EncryptionUnavailable)
    else if secret.keyId != enc.kek.value.1 || secret.algorithm != ALGORITHM then Err(DecryptionFailed)
    else
      match Open(secret.wrappedKey, enc.kek.value.0, ForKey(aad))
      case None => Err(DecryptionFailed)
      case Some(dek) =>
        match Open(secret.sealed, dek, ForValue(aad))
        case None => Err(DecryptionFailed)
        case Some(plaintext) => Ok(plaintext)
  }

  /** A secret decrypts under exactly the key and the associated data it was encrypted under. */
  lemma DecryptsExactly(enc: Encryptor, other: Encryptor, plaintext: string, aad: Aad, aad': Aad, dek: Key)
    requires Encrypt(enc, plaintext, aad, dek).Ok?
    ensures var d := Decrypt(other, Encrypt(enc, plaintext, aad, dek).value, aad');
            && (d.Ok? <==> other.kek == enc.kek && aad' == aad)
            && (d.Ok? ==> d.value == plaintext)
  {
  }

  // ------------------------------------------------------------------ records

  datatype Json = Text(s: string) | Other(encoded: string)

  /** `encodedBytes` is the size of the value's JSON text, or None if it has none. */
  datatype ValueInput = ValueInput(name: Name, value: Option<Json>, secret: bool, secretRef: Option<SecretRef>,
                                   encodedBytes: Option<nat>)

  datatype ConfigurationValue =
    | Public(category: Category, name: Name, value: Option<Json>)
    | Secret(category: Category, name: Name, ref: SecretRef, encrypted: EncryptedSecret)

  datatype EnvironmentRecord = EnvironmentRecord(id: EnvironmentId, project: ProjectId, name: Name, status: Status,
                                                 revision: nat, version: nat, values: seq<ConfigurationValue>)

  function AadOf(r: EnvironmentRecord, v: ConfigurationValue): Aad {
    Aad(r.project, r.id, r.revision, v.category, v.name)
  }

  predicate MayMove(current: Status, target: Status) {
    match current
    case ARCHIVED => false
    case DRAFT => target == DRAFT || target == ACTIVE
    case ACTIVE => target == ACTIVE || target == ARCHIVED
  }

  const MAX_VALUES_PER_CATEGORY := 100
  const MAX_VALUE_BYTES := 65_536

  predicate KeyStart(c: char) {
    'A' <= c <= 'Z' || 'a' <= c <= 'z' || c == '_'
  }

  predicate ValidKey(category: Category, name: Name) {
    && 1 <= |name.text| <= 128 && KeyStart(name.text[0])
    && forall i | 1 <= i < |name.text| ::
         KeyStart(name.text[i]) || '0' <= name.text[i] <= '9' || (category == CommonParameter && name.text[i] in ".-")
  }

  /** A new secret has a text. */
  predicate Buildable(item: ValueInput) {
    item.secret && item.secretRef.None? ==> item.value.Some? && item.value.value.Text?
  }

  /** The first objection to input `i`, given the inputs before it. */
  function Objection(category: Category, inputs: seq<ValueInput>, i: nat): (e: Option<Error>)
    requires i < |inputs|
    ensures e.None? ==> Buildable(inputs[i])
  {
    var item := inputs[i];
    if !ValidKey(category, item.name) then Some(InvalidKey)
    else if exists j | 0 <= j < i :: inputs[j].name == item.name then Some(DuplicateKey)
    else if item.secret && item.secretRef.None? && !(item.value.Some? && item.value.value.Text?)
    then Some(SecretNotText)
    else if item.secret && item.secretRef.Some? && item.value.Some? then Some(ValueAndReference)
    else if !item.secret && item.secretRef.Some? then Some(PublicReference)
    else if !item.secret && category == EnvironmentVariable && !(item.value.Some? && item.value.value.Text?)
    then Some(VariableNotText)
    else if item.encodedBytes.None? then Some(NotSerializable)
    else if item.encodedBytes.value > MAX_VALUE_BYTES then Some(ValueTooLarge)
    else None
  }

  predicate ValidInputs(category: Category, inputs: seq<ValueInput>) {
    |inputs| <= MAX_VALUES_PER_CATEGORY && forall i | 0 <= i < |inputs| :: Objection(category, inputs, i).None?
  }

  /** The first objection among the first `n` inputs. */
  function ObjectionUpTo(category: Category, inputs: seq<ValueInput>, n: nat): (e: Option<Error>)
    requires n <= |inputs|
    ensures e.None? <==> forall i | 0 <= i < n :: Objection(category, inputs, i).None?
    ensures e.None? ==> forall i | 0 <= i < n :: Buildable(inputs[i])
  {
    if n == 0 then None
    else
      var earlier := ObjectionUpTo(category, inputs, n - 1);
      if earlier.Some? then earlier else Objection(category, inputs, n - 1)
  }

  function InputsObjection(category: Category, inputs: seq<ValueInput>): (e: Option<Error>)
    ensures e.None? <==> ValidInputs(category, inputs)
    ensures e.None? ==> forall i | 0 <= i < |inputs| :: Buildable(inputs[i])
  {
    if |inputs| > MAX_VALUES_PER_CATEGORY then Some(TooManyValues) else ObjectionUpTo(category, inputs, |inputs|)
  }

  lemma {:induction false} FirstObjectionStands(category: Category, inputs: seq<ValueInput>, m: nat, n: nat)
    requires m <= n <= |inputs| && ObjectionUpTo(category, inputs, m).Some?
    ensures ObjectionUpTo(category, inputs, n) == ObjectionUpTo(category, inputs, m)
  {
    if m < n { FirstObjectionStands(category, inputs, m, n - 1); }
  }

  method ValidateInputs(category: Category, inputs: seq<ValueInput>) returns (objection: Option<Error>)
    ensures objection == InputsObjection(category, inputs)
  {
    if |inputs| > MAX_VALUES_PER_CATEGORY {
      return Some(TooManyValues);
    }
    var names: set<Name> := {};
    for i := 0 to |inputs|
      invariant forall n :: n in names <==> exists j | 0 <= j < i :: inputs[j].name == n
      invariant ObjectionUpTo(category, inputs, i).None?
    {
      var item := inputs[i];
      if Objection(category, inputs, i).Some? {
        FirstObjectionStands(category, inputs, i + 1, |inputs|);
      }
      if !ValidKey(category, item.name) {
        return Some(InvalidKey);
      }
      if item.name in names {
        return Some(DuplicateKey);
      }
      names := names + {item.name};
      if item.secret {
        if item.secretRef.None? && !(item.value.Some? && item.value.value.Text?) {
          return Some(SecretNotText);
        }
        if item.secretRef.Some? && item.value.Some? {
          return Some(ValueAndReference);
        }
      } else {
        if item.secretRef.Some? {
          return Some(PublicReference);
        }
        if category == EnvironmentVariable && !(item.value.Some? && item.value.value.Text?) {
          return Some(VariableNotText);
        }
      }
      if item.encodedBytes.None? {
        return Some(NotSerializable);
      }
      if item.encodedBytes.value > MAX_VALUE_BYTES {
        return Some(ValueTooLarge);
      }
    }
    return None;
  }

  // ------------------------------------------------------------------ building a revision

  /** The revision under construction. */
  datatype Owner = Owner(project: ProjectId, environment: EnvironmentId, revision: nat)

  predicate Matches(v: ConfigurationValue, category: Category, name: Name, ref: SecretRef) {
    v.Secret? && v.category == category && v.name == name && v.ref == ref
  }

  function FindSecret(values: seq<ConfigurationValue>, category: Category, name: Name, ref: SecretRef)
    : (r: Option<ConfigurationValue>)
    ensures r.Some? ==> r.value in values && Matches(r.value, category, name, ref)
    ensures r.None? ==> forall i | 0 <= i < |values| :: !Matches(values[i], category, name, ref)
  {
    if values == [] then None
    else if Matches(values[0], category, name, ref) then Some(values[0])
    else FindSecret(values[1..], category, name, ref)
  }

  /** The text a secret input stands for. */
  function SecretText(enc: Encryptor, category: Category, item: ValueInput, previous: Option<EnvironmentRecord>)
    : Result<string, Error>
    requires item.secret && Buildable(item)
  {
    if item.secretRef.None? then Ok(item.value.value.s)
    else if previous.None? then Err(ReferenceDuringCreation)
    else
      match FindSecret(previous.value.values, category, item.name, item.secretRef.value)
      case None => Err(ReferenceMismatch)
      case Some(source) => Decrypt(enc, source.encrypted, AadOf(previous.value, source))
  }

  /** `next` is the new secret's reference and data key. */
  function BuildValue(enc: Encryptor, owner: Owner, category: Category, item: ValueInput,
                      previous: Option<EnvironmentRecord>, next: nat): (r: Result<ConfigurationValue, Error>)
    requires Buildable(item)
    ensures r.Ok? ==> r.value.category == category && r.value.name == item.name && (r.value.Secret? <==> item.secret)
    ensures r.Ok? && !item.secret ==> r.value.value == item.value
    ensures r.Ok? && item.secret ==> && r.value.ref == next
                                     && Decrypt(enc, r.value.encrypted,
                                                Aad(owner.project, owner.environment, owner.revision, category,
                                                    item.name))
                                        == SecretText(enc, category, item, previous)
  {
    if !item.secret then Ok(Public(category, item.name, item.value))
    else
      match SecretText(enc, category, item, previous)
      case Err(e) => Err(e)
      case Ok(plaintext) =>
        match Encrypt(enc, plaintext, Aad(owner.project, owner.environment, owner.revision, category, item.name), next)
        case Err(e) => Err(e)
        case Ok(encrypted) => Ok(Secret(category, item.name, next, encrypted))
  }

  function BuildUpTo(enc: Encryptor, owner: Owner, category: Category, inputs: seq<ValueInput>,
                     previous: Option<EnvironmentRecord>, next: nat, n: nat)
    : (r: Result<seq<ConfigurationValue>, Error>)
    requires n <= |inputs| && forall i | 0 <= i < |inputs| :: Buildable(inputs[i])
    ensures r.Ok? <==> forall i: nat | i < n :: BuildValue(enc, owner, category, inputs[i], previous, next + i).Ok?
    ensures r.Ok? ==> && |r.value| == n
                      && forall i: nat | i < n ::
                           Ok(r.value[i]) == BuildValue(enc, owner, category, inputs[i], previous, next + i)
  {
    if n == 0 then Ok([])
    else
      match BuildUpTo(enc, owner, category, inputs, previous, next, n - 1)
      case Err(e) => Err(e)
      case Ok(values) =>
        match BuildValue(enc, owner, category, inputs[n - 1], previous, next + n - 1)
        case Err(e) => Err(e)
        case Ok(value) => Ok(values + [value])
  }

  function BuildCategory(enc: Encryptor, owner: Owner, category: Category, inputs: seq<ValueInput>,
                         previous: Option<EnvironmentRecord>, next: nat): Result<seq<ConfigurationValue>, Error>
  {
    match InputsObjection(category, inputs)
    case Some(e) => Err(e)
    case None => BuildUpTo(enc, owner, category, inputs, previous, next, |inputs|)
  }

  /** Environment variables first, then common parameters. */
  function Build(enc: Encryptor, owner: Owner, variables: seq<ValueInput>, parameters: seq<ValueInput>,
                 previous: Option<EnvironmentRecord>, next: nat): Result<seq<ConfigurationValue>, Error>
  {
    match BuildCategory(enc, owner, EnvironmentVariable, variables, previous, next)
    case Err(e) => Err(e)
    case Ok(first) =>
      match BuildCategory(enc, owner, CommonParameter, parameters, previous, next + |first|)
      case Err(e) => Err(e)
      case Ok(second) => Ok(first + second)
  }

  lemma {:induction false} FirstFailureStands(enc: Encryptor, owner: Owner, category: Category, inputs: seq<ValueInput>,
                                              previous: Option<EnvironmentRecord>, next: nat, m: nat, n: nat)
    requires m <= n <= |inputs| && forall i | 0 <= i < |inputs| :: Buildable(inputs[i])
    requires BuildUpTo(enc, owner, category, inputs, previous, next, m).Err?
    ensures BuildUpTo(enc, owner, category, inputs, previous, next, n)
            == BuildUpTo(enc, owner, category, inputs, previous, next, m)
  {
    if m < n { FirstFailureStands(enc, owner, category, inputs, previous, next, m, n - 1); }
  }

  /** One round of the loop over the inputs. */
  method BuildConfigurationValue(enc: Encryptor, owner: Owner, category: Category, item: ValueInput,
                                 previous: Option<EnvironmentRecord>, next: nat)
    returns (result: Result<ConfigurationValue, Error>)
    requires Buildable(item)
    ensures result == BuildValue(enc, owner, category, item, previous, next)
  {
    if !item.secret {
      return Ok(Public(category, item.name, item.value));
    }
    var plaintext: Result<string, Error>;
    if item.secretRef.Some? {
      if previous.None? {
        return Err(ReferenceDuringCreation);
      }
      var source := FindSecret(previous.value.values, category, item.name, item.secretRef.value);
      if source.None? {
        return Err(ReferenceMismatch);
      }
      plaintext := Decrypt(enc, source.value.encrypted, AadOf(previous.value, source.value));
      if plaintext.Err? {
        return Err(plaintext.error);
      }
    } else {
      plaintext := Ok(item.value.value.s);
    }
    var encrypted := Encrypt(enc, plaintext.value,
                             Aad(owner.project, owner.environment, owner.revision, category, item.name), next);
    if encrypted.Err? {
      return Err(encrypted.error);
    }
    return Ok(Secret(category, item.name, next, encrypted.value));
  }

  method BuildCategoryValues(enc: Encryptor, owner: Owner, category: Category, inputs: seq<ValueInput>,
                             previous: Option<EnvironmentRecord>, next: nat)
    returns (result: Result<seq<ConfigurationValue>, Error>)
    ensures result == BuildCategory(enc, owner, category, inputs, previous, next)
  {
    hide BuildValue, InputsObjection, Buildable;
    var objection := ValidateInputs(category, inputs);
    if objection.Some? {
      return Err(objection.value);
    }
    var built := [];
    for i := 0 to |inputs|
      invariant BuildUpTo(enc, owner, category, inputs, previous, next, i) == Ok(built)
    {
      var value := BuildConfigurationValue(enc, owner, category, inputs[i], previous, next + i);
      if value.Err? {
        FirstFailureStands(enc, owner, category, inputs, previous, next, i + 1, |inputs|);
        return Err(value.error);
      }
      built := built + [value.value];
    }
    return Ok(built);
  }

  /** The loop over the two categories. */
  method BuildConfigurationValues(enc: Encryptor, owner: Owner, variables: seq<ValueInput>, parameters: seq<ValueInput>,
                                  previous: Option<EnvironmentRecord>, next: nat)
    returns (result: Result<seq<ConfigurationValue>, Error>)
    ensures result == Build(enc, owner, variables, parameters, previous, next)
  {
    var first := BuildCategoryValues(enc, owner, EnvironmentVariable, variables, previous, next);
    if first.Err? {
      return first;
    }
    var second := BuildCategoryValues(enc, owner, CommonParameter, parameters, previous, next + |first.value|);
    if second.Err? {
      return second;
    }
    return Ok(first.value + second.value);
  }

  // ------------------------------------------------------------------ what a built revision holds

  predicate SecretsOpen(enc: Encryptor, r: EnvironmentRecord) {
    forall i | 0 <= i < |r.values| && r.values[i].Secret? ::
      Decrypt(enc, r.values[i].encrypted, AadOf(r, r.values[i])).Ok?
  }

  predicate SameSlot(v: ConfigurationValue, w: ConfigurationValue) {
    v.category == w.category && v.name == w.name
  }

  predicate SlotsDistinct(values: seq<ConfigurationValue>) {
    forall i, j | 0 <= i < j < |values| :: !SameSlot(values[i], values[j])
  }

  predicate RefsWithin(values: seq<ConfigurationValue>, low: nat, high: nat) {
    forall i | 0 <= i < |values| && values[i].Secret? :: low <= values[i].ref < high
  }

  /** The record holds, in this slot, a secret that reads `text`. */
  ghost predicate Holds(enc: Encryptor, r: EnvironmentRecord, category: Category, name: Name, text: string) {
    exists v | v in r.values ::
      v.Secret? && v.category == category && v.name == name && Decrypt(enc, v.encrypted, AadOf(r, v)) == Ok(text)
  }

  function InputsOf(category: Category, variables: seq<ValueInput>, parameters: seq<ValueInput>): seq<ValueInput> {
    if category == EnvironmentVariable then variables else parameters
  }

  lemma CategoryIsSound(enc: Encryptor, owner: Owner, category: Category, inputs: seq<ValueInput>,
                        previous: Option<EnvironmentRecord>, next: nat)
    requires BuildCategory(enc, owner, category, inputs, previous, next).Ok?
    ensures var values := BuildCategory(enc, owner, category, inputs, previous, next).value;
            && |values| == |inputs| && SlotsDistinct(values) && RefsWithin(values, next, next + |values|)
            && forall i | 0 <= i < |inputs| ::
                 && values[i].category == category && values[i].name == inputs[i].name
                 && Buildable(inputs[i])
                 && Ok(values[i]) == BuildValue(enc, owner, category, inputs[i], previous, next + i)
  {
    var values := BuildCategory(enc, owner, category, inputs, previous, next).value;
    forall i, j | 0 <= i < j < |values| ensures !SameSlot(values[i], values[j]) {
      assert Objection(category, inputs, j).None?;
      assert values[i].name == inputs[i].name && values[j].name == inputs[j].name;
    }
  }

  /** Every secret of a built revision opens under the revision's own associated data, and no slot is used twice. */
  lemma BuildIsSound(enc: Encryptor, owner: Owner, variables: seq<ValueInput>, parameters: seq<ValueInput>,
                     previous: Option<EnvironmentRecord>, next: nat, r: EnvironmentRecord)
    requires Build(enc, owner, variables, parameters, previous, next) == Ok(r.values)
    requires owner == Owner(r.project, r.id, r.revision)
    ensures SecretsOpen(enc, r) && SlotsDistinct(r.values) && RefsWithin(r.values, next, next + |r.values|)
  {
    var first := BuildCategory(enc, owner, EnvironmentVariable, variables, previous, next).value;
    CategoryIsSound(enc, owner, EnvironmentVariable, variables, previous, next);
    CategoryIsSound(enc, owner, CommonParameter, parameters, previous, next + |first|);
  }

  /** A built revision reads back exactly what its inputs stand for. */
  lemma BuildReadsBack(enc: Encryptor, owner: Owner, variables: seq<ValueInput>, parameters: seq<ValueInput>,
                       previous: Option<EnvironmentRecord>, next: nat, r: EnvironmentRecord, category: Category,
                       item: ValueInput)
    requires Build(enc, owner, variables, parameters, previous, next) == Ok(r.values)
    requires owner == Owner(r.project, r.id, r.revision)
    requires item in InputsOf(category, variables, parameters)
    ensures Buildable(item)
    ensures if item.secret then && SecretText(enc, category, item, previous).Ok?
                                && Holds(enc, r, category, item.name, SecretText(enc, category, item, previous).value)
            else Public(category, item.name, item.value) in r.values
  {
    var inputs := InputsOf(category, variables, parameters);
    var first := BuildCategory(enc, owner, EnvironmentVariable, variables, previous, next).value;
    var base := if category == EnvironmentVariable then next else next + |first|;
    CategoryIsSound(enc, owner, category, inputs, previous, base);
    var i :| 0 <= i < |inputs| && inputs[i] == item;
    var v := BuildCategory(enc, owner, category, inputs, previous, base).value[i];
    assert v in r.values;
  }

  /** Building fails exactly when an input is invalid, names no secret of the previous revision, or a key is missing. */
  lemma BuildSucceedsExactly(enc: Encryptor, owner: Owner, variables: seq<ValueInput>, parameters: seq<ValueInput>,
                             previous: Option<EnvironmentRecord>, next: nat)
    requires previous.Some? ==> SecretsOpen(enc, previous.value)
    ensures Build(enc, owner, variables, parameters, previous, next).Ok?
       <==> (forall category :: && ValidInputs(category, InputsOf(category, variables, parameters))
                                && ReferencesMatch(enc, category, InputsOf(category, variables, parameters), previous))
  {
    CategorySucceedsExactly(enc, owner, EnvironmentVariable, variables, previous, next);
    var first := BuildCategory(enc, owner, EnvironmentVariable, variables, previous, next);
    if first.Ok? {
      CategorySucceedsExactly(enc, owner, CommonParameter, parameters, previous, next + |first.value|);
    }
    assert InputsOf(EnvironmentVariable, variables, parameters) == variables;
    assert InputsOf(CommonParameter, variables, parameters) == parameters;
  }

  /** Every secret input has a key to be sealed with and, if it is a reference, a secret to refer to. */
  ghost predicate ReferencesMatch(enc: Encryptor, category: Category, inputs: seq<ValueInput>,
                                  previous: Option<EnvironmentRecord>)
  {
    forall item | item in inputs && item.secret ::
      && enc.kek.Some?
      && (item.secretRef.Some? ==> && previous.Some?
                                   && exists v | v in previous.value.values ::
                                        Matches(v, category, item.name, item.secretRef.value))
  }

  lemma CategorySucceedsExactly(enc: Encryptor, owner: Owner, category: Category, inputs: seq<ValueInput>,
                                previous: Option<EnvironmentRecord>, next: nat)
    requires previous.Some? ==> SecretsOpen(enc, previous.value)
    ensures BuildCategory(enc, owner, category, inputs, previous, next).Ok?
       <==> ValidInputs(category, inputs) && ReferencesMatch(enc, category, inputs, previous)
  {
    if ValidInputs(category, inputs) {
      forall i: nat | i < |inputs| ensures && Buildable(inputs[i])
                                           && (BuildValue(enc, owner, category, inputs[i], previous, next + i).Ok?
                                               <==> ReferencesMatch(enc, category, [inputs[i]], previous)) {
        assert Objection(category, inputs, i).None?;
        ValueSucceedsExactly(enc, owner, category, inputs[i], previous, next + i);
      }
      if ReferencesMatch(enc, category, inputs, previous) {
        forall i: nat | i < |inputs| ensures ReferencesMatch(enc, category, [inputs[i]], previous) {
          assert inputs[i] in inputs;
        }
      } else {
        var item :| item in inputs && !ReferencesMatch(enc, category, [item], previous);
      }
    }
  }

  lemma ValueSucceedsExactly(enc: Encryptor, owner: Owner, category: Category, item: ValueInput,
                             previous: Option<EnvironmentRecord>, next: nat)
    requires Buildable(item)
    requires previous.Some? ==> SecretsOpen(enc, previous.value)
    ensures BuildValue(enc, owner, category, item, previous, next).Ok?
       <==> ReferencesMatch(enc, category, [item], previous)
  {
    if item.secret && item.secretRef.Some? && previous.Some? {
      var found := FindSecret(previous.value.values, category, item.name, item.secretRef.value);
      if found.Some? {
        assert Decrypt(enc, found.value.encrypted, AadOf(previous.value, found.value)).Ok?;
      }
    }
    assert item in [item];
  }
}
