/** `validateSigningKeys` and the `signingKeys ?? []` default that runs just
    before it: every key needs a type and at least one purpose, and an ES256
    key needs both PEM halves. */
module SigningKeys {
  import opened Results
  import opened Json
  import opened ConfigErrors

  /** `sk.type == 'ES256'` with JavaScript's loose equality. 'ES256' does
      not read as a number, so numbers and booleans never equal it, `null`
      and `undefined` equal only each other, and arrays and objects are
      compared through their string conversion. */
  predicate LooselyEqualsEs256(v: Value): (equal: bool)
    ensures equal <==> !Nullish(v) && !v.Bool? && !v.Num? && ToStr(v) == "ES256"
    ensures v.Str? ==> (equal <==> v.s == "ES256")
    ensures Nullish(v) || v.Bool? || v.Num? ==> !equal
  {
    match v
    case Str(s) => s == "ES256"
    case Arr(_) => ToStr(v) == "ES256"
    case Obj(_) => ToStr(v) == "ES256"
    case _ => false
  }

  /** A signing key the validator accepts. */
  predicate ValidSigningKey(sk: Value) {
    var purpose := Get(sk, "purpose");
    && !Nullish(sk)
    && Truthy(Get(sk, "type"))
    && purpose.Arr? && |purpose.elems| > 0
    && (LooselyEqualsEs256(Get(sk, "type")) ==>
          Truthy(Get(sk, "privateKeyPem")) && Truthy(Get(sk, "publicKeyPem")))
  }

  /** The checks on one key, in source order. */
  function CheckSigningKey(sk: Value): (e: Option<ConfigError>)
    ensures e.None? <==> ValidSigningKey(sk)
    ensures Nullish(sk) ==> e == Some(TypeError)
    ensures !Nullish(sk) && !Truthy(Get(sk, "type")) ==> e == Some(SigningKeyTypeRequired)
    ensures !Nullish(sk) && Truthy(Get(sk, "type"))
            && !(Get(sk, "purpose").Arr? && |Get(sk, "purpose").elems| > 0) ==>
      e == Some(SigningKeyPurposeRequired)
    ensures !Nullish(sk) && Truthy(Get(sk, "type"))
            && Get(sk, "purpose").Arr? && |Get(sk, "purpose").elems| > 0 && !ValidSigningKey(sk) ==>
      e == Some(Es256PemRequired)
  {
    var purpose := Get(sk, "purpose");
    if Nullish(sk) then Some(TypeError)
    else if !Truthy(Get(sk, "type")) then Some(SigningKeyTypeRequired)
    else if !purpose.Arr? || |purpose.elems| == 0 then Some(SigningKeyPurposeRequired)
    else if LooselyEqualsEs256(Get(sk, "type"))
         && (!Truthy(Get(sk, "privateKeyPem")) || !Truthy(Get(sk, "publicKeyPem"))) then
      Some(Es256PemRequired)
    else None
  }

  /** `signingKeys ?? []`, then the checks. A falsy value that is not
      nullish (`false`, `0`, `""`) skips the checks and is kept; a truthy
      value that is not an array has no `forEach`. */
  function NormaliseSigningKeys(signingKeys: Value): (r: Result<Value, ConfigError>)
    ensures Nullish(signingKeys) ==> r == Ok(Arr([]))
    ensures r.Ok? && !Nullish(signingKeys) ==> r.value == signingKeys
    ensures !Truthy(signingKeys) && !Nullish(signingKeys) ==> r == Ok(signingKeys)
    ensures Truthy(signingKeys) && !signingKeys.Arr? ==> r == Err(TypeError)
    ensures signingKeys.Arr? ==>
      (r.Ok? <==> forall i | 0 <= i < |signingKeys.elems| :: ValidSigningKey(signingKeys.elems[i]))
    ensures signingKeys.Arr? && r.Err? ==>
      exists i | 0 <= i < |signingKeys.elems| ::
        && Some(r.error) == CheckSigningKey(signingKeys.elems[i])
        && forall j | 0 <= j < i :: ValidSigningKey(signingKeys.elems[j])
  {
    var keys := Coalesce(signingKeys, Arr([]));
    if !Truthy(keys) then Ok(keys)
    else if !keys.Arr? then Err(TypeError)
    else
      match FirstError(keys.elems, CheckSigningKey)
      case Some(e) => Err(e)
      case None => Ok(keys)
  }

  /** Normalised keys normalise to themselves. */
  lemma NormaliseSigningKeysIdempotent(signingKeys: Value)
    requires NormaliseSigningKeys(signingKeys).Ok?
    ensures NormaliseSigningKeys(NormaliseSigningKeys(signingKeys).value) == NormaliseSigningKeys(signingKeys)
  {
  }

  /** An ES256 key missing its private PEM is refused even when every other
      field is in order. */
  lemma Es256WithoutPrivatePemRefused(publicPem: string)
    requires |publicPem| > 0
    ensures
      var sk := Obj(map["type" := Str("ES256"), "purpose" := Arr([Str("id_token")]),
                        "publicKeyPem" := Str(publicPem)]);
      NormaliseSigningKeys(Arr([sk])) == Err(Es256PemRequired)
  {
    var sk := Obj(map["type" := Str("ES256"), "purpose" := Arr([Str("id_token")]),
                      "publicKeyPem" := Str(publicPem)]);
    assert CheckSigningKey(sk) == Some(Es256PemRequired);
    assert [sk][1..] == [];
  }
}
