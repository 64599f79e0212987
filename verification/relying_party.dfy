/** `validateRelyingParty`: client credentials are mandatory; a
    `redirectUri` switches on the OpenID Connect checks and the id-token
    lifetime default. */
module RelyingParty {
  import opened Results
  import opened Text
  import opened Json
  import opened ConfigErrors

  /** Lifetime given to id tokens when an OIDC relying party sets none. */
  const DefaultIdTokenExpirySeconds: int := 3600

  /** `/^https?:\/\//` matches: `http`, an optional `s`, then `://`. */
  predicate IsHttpUri(uri: string): (matches: bool)
    ensures matches ==> StartsWith(uri, "http")
    ensures matches <==>
      && |uri| >= 7 && uri[..4] == "http"
      && (uri[4..7] == "://" || (|uri| >= 8 && uri[4] == 's' && uri[5..8] == "://"))
  {
    StartsWith(uri, "http://") || StartsWith(uri, "https://")
  }

  /** Some scope is named `openid` (`includes` compares by SameValueZero). */
  predicate HasOpenIdScope(scopes: seq<Value>) {
    exists i | 0 <= i < |scopes| :: Get(scopes[i], "name") == Str("openid")
  }

  /** Some scope is `null` or `undefined`, so `s => s.name` throws on it. */
  predicate HasNullishScope(scopes: seq<Value>) {
    exists i | 0 <= i < |scopes| :: Nullish(scopes[i])
  }

  /** The OIDC settings an enabled redirect requires. */
  predicate OidcSettingsValid(rp: Value) {
    var redirectUri := Get(rp, "redirectUri");
    var scopes := Get(rp, "scopes");
    && redirectUri.Str? && IsHttpUri(redirectUri.s)
    && scopes.Arr? && !HasNullishScope(scopes.elems) && HasOpenIdScope(scopes.elems)
  }

  /** A relying party the validator accepts. */
  predicate AcceptableParty(rp: Value) {
    && !Nullish(rp)
    && Truthy(Get(rp, "clientId"))
    && Truthy(Get(rp, "clientSecret"))
    && (Truthy(Get(rp, "redirectUri")) ==> OidcSettingsValid(rp))
  }

  /** The client credentials are present, so the OIDC checks are reached. */
  predicate CredentialsGiven(rp: Value) {
    !Nullish(rp) && Truthy(Get(rp, "clientId")) && Truthy(Get(rp, "clientSecret"))
  }

  /** The id-token lifetime gets its default exactly when OIDC is enabled
      and no truthy lifetime is configured. */
  predicate ExpiryDefaulted(rp: Value) {
    Truthy(Get(rp, "redirectUri")) && !Truthy(Get(rp, "idTokenExpirySeconds"))
  }

  function ValidateRelyingParty(rp: Value): (r: Result<Value, ConfigError>)
    // the client credentials are checked first, clientId before clientSecret
    ensures Nullish(rp) ==> r == Err(TypeError)
    ensures !Nullish(rp) && !Truthy(Get(rp, "clientId")) ==> r == Err(ClientIdRequired)
    ensures !Nullish(rp) && Truthy(Get(rp, "clientId")) && !Truthy(Get(rp, "clientSecret")) ==>
      r == Err(ClientSecretRequired(Get(rp, "clientId")))
    // with a redirect: its form, then the scopes array, then each scope
    // read by `s.name`, then the `openid` scope
    ensures CredentialsGiven(rp) && Truthy(Get(rp, "redirectUri")) && !Get(rp, "redirectUri").Str? ==>
      r == Err(TypeError)
    ensures CredentialsGiven(rp) && Get(rp, "redirectUri").Str? && Truthy(Get(rp, "redirectUri"))
            && !IsHttpUri(Get(rp, "redirectUri").s) ==>
      r == Err(RedirectUriNotHttp(Get(rp, "clientId")))
    ensures CredentialsGiven(rp) && Get(rp, "redirectUri").Str? && IsHttpUri(Get(rp, "redirectUri").s)
            && !Get(rp, "scopes").Arr? ==>
      r == Err(ScopesNotArray(Get(rp, "clientId")))
    ensures CredentialsGiven(rp) && Get(rp, "redirectUri").Str? && IsHttpUri(Get(rp, "redirectUri").s)
            && Get(rp, "scopes").Arr? && HasNullishScope(Get(rp, "scopes").elems) ==>
      r == Err(TypeError)
    ensures CredentialsGiven(rp) && Get(rp, "redirectUri").Str? && IsHttpUri(Get(rp, "redirectUri").s)
            && Get(rp, "scopes").Arr? && !HasNullishScope(Get(rp, "scopes").elems)
            && !HasOpenIdScope(Get(rp, "scopes").elems) ==>
      r == Err(OpenIdScopeRequired(Get(rp, "clientId")))
    // without a redirect nothing else is checked or changed
    ensures AcceptableParty(rp) && !Truthy(Get(rp, "redirectUri")) ==> r == Ok(rp)
    ensures r.Ok? <==> AcceptableParty(rp)
    // the only change is the id-token lifetime default
    ensures r.Ok? ==> r.value.Obj? && rp.Obj?
    ensures r.Ok? ==> forall k | k != "idTokenExpirySeconds" :: Get(r.value, k) == Get(rp, k)
    ensures r.Ok? ==> r.value.props.Keys <= rp.props.Keys + {"idTokenExpirySeconds"}
    ensures r.Ok? && ExpiryDefaulted(rp) ==>
      && r.value.props.Keys == rp.props.Keys + {"idTokenExpirySeconds"}
      && Get(r.value, "idTokenExpirySeconds") == Num(DefaultIdTokenExpirySeconds)
    ensures r.Ok? && !ExpiryDefaulted(rp) ==> r.value == rp
  {
    if Nullish(rp) then Err(TypeError)
    else
      var clientId := Get(rp, "clientId");
      if !Truthy(clientId) then Err(ClientIdRequired)
      else if !Truthy(Get(rp, "clientSecret")) then Err(ClientSecretRequired(clientId))
      else
        var redirectUri := Get(rp, "redirectUri");
        if !Truthy(redirectUri) then Ok(rp)
        else if !redirectUri.Str? then Err(TypeError)
        else if !IsHttpUri(redirectUri.s) then Err(RedirectUriNotHttp(clientId))
        else
          var scopes := Get(rp, "scopes");
          if !Truthy(scopes) || !scopes.Arr? then Err(ScopesNotArray(clientId))
          else if HasNullishScope(scopes.elems) then Err(TypeError)
          else if !HasOpenIdScope(scopes.elems) then Err(OpenIdScopeRequired(clientId))
          else if Truthy(Get(rp, "idTokenExpirySeconds")) then Ok(rp)
          else Ok(With(rp, "idTokenExpirySeconds", Num(DefaultIdTokenExpirySeconds)))
  }

  /** A party that reads like a validated one, apart perhaps from its
      brand, validates to itself. */
  lemma ValidatedPartyStaysValid(rp: Value, q: Value)
    requires ValidateRelyingParty(rp).Ok?
    requires q.Obj? && forall k | k != "brand" :: Get(q, k) == Get(ValidateRelyingParty(rp).value, k)
    ensures ValidateRelyingParty(q) == Ok(q)
  {
    var app := ValidateRelyingParty(rp).value;
    assert Get(q, "redirectUri") == Get(rp, "redirectUri");
    assert Get(q, "scopes") == Get(rp, "scopes");
    assert Get(q, "idTokenExpirySeconds") == Get(app, "idTokenExpirySeconds");
    assert AcceptableParty(q);
    assert !ExpiryDefaulted(q);
  }

  /** A validated relying party validates again to itself. */
  lemma ValidateRelyingPartyIdempotent(rp: Value)
    requires ValidateRelyingParty(rp).Ok?
    ensures ValidateRelyingParty(ValidateRelyingParty(rp).value) == ValidateRelyingParty(rp)
  {
    var rp' := ValidateRelyingParty(rp).value;
    assert Get(rp', "redirectUri") == Get(rp, "redirectUri");
    assert Get(rp', "scopes") == Get(rp, "scopes");
    assert AcceptableParty(rp');
    assert !ExpiryDefaulted(rp');
  }
}
