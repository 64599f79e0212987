/** The start-up configuration handler as a whole: the checks and defaults
    of the other modules applied to the configuration object in source
    order, so the first failing check decides the error. */
module OpenCredConfig {
  import opened Results
  import opened Json
  import opened ConfigErrors
  import opened ExchangeProtocols
  import opened RelyingParty
  import opened Workflow
  import opened SigningKeys
  import opened AuditFields
  import opened Brand

  /** A party both validators accept. */
  predicate PartyAccepted(rp: Value) {
    AcceptableParty(rp) && WorkflowAccepted(rp)
  }

  /** The relying-party check, then the workflow check, of one party. The
      workflow check sees the party after its id-token default, which
      leaves the workflow and client id as configured. */
  function PartyError(rp: Value): (e: Option<ConfigError>)
    ensures e.None? <==> PartyAccepted(rp)
    // the relying-party checks come first
    ensures !AcceptableParty(rp) ==> e == Some(ValidateRelyingParty(rp).error)
    // then the workflow, judged as configured
    ensures AcceptableParty(rp) && !WorkflowAccepted(rp) ==> e == Some(ValidateWorkflow(rp).error)
  {
    match ValidateRelyingParty(rp)
    case Err(e) => Some(e)
    case Ok(app) =>
      ValidateWorkflowReadsWorkflowAndClientId(app, rp);
      match ValidateWorkflow(app)
      case Err(e) => Some(e)
      case Ok(_) => None
  }

  /** An accepted party after its id-token default and brand merge. */
  function NormalisedParty(rp: Value, defaultBrand: Value): Value
    requires PartyAccepted(rp)
  {
    MergeBrand(defaultBrand, ValidateRelyingParty(rp).value)
  }

  /** One step of `configRPs.map(...)`: the party is validated, its
      workflow is validated, and its brand is merged. */
  function NormaliseParty(rp: Value, defaultBrand: Value): (r: Result<Value, ConfigError>)
    ensures r.Ok? <==> AcceptableParty(rp) && WorkflowAccepted(rp)
    ensures r.Err? ==> PartyError(rp) == Some(r.error)
    ensures r.Ok? ==> r.value == NormalisedParty(rp, defaultBrand)
    // the party gains a brand and, when defaulted, an id-token lifetime
    ensures r.Ok? ==>
      && rp.Obj? && r.value.Obj?
      && r.value.props.Keys == rp.props.Keys + {"brand"} +
           (if ExpiryDefaulted(rp) then {"idTokenExpirySeconds"} else {})
      && (forall k | k != "brand" && k != "idTokenExpirySeconds" :: Get(r.value, k) == Get(rp, k))
      && Get(r.value, "idTokenExpirySeconds") ==
           (if ExpiryDefaulted(rp) then Num(DefaultIdTokenExpirySeconds) else Get(rp, "idTokenExpirySeconds"))
      // its own brand entries over the default brand's
      && Get(r.value, "brand") == Obj(OwnEntries(defaultBrand) + Overrides(rp))
  {
    var app :- ValidateRelyingParty(rp);
    ValidateWorkflowReadsWorkflowAndClientId(app, rp);
    var kind :- ValidateWorkflow(app);
    assert Overrides(app) == Overrides(rp);
    Ok(MergeBrand(defaultBrand, app))
  }

  /** `configRPs.map(...)`: every party normalised in order; the first
      failure aborts. */
  function NormaliseRelyingParties(rps: seq<Value>, defaultBrand: Value): (r: Result<seq<Value>, ConfigError>)
    ensures r.Ok? <==> forall i | 0 <= i < |rps| :: PartyAccepted(rps[i])
    ensures r.Ok? ==>
      && |r.value| == |rps|
      && forall i | 0 <= i < |rps| :: PartyAccepted(rps[i]) && r.value[i] == NormalisedParty(rps[i], defaultBrand)
    ensures r.Err? ==>
      exists i | 0 <= i < |rps| ::
        && PartyError(rps[i]) == Some(r.error)
        && forall j | 0 <= j < i :: PartyAccepted(rps[j])
  {
    MapAll(rps, rp => NormaliseParty(rp, defaultBrand))
  }

  /** `ValidateWorkflow` reads only the party's workflow and client id. */
  lemma ValidateWorkflowReadsWorkflowAndClientId(a: Value, b: Value)
    requires !Nullish(a) && !Nullish(b)
    requires Get(a, "workflow") == Get(b, "workflow") && Get(a, "clientId") == Get(b, "clientId")
    ensures ValidateWorkflow(a) == ValidateWorkflow(b)
  {
  }

  /** A normalised party normalises to itself. */
  lemma NormalisedPartyIsFixed(rp: Value, defaultBrand: Value)
    requires PartyAccepted(rp)
    ensures PartyAccepted(NormalisedParty(rp, defaultBrand))
    ensures NormalisedParty(NormalisedParty(rp, defaultBrand), defaultBrand) == NormalisedParty(rp, defaultBrand)
  {
    var app := ValidateRelyingParty(rp).value;
    var out := MergeBrand(defaultBrand, app);
    ValidatedPartyStaysValid(rp, out);
    assert Get(out, "workflow") == Get(rp, "workflow");
    MergeBrandIdempotent(defaultBrand, app);
  }

  /** The relying parties the handler produces pass it again unchanged. */
  lemma NormaliseRelyingPartiesIdempotent(rps: seq<Value>, defaultBrand: Value)
    requires NormaliseRelyingParties(rps, defaultBrand).Ok?
    ensures var out := NormaliseRelyingParties(rps, defaultBrand).value;
      NormaliseRelyingParties(out, defaultBrand) == Ok(out)
  {
    var out := NormaliseRelyingParties(rps, defaultBrand).value;
    forall i | 0 <= i < |out|
      ensures PartyAccepted(out[i]) && NormalisedParty(out[i], defaultBrand) == out[i]
    {
      NormalisedPartyIsFixed(rps[i], defaultBrand);
    }
    var again := NormaliseRelyingParties(out, defaultBrand);
    assert again.Ok?;
    assert again.value == out;
  }

  /** Every component of the configuration passes its check. */
  predicate ComponentsAccepted(opencred: Value) {
    var rps := Get(opencred, "relyingParties");
    && NormaliseOptions(Get(opencred, "options")).Ok?
    && rps.Arr?
    && NormaliseSigningKeys(Get(opencred, "signingKeys")).Ok?
    && NormaliseRelyingParties(rps.elems, DefaultBrand(Get(opencred, "defaultBrand"))).Ok?
    && NormaliseAuditFields(Get(opencred, "auditFields")).Ok?
  }

  /** The checks before the relying parties pass: the protocols, the
      relying-party array and the signing keys. */
  predicate EarlyChecksPass(opencred: Value) {
    && NormaliseOptions(Get(opencred, "options")).Ok?
    && Get(opencred, "relyingParties").Arr?
    && NormaliseSigningKeys(Get(opencred, "signingKeys")).Ok?
  }

  /** The keys the handler rewrites. */
  const RewrittenKeys: set<string> :=
    {"options", "defaultLanguage", "signingKeys", "relyingParties", "enableAudit", "auditFields"}

  /** Keys the handler also rewrites, with code this model does not cover:
      the translations, the did:web documents and the CA store. */
  const UnmodelledKeys: set<string> := {"translations", "didWeb", "caStore"}

  /** What a successful start-up leaves behind: every rewritten key holds
      the normalised component, and every key outside those and the
      unmodelled ones is kept. */
  ghost predicate StartedFrom(opencred: Value, out: Value)
    requires opencred.Obj? && ComponentsAccepted(opencred)
  {
    && out.Obj?
    && opencred.props.Keys + RewrittenKeys <= out.props.Keys
    && Get(out, "options") == NormaliseOptions(Get(opencred, "options")).value
    && Get(out, "defaultLanguage") == Or(Get(opencred, "defaultLanguage"), Str("en"))
    && Get(out, "signingKeys") == NormaliseSigningKeys(Get(opencred, "signingKeys")).value
    && Get(out, "relyingParties") ==
         Arr(NormaliseRelyingParties(Get(opencred, "relyingParties").elems,
                                     DefaultBrand(Get(opencred, "defaultBrand"))).value)
    && Get(out, "enableAudit") == Bool(Get(opencred, "enableAudit") == Bool(true))
    && Get(out, "auditFields") == NormaliseAuditFields(Get(opencred, "auditFields")).value
    && forall k | k !in RewrittenKeys && k !in UnmodelledKeys :: Get(out, k) == Get(opencred, k)
  }

  /** The configuration object with the rewritten keys assigned. */
  function Rewrite(opencred: Value, options: Value, language: Value, signingKeys: Value,
                   relyingParties: Value, enableAudit: Value, auditFields: Value): (out: Value)
    requires opencred.Obj?
    ensures out.Obj? && out.props.Keys == opencred.props.Keys + RewrittenKeys
    ensures && Get(out, "options") == options
            && Get(out, "defaultLanguage") == language
            && Get(out, "signingKeys") == signingKeys
            && Get(out, "relyingParties") == relyingParties
            && Get(out, "enableAudit") == enableAudit
            && Get(out, "auditFields") == auditFields
    ensures forall k | k !in RewrittenKeys :: Get(out, k) == Get(opencred, k)
  {
    Obj(opencred.props
          ["options" := options]
          ["defaultLanguage" := language]
          ["signingKeys" := signingKeys]
          ["relyingParties" := relyingParties]
          ["enableAudit" := enableAudit]
          ["auditFields" := auditFields])
  }

  /** The `bedrock.init` handler on the configuration object: the protocol
      whitelist, the relying-party array check, the language default, the
      signing keys, every relying party with its workflow and brand, the
      audit flag and the audit fields, in that order. */
  function Init(opencred: Value): (r: Result<Value, ConfigError>)
    requires opencred.Obj?
    ensures r.Ok? <==> ComponentsAccepted(opencred)
    // earlier checks take precedence
    ensures NormaliseOptions(Get(opencred, "options")).Err? ==> r == NormaliseOptions(Get(opencred, "options"))
    ensures NormaliseOptions(Get(opencred, "options")).Ok? && !Get(opencred, "relyingParties").Arr? ==>
      r == Err(RelyingPartiesNotArray)
    ensures NormaliseOptions(Get(opencred, "options")).Ok? && Get(opencred, "relyingParties").Arr?
            && NormaliseSigningKeys(Get(opencred, "signingKeys")).Err? ==>
      r == NormaliseSigningKeys(Get(opencred, "signingKeys"))
    ensures EarlyChecksPass(opencred)
            && NormaliseRelyingParties(Get(opencred, "relyingParties").elems,
                                       DefaultBrand(Get(opencred, "defaultBrand"))).Err? ==>
      r.Err? && r.error == NormaliseRelyingParties(Get(opencred, "relyingParties").elems,
                                                  DefaultBrand(Get(opencred, "defaultBrand"))).error
    ensures EarlyChecksPass(opencred)
            && NormaliseRelyingParties(Get(opencred, "relyingParties").elems,
                                       DefaultBrand(Get(opencred, "defaultBrand"))).Ok?
            && NormaliseAuditFields(Get(opencred, "auditFields")).Err? ==>
      r == Err(NormaliseAuditFields(Get(opencred, "auditFields")).error)
    ensures r.Ok? ==> StartedFrom(opencred, r.value)
  {
    var options :- NormaliseOptions(Get(opencred, "options"));
    var rps := Get(opencred, "relyingParties");
    if !rps.Arr? then Err(RelyingPartiesNotArray)
    else
      var language := Or(Get(opencred, "defaultLanguage"), Str("en"));
      var defaultBrand := DefaultBrand(Get(opencred, "defaultBrand"));
      var signingKeys :- NormaliseSigningKeys(Get(opencred, "signingKeys"));
      var parties :- NormaliseRelyingParties(rps.elems, defaultBrand);
      var enableAudit := Bool(Get(opencred, "enableAudit") == Bool(true));
      var auditFields :- NormaliseAuditFields(Get(opencred, "auditFields"));
      Ok(Rewrite(opencred, options, language, signingKeys, Arr(parties), enableAudit, auditFields))
  }

  /** A configuration holding only an empty relying-party list starts with
      both protocols, English, no signing keys, auditing off and no audit
      fields. */
  lemma EmptyConfigurationDefaults()
    ensures var r := Init(Obj(map["relyingParties" := Arr([])]));
      && r.Ok?
      && Get(r.value, "options") == DefaultOptions()
      && Get(r.value, "defaultLanguage") == Str("en")
      && Get(r.value, "signingKeys") == Arr([])
      && Get(r.value, "relyingParties") == Arr([])
      && Get(r.value, "enableAudit") == Bool(false)
      && Get(r.value, "auditFields") == Arr([])
  {
    var cfg := Obj(map["relyingParties" := Arr([])]);
    assert Get(cfg, "options") == Undefined && Get(cfg, "signingKeys") == Undefined;
    assert Get(cfg, "auditFields") == Undefined && Get(cfg, "relyingParties") == Arr([]);
    assert NormaliseRelyingParties([], DefaultBrand(Get(cfg, "defaultBrand"))) == Ok([]);
    assert ComponentsAccepted(cfg);
    assert StartedFrom(cfg, Init(cfg).value);
  }
}
