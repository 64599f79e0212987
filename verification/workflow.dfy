/** `validateWorkflow`: every relying party needs a workflow whose `type`
    tag selects one of three shapes, each with its own required fields. */
module Workflow {
  import opened Results
  import opened Text
  import opened Json
  import opened ConfigErrors

  /** The workflow variants, each named by a configuration tag. */
  datatype WorkflowType = VcApi | Native | MicrosoftEntraVerifiedId

  function TypeTag(t: WorkflowType): string {
    match t
    case VcApi => "vc-api"
    case Native => "native"
    case MicrosoftEntraVerifiedId => "microsoft-entra-verified-id"
  }

  /** The variant a `type` value selects; strict equality, so only the exact
      tag strings select one. */
  function TypeOfTag(tag: Value): (r: Option<WorkflowType>)
    ensures r.Some? ==> tag == Str(TypeTag(r.value))
    ensures r.None? ==> forall t: WorkflowType :: tag != Str(TypeTag(t))
  {
    if tag == Str("vc-api") then Some(VcApi)
    else if tag == Str("native") then Some(Native)
    else if tag == Str("microsoft-entra-verified-id") then Some(MicrosoftEntraVerifiedId)
    else None
  }

  /** Each variant's tag selects that variant again. */
  lemma TypeTagRoundTrip(t: WorkflowType)
    ensures TypeOfTag(Str(TypeTag(t))) == Some(t)
  {
  }

  /** The Entra fields, in the order they are checked. */
  const EntraFields: seq<string> := [
    "apiBaseUrl", "apiLoginBaseUrl", "apiClientId", "apiClientSecret",
    "apiTenantId", "verifierDid", "verifierName", "acceptedCredentialType"
  ]

  /** A VC-API workflow: an http(s) base URL, a capability string and a
      non-empty client secret string. */
  predicate VcApiWellFormed(wf: Value) {
    var baseUrl := Get(wf, "baseUrl");
    var secret := Get(wf, "clientSecret");
    && baseUrl.Str? && StartsWith(baseUrl.s, "http")
    && Get(wf, "capability").Str?
    && secret.Str? && |secret.s| >= 1
  }

  /** A native workflow: a step map with at least one key, and an initial
      step. */
  predicate NativeWellFormed(wf: Value) {
    var steps := Get(wf, "steps");
    Truthy(steps) && |OwnEntries(steps)| > 0 && Truthy(Get(wf, "initialStep"))
  }

  /** An Entra workflow: every listed field truthy. */
  predicate EntraWellFormed(wf: Value) {
    forall i | 0 <= i < |EntraFields| :: Truthy(Get(wf, EntraFields[i]))
  }

  predicate WellFormedAs(t: WorkflowType, wf: Value) {
    match t
    case VcApi => VcApiWellFormed(wf)
    case Native => NativeWellFormed(wf)
    case MicrosoftEntraVerifiedId => EntraWellFormed(wf)
  }

  /** The VC-API checks. `baseUrl?.startsWith` yields `undefined` for a
      nullish URL and throws for one that is not a string. */
  function VcApiError(wf: Value, clientId: Value): (e: Option<ConfigError>)
    ensures e.None? <==> VcApiWellFormed(wf)
    ensures Nullish(Get(wf, "baseUrl")) ==> e == Some(BaseUrlRequired(clientId))
    ensures !Nullish(Get(wf, "baseUrl")) && !Get(wf, "baseUrl").Str? ==> e == Some(TypeError)
    ensures Get(wf, "baseUrl").Str? && !StartsWith(Get(wf, "baseUrl").s, "http") ==>
      e == Some(BaseUrlRequired(clientId))
    ensures (Get(wf, "baseUrl").Str? && StartsWith(Get(wf, "baseUrl").s, "http")
             && !Get(wf, "capability").Str?) ==> e == Some(CapabilityRequired(clientId))
    ensures (Get(wf, "baseUrl").Str? && StartsWith(Get(wf, "baseUrl").s, "http")
             && Get(wf, "capability").Str? && !VcApiWellFormed(wf)) ==>
      e == Some(WorkflowClientSecretRequired(clientId))
  {
    var baseUrl := Get(wf, "baseUrl");
    var secret := Get(wf, "clientSecret");
    if Nullish(baseUrl) then Some(BaseUrlRequired(clientId))
    else if !baseUrl.Str? then Some(TypeError)
    else if !StartsWith(baseUrl.s, "http") then Some(BaseUrlRequired(clientId))
    else if !Get(wf, "capability").Str? then Some(CapabilityRequired(clientId))
    else if !Truthy(secret) || !secret.Str? || |secret.s| < 1 then Some(WorkflowClientSecretRequired(clientId))
    else None
  }

  /** The native checks: steps before the initial step. */
  function NativeError(wf: Value, clientId: Value): (e: Option<ConfigError>)
    ensures e.None? <==> NativeWellFormed(wf)
    ensures !Truthy(Get(wf, "steps")) || |OwnEntries(Get(wf, "steps"))| == 0 ==>
      e == Some(StepsRequired(clientId))
    ensures Truthy(Get(wf, "steps")) && |OwnEntries(Get(wf, "steps"))| > 0 && !NativeWellFormed(wf) ==>
      e == Some(InitialStepRequired(clientId))
  {
    var steps := Get(wf, "steps");
    if !Truthy(steps) || |OwnEntries(steps)| == 0 then Some(StepsRequired(clientId))
    else if !Truthy(Get(wf, "initialStep")) then Some(InitialStepRequired(clientId))
    else None
  }

  /** The Entra checks: the first falsy field in `EntraFields` order is
      reported. */
  function EntraError(wf: Value): (e: Option<ConfigError>)
    ensures e.None? <==> EntraWellFormed(wf)
    ensures e.Some? ==>
      exists i | 0 <= i < |EntraFields| ::
        && e == Some(EntraFieldRequired(EntraFields[i]))
        && !Truthy(Get(wf, EntraFields[i]))
        && forall j | 0 <= j < i :: Truthy(Get(wf, EntraFields[j]))
  {
    FirstError(EntraFields, (f: string) => if Truthy(Get(wf, f)) then None else Some(EntraFieldRequired(f)))
  }

  /** The checks of the variant `t`. */
  function VariantError(t: WorkflowType, wf: Value, clientId: Value): (e: Option<ConfigError>)
    ensures e.None? <==> WellFormedAs(t, wf)
  {
    match t
    case VcApi => VcApiError(wf, clientId)
    case Native => NativeError(wf, clientId)
    case MicrosoftEntraVerifiedId => EntraError(wf)
  }

  /** The variant a configured workflow's tag selects. */
  function SelectedType(rp: Value): Option<WorkflowType> {
    TypeOfTag(Get(Get(rp, "workflow"), "type"))
  }

  /** The tag names a variant and the workflow is well formed for it. */
  predicate WorkflowAccepted(rp: Value) {
    var wf := Get(rp, "workflow");
    Truthy(wf) && SelectedType(rp).Some? && WellFormedAs(SelectedType(rp).value, wf)
  }

  function ValidateWorkflow(rp: Value): (r: Result<WorkflowType, ConfigError>)
    ensures Nullish(rp) ==> r == Err(TypeError)
    ensures !Nullish(rp) && !Truthy(Get(rp, "workflow")) ==> r == Err(WorkflowRequired)
    ensures Truthy(Get(rp, "workflow")) && SelectedType(rp).None? ==> r == Err(UnknownWorkflowType)
    // accepted exactly when the tag names a variant whose fields are well formed
    ensures r.Ok? <==> WorkflowAccepted(rp)
    ensures r.Ok? ==> Get(Get(rp, "workflow"), "type") == Str(TypeTag(r.value))
    // a known variant whose fields fail reports that variant's first error
    ensures Truthy(Get(rp, "workflow")) && SelectedType(rp).Some?
            && !WellFormedAs(SelectedType(rp).value, Get(rp, "workflow")) ==>
      Some(r.error) == VariantError(SelectedType(rp).value, Get(rp, "workflow"), Get(rp, "clientId"))
  {
    if Nullish(rp) then Err(TypeError)
    else
      var wf := Get(rp, "workflow");
      if !Truthy(wf) then Err(WorkflowRequired)
      else
        match TypeOfTag(Get(wf, "type"))
        case None => Err(UnknownWorkflowType)
        case Some(t) =>
          var e := VariantError(t, wf, Get(rp, "clientId"));
          if e.Some? then Err(e.value) else Ok(t)
  }
}
