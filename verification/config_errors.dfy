/** The errors the configuration start-up handler throws, one constructor
    per message. Where a message names the relying party's client id, the
    constructor carries it. */
module ConfigErrors {
  import opened Json

  datatype ConfigError =
      /** A JavaScript TypeError: a property read on `null`/`undefined`, or a
          method (`match`, `startsWith`, `every`, `forEach`) called on a value
          of the wrong type. */
    | TypeError
    | InvalidExchangeProtocol(found: seq<Value>)
    | RelyingPartiesNotArray
    | ClientIdRequired
    | ClientSecretRequired(clientId: Value)
    | RedirectUriNotHttp(clientId: Value)
    | ScopesNotArray(clientId: Value)
    | OpenIdScopeRequired(clientId: Value)
    | WorkflowRequired
    | BaseUrlRequired(clientId: Value)
    | CapabilityRequired(clientId: Value)
    | WorkflowClientSecretRequired(clientId: Value)
    | StepsRequired(clientId: Value)
    | InitialStepRequired(clientId: Value)
    | EntraFieldRequired(field: string)
    | UnknownWorkflowType
    | SigningKeyTypeRequired
    | SigningKeyPurposeRequired
    | Es256PemRequired
    | AuditFieldsNotArray
    | AuditFieldKeysMissing
    | AuditFieldTypeInvalid
    | AuditFieldIdsNotUnique
    | AuditFieldPathsNotUnique
}
