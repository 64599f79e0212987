# OpenCred configuration validation and test-certificate encoding, in Dafny

This project models two parts of OpenCred, a credential-verification service
that relying parties reach over OpenID Connect.

The first part is the start-up handler in `configs/config.js`. Before the
service starts, it checks the configuration object and fills in defaults:

- the exchange-protocol whitelist (`options.exchangeProtocols`);
- the relying parties, each with its client credentials, optional OIDC
  settings, workflow and brand;
- the signing keys;
- the audit flag and the audit fields, whose ids must be unique.

The handler throws on the first check that fails. In the model every
validator is a pure function that returns `Result<normalised value,
ConfigError>`, and `ConfigError` has one constructor per message the handler
throws. Configuration values are dynamic JavaScript data, so they are
modelled as `Json.Value`. The JavaScript operations the validators depend on
are each defined once, in `Json`:

- truthiness, `||` and `??`;
- property reads;
- object spread;
- ECMAScript ToString;
- `===`.

This turns every JavaScript branch into a branch of the model, including the
TypeErrors thrown when a method is called on a value of the wrong type. One
example is `rp.redirectUri.match` on a number.

The second part is two helpers from the test utilities in
`test/utils/x509.js`:

- `createKeyUsageExtension` packs seven usage flags into one byte. It wraps
  that byte in a DER BIT STRING under the key-usage object identifier
  (section 4.2.1.3 of RFC 5280).
- `convertDerCertificateToPem` writes a DER certificate as base64 (section 4
  of RFC 4648). It cuts the text into lines of 64 characters and, unless the
  boundaries are stripped, frames it with the certificate header and footer
  (section 5.1 of RFC 7468).

For both helpers the model adds the reading that undoes the encoding, and
proves the round trips in both directions.

Modules:

| module | contents |
|---|---|
| `Results` | `Option` and `Result`; `FirstError` (`forEach` with a throwing callback); `MapAll` (`map` with a throwing callback) |
| `Text` | decimal rendering; the default string order; `join` and `split` |
| `Json` | configuration values and the JavaScript semantics above |
| `ConfigErrors` | the errors the handler throws |
| `ExchangeProtocols` | the protocol whitelist |
| `RelyingParty` | `validateRelyingParty` |
| `Workflow` | `validateWorkflow` and its three workflow shapes |
| `SigningKeys` | `validateSigningKeys` and the `signingKeys ?? []` default |
| `Brand` | the default brand and the per-party brand merge |
| `JsSort` | `Array.prototype.sort()` without a comparator |
| `AuditFields` | `validateAuditFields` and the `auditFields ?? []` default |
| `OpenCredConfig` | the handler as a whole |
| `KeyUsage` | `createKeyUsageExtension` and its decoder |
| `Base64` | the base64 text of a buffer and its decoder |
| `Pem` | `convertDerCertificateToPem` and its reader |

### Behaviour worth knowing

The model keeps the source's behaviour as written. It proves the following
behaviours:

- **The "unique path" check never fires.** It maps each audit field to its
  `id`, not its `path`, so it repeats the id check. `NormaliseAuditFields`
  never returns `AuditFieldPathsNotUnique`. Two fields with different ids
  and the same path are accepted (`DuplicatePathsAccepted`).
- **Duplicate ids of mixed types are accepted.** The id check sorts the ids
  by their string form and compares neighbours with `===`. `1` and `"1"`
  sort as equal, and the sort is stable. So in the ids `1, "1", 1` the two
  equal numbers never become neighbours, and the duplicate is accepted
  (`MixedTypeDuplicateIdAccepted`). When every id is a string, the check
  accepts exactly the id lists without duplicates
  (`StringIdsUniqueIffDistinct`).
- **A lone field with an undefined id is rejected.** If a field's `id` key
  holds `undefined`, it is compared with `ids[-1]`, which is also
  `undefined`. The field is reported as a duplicate
  (`LoneUndefinedIdRejected`).
- **An empty certificate buffer has no PEM.** Its base64 text is empty, so
  the line match returns `null` and the `join` throws. The model returns
  `None` for it.

## Model

| member | source | states |
|---|---|---|
| ExchangeProtocols.EveryAvailable | configs/config.js:145-146 | true exactly when every listed protocol is one of the available protocol strings |
| ExchangeProtocols.NormaliseOptions | configs/config.js:136-150 | unset (falsy) options become both protocols. Otherwise: accepted iff `exchangeProtocols` is an array of available protocols; a non-array is a TypeError; a bad entry reports the list found. Accepted options are kept unchanged |
| ExchangeProtocols.NormaliseOptionsIdempotent | configs/config.js:142-150 | the options the check produces pass it again unchanged |
| RelyingParty.ValidateRelyingParty | configs/config.js:167-194 | a nullish party is a TypeError. `clientId` is checked before `clientSecret`, and each error carries the client id. With credentials given and a truthy redirect URI: a non-string URI is a TypeError; a URI that is not http(s) is refused; then scopes that are not an array are refused; a nullish scope is a TypeError; scopes without `openid` are refused. Accepted iff the credentials are truthy and, when a redirect URI is set, the URI and the scopes pass. The only change is the id-token lifetime: when it is defaulted the keys gain `idTokenExpirySeconds` holding 3600, and it is defaulted exactly when a redirect is set and no truthy lifetime is configured. Without a redirect the party is returned as is |
| RelyingParty.ValidateRelyingPartyIdempotent | configs/config.js:190-192 | a validated party validates again to itself, since the default lifetime is truthy |
| RelyingParty.ValidatedPartyStaysValid | configs/config.js:167-194 | a validated party stays valid, and is returned as is, after any change to its `brand` key alone |
| RelyingParty.IsHttpUri | configs/config.js:178 | true exactly when the URI begins with `http://` or `https://`; such a URI starts with `http` |
| Workflow.TypeOfTag | configs/config.js:159-163 | a `type` value selects a variant exactly when it is that variant's tag string; no other value selects one |
| Workflow.TypeTagRoundTrip | configs/config.js:159-163 | each variant's tag selects that variant |
| Workflow.VcApiError | configs/config.js:200-218 | accepted iff the base URL is a string starting with `http`, the capability is a string and the client secret is a non-empty string. A nullish base URL, or a string one not starting with `http`, is reported as a missing base URL; any other non-string base URL is a TypeError; then a non-string capability is reported; then, with both good, a bad client secret is reported |
| Workflow.NativeError | configs/config.js:219-229 | accepted iff `steps` is truthy with at least one own key and `initialStep` is truthy. Falsy steps, or steps with no own keys, are reported first; with good steps, a falsy initial step is reported |
| Workflow.EntraError | configs/config.js:230-264 | accepted iff all eight Entra fields are truthy. Otherwise the first falsy field, in source order, is reported |
| Workflow.VariantError | configs/config.js:200-264 | a variant's checks pass iff the workflow is well formed for that variant |
| Workflow.ValidateWorkflow | configs/config.js:196-271 | a missing workflow, then an unknown tag, are reported. Accepted iff the workflow is truthy and its tag names a variant whose fields are well formed, and the result is that variant. A known tag whose fields are not well formed reports that variant's own error |
| SigningKeys.CheckSigningKey | configs/config.js:302-317 | a key passes iff it has a truthy type, a non-empty purpose array and, when its type loosely equals `ES256`, both PEM fields. A nullish key is a TypeError; then a falsy type is reported; then a purpose that is not a non-empty array; then, with type and purpose good, the missing ES256 PEMs |
| SigningKeys.NormaliseSigningKeys | configs/config.js:298-320 | a nullish value becomes `[]`; a falsy value that is not nullish (`false`, `0`, `""`) is kept and accepted; a truthy non-array is a TypeError. An array is accepted iff every key passes, and otherwise the first failing key's error is reported. Accepted values are kept |
| SigningKeys.LooselyEqualsEs256 | configs/config.js:310 | `==` against `'ES256'`: equal iff the value is not `null`, `undefined`, a boolean or a number and its string form is `ES256` (so a string iff it is `ES256`, and an array such as `["ES256"]` through its string conversion) |
| SigningKeys.NormaliseSigningKeysIdempotent | configs/config.js:319-320 | normalised signing keys normalise to themselves |
| SigningKeys.Es256WithoutPrivatePemRefused | configs/config.js:309-316 | an ES256 key without a private PEM is refused with the ES256 message |
| Brand.MergeBrand | configs/config.js:282-337 | the party keeps every field and gains `brand`. The brand's keys are the default's plus the party's own. The party's own entries win, and the default fills in the rest |
| Brand.MergeBrandIdempotent | configs/config.js:330-337 | merging an already merged party changes nothing |
| Brand.CtaOverrideKeepsDefaults | configs/config.js:282-286 | with no configured default brand, a party overriding only `cta` gets the built-in `primary` (`#008f5a`) and `header` (`#004225`) colours with its own `cta` |
| Results.FirstError | configs/config.js:302-317 | no error iff every element passes; otherwise the error of the first failing element |
| Results.MapAll | configs/config.js:326-338 | succeeds iff every element maps; the result maps each element in order; otherwise the error of the first failing element |
| Json.ToStr | configs/config.js:389 | a string's string form is itself; a number's is non-empty and begins with `-` iff the number is negative |
| Json.NumberTextInjective | configs/config.js:389 | two numbers have the same string form iff they are equal |
| Json.StrictEqualsIsPrimitiveEquality | configs/config.js:391 | `===` holds iff the two values are equal and are neither arrays nor objects |
| OpenCredConfig.PartyError | configs/config.js:326-329 | no error iff the party passes the relying-party check and its workflow is accepted. A party that fails the relying-party check reports that error; a party that passes it reports the workflow check's error, judged on the party as configured |
| OpenCredConfig.NormaliseParty | configs/config.js:282-338 | accepted iff the party passes the relying-party check and its workflow is well formed for its tag; an error is the one the checks report. An accepted party is an object whose keys are the party's keys plus `brand` (and `idTokenExpirySeconds` when the lifetime is defaulted); every other key keeps its value; the lifetime is 3600 when defaulted and kept otherwise; the brand is the default brand's entries overridden by the party's own |
| OpenCredConfig.NormaliseRelyingParties | configs/config.js:326-338 | succeeds iff every party is accepted; the result normalises each party in order; otherwise the error of the first failing party |
| OpenCredConfig.ValidateWorkflowReadsWorkflowAndClientId | configs/config.js:196-271 | the workflow check depends only on the party's `workflow` and `clientId` |
| OpenCredConfig.NormalisedPartyIsFixed | configs/config.js:326-338 | a normalised party is accepted again and normalises to itself |
| OpenCredConfig.NormaliseRelyingPartiesIdempotent | configs/config.js:326-338 | the parties the handler produces pass it again unchanged |
| OpenCredConfig.Init | configs/config.js:142-410 | start-up succeeds iff every component passes. The options error comes first, then the relying-party array check, then the signing-key error, then the first failing party's error, then the audit-field error. On success every rewritten key holds its normalised component, and every other key is kept, apart from the three left out below. The language defaults to `en`, and auditing is on only for `true` |
| OpenCredConfig.EmptyConfigurationDefaults | configs/config.js:142-410 | a configuration with only an empty relying-party list starts with both protocols, English, no signing keys, no parties, auditing off and no audit fields |
| JsSort.Insert | configs/config.js:389 | inserts one element, keeping the elements (as a multiset) and sortedness |
| JsSort.SortDefined | configs/config.js:389 | sorting elements other than `undefined` is a permutation into string order |
| JsSort.PartsArePermutation | configs/config.js:389 | the elements other than `undefined`, together with the `undefined` ones, are exactly the input |
| JsSort.Sort | configs/config.js:389 | `sort()` is a permutation: elements other than `undefined` come first in string order, and every `undefined` comes after them |
| JsSort.DistinctPermutation | configs/config.js:387-391 | reordering neither creates nor removes duplicates |
| JsSort.SortedPairs | configs/config.js:389 | in a sorted sequence, no later element sorts strictly before an earlier one |
| JsSort.SortDefinedOfSorted | configs/config.js:389 | sorting a sequence already in order leaves it unchanged |
| JsSort.SortOfAlike | configs/config.js:389 | elements that all have the same string are left in place |
| JsSort.InsertKeepsTextOrder | configs/config.js:389 | inserting into an ordered sequence keeps, among the elements with any one string, the old ones first and the new one last |
| JsSort.SortIsStable | configs/config.js:389 | the sort is stable: for every string, the elements with that string appear in the output in their input order |
| AuditFields.CheckAuditField | configs/config.js:375-386 | a field passes iff it has all five keys and its type is `text`, `number` or `date`. A nullish field is a TypeError; a non-object field, or one missing any of the five keys, is reported as missing keys; a field with all keys and any other type is reported as an invalid type |
| AuditFields.NeighboursDistinct | configs/config.js:390-391 | the reduce is true iff no id is `===` the one before it (`undefined` before the first) |
| AuditFields.SortedIdsUnique | configs/config.js:387-391 | true iff, after the sort, no id is `===` the one before it; ids whose first sorted element is `undefined` are never unique |
| AuditFields.NormaliseAuditFields | configs/config.js:366-410 | falsy fields default (`??`) and are accepted; a truthy non-array is refused. An array is accepted iff every field is well formed and the sorted-neighbour id check passes; when some field is not well formed, the error is that of the first such field. The path error never occurs. Accepted fields are kept |
| AuditFields.StringIdsUniqueIffDistinct | configs/config.js:387-394 | with string ids, the sorted-neighbour check passes iff no id repeats |
| AuditFields.AuditFieldsAcceptedIffDistinctIds | configs/config.js:368-404 | with string ids, audit fields are accepted iff each is well formed and no id repeats |
| AuditFields.NormaliseAuditFieldsIdempotent | configs/config.js:405-410 | normalised audit fields normalise to themselves |
| AuditFields.DuplicatePathsAccepted | configs/config.js:395-403 | two fields with different string ids and the same path are accepted |
| AuditFields.SortKeepsOneQuotedOneOne | configs/config.js:389 | sorting `1, "1", 1` leaves it in place |
| AuditFields.OneQuotedOneOnePassesCheck | configs/config.js:387-391 | the ids `1, "1", 1` pass the sorted-neighbour check |
| AuditFields.MixedTypeDuplicateIdAccepted | configs/config.js:387-394 | fields with ids `1, "1", 1` have a duplicate id and are accepted |
| AuditFields.LoneUndefinedIdRejected | configs/config.js:387-394 | a lone field whose id is `undefined` is reported as a duplicate |
| KeyUsage.FromObject | test/utils/x509.js:67-91 | reading the flags of `null` or `undefined` throws; otherwise each of the seven flags is set iff its property is truthy |
| KeyUsage.UsageByte | test/utils/x509.js:68-91 | each of bits 7 to 1 of the byte is set iff its flag is, and bit 0 is clear |
| KeyUsage.FlagsOfUsageByte | test/utils/x509.js:68-91 | reading the flags back from the byte gives the flags written |
| KeyUsage.UsageByteOfFlags | test/utils/x509.js:68-91 | every byte with bit 0 clear is the byte of the flags read from it |
| KeyUsage.CreateKeyUsageExtension | test/utils/x509.js:67-99 | fails on `null` or `undefined`. Otherwise: the key-usage OID, critical, and a value that decodes to the flags given |
| KeyUsage.DecodeKeyUsageValue | test/utils/x509.js:93-98 | accepts exactly the one-byte BIT STRINGs with bit 0 clear |
| KeyUsage.DecodedKeyUsageReencodes | test/utils/x509.js:93-98 | a value that decodes is the encoding of the flags it decodes to |
| KeyUsage.ChainUsageByte | test/utils/x509.js:245-253 | the usage of a chain certificate (digital signature, non-repudiation, certificate signing, and CRL signing when asked) gives the value bytes `03 02 00 C6`, or `03 02 00 C4` without CRL signing, as for the root at test/utils/x509.js lines 198-206 |
| Base64.CharValueBijection | test/utils/x509.js:288 | the alphabet and its reading are inverse bijections |
| Base64.Encode | test/utils/x509.js:288 | four characters per started group of three bytes, all from the alphabet or `=` |
| Base64.JoinSextetsInvertsSextets | test/utils/x509.js:288 | joining the 6-bit values of bytes gives the bytes back |
| Base64.SextetsInvertJoinSextets | test/utils/x509.js:288 | values that join are the values of the bytes they join to |
| Base64.DecodeEncode | test/utils/x509.js:288 | decoding undoes encoding |
| Base64.EncodeDecode | test/utils/x509.js:288 | encoding undoes decoding, so the decoder accepts exactly the encoder's texts |
| Pem.Lines | test/utils/x509.js:291 | the lines concatenate to the text; none is empty or longer than 64; all but the last are exactly 64. There are no lines iff the text is empty |
| Text.SplitJoin | test/utils/x509.js:291 | joining lines that contain no separator with that separator, and splitting again, gives the lines back |
| Text.JoinSplit | test/utils/x509.js:291 | splitting a text at a separator and joining with it gives the text back |
| Pem.LinesUnique | test/utils/x509.js:291 | the cut into lines is the only well-cut layout of its text |
| Pem.ConvertDerCertificateToPem | test/utils/x509.js:286-298 | no result iff the buffer is empty. With stripped boundaries: the base64 lines joined by line feeds. Otherwise the text is the header line, then that body, then a line feed and the footer |
| Pem.Frame | test/utils/x509.js:294-296 | the header line, then the body, then a line feed and the footer line; the body can be read back from between them |
| Pem.Unframe | test/utils/x509.js:294-296 | a body it finds, framed again, gives the text back |
| Pem.UnframeFrame | test/utils/x509.js:294-296 | unframing a framed body gives the body |
| Pem.ParseConverted | test/utils/x509.js:286-298 | reading the PEM text of a non-empty certificate gives the certificate back |
| Pem.ConvertParsed | test/utils/x509.js:286-298 | every text the reader accepts is exactly what the conversion writes for the certificate read |

## Left out

- OpenCredConfig.Init: `translations`, `didWeb` and `caStore` are not assigned, so the model makes no claim about them. They call `combineTranslations` from another file, use `JSON.parse`, and map certificates to their `pem` field. The errors these can throw are not modelled either, so "succeeds iff every component passes" ignores a did:web document that is not JSON.
- OpenCredConfig.NormaliseParty: `applyRpDefaults(configRPs, rp)` is taken as the identity. It lives in a file that is not part of this model.
- The framework wiring around the handler is left out because it configures the framework or writes to the log. This covers the event registrations, the web-bundle settings and the closing `logger.info` line. The configuration object is taken as an object, as `config.opencred` is created as one.
- `common/database.js` and the exchange and OIDC machinery are not part of this model.
- Numbers are integers. Numeric audit ids are modelled as integers; fractional ids, ids whose string form uses an exponent (`1e21` becomes `"1e+21"`) and `NaN` ids are left out, because the model has no floating-point values. The ordering and duplicate behaviour proved for integer ids does not cover them.
- Strings are sequences of characters. JavaScript compares and measures UTF-16 code units, so the model's sort order can differ for characters outside the Basic Multilingual Plane.
- Json.Get: a property read sees only own entries. Inherited properties, such as those of `Object.prototype`, are left out because none of the configuration's names is one.
- Json.StrictEquals: two arrays or objects are never equal. The ids being compared come from a fresh deep copy, so they are distinct references.
- KeyUsage.CreateKeyUsageExtension: the extension's `parsedValue` is left out because it is the same BIT STRING as the encoded value. Trailing zero bits of the usage byte are not trimmed, as DER's named-bit rule (section 11.2.2 of X.690) would require; this follows the source, which writes the whole byte with no unused bits.
- AuditFields.StringIdsUniqueIffDistinct: the check matches "ids pairwise distinct" only when every id is a string. For ids of mixed types it does not, and `MixedTypeDuplicateIdAccepted` shows a case.
- Pem.Lines: models `/.{1,64}/g` only on text with no line terminators. `.` does not match those, and base64 text never contains them.
- Pem.ConvertDerCertificateToPem: the TypeError thrown for an empty buffer is the result `None`.
- Pem.ConvertDerCertificateToPem: `stripBoundaries` is a boolean, so an omitted argument is passed as its default `false`. The truthiness test the source applies to non-boolean values is not modelled.
- The certificate-chain, signing and CRL helpers of `test/utils/x509.js` are left out, because they call into the PKI libraries and the platform's crypto.
