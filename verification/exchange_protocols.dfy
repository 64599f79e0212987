/** The exchange-protocol whitelist: `options` defaults to both protocols
    when unset, and a configured list may name only the available ones. */
module ExchangeProtocols {
  import opened Results
  import opened Json
  import opened ConfigErrors

  const AvailableProtocols: seq<string> := ["openid4vp", "chapi"]

  /** `availableExchangeProtocols.includes(el)`: SameValueZero, so only the
      very strings qualify. */
  predicate IsAvailable(v: Value) {
    v.Str? && v.s in AvailableProtocols
  }

  /** The options object used when none is configured. */
  function DefaultOptions(): Value {
    Obj(map["exchangeProtocols" := Arr([Str("openid4vp"), Str("chapi")])])
  }

  /** A configured protocol list the check lets through. */
  predicate ProtocolsAllowed(protocols: Value) {
    protocols.Arr? && forall i | 0 <= i < |protocols.elems| :: IsAvailable(protocols.elems[i])
  }

  /** `protocols.every(el => availableExchangeProtocols.includes(el))`. */
  function EveryAvailable(protocols: seq<Value>): (ok: bool)
    ensures ok <==> forall i | 0 <= i < |protocols| :: IsAvailable(protocols[i])
  {
    if |protocols| == 0 then true
    else
      var rest := EveryAvailable(protocols[1..]);
      assert forall i | 0 < i < |protocols| :: protocols[i] == protocols[1..][i - 1];
      IsAvailable(protocols[0]) && rest
  }

  /** `options || {exchangeProtocols: available}`, then the whitelist check.
      A truthy `options` without an array of protocols makes `.every` throw. */
  function NormaliseOptions(options: Value): (r: Result<Value, ConfigError>)
    ensures !Truthy(options) ==> r == Ok(DefaultOptions())
    ensures Truthy(options) ==> (r.Ok? <==> ProtocolsAllowed(Get(options, "exchangeProtocols")))
    ensures Truthy(options) && !Get(options, "exchangeProtocols").Arr? ==> r == Err(TypeError)
    ensures Truthy(options) && Get(options, "exchangeProtocols").Arr? && r.Err? ==>
      r.error == InvalidExchangeProtocol(Get(options, "exchangeProtocols").elems)
    ensures Truthy(options) && r.Ok? ==> r.value == options
  {
    var opts := Or(options, DefaultOptions());
    var protocols := Get(opts, "exchangeProtocols");
    if !protocols.Arr? then Err(TypeError)
    else if !EveryAvailable(protocols.elems) then Err(InvalidExchangeProtocol(protocols.elems))
    else Ok(opts)
  }

  /** The options the check produces pass it again unchanged. */
  lemma NormaliseOptionsIdempotent(options: Value)
    requires NormaliseOptions(options).Ok?
    ensures NormaliseOptions(NormaliseOptions(options).value) == NormaliseOptions(options)
  {
    if !Truthy(options) {
      assert IsAvailable(Str("openid4vp")) && IsAvailable(Str("chapi"));
      assert ProtocolsAllowed(Get(DefaultOptions(), "exchangeProtocols"));
    }
  }
}
