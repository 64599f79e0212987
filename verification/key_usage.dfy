/** The key-usage certificate extension the test certificate chains carry:
    seven usage flags packed into one byte, most significant bit first,
    wrapped in a DER BIT STRING under the key-usage object identifier
    (section 4.2.1.3 of RFC 5280). */
module KeyUsage {
  import opened Results
  import opened Json

  /** The flags the extension can set, bits 0 to 6 of the key-usage
      BIT STRING. `encipherOnly` and `decipherOnly` are never set. */
  datatype KeyUsage = KeyUsage(
    digitalSignature: bool,
    nonRepudiation: bool,
    keyEncipherment: bool,
    dataEncipherment: bool,
    keyAgreement: bool,
    keyCertSign: bool,
    cRLSign: bool)

  /** A certificate extension: its object identifier, criticality and DER
      encoded value. */
  datatype Extension = Extension(extnId: string, critical: bool, extnValue: seq<bv8>)

  const KeyUsageOid := "2.5.29.15"

  /** The DER tag of a BIT STRING. */
  const BitStringTag: bv8 := 0x03

  /** Reads each flag of the usage object as the `if(usage.x)` tests do;
      a missing flag is off. Reading a flag of `null` or `undefined`
      throws. */
  function FromObject(usage: Value): (r: Option<KeyUsage>)
    ensures r.None? <==> Nullish(usage)
    ensures r.Some? ==>
      && (r.value.digitalSignature <==> Truthy(Get(usage, "digitalSignature")))
      && (r.value.nonRepudiation <==> Truthy(Get(usage, "nonRepudiation")))
      && (r.value.keyEncipherment <==> Truthy(Get(usage, "keyEncipherment")))
      && (r.value.dataEncipherment <==> Truthy(Get(usage, "dataEncipherment")))
      && (r.value.keyAgreement <==> Truthy(Get(usage, "keyAgreement")))
      && (r.value.keyCertSign <==> Truthy(Get(usage, "keyCertSign")))
      && (r.value.cRLSign <==> Truthy(Get(usage, "cRLSign")))
  {
    if Nullish(usage) then None
    else Some(KeyUsage(
      Truthy(Get(usage, "digitalSignature")),
      Truthy(Get(usage, "nonRepudiation")),
      Truthy(Get(usage, "keyEncipherment")),
      Truthy(Get(usage, "dataEncipherment")),
      Truthy(Get(usage, "keyAgreement")),
      Truthy(Get(usage, "keyCertSign")),
      Truthy(Get(usage, "cRLSign"))))
  }

  /** `bitView[0] |= mask` when the flag is set. */
  function SetIf(b: bv8, flag: bool, mask: bv8): bv8 {
    if flag then b | mask else b
  }

  /** The byte the seven conditional ORs leave in a zeroed buffer. */
  function UsageByte(u: KeyUsage): (b: bv8)
    ensures (b & 0x80 != 0) <==> u.digitalSignature
    ensures (b & 0x40 != 0) <==> u.nonRepudiation
    ensures (b & 0x20 != 0) <==> u.keyEncipherment
    ensures (b & 0x10 != 0) <==> u.dataEncipherment
    ensures (b & 0x08 != 0) <==> u.keyAgreement
    ensures (b & 0x04 != 0) <==> u.keyCertSign
    ensures (b & 0x02 != 0) <==> u.cRLSign
    ensures b & 0x01 == 0
  {
    var b := SetIf(0, u.digitalSignature, 0x80);
    var b := SetIf(b, u.nonRepudiation, 0x40);
    var b := SetIf(b, u.keyEncipherment, 0x20);
    var b := SetIf(b, u.dataEncipherment, 0x10);
    var b := SetIf(b, u.keyAgreement, 0x08);
    var b := SetIf(b, u.keyCertSign, 0x04);
    SetIf(b, u.cRLSign, 0x02)
  }

  /** The flags a usage byte carries. */
  function FlagsOf(b: bv8): KeyUsage {
    KeyUsage(b & 0x80 != 0, b & 0x40 != 0, b & 0x20 != 0, b & 0x10 != 0,
             b & 0x08 != 0, b & 0x04 != 0, b & 0x02 != 0)
  }

  /** Reading the flags back from the byte gives the flags written. */
  lemma FlagsOfUsageByte(u: KeyUsage)
    ensures FlagsOf(UsageByte(u)) == u
  {
  }

  /** Every byte whose last bit is clear is the byte of exactly one set of
      flags. */
  lemma UsageByteOfFlags(b: bv8)
    requires b & 0x01 == 0
    ensures UsageByte(FlagsOf(b)) == b
  {
  }

  /** The DER BIT STRING of one byte with no unused bits: tag, length two,
      the unused-bit count, then the byte. */
  function BitStringOfByte(b: bv8): (der: seq<bv8>)
    ensures |der| == 4 && der[0] == BitStringTag && der[3] == b
  {
    [BitStringTag, 0x02, 0x00, b]
  }

  /** `createKeyUsageExtension`: the usage byte as a BIT STRING under the
      key-usage identifier, marked critical. */
  function CreateKeyUsageExtension(usage: Value): (r: Option<Extension>)
    ensures r.None? <==> Nullish(usage)
    ensures r.Some? ==>
      && r.value.extnId == KeyUsageOid
      && r.value.critical
      && DecodeKeyUsageValue(r.value.extnValue) == FromObject(usage)
  {
    match FromObject(usage)
    case None => None
    case Some(u) =>
      FlagsOfUsageByte(u);
      Some(Extension(KeyUsageOid, true, BitStringOfByte(UsageByte(u))))
  }

  /** Reads a one-byte key-usage BIT STRING back into flags; anything else,
      including a byte with its last (unassigned here) bit set, is
      refused. */
  function DecodeKeyUsageValue(der: seq<bv8>): (r: Option<KeyUsage>)
    ensures r.Some? <==> exists b: bv8 | b & 0x01 == 0 :: der == BitStringOfByte(b)
  {
    if |der| == 4 && der[..3] == [BitStringTag, 0x02, 0x00] && der[3] & 0x01 == 0 then
      assert der == BitStringOfByte(der[3]);
      Some(FlagsOf(der[3]))
    else
      None
  }

  /** A key-usage value that decodes is the encoding of the flags it
      decodes to. */
  lemma DecodedKeyUsageReencodes(der: seq<bv8>)
    requires DecodeKeyUsageValue(der).Some?
    ensures BitStringOfByte(UsageByte(DecodeKeyUsageValue(der).value)) == der
  {
    UsageByteOfFlags(der[3]);
    assert der == BitStringOfByte(der[3]);
  }

  /** The usage the test chain gives its certificates: digital signature,
      non-repudiation and certificate signing, with CRL signing only on the
      certificates between the root and the leaf. That is the byte 0xC6
      with CRL signing and 0xC4 without. */
  lemma ChainUsageByte(crlSign: bool)
    ensures var usage := Obj(map[
        "digitalSignature" := Bool(true), "nonRepudiation" := Bool(true),
        "keyEncipherment" := Bool(false), "dataEncipherment" := Bool(false),
        "keyAgreement" := Bool(false), "keyCertSign" := Bool(true),
        "cRLSign" := Bool(crlSign)]);
      && CreateKeyUsageExtension(usage).Some?
      && CreateKeyUsageExtension(usage).value.extnValue ==
           [0x03, 0x02, 0x00, if crlSign then 0xC6 else 0xC4]
  {
    var usage := Obj(map[
        "digitalSignature" := Bool(true), "nonRepudiation" := Bool(true),
        "keyEncipherment" := Bool(false), "dataEncipherment" := Bool(false),
        "keyAgreement" := Bool(false), "keyCertSign" := Bool(true),
        "cRLSign" := Bool(crlSign)]);
    var u := KeyUsage(true, true, false, false, false, true, crlSign);
    assert FromObject(usage) == Some(u);
    assert UsageByte(u) == if crlSign then 0xC6 else 0xC4;
  }
}
