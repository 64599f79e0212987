/** The brand merge: each validated relying party gets
    `{...defaultBrand, ...(app.brand ? app.brand : {})}` as its brand, and
    every other field of the party is copied unchanged. */
module Brand {
  import opened Json

  /** The colours used when no `defaultBrand` is configured. */
  const BuiltInBrand: Value :=
    Obj(map["cta" := Str("#006847"), "primary" := Str("#008f5a"), "header" := Str("#004225")])

  /** `opencred.defaultBrand ?? {...}`. */
  function DefaultBrand(configured: Value): (brand: Value)
    ensures Nullish(configured) ==> brand == BuiltInBrand
    ensures !Nullish(configured) ==> brand == configured
  {
    Coalesce(configured, BuiltInBrand)
  }

  /** The entries the party's own brand contributes: none when it is falsy. */
  function Overrides(app: Value): map<string, Value> {
    var brand := Get(app, "brand");
    if Truthy(brand) then OwnEntries(brand) else map[]
  }

  /** `{...app, brand: {...defaultBrand, ...(app.brand ? app.brand : {})}}`. */
  function MergeBrand(defaultBrand: Value, app: Value): (merged: Value)
    requires app.Obj?
    ensures merged.Obj? && merged.props.Keys == app.props.Keys + {"brand"}
    ensures forall k | k != "brand" :: Get(merged, k) == Get(app, k)
    ensures var brand := Get(merged, "brand");
      && brand.Obj?
      && brand.props.Keys == OwnEntries(defaultBrand).Keys + Overrides(app).Keys
      // the party's own entries win
      && (forall k | k in Overrides(app) :: brand.props[k] == Overrides(app)[k])
      // the default fills in the rest
      && (forall k | k in OwnEntries(defaultBrand) && k !in Overrides(app) ::
            brand.props[k] == OwnEntries(defaultBrand)[k])
  {
    var brand := Obj(OwnEntries(defaultBrand) + Overrides(app));
    Obj(app.props["brand" := brand])
  }

  /** Merging an already merged party changes nothing. */
  lemma MergeBrandIdempotent(defaultBrand: Value, app: Value)
    requires app.Obj?
    ensures MergeBrand(defaultBrand, MergeBrand(defaultBrand, app)) == MergeBrand(defaultBrand, app)
  {
    var once := MergeBrand(defaultBrand, app);
    var d := OwnEntries(defaultBrand);
    assert Overrides(once) == d + Overrides(app);
    assert d + (d + Overrides(app)) == d + Overrides(app);
    assert once.props["brand" := Obj(d + Overrides(once))] == once.props;
  }

  /** With no default brand configured, a party that overrides only `cta`
      keeps the built-in `primary` and `header` colours. */
  lemma CtaOverrideKeepsDefaults(configured: Value, app: Value, cta: string)
    requires Nullish(configured)
    requires app.Obj? && Get(app, "brand") == Obj(map["cta" := Str(cta)])
    ensures Get(MergeBrand(DefaultBrand(configured), app), "brand") ==
      Obj(map["cta" := Str(cta), "primary" := Str("#008f5a"), "header" := Str("#004225")])
  {
  }
}
