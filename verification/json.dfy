/** The configuration values the validators receive. Configuration is plain
    JavaScript data, so a field may hold anything; the validators' branches
    depend on JavaScript's truthiness, property reads, `??`, `||`, object
    spread, string conversion and `===`, each of which is defined here once. */
module Json {
  import opened Text

  /** A JavaScript value as configuration can hold it. Numbers are integers
      here; see README for what that leaves out. */
  datatype Value =
    | Undefined
    | Null
    | Bool(b: bool)
    | Num(n: int)
    | Str(s: string)
    | Arr(elems: seq<Value>)
    | Obj(props: map<string, Value>)

  /** `null` or `undefined`: reading a property of these throws a TypeError. */
  predicate Nullish(v: Value) {
    v.Undefined? || v.Null?
  }

  /** JavaScript truthiness: `false`, `0`, `""`, `null` and `undefined` are
      falsy, every array and object is truthy. */
  predicate Truthy(v: Value) {
    match v
    case Undefined => false
    case Null => false
    case Bool(b) => b
    case Num(n) => n != 0
    case Str(s) => |s| > 0
    case Arr(_) => true
    case Obj(_) => true
  }

  /** `v[key]` for the configuration's property names, none of which a
      built-in prototype defines: an object's own entry, otherwise
      `undefined`. Callers rule out a nullish `v` first, where JavaScript
      throws. */
  function Get(v: Value, key: string): (r: Value)
    ensures !r.Undefined? ==> v.Obj? && key in v.props
  {
    if v.Obj? && key in v.props then v.props[key] else Undefined
  }

  /** `v || fallback`. */
  function Or(v: Value, fallback: Value): (r: Value)
    ensures Truthy(v) ==> r == v
    ensures !Truthy(v) ==> r == fallback
  {
    if Truthy(v) then v else fallback
  }

  /** `v ?? fallback`. */
  function Coalesce(v: Value, fallback: Value): (r: Value)
    ensures Nullish(v) ==> r == fallback
    ensures !Nullish(v) ==> r == v
  {
    if Nullish(v) then fallback else v
  }

  /** The object `v` after `v[key] = x`. */
  function With(v: Value, key: string, x: Value): (r: Value)
    requires v.Obj?
    ensures r.Obj? && r.props.Keys == v.props.Keys + {key}
    ensures Get(r, key) == x
    ensures forall k | k != key :: Get(r, k) == Get(v, k)
  {
    Obj(v.props[key := x])
  }

  /** The entries an array's or string's indices contribute. */
  function IndexedEntries(xs: seq<Value>): (m: map<string, Value>)
    ensures forall i | 0 <= i < |xs| :: Decimal(i) in m && m[Decimal(i)] == xs[i]
    ensures forall k | k in m :: exists i | 0 <= i < |xs| :: k == Decimal(i)
  {
    DecimalInjective();
    map i | 0 <= i < |xs| :: Decimal(i) := xs[i]
  }

  /** The own enumerable entries of `v`: what `Object.keys(v)` lists and
      what `{...v}` copies. Strings and arrays contribute their indices;
      numbers, booleans, `null` and `undefined` contribute nothing. */
  function OwnEntries(v: Value): map<string, Value> {
    match v
    case Obj(props) => props
    case Arr(xs) => IndexedEntries(xs)
    case Str(s) => IndexedEntries(seq(|s|, i requires 0 <= i < |s| => Str([s[i]])))
    case _ => map[]
  }

  /** ECMAScript ToString, which `Array.prototype.sort` applies to elements
      when given no comparator and `==` applies to arrays and objects. An
      array joins its elements with commas, writing `null` and `undefined`
      elements as empty strings. */
  function ToStr(v: Value): (s: string)
    ensures v.Str? ==> s == v.s
    ensures v.Num? ==> |s| > 0 && (s[0] == '-' <==> v.n < 0)
    decreases v
  {
    match v
    case Undefined => "undefined"
    case Null => "null"
    case Bool(b) => if b then "true" else "false"
    case Num(n) => if n < 0 then "-" + Decimal(-n) else Decimal(n)
    case Str(s) => s
    case Arr(xs) =>
      Join(seq(|xs|, i requires 0 <= i < |xs| => if Nullish(xs[i]) then "" else ToStr(xs[i])), ",")
    case Obj(_) => "[object Object]"
  }

  /** Different numbers have different strings. */
  lemma NumberTextInjective(a: int, b: int)
    ensures ToStr(Num(a)) == ToStr(Num(b)) <==> a == b
  {
    if ToStr(Num(a)) == ToStr(Num(b)) {
      DecimalInjective();
      if a < 0 && b < 0 {
        assert ToStr(Num(a))[1..] == Decimal(-a) && ToStr(Num(b))[1..] == Decimal(-b);
      }
    }
  }

  /** `x === y` between two values read from distinct slots of a freshly
      deep-copied array: primitives compare by value, and two arrays or
      objects are never the same reference. */
  predicate StrictEquals(x: Value, y: Value) {
    match (x, y)
    case (Undefined, Undefined) => true
    case (Null, Null) => true
    case (Bool(a), Bool(b)) => a == b
    case (Num(a), Num(b)) => a == b
    case (Str(a), Str(b)) => a == b
    case _ => false
  }

  /** Strict equality is value equality on primitives and never holds for
      arrays or objects. */
  lemma StrictEqualsIsPrimitiveEquality(x: Value, y: Value)
    ensures StrictEquals(x, y) <==> x == y && !x.Arr? && !x.Obj?
  {
  }
}
