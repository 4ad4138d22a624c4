/** JSON values as the database stores and compares them. */
module Json {
  import opened Order

  datatype Option<+T> = None | Some(value: T)

  datatype Ordering = Before | Same | After

  /** A 64-bit pattern. */
  type Bits = b: nat | b < 0x1_0000_0000_0000_0000

  /**
    A JSON number: an integer with the double it converts to, or a float. Doubles are finite and
    are given by their bit patterns.
   */
  datatype Num = Integer(exact: int, bits: Bits) | Float(bits: Bits)

  datatype Json =
    | Null
    | Bool(b: bool)
    | Number(num: Num)
    | Str(s: string)
    | Array(items: seq<Json>)
    | Object(members: map<string, Json>)

  const SIGN: Bits := 0x8000_0000_0000_0000

  /** Finite doubles compare as these integers do: the pattern without its sign bit, signed. */
  function Magnitude(bits: Bits): int {
    if bits < SIGN then bits else SIGN - bits
  }

  predicate NumEqual(a: Num, b: Num) {
    match (a, b)
    case (Integer(_, _), Integer(_, _)) => a == b
    case (Float(x), Float(y)) => Magnitude(x) == Magnitude(y)
    case _ => false
  }

  predicate Equal(a: Json, b: Json) {
    match (a, b)
    case (Number(x), Number(y)) => NumEqual(x, y)
    case (Array(xs), Array(ys)) => |xs| == |ys| && forall i :: 0 <= i < |xs| ==> Equal(xs[i], ys[i])
    case (Object(xs), Object(ys)) => xs.Keys == ys.Keys && forall k :: k in xs ==> Equal(xs[k], ys[k])
    case _ => a == b
  }

  /** The value with every negative zero made a positive one. */
  function Unsigned(a: Json): Json {
    match a
    case Number(Float(bits)) => Number(Float(if bits == SIGN then 0 else bits))
    case Array(items) => Array(seq(|items|, i requires 0 <= i < |items| => Unsigned(items[i])))
    case Object(members) => Object(map k | k in members :: Unsigned(members[k]))
    case _ => a
  }

  lemma UnsignedNumber(a: Num, b: Num)
    ensures NumEqual(a, b) <==> Unsigned(Number(a)) == Unsigned(Number(b))
  {
  }

  /** Values are equal if and only if they are the same but for the signs of zeros. */
  lemma {:induction false} EqualIsSame(a: Json, b: Json)
    ensures Equal(a, b) <==> Unsigned(a) == Unsigned(b)
  {
    match (a, b)
    case (Number(x), Number(y)) => UnsignedNumber(x, y);
    case (Array(xs), Array(ys)) =>
      var us, vs := Unsigned(a).items, Unsigned(b).items;
      if |xs| == |ys| {
        forall i | 0 <= i < |xs| ensures Equal(xs[i], ys[i]) <==> us[i] == vs[i] {
          EqualIsSame(xs[i], ys[i]);
        }
      }
    case (Object(xs), Object(ys)) =>
      var us, vs := Unsigned(a).members, Unsigned(b).members;
      assert us.Keys == xs.Keys && vs.Keys == ys.Keys;
      if xs.Keys == ys.Keys {
        forall k | k in xs ensures Equal(xs[k], ys[k]) <==> us[k] == vs[k] {
          EqualIsSame(xs[k], ys[k]);
        }
        if Equal(a, b) {
          assert us == vs;
        }
      }
    case _ =>
  }

  function CompareStrings(a: string, b: string): Ordering {
    if a == b then Same else if Less(a, b) then Before else After
  }

  function CompareInts(a: int, b: int): Ordering {
    if a == b then Same else if a < b then Before else After
  }

  /** Order of two values of one scalar kind. */
  function Compare(a: Json, b: Json): Option<Ordering> {
    match (a, b)
    case (Str(x), Str(y)) => Some(CompareStrings(x, y))
    case (Number(x), Number(y)) => Some(CompareInts(Magnitude(x.bits), Magnitude(y.bits)))
    case (Bool(x), Bool(y)) => Some(if x == y then Same else if y then Before else After)
    case (Null, Null) => Some(Same)
    case _ => None
  }
}
