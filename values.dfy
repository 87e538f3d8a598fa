/**
 * Runtime values of Tuber: 64-bit integers, doubles, booleans, text, the Null
 * singleton and arrays (`ArrayType`, a shared mutable object), together with
 * their printed form (`toString`) and their `equals`.
 *
 * Doubles are kept as their 64-bit IEEE-754 pattern; their arithmetic,
 * comparison and printing are host primitives that the model does not
 * interpret, passed around in a `Host` record.
 */
module Values {
  import Text

  const MinLong: int := -0x8000_0000_0000_0000
  const MaxLong: int := 0x7fff_ffff_ffff_ffff

  /** Java `long`. */
  type Long = n: int | MinLong <= n <= MaxLong

  /** Java `double`, identified by `Double.doubleToLongBits`, which is what `Double.equals` compares. */
  type FloatBits = b: int | 0 <= b < 0x1_0000_0000_0000_0000

  /** Host primitives on doubles: `Double.sum`, `Double.compare` and `Double.toString`. */
  datatype Host = Host(
    floatSum: (FloatBits, FloatBits) -> FloatBits,
    floatCompare: (FloatBits, FloatBits) -> int,
    floatText: FloatBits -> string)

  /** `Double.compare` returns 0 exactly for equal bit patterns (Double.compare is consistent with equals). */
  predicate CompareConsistent(host: Host)
  {
    forall x: FloatBits, y: FloatBits {:trigger host.floatCompare(x, y)} :: host.floatCompare(x, y) == 0 <==> x == y
  }

  datatype Option<T> = None | Some(value: T)

  datatype Value =
    | Int(n: Long)
    | Float(bits: FloatBits)
    | Bool(b: bool)
    | Str(s: string)
    | Null
    | Arr(ref: ArrayType)

  /** The Java class of a runtime value (`getClass()`). */
  datatype Kind = LongKind | DoubleKind | BooleanKind | StringKind | NullKind | ArrayKind

  function KindOf(v: Value): Kind
  {
    match v
    case Int(_) => LongKind
    case Float(_) => DoubleKind
    case Bool(_) => BooleanKind
    case Str(_) => StringKind
    case Null => NullKind
    case Arr(_) => ArrayKind
  }

  /** `ArrayType`: a fixed-length, shared, mutable array of values. */
  class ArrayType {
    const values: array<Value>

    constructor (elements: seq<Value>)
      ensures values[..] == elements
      ensures fresh(values)
    {
      values := new Value[|elements|](i requires 0 <= i < |elements| => elements[i]);
    }

    /** `ArrayType.get`: the element at `index`, or empty at and past the end. */
    function Get(index: nat): (r: Option<Value>)
      reads values
      ensures r.Some? <==> index < values.Length
      ensures r.Some? ==> r.value == values[index]
    {
      if index < values.Length then Some(values[index]) else None
    }
  }

  /**
   * Every chain of arrays reachable from `v` is shorter than `depth`. Printing
   * and comparing arrays recurse through their elements, so in the host they
   * only terminate on arrays that do not contain themselves.
   */
  ghost predicate Nested(v: Value, depth: nat)
    reads *
    decreases depth
  {
    v.Arr? ==>
      depth > 0 && forall i :: 0 <= i < v.ref.values.Length ==> Nested(v.ref.values[i], depth - 1)
  }

  /** An array that holds itself admits no depth bound. */
  lemma {:induction false} SelfContainingUnbounded(a: ArrayType, depth: nat)
    requires a.values.Length > 0 && a.values[0] == Arr(a)
    ensures !Nested(Arr(a), depth)
  {
    if depth > 0 {
      SelfContainingUnbounded(a, depth - 1);
    }
  }

  ghost predicate AllNested(vs: seq<Value>, depth: nat)
    reads *
  {
    forall i :: 0 <= i < |vs| ==> Nested(vs[i], depth)
  }

  /**
   * `toString()` of a runtime value: `Long.toString`, the host's double text,
   * `true`/`false`, the text itself, `null` for the Null singleton and
   * `Arrays.deepToString` of the elements for an array.
   */
  function Display(host: Host, v: Value, ghost depth: nat): string
    requires Nested(v, depth)
    reads *
    decreases depth, 0
  {
    match v
    case Int(n) => Text.DecimalText(n)
    case Float(f) => host.floatText(f)
    case Bool(b) => if b then "true" else "false"
    case Str(s) => s
    case Null => "null"
    case Arr(a) => "[" + Text.Join(Displays(host, a.values[..], depth - 1), ", ") + "]"
  }

  /** The printed form of each value, in order. */
  function Displays(host: Host, vs: seq<Value>, ghost depth: nat): (r: seq<string>)
    requires AllNested(vs, depth)
    reads *
    ensures |r| == |vs|
    decreases depth, 1, |vs|
  {
    if vs == [] then [] else [Display(host, vs[0], depth)] + Displays(host, vs[1..], depth)
  }

  lemma {:induction false} DisplaysAt(host: Host, vs: seq<Value>, depth: nat, i: nat)
    requires AllNested(vs, depth) && i < |vs|
    ensures Displays(host, vs, depth)[i] == Display(host, vs[i], depth)
    decreases i
  {
    if i > 0 {
      DisplaysAt(host, vs[1..], depth, i - 1);
    }
  }

  /**
   * `equals` between runtime values: boxed numbers, booleans and text by value
   * (a double by its bit pattern), the Null singleton by identity, and an
   * `ArrayType` structurally (`Arrays.deepEquals` over the elements); values of
   * different classes are never equal.
   */
  function ValueEquals(v: Value, w: Value, ghost depth: nat): (r: bool)
    requires Nested(v, depth) && Nested(w, depth)
    reads *
    ensures v == w ==> r
    ensures KindOf(v) != KindOf(w) ==> !r
    decreases depth, 0
  {
    match (v, w)
    case (Int(a), Int(b)) => a == b
    case (Float(a), Float(b)) => a == b
    case (Bool(a), Bool(b)) => a == b
    case (Str(a), Str(b)) => a == b
    case (Null, Null) => true
    case (Arr(a), Arr(b)) => a == b || ElementsEqual(a.values[..], b.values[..], depth - 1)
    case _ => false
  }

  /** `Arrays.deepEquals`: same length and pairwise equal elements. */
  function ElementsEqual(vs: seq<Value>, ws: seq<Value>, ghost depth: nat): (r: bool)
    requires AllNested(vs, depth) && AllNested(ws, depth)
    reads *
    decreases depth, 1, |vs|
  {
    if |vs| != |ws| then false
    else if vs == [] then true
    else ValueEquals(vs[0], ws[0], depth) && ElementsEqual(vs[1..], ws[1..], depth)
  }

  /** Structural equality is a pairwise comparison of same-length element lists. */
  lemma {:induction false} ElementsEqualPairwise(vs: seq<Value>, ws: seq<Value>, depth: nat)
    requires AllNested(vs, depth) && AllNested(ws, depth)
    ensures ElementsEqual(vs, ws, depth) <==>
      |vs| == |ws| && forall i :: 0 <= i < |vs| ==> ValueEquals(vs[i], ws[i], depth)
    decreases |vs|
  {
    if |vs| == |ws| && vs != [] {
      ElementsEqualPairwise(vs[1..], ws[1..], depth);
      assert forall i :: 1 <= i < |vs| ==> vs[1..][i - 1] == vs[i] && ws[1..][i - 1] == ws[i];
    }
  }

  /** `equals` is symmetric. */
  lemma {:induction false} ValueEqualsSymmetric(v: Value, w: Value, depth: nat)
    requires Nested(v, depth) && Nested(w, depth)
    ensures ValueEquals(v, w, depth) == ValueEquals(w, v, depth)
    decreases depth, 0
  {
    if v.Arr? && w.Arr? && v.ref != w.ref {
      ElementsEqualSymmetric(v.ref.values[..], w.ref.values[..], depth - 1);
    }
  }

  lemma {:induction false} ElementsEqualSymmetric(vs: seq<Value>, ws: seq<Value>, depth: nat)
    requires AllNested(vs, depth) && AllNested(ws, depth)
    ensures ElementsEqual(vs, ws, depth) == ElementsEqual(ws, vs, depth)
    decreases depth, 1, |vs|
  {
    if |vs| == |ws| && vs != [] {
      ValueEqualsSymmetric(vs[0], ws[0], depth);
      ElementsEqualSymmetric(vs[1..], ws[1..], depth);
    }
  }
}
