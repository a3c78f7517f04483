/**
  JSON-like values as the lens engine sees them at run time, with the few
  pieces of JavaScript behaviour the lenses depend on: property reads
  (`s[key]`), object spread (`{ ...s, [key]: v }`), `Array.prototype.map`
  with a positional or predicate test, `Array.prototype.filter`, string
  coercion of labels, and `Array.prototype.join`.
*/
module Values {
  import opened Wrappers

  datatype Primitive = Bool(b: bool) | Num(n: int) | Str(s: string)

  /** A run-time value: `undefined`, `null`, a primitive, a plain object or an array. */
  datatype Value =
    | Undefined
    | Null
    | Prim(prim: Primitive)
    | Obj(fields: map<string, Value>)
    | Arr(items: seq<Value>)

  /** A value `===` compares by value rather than by reference: `undefined`, `null` or a primitive. */
  type Scalar = v: Value | !v.Obj? && !v.Arr? witness Undefined

  /** A property key: a field name (`obj.name`) or a number (`a[3]`). */
  datatype Key = Name(name: string) | Pos(pos: int)

  /** The TypeErrors the factories' getters and setters can throw. */
  datatype Cause =
    | ReadFromNullish(property: string)  // reading a property of null or undefined
    | NotCallable(callee: string)        // calling an array method on a non-array

  /** `v == null`: loose equality with null holds for null and undefined. */
  predicate IsNullish(v: Value) {
    v.Undefined? || v.Null?
  }

  // ---------------------------------------------------------------------
  // String coercion (`${x}`) and `join`
  // ---------------------------------------------------------------------

  function DigitText(d: nat): string
    requires d < 10
  {
    ["0123456789"[d]]
  }

  function NatText(n: nat): string {
    if n < 10 then DigitText(n) else NatText(n / 10) + DigitText(n % 10)
  }

  /** Decimal rendering of an integer, as `${n}` gives it. */
  function IntText(i: int): string {
    if i < 0 then "-" + NatText(-i) else NatText(i)
  }

  /** The property name a key denotes: numbers are coerced to their decimal text. */
  function KeyName(k: Key): string {
    match k
    case Name(n) => n
    case Pos(p) => IntText(p)
  }

  function PrimitiveText(p: Primitive): string {
    match p
    case Bool(b) => if b then "true" else "false"
    case Num(n) => IntText(n)
    case Str(s) => s
  }

  /** `Array.prototype.join(sep)`. */
  function Join(parts: seq<string>, sep: string): string {
    if |parts| == 0 then ""
    else if |parts| == 1 then parts[0]
    else parts[0] + sep + Join(parts[1..], sep)
  }

  /** `${v}`: arrays join their elements with commas, null and undefined elements as empty text. */
  function ValueText(v: Value): string
    decreases v
  {
    match v
    case Undefined => "undefined"
    case Null => "null"
    case Prim(p) => PrimitiveText(p)
    case Obj(_) => "[object Object]"
    case Arr(items) =>
      Join(seq(|items|, i requires 0 <= i < |items| =>
             if IsNullish(items[i]) then "" else ValueText(items[i])), ",")
  }

  // ---------------------------------------------------------------------
  // Property access and copy-on-write updates
  // ---------------------------------------------------------------------

  /** `s[key]`: throws on null and undefined, reads own fields of objects and positions of arrays. */
  function Member(s: Value, key: Key): Result<Value, Cause> {
    match s
    case Undefined => Failure(ReadFromNullish(KeyName(key)))
    case Null => Failure(ReadFromNullish(KeyName(key)))
    case Prim(_) => Success(Undefined)
    case Obj(fields) =>
      var name := KeyName(key);
      Success(if name in fields then fields[name] else Undefined)
    case Arr(items) =>
      if key.Pos? && 0 <= key.pos < |items| then Success(items[key.pos]) else Success(Undefined)
  }

  /** A property read throws exactly on null and undefined, naming the key; otherwise it gives the
      object's field or the array's element, and undefined for anything absent. */
  lemma MemberCases(s: Value, key: Key)
    ensures Member(s, key).Failure? <==> IsNullish(s)
    ensures Member(s, key).Failure? ==> Member(s, key).error == ReadFromNullish(KeyName(key))
    ensures s.Obj? ==>
              Member(s, key) == Success(if KeyName(key) in s.fields then s.fields[KeyName(key)] else Undefined)
    ensures s.Arr? && key.Pos? ==>
              Member(s, key) == Success(if 0 <= key.pos < |s.items| then s.items[key.pos] else Undefined)
    ensures s.Prim? || (s.Arr? && key.Name?) ==> Member(s, key) == Success(Undefined)
  {
  }

  /** The own fields `{ ...s }` copies: an object's fields, nothing for any other value. */
  function Spread(s: Value): map<string, Value> {
    if s.Obj? then s.fields else map[]
  }

  /** `a.map((e, i) => (i === index ? v : e))`. */
  function ReplaceAt(a: seq<Value>, index: int, v: Value): (r: seq<Value>)
    ensures |r| == |a|
    ensures forall i :: 0 <= i < |a| && i != index ==> r[i] == a[i]
    ensures 0 <= index < |a| ==> r[index] == v
    ensures !(0 <= index < |a|) ==> r == a
  {
    seq(|a|, i requires 0 <= i < |a| => if i == index then v else a[i])
  }

  /** `a.map((e) => (p(e) ? v : e))`. */
  function ReplaceWhere(a: seq<Value>, p: Value -> bool, v: Value): seq<Value> {
    seq(|a|, i requires 0 <= i < |a| => if p(a[i]) then v else a[i])
  }

  /** The property setter's copy: position-wise on arrays, field spread on everything else. */
  function PropWrite(s: Value, key: Key, v: Value): Value {
    if s.Arr? then Arr(if key.Pos? then ReplaceAt(s.items, key.pos, v) else s.items)
    else Obj(Spread(s)[KeyName(key) := v])
  }

  /** The TypeError raised by `s.callee(...)` when `s` is not an array. */
  function MissingMethod(s: Value, callee: string): Cause {
    if IsNullish(s) then ReadFromNullish(callee) else NotCallable(callee)
  }

  // ---------------------------------------------------------------------
  // Searching with a total predicate
  // ---------------------------------------------------------------------

  /** `a.filter(p)`. */
  function Filter(a: seq<Value>, p: Value -> bool): seq<Value> {
    if a == [] then []
    else if p(a[0]) then [a[0]] + Filter(a[1..], p)
    else Filter(a[1..], p)
  }

  /** Position of the first element satisfying `p`, or -1. */
  function FirstIndex(a: seq<Value>, p: Value -> bool): (k: int)
    ensures -1 <= k < |a|
  {
    if a == [] then -1
    else if p(a[0]) then 0
    else
      var k := FirstIndex(a[1..], p);
      if k < 0 then -1 else k + 1
  }

  /** Position of the last element satisfying `p`, or -1. */
  function LastIndex(a: seq<Value>, p: Value -> bool): (k: int)
    ensures -1 <= k < |a|
  {
    if a == [] then -1
    else
      var k := LastIndex(a[1..], p);
      if k >= 0 then k + 1 else if p(a[0]) then 0 else -1
  }

  /** `k` is the first position satisfying `p`, or -1 when no position does. */
  ghost predicate IsFirst(a: seq<Value>, p: Value -> bool, k: int) {
    || (k == -1 && forall j :: 0 <= j < |a| ==> !p(a[j]))
    || (0 <= k < |a| && p(a[k]) && forall j :: 0 <= j < k ==> !p(a[j]))
  }

  /** `k` is the last position satisfying `p`, or -1 when no position does. */
  ghost predicate IsLast(a: seq<Value>, p: Value -> bool, k: int) {
    || (k == -1 && forall j :: 0 <= j < |a| ==> !p(a[j]))
    || (0 <= k < |a| && p(a[k]) && forall j :: k < j < |a| ==> !p(a[j]))
  }

  /** At most one position is the first match. */
  lemma FirstUnique(a: seq<Value>, p: Value -> bool, k1: int, k2: int)
    requires IsFirst(a, p, k1) && IsFirst(a, p, k2)
    ensures k1 == k2
  {
  }

  /** At most one position is the last match. */
  lemma LastUnique(a: seq<Value>, p: Value -> bool, k1: int, k2: int)
    requires IsLast(a, p, k1) && IsLast(a, p, k2)
    ensures k1 == k2
  {
  }

  lemma {:induction false} FirstIndexIsFirst(a: seq<Value>, p: Value -> bool)
    ensures IsFirst(a, p, FirstIndex(a, p))
  {
    if a != [] && !p(a[0]) {
      FirstIndexIsFirst(a[1..], p);
      var k := FirstIndex(a[1..], p);
      var bound := if k < 0 then |a| else k + 1;
      forall j | 0 <= j < bound ensures !p(a[j]) {
        if j > 0 { assert a[j] == a[1..][j - 1]; }
      }
    }
  }

  lemma {:induction false} LastIndexIsLast(a: seq<Value>, p: Value -> bool)
    ensures IsLast(a, p, LastIndex(a, p))
  {
    if a != [] {
      LastIndexIsLast(a[1..], p);
      var k := LastIndex(a[1..], p);
      if k >= 0 {
        assert a[k + 1] == a[1..][k];
        forall j | k + 1 < j < |a| ensures !p(a[j]) { assert a[j] == a[1..][j - 1]; }
      } else {
        forall j | 0 < j < |a| ensures !p(a[j]) { assert a[j] == a[1..][j - 1]; }
      }
    }
  }

  /** The filtered sequence is empty exactly when nothing matches; its ends are the first and last matches. */
  lemma {:induction false} FilterEnds(a: seq<Value>, p: Value -> bool)
    ensures var f := Filter(a, p);
      && (f == [] <==> FirstIndex(a, p) == -1)
      && (f == [] <==> LastIndex(a, p) == -1)
      && (f != [] ==> f[0] == a[FirstIndex(a, p)] && f[|f| - 1] == a[LastIndex(a, p)])
  {
    if a != [] {
      FilterEnds(a[1..], p);
    }
  }
}
