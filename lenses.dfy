/**
  The `Lens` primitive: a getter/setter pair over values with a path label and
  an optional flag, built by the factories (`propKey`, `index`, `find`,
  `findBy`, the `pi` step of the builders, the builders' identity lens) and
  by composition (`then`). A lens is a tree: `Composite(outer, inner)` is
  `outer.then(inner)`, and each node's getter and setter are the closures the
  source builds for it. Every `Get` and `Set` goes through `Catch`, the
  constructor's try/catch that tags a failure with the operation and keeps
  only the innermost cause.
*/
module Lenses {
  import opened Wrappers
  import opened Values

  datatype Lens =
    | Identity                                      // `(s) => s`, `(s, v) => v`, labelled "obj"
    | Prop(key: Key, optional: bool)                // `propKey(key)`; `pi(key)` sets the flag
    | Fallback(base: Lens, fallback: Value)         // `pi(key, fallback)`: getter `base.get(s) ?? fallback`
    | Index(index: int)                             // `index(n)`
    | Find(pred: Value -> bool)                     // `find(cb)`
    | FindBy(field: Key, target: Scalar, reverse: bool)  // `findBy(key, value, isReverse)`
    | Composite(outer: Lens, inner: Lens)           // `outer.then(inner)`

  datatype Op = GetOp | SetOp

  /** A `LensError`: the operation that failed, its innermost cause and, for `set`, the value being written. */
  datatype LensFailure = LensFailure(op: Op, cause: Cause, value: Option<Value>)

  /** What a raw getter or setter throws: a plain error, or a `LensError` from a lens it called. */
  datatype Thrown = Raw(cause: Cause) | Wrapped(failure: LensFailure)

  /** `e instanceof LensError ? e.err : e`. */
  function Innermost(t: Thrown): Cause {
    match t
    case Raw(c) => c
    case Wrapped(f) => f.cause
  }

  /** The try/catch the constructor puts around a raw getter or setter. */
  function Catch(op: Op, r: Result<Value, Thrown>, value: Option<Value>): Result<Value, LensFailure> {
    match r
    case Success(x) => Success(x)
    case Failure(t) => Failure(LensFailure(op, Innermost(t), value))
  }

  /** However many lenses re-throw a failure, it keeps the cause first thrown: the wrapping is never
      nested, and the outermost lens only contributes its operation and value. */
  lemma CatchKeepsRootCause(c: Cause, op1: Op, v1: Option<Value>, op2: Op, v2: Option<Value>)
    ensures Catch(op1, Failure(Raw(c)), v1) == Failure(LensFailure(op1, c, v1))
    ensures Catch(op2, Rethrow(Catch(op1, Failure(Raw(c)), v1)), v2) == Failure(LensFailure(op2, c, v2))
  {
  }

  /** A failure of a lens called from inside another lens's closure, as that closure sees it. */
  function Rethrow(r: Result<Value, LensFailure>): Result<Value, Thrown> {
    match r
    case Success(x) => Success(x)
    case Failure(f) => Failure(Wrapped(f))
  }

  function Throw(r: Result<Value, Cause>): Result<Value, Thrown> {
    match r
    case Success(x) => Success(x)
    case Failure(c) => Failure(Raw(c))
  }

  // ---------------------------------------------------------------------
  // Flag and path labels
  // ---------------------------------------------------------------------

  /** `_optional`: set by `pi` without a fallback and OR-ed through `then`. */
  predicate IsOptional(l: Lens) {
    match l
    case Prop(_, optional) => optional
    case Composite(outer, inner) => IsOptional(outer) || IsOptional(inner)
    case _ => false
  }

  /** The `to` label. */
  function To(l: Lens): string {
    match l
    case Identity => "obj"
    case Prop(key, _) => KeyName(key)
    case Fallback(base, _) => To(base)
    case Index(n) => IntText(n)
    case Find(_) => "find()"
    case FindBy(field, target, _) => KeyName(field) + " == " + ValueText(target)
    case Composite(_, inner) => To(inner)
  }

  /** The `from` labels. */
  function From(l: Lens): (r: seq<string>)
    ensures |r| >= 1
  {
    match l
    case Fallback(base, _) => From(base)
    case Composite(outer, _) => From(outer) + [To(outer)]
    case _ => ["obj"]
  }

  /** `toString()`: the `from` labels and the `to` label joined by arrows. */
  function Describe(l: Lens): string {
    Join(From(l), " -> ") + " -> " + To(l)
  }

  // ---------------------------------------------------------------------
  // Construction
  // ---------------------------------------------------------------------

  /** `outer.then(inner)`: optional when either side is, labelled by the outer path and the inner `to`. */
  function Then(outer: Lens, inner: Lens): (r: Lens)
    ensures IsOptional(r) <==> IsOptional(outer) || IsOptional(inner)
    ensures From(r) == From(outer) + [To(outer)]
    ensures To(r) == To(inner)
  {
    Composite(outer, inner)
  }

  /** The lens the builders' `pi(key, fallback?)` step adds: a fallback lens when a fallback other than
      `undefined` is given, an optional property lens otherwise. */
  function Pi(key: Key, fallback: Value): (r: Lens)
    ensures IsOptional(r) <==> fallback == Undefined
    ensures From(r) == ["obj"] && To(r) == KeyName(key)
  {
    if fallback != Undefined then Fallback(Prop(key, false), fallback) else Prop(key, true)
  }

  // ---------------------------------------------------------------------
  // findBy's element test and search
  // ---------------------------------------------------------------------

  /** `e[key] === value`; throws when `e` is null or undefined. */
  function MatchesAt(e: Value, field: Key, target: Scalar): Result<bool, Cause> {
    match Member(e, field)
    case Failure(c) => Failure(c)
    case Success(x) => Success(x == target)
  }

  /** The same test as a total predicate, false on null and undefined: an absent field or position,
      and any property of a primitive, reads as undefined. */
  predicate IsHit(e: Value, field: Key, target: Scalar) {
    match e
    case Undefined => false
    case Null => false
    case Prim(_) => target == Undefined
    case Obj(fields) => (if KeyName(field) in fields then fields[KeyName(field)] else Undefined) == target
    case Arr(items) => (if field.Pos? && 0 <= field.pos < |items| then items[field.pos] else Undefined) == target
  }

  /** `IsHit` as the callback `filter` is given. */
  function Hits(field: Key, target: Scalar): Value -> bool {
    e => IsHit(e, field, target)
  }

  /** `a.filter((e) => e[key] === value)`: the callback runs on every element, so any nullish element throws. */
  function FilterBy(a: seq<Value>, field: Key, target: Scalar): Result<seq<Value>, Cause> {
    if a == [] then Success([])
    else
      match MatchesAt(a[0], field, target)
      case Failure(c) => Failure(c)
      case Success(hit) =>
        match FilterBy(a[1..], field, target)
        case Failure(c) => Failure(c)
        case Success(rest) => Success(if hit then [a[0]] + rest else rest)
  }

  /** The forward loop of the setter from position `i` on: the first hit, or -1. */
  function LocateFrom(a: seq<Value>, field: Key, target: Scalar, i: nat): Result<int, Cause>
    decreases |a| - i
  {
    if i >= |a| then Success(-1)
    else
      match MatchesAt(a[i], field, target)
      case Failure(c) => Failure(c)
      case Success(hit) => if hit then Success(i) else LocateFrom(a, field, target, i + 1)
  }

  /** The reverse loop of the setter over positions below `i`: the last hit, or -1. */
  function LocateBefore(a: seq<Value>, field: Key, target: Scalar, i: nat): Result<int, Cause>
    requires i <= |a|
  {
    if i == 0 then Success(-1)
    else
      match MatchesAt(a[i - 1], field, target)
      case Failure(c) => Failure(c)
      case Success(hit) => if hit then Success(i - 1) else LocateBefore(a, field, target, i - 1)
  }

  /** The `index` the findBy setter settles on. */
  function Locate(a: seq<Value>, field: Key, target: Scalar, reverse: bool): Result<int, Cause> {
    if reverse then LocateBefore(a, field, target, |a|) else LocateFrom(a, field, target, 0)
  }

  /** The findBy setter's search loops, with their early `break`. */
  method LocateMatch(a: seq<Value>, field: Key, target: Scalar, reverse: bool)
    returns (r: Result<int, Cause>)
    ensures r == Locate(a, field, target, reverse)
  {
    var index := -1;
    if reverse {
      var i := |a| - 1;
      while i >= 0
        invariant -1 <= i < |a|
        invariant index == -1
        invariant Locate(a, field, target, true) == LocateBefore(a, field, target, i + 1)
      {
        var m := MatchesAt(a[i], field, target);
        if m.Failure? {
          return Failure(m.error);
        }
        if m.value {
          index := i;
          break;
        }
        i := i - 1;
      }
    } else {
      var i := 0;
      while i < |a|
        invariant 0 <= i <= |a|
        invariant index == -1
        invariant Locate(a, field, target, false) == LocateFrom(a, field, target, i)
      {
        var m := MatchesAt(a[i], field, target);
        if m.Failure? {
          return Failure(m.error);
        }
        if m.value {
          index := i;
          break;
        }
        i := i + 1;
      }
    }
    r := Success(index);
  }

  // ---------------------------------------------------------------------
  // get, set, modify
  // ---------------------------------------------------------------------

  /** `lens.get(obj)`. */
  function Get(l: Lens, obj: Value): Result<Value, LensFailure>
    decreases l, 1
  {
    Catch(GetOp, Getter(l, obj), None)
  }

  /** The getter closure each factory, `pi` and `then` build. */
  function Getter(l: Lens, obj: Value): Result<Value, Thrown>
    decreases l, 0
  {
    match l
    case Identity => Success(obj)
    case Prop(key, _) => Throw(Member(obj, key))
    case Fallback(base, fallback) =>
      (match Get(base, obj)
       case Failure(f) => Failure(Wrapped(f))
       case Success(x) => Success(if IsNullish(x) then fallback else x))
    case Index(n) => Throw(Member(obj, Pos(n)))
    case Find(p) =>
      if obj.Arr? then
        var hits := Filter(obj.items, p);
        Success(if hits == [] then Undefined else hits[0])
      else Failure(Raw(MissingMethod(obj, "filter")))
    case FindBy(field, target, reverse) =>
      if obj.Arr? then
        (match FilterBy(obj.items, field, target)
         case Failure(c) => Failure(Raw(c))
         case Success(hits) =>
           Success(if hits == [] then Undefined else if reverse then hits[|hits| - 1] else hits[0]))
      else Failure(Raw(MissingMethod(obj, "filter")))
    case Composite(outer, inner) =>
      match Get(outer, obj)
      case Failure(f) => Failure(Wrapped(f))
      case Success(next) =>
        if IsOptional(outer) && IsNullish(next) then Success(Undefined)
        else Rethrow(Get(inner, next))
  }

  /** `lens.set(obj, value)`. */
  function Set(l: Lens, obj: Value, v: Value): Result<Value, LensFailure>
    decreases l, 1
  {
    Catch(SetOp, Setter(l, obj, v), Some(v))
  }

  /** The setter closure each factory, `pi` and `then` build. */
  function Setter(l: Lens, obj: Value, v: Value): Result<Value, Thrown>
    decreases l, 0
  {
    match l
    case Identity => Success(v)
    case Prop(key, _) => Success(PropWrite(obj, key, v))
    case Fallback(base, _) => Rethrow(Set(base, obj, v))
    case Index(n) =>
      if obj.Arr? then Success(Arr(ReplaceAt(obj.items, n, v)))
      else Failure(Raw(MissingMethod(obj, "map")))
    case Find(p) =>
      if obj.Arr? then Success(Arr(ReplaceWhere(obj.items, p, v)))
      else Failure(Raw(MissingMethod(obj, "map")))
    case FindBy(field, target, reverse) =>
      if obj.Arr? then
        (match Locate(obj.items, field, target, reverse)
         case Failure(c) => Failure(Raw(c))
         case Success(index) => Success(Arr(ReplaceAt(obj.items, index, v))))
      else if IsNullish(obj) then Failure(Raw(ReadFromNullish("length")))
      else Failure(Raw(NotCallable("map")))
    case Composite(outer, inner) =>
      match Get(outer, obj)
      case Failure(f) => Failure(Wrapped(f))
      case Success(parent) =>
        if IsOptional(outer) && IsNullish(parent) then Success(obj)
        else
          match Set(inner, parent, v)
          case Failure(f) => Failure(Wrapped(f))
          case Success(newParent) => Rethrow(Set(outer, obj, newParent))
  }

  /** `lens.modify(obj, f)`: an optional lens whose current value is null or undefined returns `obj`
      without calling `f`. */
  function Modify(l: Lens, obj: Value, f: Value -> Value): Result<Value, LensFailure> {
    if IsOptional(l) then
      match Get(l, obj)
      case Failure(e) => Failure(e)
      case Success(current) => if IsNullish(current) then Success(obj) else Set(l, obj, f(current))
    else
      match Get(l, obj)
      case Failure(e) => Failure(e)
      case Success(current) => Set(l, obj, f(current))
  }

  /** A failed `get` is tagged as a get without a value; a failed `set` as a set with the value written. */
  lemma FailureTags(l: Lens, obj: Value, v: Value)
    ensures Get(l, obj).Failure? ==> Get(l, obj).error.op == GetOp && Get(l, obj).error.value == None
    ensures Set(l, obj, v).Failure? ==> Set(l, obj, v).error.op == SetOp && Set(l, obj, v).error.value == Some(v)
  {
  }

  /** Whether `modify` reaches the transform: the get succeeds and no optional short-circuit applies. */
  predicate TransformRuns(l: Lens, obj: Value) {
    Get(l, obj).Success? && !(IsOptional(l) && IsNullish(Get(l, obj).value))
  }
}
