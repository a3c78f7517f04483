/**
  Composition (`then`) and `modify`: how a composed lens reads and writes
  through its outer and inner lenses, the optional short-circuit, the path
  labels, when `then` is and is not associative, and when `modify` calls its
  transform.
*/
module CompositionLaws {
  import opened Wrappers
  import opened Values
  import opened Lenses

  // ---------------------------------------------------------------------
  // then
  // ---------------------------------------------------------------------

  /** A composite read whose outer read fails reports the outer failure. */
  lemma ThenGetOuterFails(a: Lens, b: Lens, obj: Value)
    requires Get(a, obj).Failure?
    ensures Get(Then(a, b), obj) == Get(a, obj)
  {
    assert Getter(Then(a, b), obj) == Failure(Wrapped(Get(a, obj).error));
  }

  /** Unless the short-circuit applies, a composite read is the inner read of the outer result. */
  lemma ThenGetThrough(a: Lens, b: Lens, obj: Value, x: Value)
    requires Get(a, obj) == Success(x) && !(IsOptional(a) && IsNullish(x))
    ensures Get(Then(a, b), obj) == Get(b, x)
  {
    assert Getter(Then(a, b), obj) == Rethrow(Get(b, x));
  }

  /** A composite write whose outer read fails is a set-failure with the outer cause and the value. */
  lemma ThenSetOuterFails(a: Lens, b: Lens, obj: Value, v: Value)
    requires Get(a, obj).Failure?
    ensures Set(Then(a, b), obj, v) == Failure(LensFailure(SetOp, Get(a, obj).error.cause, Some(v)))
  {
    assert Setter(Then(a, b), obj, v) == Failure(Wrapped(Get(a, obj).error));
  }

  /** A composite write whose inner write fails reports the inner failure unchanged. */
  lemma ThenSetInnerFails(a: Lens, b: Lens, obj: Value, v: Value, parent: Value)
    requires Get(a, obj) == Success(parent) && !(IsOptional(a) && IsNullish(parent))
    requires Set(b, parent, v).Failure?
    ensures Set(Then(a, b), obj, v) == Set(b, parent, v)
  {
    assert Setter(Then(a, b), obj, v) == Failure(Wrapped(Set(b, parent, v).error));
  }

  /** A composite write whose inner and outer writes succeed is the outer write of the new parent. */
  lemma ThenSetThrough(a: Lens, b: Lens, obj: Value, v: Value, parent: Value, newParent: Value)
    requires Get(a, obj) == Success(parent) && !(IsOptional(a) && IsNullish(parent))
    requires Set(b, parent, v) == Success(newParent) && Set(a, obj, newParent).Success?
    ensures Set(Then(a, b), obj, v) == Set(a, obj, newParent)
  {
    assert Setter(Then(a, b), obj, v) == Rethrow(Set(a, obj, newParent));
  }

  /** A composite write whose outer write of the new parent fails reports that failure's cause with the
      value `v`, not the new parent. */
  lemma ThenSetOuterWriteFails(a: Lens, b: Lens, obj: Value, v: Value, parent: Value, newParent: Value)
    requires Get(a, obj) == Success(parent) && !(IsOptional(a) && IsNullish(parent))
    requires Set(b, parent, v) == Success(newParent) && Set(a, obj, newParent).Failure?
    ensures Set(Then(a, b), obj, v) == Failure(LensFailure(SetOp, Set(a, obj, newParent).error.cause, Some(v)))
  {
    assert Setter(Then(a, b), obj, v) == Rethrow(Set(a, obj, newParent));
  }

  /** Behind an optional outer lens whose value is absent, a composed lens reads undefined, writes
      nothing and never calls a `modify` transform. */
  lemma OptionalShortCircuit(a: Lens, b: Lens, obj: Value, v: Value)
    requires IsOptional(a) && Get(a, obj).Success? && IsNullish(Get(a, obj).value)
    ensures Get(Then(a, b), obj) == Success(Undefined)
    ensures Set(Then(a, b), obj, v) == Success(obj)
    ensures !TransformRuns(Then(a, b), obj)
    ensures forall f :: Modify(Then(a, b), obj, f) == Success(obj)
  {
  }

  /** Reading back through a composed lens what was just written through it gives the written value,
      when each side does so on its own. */
  lemma ThenPutGet(a: Lens, b: Lens, obj: Value, v: Value, parent: Value, newParent: Value, newObj: Value)
    requires Get(a, obj) == Success(parent) && !(IsOptional(a) && IsNullish(parent))
    requires Set(b, parent, v) == Success(newParent) && Get(b, newParent) == Success(v)
    requires Set(a, obj, newParent) == Success(newObj) && Get(a, newObj) == Success(newParent)
    requires !(IsOptional(a) && IsNullish(newParent))
    ensures Set(Then(a, b), obj, v) == Success(newObj)
    ensures Get(Then(a, b), newObj) == Success(v)
  {
    ThenSetThrough(a, b, obj, v, parent, newParent);
    ThenGetThrough(a, b, newObj, newParent);
  }

  /** Get-put for a composite follows from get-put on each side: writing back what the composite read
      returns the root. */
  lemma ThenGetPut(a: Lens, b: Lens, obj: Value, x: Value, y: Value)
    requires Get(a, obj) == Success(x) && !(IsOptional(a) && IsNullish(x))
    requires Get(b, x) == Success(y) && Set(b, x, y) == Success(x)
    requires Set(a, obj, x) == Success(obj)
    ensures Get(Then(a, b), obj) == Success(y)
    ensures Set(Then(a, b), obj, y) == Success(obj)
  {
    ThenGetThrough(a, b, obj, x);
    ThenSetThrough(a, b, obj, y, x, x);
  }

  // ---------------------------------------------------------------------
  // Path labels
  // ---------------------------------------------------------------------

  lemma {:induction false} JoinSnoc(parts: seq<string>, sep: string, last: string)
    requires |parts| >= 1
    ensures Join(parts + [last], sep) == Join(parts, sep) + sep + last
  {
    if |parts| > 1 {
      assert (parts + [last])[1..] == parts[1..] + [last];
      JoinSnoc(parts[1..], sep, last);
    }
  }

  /** `a.then(b).toString()` extends `a.toString()` by one arrow and `b`'s `to` label. */
  lemma DescribeThen(a: Lens, b: Lens)
    ensures Describe(Then(a, b)) == Describe(a) + " -> " + To(b)
  {
    JoinSnoc(From(a), " -> ", To(a));
  }

  // ---------------------------------------------------------------------
  // Associativity
  // ---------------------------------------------------------------------

  /** Regrouping a chain does not change `get` as long as the first lens is not optional. */
  lemma ThenAssociativeGet(a: Lens, b: Lens, c: Lens, obj: Value)
    requires !IsOptional(a)
    ensures Get(Then(Then(a, b), c), obj) == Get(Then(a, Then(b, c)), obj)
  {
    if Get(a, obj).Failure? {
      ThenGetOuterFails(a, b, obj);
      ThenGetOuterFails(Then(a, b), c, obj);
      ThenGetOuterFails(a, Then(b, c), obj);
    } else {
      RegroupedGet(a, b, c, obj, Get(a, obj).value);
    }
  }

  lemma RegroupedGet(a: Lens, b: Lens, c: Lens, obj: Value, x: Value)
    requires !IsOptional(a) && Get(a, obj) == Success(x)
    ensures Get(Then(Then(a, b), c), obj) == Get(Then(a, Then(b, c)), obj)
  {
    ThenGetThrough(a, Then(b, c), obj, x);
    assert Get(Then(a, Then(b, c)), obj) == Get(Then(b, c), x);
    ThenGetThrough(a, b, obj, x);
    assert Get(Then(a, b), obj) == Get(b, x);
    if Get(b, x).Failure? {
      ThenGetOuterFails(Then(a, b), c, obj);
      ThenGetOuterFails(b, c, x);
    } else {
      var y := Get(b, x).value;
      if IsOptional(b) && IsNullish(y) {
        OptionalShortCircuit(Then(a, b), c, obj, Undefined);
        OptionalShortCircuit(b, c, x, Undefined);
      } else {
        ThenGetThrough(Then(a, b), c, obj, y);
        ThenGetThrough(b, c, x, y);
      }
    }
  }

  /** Regrouping a chain does not change `set` as long as neither of the first two lenses is optional. */
  lemma ThenAssociativeSet(a: Lens, b: Lens, c: Lens, obj: Value, v: Value)
    requires !IsOptional(a) && !IsOptional(b)
    ensures Set(Then(Then(a, b), c), obj, v) == Set(Then(a, Then(b, c)), obj, v)
  {
    if Get(a, obj).Failure? {
      RegroupedSetOuterFails(a, b, c, obj, v);
    } else if Get(b, Get(a, obj).value).Failure? {
      RegroupedSetMiddleFails(a, b, c, obj, v, Get(a, obj).value);
    } else {
      var x := Get(a, obj).value;
      var y := Get(b, x).value;
      if Set(c, y, v).Failure? {
        RegroupedSetInnerFails(a, b, c, obj, v, x, y);
      } else {
        RegroupedSetThrough(a, b, c, obj, v, x, y, Set(c, y, v).value);
      }
    }
  }

  lemma RegroupedSetOuterFails(a: Lens, b: Lens, c: Lens, obj: Value, v: Value)
    requires Get(a, obj).Failure?
    ensures Set(Then(Then(a, b), c), obj, v) == Set(Then(a, Then(b, c)), obj, v)
  {
    ThenGetOuterFails(a, b, obj);
    ThenSetOuterFails(Then(a, b), c, obj, v);
    ThenSetOuterFails(a, Then(b, c), obj, v);
  }

  lemma RegroupedSetMiddleFails(a: Lens, b: Lens, c: Lens, obj: Value, v: Value, x: Value)
    requires !IsOptional(a) && Get(a, obj) == Success(x) && Get(b, x).Failure?
    ensures Set(Then(Then(a, b), c), obj, v) == Set(Then(a, Then(b, c)), obj, v)
  {
    ThenGetThrough(a, b, obj, x);
    ThenSetOuterFails(Then(a, b), c, obj, v);
    ThenSetOuterFails(b, c, x, v);
    ThenSetInnerFails(a, Then(b, c), obj, v, x);
  }

  lemma RegroupedSetInnerFails(a: Lens, b: Lens, c: Lens, obj: Value, v: Value, x: Value, y: Value)
    requires !IsOptional(a) && !IsOptional(b) && Get(a, obj) == Success(x) && Get(b, x) == Success(y)
    requires Set(c, y, v).Failure?
    ensures Set(Then(Then(a, b), c), obj, v) == Set(Then(a, Then(b, c)), obj, v)
  {
    ThenGetThrough(a, b, obj, x);
    ThenSetInnerFails(Then(a, b), c, obj, v, y);
    ThenSetInnerFails(b, c, x, v, y);
    ThenSetInnerFails(a, Then(b, c), obj, v, x);
  }

  lemma RegroupedSetThrough(a: Lens, b: Lens, c: Lens, obj: Value, v: Value, x: Value, y: Value, z: Value)
    requires !IsOptional(a) && !IsOptional(b) && Get(a, obj) == Success(x) && Get(b, x) == Success(y)
    requires Set(c, y, v) == Success(z)
    ensures Set(Then(Then(a, b), c), obj, v) == Set(Then(a, Then(b, c)), obj, v)
  {
    if Set(b, x, z).Failure? {
      RegroupedSetMiddleWriteFails(a, b, c, obj, v, x, y, z);
    } else if Set(a, obj, Set(b, x, z).value).Failure? {
      RegroupedSetOuterWriteFails(a, b, c, obj, v, x, y, z, Set(b, x, z).value);
    } else {
      RegroupedSetAllWrite(a, b, c, obj, v, x, y, z, Set(b, x, z).value);
    }
  }

  lemma RegroupedSetMiddleWriteFails(a: Lens, b: Lens, c: Lens, obj: Value, v: Value, x: Value, y: Value, z: Value)
    requires !IsOptional(a) && !IsOptional(b) && Get(a, obj) == Success(x) && Get(b, x) == Success(y)
    requires Set(c, y, v) == Success(z) && Set(b, x, z).Failure?
    ensures Set(Then(Then(a, b), c), obj, v) == Set(Then(a, Then(b, c)), obj, v)
  {
    ThenGetThrough(a, b, obj, x);
    ThenSetInnerFails(a, b, obj, z, x);
    ThenSetOuterWriteFails(Then(a, b), c, obj, v, y, z);
    ThenSetOuterWriteFails(b, c, x, v, y, z);
    ThenSetInnerFails(a, Then(b, c), obj, v, x);
  }

  lemma RegroupedSetOuterWriteFails(a: Lens, b: Lens, c: Lens, obj: Value, v: Value, x: Value, y: Value, z: Value,
                                    w: Value)
    requires !IsOptional(a) && !IsOptional(b) && Get(a, obj) == Success(x) && Get(b, x) == Success(y)
    requires Set(c, y, v) == Success(z) && Set(b, x, z) == Success(w) && Set(a, obj, w).Failure?
    ensures Set(Then(Then(a, b), c), obj, v) == Set(Then(a, Then(b, c)), obj, v)
  {
    var cause := Set(a, obj, w).error.cause;
    ThenGetThrough(a, b, obj, x);
    ThenSetOuterWriteFails(a, b, obj, z, x, w);
    assert Set(Then(a, b), obj, z) == Failure(LensFailure(SetOp, cause, Some(z)));
    ThenSetOuterWriteFails(Then(a, b), c, obj, v, y, z);
    assert Set(Then(Then(a, b), c), obj, v) == Failure(LensFailure(SetOp, cause, Some(v)));
    ThenSetThrough(b, c, x, v, y, z);
    assert Set(Then(b, c), x, v) == Success(w);
    ThenSetOuterWriteFails(a, Then(b, c), obj, v, x, w);
  }

  lemma RegroupedSetAllWrite(a: Lens, b: Lens, c: Lens, obj: Value, v: Value, x: Value, y: Value, z: Value,
                             w: Value)
    requires !IsOptional(a) && !IsOptional(b) && Get(a, obj) == Success(x) && Get(b, x) == Success(y)
    requires Set(c, y, v) == Success(z) && Set(b, x, z) == Success(w) && Set(a, obj, w).Success?
    ensures Set(Then(Then(a, b), c), obj, v) == Set(Then(a, Then(b, c)), obj, v)
  {
    ThenGetThrough(a, b, obj, x);
    ThenSetThrough(a, b, obj, z, x, w);
    assert Set(Then(a, b), obj, z) == Set(a, obj, w);
    ThenSetThrough(Then(a, b), c, obj, v, y, z);
    assert Set(Then(Then(a, b), c), obj, v) == Set(a, obj, w);
    ThenSetThrough(b, c, x, v, y, z);
    assert Set(Then(b, c), x, v) == Success(w);
    ThenSetThrough(a, Then(b, c), obj, v, x, w);
  }

  /** With an optional first lens regrouping changes `get`: for `pi("a")`, `p("b")`, `p("c")` on
      `{a: {}}` the left-nested chain reads undefined while the right-nested one throws reading `c`
      of undefined. */
  lemma ThenNotAssociativeWhenOuterOptional()
    ensures var a, b, c := Pi(Name("a"), Undefined), Prop(Name("b"), false), Prop(Name("c"), false);
      var obj := Obj(map["a" := Obj(map[])]);
      && Get(Then(Then(a, b), c), obj) == Success(Undefined)
      && Get(Then(a, Then(b, c)), obj) == Failure(LensFailure(GetOp, ReadFromNullish("c"), None))
  {
    var a, b, c := Pi(Name("a"), Undefined), Prop(Name("b"), false), Prop(Name("c"), false);
    var obj := Obj(map["a" := Obj(map[])]);
    assert Get(a, obj) == Success(Obj(map[]));
    assert Get(b, Obj(map[])) == Success(Undefined);
    assert Get(Then(a, b), obj) == Success(Undefined);
    assert Get(Then(b, c), Obj(map[])) == Failure(LensFailure(GetOp, ReadFromNullish("c"), None));
  }

  /** With an optional middle lens regrouping changes `set` even when the first lens is not optional: for
      `find(isObject)`, `pi("k")`, `p("z")` on `[{x: 1}, {x: 2}]` the left-nested chain stops at the
      absent `k` and returns the root, while the right-nested one writes the found element back through
      `find`, which replaces every object with it. */
  lemma ThenSetNotAssociativeWhenMiddleOptional(v: Value)
    ensures var a, b, c := Find((e: Value) => e.Obj?), Pi(Name("k"), Undefined), Prop(Name("z"), false);
      var first, second := Obj(map["x" := Prim(Num(1))]), Obj(map["x" := Prim(Num(2))]);
      && !IsOptional(a)
      && Set(Then(Then(a, b), c), Arr([first, second]), v) == Success(Arr([first, second]))
      && Set(Then(a, Then(b, c)), Arr([first, second]), v) == Success(Arr([first, first]))
  {
    var a, b, c := Find((e: Value) => e.Obj?), Pi(Name("k"), Undefined), Prop(Name("z"), false);
    var first, second := Obj(map["x" := Prim(Num(1))]), Obj(map["x" := Prim(Num(2))]);
    var obj := Arr([first, second]);
    assert Filter([first, second][1..], (e: Value) => e.Obj?) == [second];
    assert Get(a, obj) == Success(first);
    assert Get(b, first) == Success(Undefined);
    assert Get(Then(a, b), obj) == Success(Undefined);
    assert Set(Then(b, c), first, v) == Success(first);
    assert ReplaceWhere([first, second], (e: Value) => e.Obj?, first) == [first, first];
    assert Set(a, obj, first) == Success(Arr([first, first]));
  }

  /** Regrouping always changes the path: the right-nested chain drops the middle lens's `to` label. */
  lemma ThenRegroupedPathsDiffer(a: Lens, b: Lens, c: Lens)
    ensures From(Then(Then(a, b), c)) == From(a) + [To(a), To(b)]
    ensures From(Then(a, Then(b, c))) == From(a) + [To(a)]
  {
  }

  // ---------------------------------------------------------------------
  // modify
  // ---------------------------------------------------------------------

  /** `modify` fails as `get` does, returns `obj` when the optional short-circuit applies, and is
      otherwise `set(obj, f(get(obj)))`. */
  lemma ModifyCases(l: Lens, obj: Value, f: Value -> Value)
    ensures Get(l, obj).Failure? ==> Modify(l, obj, f) == Failure(Get(l, obj).error)
    ensures Get(l, obj).Success? && !TransformRuns(l, obj) ==> Modify(l, obj, f) == Success(obj)
    ensures TransformRuns(l, obj) ==> Modify(l, obj, f) == Set(l, obj, f(Get(l, obj).value))
  {
  }

  /** When the transform does not run, the result cannot depend on it. */
  lemma ModifyIgnoresTransform(l: Lens, obj: Value, f: Value -> Value, g: Value -> Value)
    requires !TransformRuns(l, obj)
    ensures Modify(l, obj, f) == Modify(l, obj, g)
  {
  }

  /** The short-circuit looks at the current value, leaf included: `pi("count")` on an object whose
      `count` is undefined returns the object unchanged and never calls the transform. */
  lemma ModifyOptionalLeafAbsent(f: Value -> Value)
    ensures var obj := Obj(map["b" := Prim(Str("world")), "count" := Undefined]);
      && !TransformRuns(Pi(Name("count"), Undefined), obj)
      && Modify(Pi(Name("count"), Undefined), obj, f) == Success(obj)
  {
    var obj := Obj(map["b" := Prim(Str("world")), "count" := Undefined]);
    assert Get(Pi(Name("count"), Undefined), obj) == Success(Undefined);
  }

  /** The same holds below an optional step: `p("a").pi("b").p("c")` on `{a: {b: {}}}` is optional as a
      whole, reads undefined, and `modify` returns the root without calling the transform. */
  lemma ModifyOptionalChainLeafAbsent(f: Value -> Value)
    ensures var l := Then(Then(Prop(Name("a"), false), Pi(Name("b"), Undefined)), Prop(Name("c"), false));
      var obj := Obj(map["a" := Obj(map["b" := Obj(map[])])]);
      && IsOptional(l)
      && Get(l, obj) == Success(Undefined)
      && Modify(l, obj, f) == Success(obj)
  {
    var ab := Then(Prop(Name("a"), false), Pi(Name("b"), Undefined));
    var l := Then(ab, Prop(Name("c"), false));
    var obj := Obj(map["a" := Obj(map["b" := Obj(map[])])]);
    assert Get(Prop(Name("a"), false), obj) == Success(Obj(map["b" := Obj(map[])]));
    assert Get(ab, obj) == Success(Obj(map[]));
    assert Get(l, obj) == Success(Undefined);
  }
}
