/**
  What each factory's getter and setter do: property lenses on objects and
  arrays, index lenses, `find` (first match on get, every match on set),
  `findBy` (first or last match, the same one on get and set), and the two
  lenses the `pi` step builds.
*/
module FactoryLaws {
  import opened Wrappers
  import opened Values
  import opened Lenses

  // ---------------------------------------------------------------------
  // propKey
  // ---------------------------------------------------------------------

  /** On an object the property setter returns a copy in which only field `key` is (re)bound. */
  lemma PropSetObject(key: Key, optional: bool, fields: map<string, Value>, v: Value)
    ensures Set(Prop(key, optional), Obj(fields), v) == Success(Obj(fields[KeyName(key) := v]))
    ensures var r := Set(Prop(key, optional), Obj(fields), v).value.fields;
      && KeyName(key) in r && r[KeyName(key)] == v
      && forall j :: j != KeyName(key) ==> (j in r <==> j in fields) && (j in fields ==> r[j] == fields[j])
  {
  }

  /** On an array the property setter returns a same-length array that differs at most at position `key`. */
  lemma PropSetArray(key: Key, optional: bool, items: seq<Value>, v: Value)
    ensures Set(Prop(key, optional), Arr(items), v).Success?
    ensures var r := Set(Prop(key, optional), Arr(items), v).value;
      && r.Arr? && |r.items| == |items|
      && forall i :: 0 <= i < |items| ==> r.items[i] == (if key == Pos(i) then v else items[i])
  {
  }

  /** Reading a property back after writing it yields the written value, except on arrays at a name or
      an out-of-range position, where the write changes nothing. */
  lemma PropPutGet(key: Key, optional: bool, obj: Value, v: Value)
    requires !obj.Arr? || (key.Pos? && 0 <= key.pos < |obj.items|)
    ensures Set(Prop(key, optional), obj, v).Success?
    ensures Get(Prop(key, optional), Set(Prop(key, optional), obj, v).value) == Success(v)
  {
    var written := PropWrite(obj, key, v);
    assert Set(Prop(key, optional), obj, v) == Success(written);
    PropWriteReads(obj, key, v);
  }

  /** The property setter's copy holds `v` under `key` wherever the write lands. */
  lemma PropWriteReads(obj: Value, key: Key, v: Value)
    requires !obj.Arr? || (key.Pos? && 0 <= key.pos < |obj.items|)
    ensures Member(PropWrite(obj, key, v), key) == Success(v)
  {
  }

  /** Writing back the value just read returns an equal root, provided the property is present. */
  lemma PropGetPut(key: Key, optional: bool, obj: Value)
    requires (obj.Obj? && KeyName(key) in obj.fields) || (obj.Arr? && key.Pos? && 0 <= key.pos < |obj.items|)
    ensures Get(Prop(key, optional), obj).Success?
    ensures Set(Prop(key, optional), obj, Get(Prop(key, optional), obj).value) == Success(obj)
  {
    if obj.Arr? {
      var r := ReplaceAt(obj.items, key.pos, obj.items[key.pos]);
      assert r == obj.items;
      assert Set(Prop(key, optional), obj, obj.items[key.pos]) == Success(Arr(r));
    } else {
      var name := KeyName(key);
      assert obj.fields[name := obj.fields[name]] == obj.fields;
      assert Set(Prop(key, optional), obj, obj.fields[name]) == Success(Obj(obj.fields[name := obj.fields[name]]));
    }
  }

  /** For an absent field the same write-back adds the field bound to `undefined`: the result is a
      different object. */
  lemma PropGetPutAbsentField(name: string, fields: map<string, Value>)
    requires name !in fields
    ensures Get(Prop(Name(name), false), Obj(fields)) == Success(Undefined)
    ensures Set(Prop(Name(name), false), Obj(fields), Undefined) == Success(Obj(fields[name := Undefined]))
    ensures Set(Prop(Name(name), false), Obj(fields), Undefined) != Success(Obj(fields))
  {
    assert name in fields[name := Undefined];
  }

  // ---------------------------------------------------------------------
  // index
  // ---------------------------------------------------------------------

  /** `a[index]`: the element, or undefined out of range. */
  lemma IndexGet(n: int, items: seq<Value>)
    ensures Get(Index(n), Arr(items)) == Success(if 0 <= n < |items| then items[n] else Undefined)
  {
  }

  /** The index setter keeps the length, changes at most position `n`, and nothing when `n` is out of range. */
  lemma IndexSet(n: int, items: seq<Value>, v: Value)
    ensures Set(Index(n), Arr(items), v).Success?
    ensures var r := Set(Index(n), Arr(items), v).value;
      && r.Arr? && |r.items| == |items|
      && (forall i :: 0 <= i < |items| && i != n ==> r.items[i] == items[i])
      && (0 <= n < |items| ==> r.items[n] == v)
      && (!(0 <= n < |items|) ==> r == Arr(items))
  {
  }

  /** The index setter calls `map`, which a non-array lacks. */
  lemma IndexSetNonArray(n: int, obj: Value, v: Value)
    requires !obj.Arr?
    ensures Set(Index(n), obj, v) == Failure(LensFailure(SetOp, MissingMethod(obj, "map"), Some(v)))
  {
  }

  /** Writing back what the index getter read returns an equal array, in range or not. */
  lemma IndexGetPut(n: int, items: seq<Value>)
    ensures Get(Index(n), Arr(items)).Success?
    ensures Set(Index(n), Arr(items), Get(Index(n), Arr(items)).value) == Success(Arr(items))
  {
    if 0 <= n < |items| {
      assert ReplaceAt(items, n, items[n]) == items;
    }
  }

  // ---------------------------------------------------------------------
  // find
  // ---------------------------------------------------------------------

  /** The find getter returns the first element satisfying the predicate, or undefined when none does. */
  lemma FindGetFirst(p: Value -> bool, items: seq<Value>)
    ensures IsFirst(items, p, FirstIndex(items, p))
    ensures Get(Find(p), Arr(items))
         == Success(if FirstIndex(items, p) < 0 then Undefined else items[FirstIndex(items, p)])
  {
    FirstIndexIsFirst(items, p);
    FilterEnds(items, p);
  }

  /** The find setter replaces every element satisfying the predicate and keeps every other one. */
  lemma FindSetAll(p: Value -> bool, items: seq<Value>, v: Value)
    ensures Set(Find(p), Arr(items), v).Success?
    ensures var r := Set(Find(p), Arr(items), v).value;
      && r.Arr? && |r.items| == |items|
      && (forall i :: 0 <= i < |items| && p(items[i]) ==> r.items[i] == v)
      && (forall i :: 0 <= i < |items| && !p(items[i]) ==> r.items[i] == items[i])
  {
  }

  /** Get targets only the first match while set rewrites them all: with two matches, set changes the
      second one, which get never returns. */
  lemma FindFirstVersusAll(p: Value -> bool, items: seq<Value>, v: Value, i: nat, j: nat)
    requires i < j < |items| && p(items[i]) && p(items[j]) && items[i] != items[j]
    requires forall m :: 0 <= m < i ==> !p(items[m])
    ensures Get(Find(p), Arr(items)) == Success(items[i])
    ensures Set(Find(p), Arr(items), v).Success? && Set(Find(p), Arr(items), v).value.Arr?
    ensures var r := Set(Find(p), Arr(items), v).value.items;
      |r| == |items| && r[i] == v && r[j] == v
  {
    FindGetFirst(p, items);
  }

  /** `find` breaks get-put: with two distinct matches, writing back what get read copies the first
      match over the second, so the array changes. */
  lemma FindGetPutBreaks(p: Value -> bool, items: seq<Value>, i: nat, j: nat)
    requires i < j < |items| && p(items[i]) && p(items[j]) && items[i] != items[j]
    requires forall m :: 0 <= m < i ==> !p(items[m])
    ensures Get(Find(p), Arr(items)) == Success(items[i])
    ensures Set(Find(p), Arr(items), items[i]).Success?
    ensures var r := Set(Find(p), Arr(items), items[i]).value;
      r.Arr? && |r.items| == |items| && r.items[j] == items[i]
    ensures Set(Find(p), Arr(items), items[i]) != Success(Arr(items))
  {
    FindFirstVersusAll(p, items, items[i], i, j);
  }

  // ---------------------------------------------------------------------
  // findBy
  // ---------------------------------------------------------------------

  /** The getter's filter succeeds exactly when no element is null or undefined, and then keeps the hits. */
  lemma {:induction false} FilterByTotal(a: seq<Value>, field: Key, target: Scalar)
    ensures FilterBy(a, field, target).Success? <==> forall i :: 0 <= i < |a| ==> !IsNullish(a[i])
    ensures FilterBy(a, field, target).Success? ==>
              FilterBy(a, field, target).value == Filter(a, Hits(field, target))
  {
    if a != [] {
      FilterByTotal(a[1..], field, target);
      if forall i :: 0 <= i < |a[1..]| ==> !IsNullish(a[1..][i]) {
        forall i | 0 < i < |a| ensures !IsNullish(a[i]) { assert a[i] == a[1..][i - 1]; }
      } else {
        var i :| 0 <= i < |a[1..]| && IsNullish(a[1..][i]);
        assert a[i + 1] == a[1..][i];
      }
    }
  }

  /** The forward loop from position `i` stops at the first hit at or after `i`, or gives -1, when no
      element from `i` on is null or undefined. */
  lemma {:induction false} LocateFromFinds(a: seq<Value>, field: Key, target: Scalar, i: nat)
    requires i <= |a|
    requires forall j :: i <= j < |a| ==> !IsNullish(a[j])
    ensures var r := LocateFrom(a, field, target, i); var p := Hits(field, target);
      && r.Success?
      && ((r.value == -1 && forall j :: i <= j < |a| ==> !p(a[j]))
          || (i <= r.value < |a| && p(a[r.value]) && forall j :: i <= j < r.value ==> !p(a[j])))
    decreases |a| - i
  {
    if i < |a| {
      LocateFromFinds(a, field, target, i + 1);
      HitAt(a[i], field, target);
      if Hits(field, target)(a[i]) {
        assert LocateFrom(a, field, target, i) == Success(i);
      } else {
        assert LocateFrom(a, field, target, i) == LocateFrom(a, field, target, i + 1);
      }
    }
  }

  /** The reverse loop over positions below `i` stops at the last hit below `i`, or gives -1, when no
      element below `i` is null or undefined. */
  lemma {:induction false} LocateBeforeFinds(a: seq<Value>, field: Key, target: Scalar, i: nat)
    requires i <= |a|
    requires forall j :: 0 <= j < i ==> !IsNullish(a[j])
    ensures var r := LocateBefore(a, field, target, i); var p := Hits(field, target);
      && r.Success?
      && ((r.value == -1 && forall j :: 0 <= j < i ==> !p(a[j]))
          || (0 <= r.value < i && p(a[r.value]) && forall j :: r.value < j < i ==> !p(a[j])))
  {
    if i > 0 {
      LocateBeforeFinds(a, field, target, i - 1);
      HitAt(a[i - 1], field, target);
      if Hits(field, target)(a[i - 1]) {
        assert LocateBefore(a, field, target, i) == Success(i - 1);
      } else {
        assert LocateBefore(a, field, target, i) == LocateBefore(a, field, target, i - 1);
      }
    }
  }

  /** Whatever the elements, a successful forward loop returns a hit with no hit before it, or -1 after
      passing every remaining element, none of them null, undefined or a hit. */
  lemma {:induction false} LocateFromSound(a: seq<Value>, field: Key, target: Scalar, i: nat)
    requires LocateFrom(a, field, target, i).Success?
    ensures var k := LocateFrom(a, field, target, i).value; var p := Hits(field, target);
      k == -1 || (i <= k < |a| && p(a[k]) && forall j :: i <= j < k ==> !p(a[j]))
    ensures var k := LocateFrom(a, field, target, i).value; var p := Hits(field, target);
      k == -1 ==> forall j :: i <= j < |a| ==> !IsNullish(a[j]) && !p(a[j])
    decreases |a| - i
  {
    if i < |a| && !IsNullish(a[i]) {
      HitAt(a[i], field, target);
      if MatchesAt(a[i], field, target) == Success(false) {
        LocateFromSound(a, field, target, i + 1);
      }
    }
  }

  /** Whatever the elements, a successful reverse loop returns a hit with no hit after it, or -1 after
      passing every element below its start, none of them null, undefined or a hit. */
  lemma {:induction false} LocateBeforeSound(a: seq<Value>, field: Key, target: Scalar, i: nat)
    requires i <= |a|
    requires LocateBefore(a, field, target, i).Success?
    ensures var k := LocateBefore(a, field, target, i).value; var p := Hits(field, target);
      k == -1 || (0 <= k < i && p(a[k]) && forall j :: k < j < i ==> !p(a[j]))
    ensures var k := LocateBefore(a, field, target, i).value; var p := Hits(field, target);
      k == -1 ==> forall j :: 0 <= j < i ==> !IsNullish(a[j]) && !p(a[j])
  {
    if i > 0 && !IsNullish(a[i - 1]) {
      HitAt(a[i - 1], field, target);
      if MatchesAt(a[i - 1], field, target) == Success(false) {
        LocateBeforeSound(a, field, target, i - 1);
      }
    }
  }

  /** The findBy setter replaces at most one element: a successful set gives a same-length array in
      which every position but the located one is unchanged, and that position held a hit. */
  lemma FindBySetAtMostOne(field: Key, target: Scalar, reverse: bool, items: seq<Value>, v: Value)
    requires Set(FindBy(field, target, reverse), Arr(items), v).Success?
    ensures Locate(items, field, target, reverse).Success?
    ensures var k := Locate(items, field, target, reverse).value;
      var r := Set(FindBy(field, target, reverse), Arr(items), v).value;
      && -1 <= k < |items|
      && (k >= 0 ==> Hits(field, target)(items[k]))
      && (k == -1 ==> forall i :: 0 <= i < |items| ==> !Hits(field, target)(items[i]))
      && r == Arr(ReplaceAt(items, k, v))
      && |r.items| == |items|
      && forall i :: 0 <= i < |items| && i != k ==> r.items[i] == items[i]
  {
    if reverse {
      LocateBeforeSound(items, field, target, |items|);
    } else {
      LocateFromSound(items, field, target, 0);
    }
  }

  /** The findBy getter succeeds exactly when no element is null or undefined. */
  lemma FindByGetDefined(field: Key, target: Scalar, reverse: bool, items: seq<Value>)
    ensures Get(FindBy(field, target, reverse), Arr(items)).Success?
        <==> forall i :: 0 <= i < |items| ==> !IsNullish(items[i])
  {
    FilterByTotal(items, field, target);
  }

  /** When the getter succeeds, getter and setter agree on the element: the first hit going forward,
      the last hit in reverse. The getter returns it (undefined if there is none); the setter replaces
      exactly it and, with no hit, returns an elementwise equal array. */
  lemma FindByGetSetAgree(field: Key, target: Scalar, reverse: bool, items: seq<Value>, v: Value)
    requires Get(FindBy(field, target, reverse), Arr(items)).Success?
    ensures var p := Hits(field, target);
      var k := if reverse then LastIndex(items, p) else FirstIndex(items, p);
      && (if reverse then IsLast(items, p, k) else IsFirst(items, p, k))
      && Locate(items, field, target, reverse) == Success(k)
      && Get(FindBy(field, target, reverse), Arr(items)) == Success(if k < 0 then Undefined else items[k])
      && Set(FindBy(field, target, reverse), Arr(items), v) == Success(Arr(ReplaceAt(items, k, v)))
      && (k == -1 ==> Set(FindBy(field, target, reverse), Arr(items), v) == Success(Arr(items)))
  {
    var p := Hits(field, target);
    FilterByTotal(items, field, target);
    FilterEnds(items, p);
    if reverse {
      LastIndexIsLast(items, p);
      LocateBeforeFinds(items, field, target, |items|);
      LastUnique(items, p, Locate(items, field, target, true).value, LastIndex(items, p));
    } else {
      FirstIndexIsFirst(items, p);
      LocateFromFinds(items, field, target, 0);
      FirstUnique(items, p, Locate(items, field, target, false).value, FirstIndex(items, p));
    }
  }

  /** Writing back what the findBy getter read returns an equal array whenever the getter succeeds. */
  lemma FindByGetPut(field: Key, target: Scalar, reverse: bool, items: seq<Value>)
    requires Get(FindBy(field, target, reverse), Arr(items)).Success?
    ensures Set(FindBy(field, target, reverse), Arr(items), Get(FindBy(field, target, reverse), Arr(items)).value)
         == Success(Arr(items))
  {
    var x := Get(FindBy(field, target, reverse), Arr(items)).value;
    FindByGetSetAgree(field, target, reverse, items, x);
    var k := Locate(items, field, target, reverse).value;
    if k >= 0 {
      assert ReplaceAt(items, k, items[k]) == items;
    }
  }

  /** On an element that is neither null nor undefined the element test does not throw and agrees
      with `Hits`. */
  lemma HitAt(e: Value, field: Key, target: Scalar)
    requires !IsNullish(e)
    ensures MatchesAt(e, field, target) == Success(Hits(field, target)(e))
  {
  }

  /** The getter tests every element but the setter's loop stops at the hit: `[{k: 1}, null]` makes the
      getter throw while the forward setter succeeds. */
  lemma FindByGetStricterThanSet(v: Value)
    ensures var items := [Obj(map["k" := Prim(Num(1))]), Null];
      && Get(FindBy(Name("k"), Prim(Num(1)), false), Arr(items))
         == Failure(LensFailure(GetOp, ReadFromNullish("k"), None))
      && Set(FindBy(Name("k"), Prim(Num(1)), false), Arr(items), v) == Success(Arr([v, Null]))
  {
    var items := [Obj(map["k" := Prim(Num(1))]), Null];
    assert FilterBy(items[1..], Name("k"), Prim(Num(1))).Failure?;
    assert ReplaceAt(items, 0, v) == [v, Null];
  }

  /** `===` compares `undefined` and `null` by value too: `findBy(key, undefined)` picks an element
      without the field, `findBy(key, null)` one whose field holds null. */
  lemma FindByNullishTargets(v: Value)
    ensures var items := [Obj(map["k" := Prim(Num(2))]), Obj(map["x" := Prim(Num(1))]), Obj(map["k" := Null])];
      && Get(FindBy(Name("k"), Undefined, false), Arr(items)) == Success(items[1])
      && Set(FindBy(Name("k"), Undefined, false), Arr(items), v) == Success(Arr([items[0], v, items[2]]))
      && Get(FindBy(Name("k"), Null, false), Arr(items)) == Success(items[2])
      && Set(FindBy(Name("k"), Null, false), Arr(items), v) == Success(Arr([items[0], items[1], v]))
  {
    var items := [Obj(map["k" := Prim(Num(2))]), Obj(map["x" := Prim(Num(1))]), Obj(map["k" := Null])];
    assert items[1..][1..] == items[2..] && items[2..][1..] == [];
    assert items[1..][0] == items[1] && items[2..][0] == items[2];
    assert MatchesAt(items[1], Name("k"), Undefined) == Success(true);
    assert MatchesAt(items[2], Name("k"), Null) == Success(true);
    assert FilterBy(items[2..][1..], Name("k"), Undefined) == Success([]);
    assert FilterBy(items[2..][1..], Name("k"), Null) == Success([]);
    assert FilterBy(items[2..], Name("k"), Undefined) == Success([]);
    assert FilterBy(items[1..], Name("k"), Undefined).value == [items[1]];
    assert FilterBy(items, Name("k"), Undefined) == Success([items[1]]);
    assert FilterBy(items[2..], Name("k"), Null).value == [items[2]];
    assert FilterBy(items, Name("k"), Null) == Success([items[2]]);
    assert LocateFrom(items, Name("k"), Undefined, 0) == Success(1);
    assert ReplaceAt(items, 1, v) == [items[0], v, items[2]];
    assert LocateFrom(items, Name("k"), Null, 1) == Success(2);
    assert LocateFrom(items, Name("k"), Null, 0) == Success(2);
    assert ReplaceAt(items, 2, v) == [items[0], items[1], v];
  }

  // ---------------------------------------------------------------------
  // pi
  // ---------------------------------------------------------------------

  /** `pi(key)` without a fallback is the property lens with the optional flag set. */
  lemma PiOptional(key: Key, obj: Value, v: Value)
    ensures IsOptional(Pi(key, Undefined))
    ensures Get(Pi(key, Undefined), obj) == Get(Prop(key, false), obj)
    ensures Set(Pi(key, Undefined), obj, v) == Set(Prop(key, false), obj, v)
    ensures From(Pi(key, Undefined)) == ["obj"] && To(Pi(key, Undefined)) == KeyName(key)
  {
  }

  /** `pi(key, fallback)` is not optional; its getter substitutes the fallback for a null or undefined
      field, and it keeps the plain property setter and labels. */
  lemma PiFallback(key: Key, fallback: Value, obj: Value, v: Value)
    requires fallback != Undefined
    ensures !IsOptional(Pi(key, fallback))
    ensures Get(Pi(key, fallback), obj)
         == match Get(Prop(key, false), obj)
            case Failure(e) => Failure(e)
            case Success(x) => Success(if IsNullish(x) then fallback else x)
    ensures Set(Pi(key, fallback), obj, v) == Set(Prop(key, false), obj, v)
    ensures From(Pi(key, fallback)) == From(Prop(key, false)) && To(Pi(key, fallback)) == To(Prop(key, false))
  {
  }

  /** Setting a field below a fallback lens whose field is absent writes a copy of the fallback with that
      field replaced into the root; the fallback value itself is what it was. */
  lemma PiFallbackSetsCopy(key: string, fallback: map<string, Value>, name: string,
                           fields: map<string, Value>, v: Value)
    requires key !in fields
    ensures Set(Then(Pi(Name(key), Obj(fallback)), Prop(Name(name), false)), Obj(fields), v)
         == Success(Obj(fields[key := Obj(fallback[name := v])]))
  {
    var outer := Pi(Name(key), Obj(fallback));
    assert Get(Prop(Name(key), false), Obj(fields)) == Success(Undefined);
    assert Get(outer, Obj(fields)) == Success(Obj(fallback));
    assert Set(Prop(Name(name), false), Obj(fallback), v) == Success(Obj(fallback[name := v]));
    var copy := Obj(fallback[name := v]);
    assert Set(Prop(Name(key), false), Obj(fields), copy) == Success(Obj(fields[key := copy]));
    assert Set(outer, Obj(fields), copy) == Success(Obj(fields[key := copy]));
  }

  /** `pi(key, fallback)` breaks get-put: on an absent field get reads the fallback, and writing it back
      adds the field, bound to the fallback, to the root. */
  lemma PiFallbackGetPutBreaks(key: string, fallback: Value, fields: map<string, Value>)
    requires fallback != Undefined && key !in fields
    ensures Get(Pi(Name(key), fallback), Obj(fields)) == Success(fallback)
    ensures Set(Pi(Name(key), fallback), Obj(fields), fallback) == Success(Obj(fields[key := fallback]))
    ensures Set(Pi(Name(key), fallback), Obj(fields), fallback) != Success(Obj(fields))
  {
    assert Get(Prop(Name(key), false), Obj(fields)) == Success(Undefined);
    assert Set(Prop(Name(key), false), Obj(fields), fallback) == Success(Obj(fields[key := fallback]));
    assert key in fields[key := fallback];
  }
}
