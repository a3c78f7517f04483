/**
  Recordings: deferred mutations built by `buildLensRecording` (replace the
  lens's value with a literal) and `buildLensModifyRecording` (replace it with
  a transform of the current value and of named auxiliary getters read from the
  same root). A recording is an object whose only mutable state is the
  `value.v` cell: a set-recording holds its literal there, a modify-recording
  writes the transform's result there whenever `apply` runs the transform.
  `prepend` re-roots a recording under an outer lens.
*/
module Recordings {
  import opened Wrappers
  import opened Values
  import opened Lenses

  /** What a recording replays: `type: "set"` with its literal, or `type: "modify"` with its transform and
      auxiliary getters. */
  datatype Kind =
    | SetTo(value: Value)
    | ModifyBy(transform: (Value, map<string, Value>) -> Value, getters: map<string, Lens>)

  /** Every auxiliary getter reads `obj` without failing. */
  predicate GettersSucceed(getters: map<string, Lens>, obj: Value) {
    forall k :: k in getters ==> Get(getters[k], obj).Success?
  }

  /** The values the auxiliary getters read from `obj`, by name. */
  function GetterValues(getters: map<string, Lens>, obj: Value): (values: map<string, Value>)
    requires GettersSucceed(getters, obj)
    ensures values.Keys == getters.Keys
    ensures forall k :: k in getters ==> Get(getters[k], obj) == Success(values[k])
  {
    map k | k in getters :: Get(getters[k], obj).value
  }

  /** The `reduce` in `apply` that reads every auxiliary getter into a memo; the first failing getter's
      failure propagates. */
  method EvalGetters(getters: map<string, Lens>, obj: Value) returns (r: Result<map<string, Value>, LensFailure>)
    ensures r.Success? <==> GettersSucceed(getters, obj)
    ensures r.Success? ==> r.value == GetterValues(getters, obj)
    ensures r.Failure? ==> exists k :: k in getters && Get(getters[k], obj) == Failure(r.error)
  {
    var memo: map<string, Value> := map[];
    var pending := getters.Keys;
    while pending != {}
      invariant pending <= getters.Keys
      invariant memo.Keys == getters.Keys - pending
      invariant forall k :: k in memo ==> Get(getters[k], obj) == Success(memo[k])
      decreases pending
    {
      var k :| k in pending;
      var got := Get(getters[k], obj);
      if got.Failure? {
        return Failure(got.error);
      }
      memo := memo[k := got.value];
      pending := pending - {k};
    }
    r := Success(memo);
  }

  /** The `reduce` in `prepend` that rebuilds every auxiliary getter as `outer.then(getter)`. */
  method RerootGetters(outer: Lens, getters: map<string, Lens>) returns (rerooted: map<string, Lens>)
    ensures rerooted.Keys == getters.Keys
    ensures forall k :: k in getters ==> rerooted[k] == Then(outer, getters[k])
  {
    rerooted := map[];
    var pending := getters.Keys;
    while pending != {}
      invariant pending <= getters.Keys
      invariant rerooted.Keys == getters.Keys - pending
      invariant forall k :: k in rerooted ==> rerooted[k] == Then(outer, getters[k])
      decreases pending
    {
      var k :| k in pending;
      rerooted := rerooted[k := Then(outer, getters[k])];
      pending := pending - {k};
    }
  }

  class Recording {
    const lens: Lens
    const kind: Kind
    const name: Option<string>
    /** `str`, computed when the recording is built. */
    const description: string
    /** The `value.v` cell. */
    var captured: Value

    /** `buildLensRecording(lens, value, name)`. */
    constructor Record(lens: Lens, value: Value, name: Option<string>)
      ensures this.lens == lens && kind == SetTo(value) && this.name == name
      ensures description == Describe(lens) + " = " + ValueText(value)
      ensures captured == value
    {
      this.lens := lens;
      this.kind := SetTo(value);
      this.name := name;
      this.description := Describe(lens) + " = " + ValueText(value);
      this.captured := value;
    }

    /** `buildLensModifyRecording(lens, transform, getters, name)`. */
    constructor RecordModify(lens: Lens, transform: (Value, map<string, Value>) -> Value,
                             getters: map<string, Lens>, name: Option<string>)
      ensures this.lens == lens && kind == ModifyBy(transform, getters) && this.name == name
      ensures description == Describe(lens) + " = `modify`"
      ensures captured == Undefined
    {
      this.lens := lens;
      this.kind := ModifyBy(transform, getters);
      this.name := name;
      this.description := Describe(lens) + " = `modify`";
      this.captured := Undefined;
    }

    /** `fn(obj)`: a set-recording sets its literal; a modify-recording reads its getters, then modifies
        through its lens, recording the new value in the cell exactly when the transform runs. */
    method Apply(obj: Value) returns (r: Result<Value, LensFailure>)
      modifies this
      ensures kind.SetTo? ==> r == Set(lens, obj, kind.value) && captured == old(captured)
      ensures kind.ModifyBy? && GettersSucceed(kind.getters, obj) ==>
                r == Modify(lens, obj, v => kind.transform(v, GetterValues(kind.getters, obj)))
      ensures kind.ModifyBy? && !GettersSucceed(kind.getters, obj) ==>
                r.Failure? && exists k :: k in kind.getters && Get(kind.getters[k], obj) == Failure(r.error)
      ensures kind.ModifyBy? ==>
                captured == if GettersSucceed(kind.getters, obj) && TransformRuns(lens, obj)
                            then kind.transform(Get(lens, obj).value, GetterValues(kind.getters, obj))
                            else old(captured)
    {
      if kind.SetTo? {
        r := Set(lens, obj, kind.value);
        return;
      }
      var values := EvalGetters(kind.getters, obj);
      if values.Failure? {
        return Failure(values.error);
      }
      var current := Get(lens, obj);
      if current.Failure? {
        return Failure(current.error);
      }
      if IsOptional(lens) && IsNullish(current.value) {
        return Success(obj);
      }
      var newValue := kind.transform(current.value, values.value);
      captured := newValue;
      r := Set(lens, obj, newValue);
    }

    /** `prepend(outer)`: a new recording of the same kind, name and payload over `outer.then(lens)`, with
        every auxiliary getter rebuilt as `outer.then(getter)`; this recording is left as it was. */
    method Prepend(outer: Lens) returns (p: Recording)
      ensures fresh(p)
      ensures p.lens == Then(outer, lens) && p.name == name
      ensures p.description == Describe(Then(outer, lens)) + (if kind.SetTo? then " = " + ValueText(kind.value) else " = `modify`")
      ensures kind.SetTo? ==> p.kind == SetTo(kind.value) && p.captured == kind.value
      ensures kind.ModifyBy? ==>
                && p.kind.ModifyBy? && p.kind.transform == kind.transform
                && p.kind.getters.Keys == kind.getters.Keys
                && (forall k :: k in kind.getters ==> p.kind.getters[k] == Then(outer, kind.getters[k]))
                && p.captured == Undefined
    {
      if kind.SetTo? {
        p := new Recording.Record(Then(outer, lens), kind.value, name);
      } else {
        var rerooted := RerootGetters(outer, kind.getters);
        p := new Recording.RecordModify(Then(outer, lens), kind.transform, rerooted, name);
      }
    }
  }

  /** A recording prepended under a plain property lens keeps the optional no-op of its own lens: if the
      recording's set returns the field's value unchanged, the prepended set returns the root unchanged. */
  lemma PrependSetNoOp(field: string, l: Lens, fields: map<string, Value>, v: Value)
    requires field in fields && Set(l, fields[field], v) == Success(fields[field])
    ensures Set(Then(Prop(Name(field), false), l), Obj(fields), v) == Success(Obj(fields))
  {
    var outer := Prop(Name(field), false);
    assert fields[field := fields[field]] == fields;
    assert Get(outer, Obj(fields)) == Success(fields[field]);
    assert Set(outer, Obj(fields), fields[field]) == Success(Obj(fields));
    assert Setter(Then(outer, l), Obj(fields), v) == Rethrow(Set(outer, Obj(fields), fields[field]));
  }

  /** A prepended lens is optional when the recording's lens is, so when the recording's lens reads null
      or undefined below the outer lens, `modify` through the prepended lens returns the root and does
      not run the transform. */
  lemma PrependModifySkips(outer: Lens, l: Lens, obj: Value, f: Value -> Value)
    requires IsOptional(l)
    requires Get(outer, obj).Success? && !(IsOptional(outer) && IsNullish(Get(outer, obj).value))
    requires Get(l, Get(outer, obj).value).Success? && IsNullish(Get(l, Get(outer, obj).value).value)
    ensures IsOptional(Then(outer, l))
    ensures !TransformRuns(Then(outer, l), obj)
    ensures Modify(Then(outer, l), obj, f) == Success(obj)
  {
    assert Get(Then(outer, l), obj) == Get(l, Get(outer, obj).value);
  }

  /** A client: a recording over `pi("a").p("name")` prepended under `p("state")`, replayed on a root whose
      `state` has no `a`, returns the root and writes nothing. */
  method ReplayUnderAbsentOptional() {
    var optionalName := Then(Pi(Name("a"), Undefined), Prop(Name("name"), false));
    var state := Obj(map["b" := Prim(Str("world"))]);
    var root := Obj(map["state" := state]);
    var recording := new Recording.Record(optionalName, Prim(Str("updated")), None);
    assert Set(optionalName, state, Prim(Str("updated"))) == Success(state);
    PrependSetNoOp("state", optionalName, root.fields, Prim(Str("updated")));
    var prepended := recording.Prepend(Prop(Name("state"), false));
    var result := prepended.Apply(root);
    assert result == Success(root);
  }
}
