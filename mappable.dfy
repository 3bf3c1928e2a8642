/** models/mappable.js: the bidirectional mapper every cloud entity is built on.

    A mapping table names each entity field and says where it comes from: a path
    into the raw API record, or a function of the whole record.  `Map` builds
    entities from records; `Unmap` writes entities back into request records. */
module Mappable {
  import opened Js

  datatype FieldSpec = Path(path: seq<Seg>) | Derived(f: Value -> Value)

  datatype Field = Field(name: string, spec: FieldSpec)

  /** A mapping table, in the order its keys are declared. */
  type Mapping = seq<Field>

  /** The error the abstract base class raises instead of a table. */
  const SubclassError := "Mappable must be subclassed."

  /** `Mappable.mapping()` of the base class. */
  function BaseMapping(): (t: Result<Mapping>)
    ensures t == Err(SubclassError)
  {
    Err(SubclassError)
  }

  function Names(m: Mapping): seq<string> {
    seq(|m|, i requires 0 <= i < |m| => m[i].name)
  }

  /** The spec of field `k`; the last declaration wins, as when a JavaScript object
      literal repeats a key. */
  function SpecOf(m: Mapping, k: string): FieldSpec
    requires k in Names(m)
    decreases |m|
  {
    var last := m[|m| - 1];
    if last.name == k then last.spec
    else
      assert Names(m) == Names(m[..|m| - 1]) + [last.name];
      SpecOf(m[..|m| - 1], k)
  }

  /** The value a field takes from an input record: a path missing from the record
      gives null, and so does a falsy derived value. */
  function FieldValue(spec: FieldSpec, input: Value): (r: Value)
    ensures r != Undefined
    ensures spec.Path? ==>
      r == if GetPath(input, spec.path) == Undefined then Null else GetPath(input, spec.path)
    ensures spec.Derived? ==>
      r == if Truthy(spec.f(input)) then spec.f(input) else Null
  {
    match spec
    case Path(p) => GetOr(input, p, Null)
    case Derived(f) => var x := f(input); if Truthy(x) then x else Null
  }

  /** The spec of a field no later entry redeclares is its own. */
  lemma {:induction false} SpecOfIndex(m: Mapping, i: nat)
    requires i < |m|
    requires forall j :: i < j < |m| ==> m[j].name != m[i].name
    ensures m[i].name in Names(m) && SpecOf(m, m[i].name) == m[i].spec
    decreases |m|
  {
    assert Names(m)[i] == m[i].name;
    if i < |m| - 1 {
      var init := m[..|m| - 1];
      assert init[i] == m[i];
      SpecOfIndex(init, i);
    }
  }

  /** The fields `new this(input)` assigns, one per key of the table, in table order. */
  function Entity(m: Mapping, input: Value): (r: seq<Prop>)
    ensures Keys(r) == Uniq(Names(m))
    ensures forall k :: Lookup(r, k) == if k in Names(m) then Some(FieldValue(SpecOf(m, k), input)) else None
    decreases |m|
  {
    if m == [] then []
    else
      var init := m[..|m| - 1];
      var last := m[|m| - 1];
      assert Names(m) == Names(init) + [last.name];
      Put(Entity(init, input), last.name, FieldValue(last.spec, input))
  }

  /** With distinct field names an entity is one property per table entry, in order. */
  lemma {:induction false} EntityOfDistinct(m: Mapping, input: Value)
    requires Distinct(Names(m))
    ensures |Entity(m, input)| == |m|
    ensures forall i :: 0 <= i < |m| ==> Entity(m, input)[i] == Prop(m[i].name, FieldValue(m[i].spec, input))
    decreases |m|
  {
    if m != [] {
      var init := m[..|m| - 1];
      var last := m[|m| - 1];
      assert Names(init) == Names(m)[..|m| - 1];
      DistinctLast(Names(m));
      EntityOfDistinct(init, input);
      var ei := Entity(init, input);
      assert last.name !in Keys(ei);
      PutAppends(ei, last.name, FieldValue(last.spec, input));
      var e := Entity(m, input);
      assert e == ei + [Prop(last.name, FieldValue(last.spec, input))];
      forall i | 0 <= i < |m| ensures e[i] == Prop(m[i].name, FieldValue(m[i].spec, input)) {
        if i < |init| {
          assert e[i] == ei[i] && init[i] == m[i];
        }
      }
    }
  }

  /** Without its last element a list of distinct values stays distinct and no
      longer holds that element. */
  lemma DistinctLast<T>(xs: seq<T>)
    requires Distinct(xs) && xs != []
    ensures Distinct(xs[..|xs| - 1]) && xs[|xs| - 1] !in xs[..|xs| - 1]
  {
    var init := xs[..|xs| - 1];
    forall i | 0 <= i < |init| ensures init[i] != xs[|xs| - 1] {
      assert init[i] == xs[i];
    }
  }

  /** `new this(input)`: a falsy input is refused before the table is consulted. */
  function Construct(t: Result<Mapping>, input: Value): (r: Result<Value>)
    ensures !Truthy(input) ==> r == Err("Invalid input.")
    ensures Truthy(input) && t.Err? ==> r == Err(t.msg)
    ensures Truthy(input) && t.Ok? ==>
      r.Ok? && r.value.Obj? &&
      forall k :: k in Names(t.value) ==> Dot(r.value, k) == FieldValue(SpecOf(t.value, k), input)
  {
    if !Truthy(input) then Err("Invalid input.")
    else if t.Err? then Err(t.msg)
    else Ok(Obj(Entity(t.value, input)))
  }

  /** A key the table does not name is not a field of the entity. */
  lemma NotAField(m: Mapping, input: Value, k: string)
    requires Truthy(input) && k !in Names(m)
    ensures Construct(Ok(m), input).Ok?
    ensures Dot(Construct(Ok(m), input).value, k) == Undefined
  {
    assert Lookup(Entity(m, input), k).None?;
  }

  /** The field an entity gets from entry `i` of its table. */
  lemma FieldOf(m: Mapping, input: Value, i: nat)
    requires Truthy(input)
    requires i < |m|
    requires forall j :: i < j < |m| ==> m[j].name != m[i].name
    ensures Construct(Ok(m), input).Ok?
    ensures Dot(Construct(Ok(m), input).value, m[i].name) == FieldValue(m[i].spec, input)
  {
    SpecOfIndex(m, i);
  }

  /** A single non-array argument gives back a single result when there is one. */
  function Unwrap(inputs: Value, results: seq<Value>): Value {
    if !inputs.Arr? && |results| == 1 then results[0] else Arr(results)
  }

  /** The records `Map` and `Unmap` work on: the argument flattened one level,
      falsy entries dropped. */
  function Records(inputs: Value): seq<Value> {
    Compact(Wrap(inputs))
  }

  /** `Mappable.Map(inputs)` */
  function Map(t: Result<Mapping>, inputs: Value): (r: Result<Value>)
    ensures t.Ok? ==> r.Ok?
    ensures r.Ok? && inputs.Arr? ==>
      r.value.Arr? && |r.value.elems| == |Records(inputs)| &&
      forall i :: 0 <= i < |Records(inputs)| ==> Construct(t, Records(inputs)[i]) == Ok(r.value.elems[i])
    ensures r.Ok? && !inputs.Arr? && Truthy(inputs) ==> Construct(t, inputs) == Ok(r.value)
    ensures !inputs.Arr? && !Truthy(inputs) ==> r == Ok(Arr([]))
  {
    var items := Records(inputs);
    if items == [] then Ok(Arr([]))
    else if t.Err? then Err(t.msg)
    else
      assert !inputs.Arr? ==> items == [inputs];
      Ok(Unwrap(inputs, seq(|items|, i requires 0 <= i < |items| => Obj(Entity(t.value, items[i])))))
  }

  /** Where `Unmap` writes a property: at the field's path when the table maps it
      to a path, under its own name otherwise. */
  function WritePath(m: Mapping, k: string): (p: seq<Seg>)
    ensures |p| > 0
    ensures k in Names(m) && SpecOf(m, k).Path? && |SpecOf(m, k).path| > 0 ==> p == SpecOf(m, k).path
    ensures !(k in Names(m) && SpecOf(m, k).Path? && |SpecOf(m, k).path| > 0) ==> p == [Key(k)]
  {
    if k in Names(m) && SpecOf(m, k).Path? && |SpecOf(m, k).path| > 0 then SpecOf(m, k).path else [Key(k)]
  }

  /** Writing the properties `ps` one after the other into `r`. */
  function UnmapProps(m: Mapping, ps: seq<Prop>, r: Value): Value
    decreases |ps|
  {
    if ps == [] then r
    else UnmapProps(m, ps[1..], SetPath(r, WritePath(m, ps[0].key), ps[0].val))
  }

  /** The request record `Unmap` builds from one entity.  Only objects are walked. */
  function UnmapRecord(m: Mapping, e: Value): Value {
    if e.Obj? then UnmapProps(m, e.props, Obj([])) else Obj([])
  }

  /** `Mappable.Unmap(inputs)`: the table is asked for first, even when there is
      nothing to write back. */
  function Unmap(t: Result<Mapping>, inputs: Value): (r: Result<Value>)
    ensures t.Err? <==> r.Err?
    ensures r.Ok? && inputs.Arr? ==>
      r.value.Arr? && |r.value.elems| == |Records(inputs)| &&
      forall i :: 0 <= i < |Records(inputs)| ==> r.value.elems[i] == UnmapRecord(t.value, Records(inputs)[i])
    ensures r.Ok? && !inputs.Arr? && Truthy(inputs) ==> r.value == UnmapRecord(t.value, inputs)
    ensures r.Ok? && !inputs.Arr? && !Truthy(inputs) ==> r.value == Arr([])
  {
    if t.Err? then Err(t.msg)
    else
      var items := Records(inputs);
      assert !inputs.Arr? && Truthy(inputs) ==> items == [inputs];
      Ok(Unwrap(inputs, seq(|items|, i requires 0 <= i < |items| => UnmapRecord(t.value, items[i]))))
  }

  /** The `forEach` that fills the fresh request record `r` of one entity. */
  method UnmapOne(m: Mapping, e: Value) returns (r: Value)
    ensures r == UnmapRecord(m, e)
  {
    r := Obj([]);
    if !e.Obj? {
      return;
    }
    var ps := e.props;
    var i := 0;
    while i < |ps|
      invariant i <= |ps|
      invariant UnmapProps(m, ps[i..], r) == UnmapRecord(m, e)
    {
      assert ps[i..][1..] == ps[i + 1..];
      r := SetPath(r, WritePath(m, ps[i].key), ps[i].val);
      i := i + 1;
    }
  }

  // ---------------------------------------------------------------------------
  // Round trip

  /** Once `p` holds a defined value, writes along paths that part from `p` keep it. */
  lemma {:induction false} UnmapPropsKeeps(m: Mapping, ps: seq<Prop>, r: Value, p: seq<Seg>)
    requires GetPath(r, p) != Undefined
    requires forall i :: 0 <= i < |ps| ==> Compatible(p, WritePath(m, ps[i].key))
    ensures GetPath(UnmapProps(m, ps, r), p) == GetPath(r, p)
    decreases |ps|
  {
    if ps != [] {
      var r' := SetPath(r, WritePath(m, ps[0].key), ps[0].val);
      GetSetOther(r, p, WritePath(m, ps[0].key), ps[0].val);
      UnmapPropsKeeps(m, ps[1..], r', p);
    }
  }

  /** The value of property `f` ends up at `p`, its write path, when every other
      property is written along a path that parts from `p`. */
  lemma {:induction false} UnmapPropsWrites(m: Mapping, ps: seq<Prop>, r: Value, f: string, v: Value)
    requires Distinct(Keys(ps))
    requires Lookup(ps, f) == Some(v) && v != Undefined
    requires Fits(r, WritePath(m, f))
    requires forall i :: 0 <= i < |ps| && ps[i].key != f ==> Compatible(WritePath(m, f), WritePath(m, ps[i].key))
    ensures GetPath(UnmapProps(m, ps, r), WritePath(m, f)) == v
    decreases |ps|
  {
    var p := WritePath(m, f);
    var q := WritePath(m, ps[0].key);
    var r' := SetPath(r, q, ps[0].val);
    assert Keys(ps) == [ps[0].key] + Keys(ps[1..]);
    if ps[0].key == f {
      GetSetSame(r, p, v);
      forall i | 0 <= i < |ps| - 1 ensures Compatible(p, WritePath(m, ps[1..][i].key)) {
        assert Keys(ps)[0] != Keys(ps)[i + 1];
      }
      UnmapPropsKeeps(m, ps[1..], r', p);
    } else {
      FitsAfterSet(r, p, q, ps[0].val);
      assert Distinct(Keys(ps[1..])) by {
        forall i, j | 0 <= i < j < |ps| - 1 ensures Keys(ps[1..])[i] != Keys(ps[1..])[j] {
          assert Keys(ps)[i + 1] != Keys(ps)[j + 1];
        }
      }
      UnmapPropsWrites(m, ps[1..], r', f, v);
    }
  }

  /** An array maps to one entity per truthy element, in order: every entity comes
      from a truthy element and every truthy element gives one. */
  lemma MapOfArray(m: Mapping, vs: seq<Value>)
    ensures Map(Ok(m), Arr(vs)).Ok? && Map(Ok(m), Arr(vs)).value.Arr?
    ensures var es := Map(Ok(m), Arr(vs)).value.elems;
      |es| == |Compact(vs)| && forall i :: 0 <= i < |es| ==> Construct(Ok(m), Compact(vs)[i]) == Ok(es[i])
    ensures forall x :: x in Map(Ok(m), Arr(vs)).value.elems ==>
      exists s :: s in vs && Truthy(s) && Construct(Ok(m), s) == Ok(x)
    ensures forall s :: s in vs && Truthy(s) ==>
      exists x :: x in Map(Ok(m), Arr(vs)).value.elems && Construct(Ok(m), s) == Ok(x)
  {
    var es := Map(Ok(m), Arr(vs)).value.elems;
    assert Records(Arr(vs)) == Compact(vs);
    forall x | x in es ensures exists s :: s in vs && Truthy(s) && Construct(Ok(m), s) == Ok(x) {
      var i :| 0 <= i < |es| && es[i] == x;
      assert Compact(vs)[i] in Compact(vs);
    }
    forall s | s in vs && Truthy(s) ensures exists x :: x in es && Construct(Ok(m), s) == Ok(x) {
      assert s in Compact(vs);
      var i :| 0 <= i < |Compact(vs)| && Compact(vs)[i] == s;
      assert es[i] in es;
    }
  }

  /** A single object maps to a single entity. */
  lemma MapOfObject(m: Mapping, u: Value)
    requires u.Obj?
    ensures Map(Ok(m), u) == Ok(Obj(Entity(m, u)))
  {
    assert Records(u) == [u];
  }

  /** A single object unmaps to a single request record. */
  lemma UnmapOfObject(m: Mapping, e: Value)
    requires e.Obj?
    ensures Unmap(Ok(m), e) == Ok(UnmapRecord(m, e))
    ensures UnmapRecord(m, e).Obj?
  {
    assert Records(e) == [e];
    UnmapPropsKeepsObject(m, e.props, Obj([]));
  }

  lemma {:induction false} UnmapPropsKeepsObject(m: Mapping, ps: seq<Prop>, r: Value)
    requires r.Obj?
    ensures UnmapProps(m, ps, r).Obj?
    decreases |ps|
  {
    if ps != [] {
      var q := WritePath(m, ps[0].key);
      if |q| > 1 {
        var c := At(r, q[0]);
        AssignKeepsKind(r, q[0], SetPath(if IsObject(c) then c else Fresh(q[1]), q[1..], ps[0].val));
      }
      UnmapPropsKeepsObject(m, ps[1..], SetPath(r, q, ps[0].val));
    }
  }

  /** `Map(Unmap(e))` gives a path-mapped field back its value, provided the value is
      defined, the path starts with a property name and every other property of the
      entity is written along a path that parts from it. */
  lemma MapUnmapRestores(m: Mapping, e: Value, f: string)
    requires e.Obj? && Distinct(Keys(e.props))
    requires f in Names(m) && SpecOf(m, f).Path? && |SpecOf(m, f).path| > 0 && SpecOf(m, f).path[0].Key?
    requires Dot(e, f) != Undefined
    requires forall k :: k in Keys(e.props) && k != f ==> Compatible(SpecOf(m, f).path, WritePath(m, k))
    ensures Unmap(Ok(m), e).Ok?
    ensures Map(Ok(m), Unmap(Ok(m), e).value).Ok?
    ensures Dot(Map(Ok(m), Unmap(Ok(m), e).value).value, f) == Dot(e, f)
  {
    var p := SpecOf(m, f).path;
    var v := Dot(e, f);
    assert Lookup(e.props, f) == Some(v);
    assert Fits(Obj([]), p);
    forall i | 0 <= i < |e.props| && e.props[i].key != f
      ensures Compatible(p, WritePath(m, e.props[i].key))
    {
      assert Keys(e.props)[i] == e.props[i].key;
    }
    UnmapPropsWrites(m, e.props, Obj([]), f, v);
    UnmapOfObject(m, e);
    var u := UnmapRecord(m, e);
    MapOfObject(m, u);
    assert Lookup(Entity(m, u), f) == Some(FieldValue(SpecOf(m, f), u));
  }
}
