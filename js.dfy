/** JavaScript values, and the lodash primitives the formation engine is built from.

    Objects are ordered property lists: JavaScript enumerates own properties in
    insertion order, and assigning an existing key keeps its position.  Lookup
    reads the first property with a key, `Put` overwrites that property in place
    or appends a new one, so a list built only with `Put` never repeats a key.
    Numbers are integers (no fractions, NaN or infinities). */
module Js {

  datatype Option<+T> = None | Some(value: T)

  /** A settled promise: its value, or the message of the Error it rejected with. */
  datatype Result<+T> = Ok(value: T) | Err(msg: string)

  /** One step of a property path: `.name` or `[pos]`. */
  datatype Seg = Key(name: string) | Index(pos: nat)

  datatype Value =
    | Undefined
    | Null
    | Bool(b: bool)
    | Num(n: int)
    | Str(s: string)
    | Arr(elems: seq<Value>)
    | Obj(props: seq<Prop>)

  datatype Prop = Prop(key: string, val: Value)

  /** JavaScript truthiness: false, 0, '', null and undefined are falsy. */
  predicate Truthy(v: Value) {
    match v
    case Undefined => false
    case Null => false
    case Bool(b) => b
    case Num(n) => n != 0
    case Str(s) => s != ""
    case _ => true
  }

  /** lodash `isObject` for the values modelled here. */
  predicate IsObject(v: Value) {
    v.Arr? || v.Obj?
  }

  // ---------------------------------------------------------------------------
  // Properties

  function Keys(ps: seq<Prop>): seq<string> {
    seq(|ps|, i requires 0 <= i < |ps| => ps[i].key)
  }

  lemma KeysCons(ps: seq<Prop>)
    requires ps != []
    ensures Keys(ps) == [ps[0].key] + Keys(ps[1..])
  {
  }

  function Lookup(ps: seq<Prop>, k: string): (r: Option<Value>)
  {
    if ps == [] then None
    else if ps[0].key == k then
      Some(ps[0].val)
    else
      Lookup(ps[1..], k)
  }

  /** A key is found exactly when the object has a property with that key. */
  lemma {:induction false} LookupFound(ps: seq<Prop>, k: string)
    ensures Lookup(ps, k).Some? <==> k in Keys(ps)
    decreases |ps|
  {
    if ps != [] {
      LookupFound(ps[1..], k);
      assert Keys(ps) == [ps[0].key] + Keys(ps[1..]);
    }
  }

  lemma LookupFoundAll(ps: seq<Prop>)
    ensures forall k :: Lookup(ps, k).Some? <==> k in Keys(ps)
  {
    forall k ensures Lookup(ps, k).Some? <==> k in Keys(ps) {
      LookupFound(ps, k);
    }
  }

  /** `obj[k] = v` */
  function Put(ps: seq<Prop>, k: string, v: Value): (r: seq<Prop>)
    ensures Lookup(r, k) == Some(v)
    ensures forall k' :: k' != k ==> Lookup(r, k') == Lookup(ps, k')
    ensures Keys(r) == if k in Keys(ps) then Keys(ps) else Keys(ps) + [k]
  {
    if ps == [] then [Prop(k, v)]
    else if ps[0].key == k then
      var r := [Prop(k, v)] + ps[1..];
      assert r[1..] == ps[1..];
      KeysCons(r);
      KeysCons(ps);
      r
    else
      var rest := Put(ps[1..], k, v);
      var r := [ps[0]] + rest;
      assert r[1..] == rest;
      KeysCons(r);
      KeysCons(ps);
      assert k in Keys(ps) <==> k in Keys(ps[1..]);
      assert k !in Keys(ps[1..]) ==> Keys(r) == Keys(ps) + [k] by {
        if k !in Keys(ps[1..]) {
          assert [ps[0].key] + (Keys(ps[1..]) + [k]) == ([ps[0].key] + Keys(ps[1..])) + [k];
        }
      }
      r
  }

  /** A property that is absent or holds `undefined`: what `_.defaults` fills in. */
  predicate Missing(ps: seq<Prop>, k: string) {
    Lookup(ps, k).None? || Lookup(ps, k) == Some(Undefined)
  }

  /** `_.defaults(obj, {k: v})` */
  function Default(ps: seq<Prop>, k: string, v: Value): (r: seq<Prop>)
    ensures Lookup(r, k) == if Missing(ps, k) then Some(v) else Lookup(ps, k)
    ensures forall k' :: k' != k ==> Lookup(r, k') == Lookup(ps, k')
  {
    if Missing(ps, k) then Put(ps, k, v) else ps
  }

  /** Two defaults under distinct keys, one after the other. */
  lemma DefaultPair(ps: seq<Prop>, a: string, va: Value, b: string, vb: Value)
    requires a != b
    ensures var r := Default(Default(ps, a, va), b, vb);
      && Lookup(r, a) == (if Missing(ps, a) then Some(va) else Lookup(ps, a))
      && Lookup(r, b) == (if Missing(ps, b) then Some(vb) else Lookup(ps, b))
      && forall k :: k != a && k != b ==> Lookup(r, k) == Lookup(ps, k)
  {
  }

  /** Three defaults under distinct keys, one after the other. */
  lemma DefaultChain(ps: seq<Prop>, a: string, va: Value, b: string, vb: Value, c: string, vc: Value)
    requires a != b && a != c && b != c
    ensures var r := Default(Default(Default(ps, a, va), b, vb), c, vc);
      && Lookup(r, a) == (if Missing(ps, a) then Some(va) else Lookup(ps, a))
      && Lookup(r, b) == (if Missing(ps, b) then Some(vb) else Lookup(ps, b))
      && Lookup(r, c) == (if Missing(ps, c) then Some(vc) else Lookup(ps, c))
      && forall k :: k != a && k != b && k != c ==> Lookup(r, k) == Lookup(ps, k)
  {
  }

  /** `delete obj[k]` */
  function Delete(ps: seq<Prop>, k: string): (r: seq<Prop>)
    ensures Lookup(r, k).None?
    ensures forall k' :: k' != k ==> Lookup(r, k') == Lookup(ps, k')
  {
    if ps == [] then []
    else if ps[0].key == k then Delete(ps[1..], k)
    else [ps[0]] + Delete(ps[1..], k)
  }

  /** The own enumerable properties `_.assign` copies from a source. */
  function OwnProps(src: Value): seq<Prop> {
    if src.Obj? then src.props else []
  }

  /** `_.assign(target, source)`: every property of the source overwrites the target's. */
  function Overlay(target: seq<Prop>, source: seq<Prop>): (r: seq<Prop>)
    requires Distinct(Keys(source))
    ensures forall k :: Lookup(r, k) == if k in Keys(source) then Lookup(source, k) else Lookup(target, k)
    decreases |source|
  {
    if source == [] then target
    else
      assert Keys(source) == [source[0].key] + Keys(source[1..]);
      assert forall i :: 0 <= i < |source| - 1 ==> Keys(source[1..])[i] == Keys(source)[i + 1];
      assert source[0].key !in Keys(source[1..]) by {
        forall i | 0 <= i < |source| - 1 ensures Keys(source[1..])[i] != source[0].key {
          assert Keys(source)[0] != Keys(source)[i + 1];
        }
      }
      assert forall k :: k != source[0].key ==> Lookup(source, k) == Lookup(source[1..], k);
      Overlay(Put(target, source[0].key, source[0].val), source[1..])
  }

  /** `_.pick(obj, names)` */
  function Pick(ps: seq<Prop>, names: seq<string>): (r: seq<Prop>)
    ensures forall k :: Lookup(r, k) == if k in names then Lookup(ps, k) else None
    decreases |names|
  {
    if names == [] then []
    else
      var rest := Pick(ps, names[1..]);
      match Lookup(ps, names[0])
      case None => rest
      case Some(v) => Put(rest, names[0], v)
  }

  // ---------------------------------------------------------------------------
  // Paths: `_.get` and `_.set`.  A `.name` step on an array and a `[pos]` step on
  // an object are not modelled: reading through one gives undefined, writing
  // through one changes nothing.

  /** `v[s]` */
  function At(v: Value, s: Seg): Value {
    if v.Obj? && s.Key? then
      match Lookup(v.props, s.name)
      case Some(x) => x
      case None => Undefined
    else if v.Arr? && s.Index? && s.pos < |v.elems| then v.elems[s.pos]
    else Undefined
  }

  /** `v.k` */
  function Dot(v: Value, k: string): Value {
    At(v, Key(k))
  }

  /** `_.get(v, p)`: undefined as soon as a step leads nowhere (lodash also gives
      undefined for an empty path). */
  function GetPath(v: Value, p: seq<Seg>): Value
    decreases |p|
  {
    if |p| == 0 then Undefined
    else if |p| == 1 then At(v, p[0])
    else GetPath(At(v, p[0]), p[1..])
  }

  /** `_.get(v, p, d)`: the default replaces an undefined result. */
  function GetOr(v: Value, p: seq<Seg>, d: Value): Value {
    var x := GetPath(v, p);
    if x == Undefined then d else x
  }

  /** The container `_.set` creates for a missing step: an array before an index. */
  function Fresh(s: Seg): Value {
    if s.Index? then Arr([]) else Obj([])
  }

  /** `v[s] = x`; writing past the end of an array leaves holes. */
  function Assign(v: Value, s: Seg, x: Value): Value {
    if v.Obj? && s.Key? then Obj(Put(v.props, s.name, x))
    else if v.Arr? && s.Index? then
      if s.pos < |v.elems| then Arr(v.elems[s.pos := x])
      else Arr(v.elems + seq(s.pos - |v.elems|, _ => Undefined) + [x])
    else v
  }

  /** `_.set(v, p, x)`: non-object steps on the way are replaced by fresh containers. */
  function SetPath(v: Value, p: seq<Seg>, x: Value): Value
    decreases |p|
  {
    if |p| == 0 then v
    else if |p| == 1 then Assign(v, p[0], x)
    else
      var c := At(v, p[0]);
      Assign(v, p[0], SetPath(if IsObject(c) then c else Fresh(p[1]), p[1..], x))
  }

  /** The container `v` accepts the step `s`. */
  predicate Accepts(v: Value, s: Seg) {
    (v.Obj? && s.Key?) || (v.Arr? && s.Index?)
  }

  /** Every container already on the path `p` accepts the step that leaves it,
      so `_.set` along `p` reaches its end. */
  predicate Fits(v: Value, p: seq<Seg>)
    decreases |p|
  {
    |p| > 0 && Accepts(v, p[0]) &&
    (|p| > 1 ==> var c := At(v, p[0]); !IsObject(c) || Fits(c, p[1..]))
  }

  /** Two paths part somewhere (neither is a prefix of the other), and where they
      part both steps are of the same kind, so a container made for one serves
      the other. */
  predicate Compatible(p: seq<Seg>, q: seq<Seg>)
    decreases |p|
  {
    |p| > 0 && |q| > 0 &&
    (p[0] != q[0] ==> p[0].Key? == q[0].Key?) &&
    (p[0] == q[0] ==> Compatible(p[1..], q[1..]))
  }

  lemma AtAssign(v: Value, s: Seg, x: Value)
    requires Accepts(v, s)
    ensures At(Assign(v, s, x), s) == x
  {
  }

  lemma AtAssignOther(v: Value, s: Seg, t: Seg, x: Value)
    requires s != t
    ensures At(Assign(v, t, x), s) == At(v, s)
  {
    if v.Arr? && t.Index? && s.Index? && t.pos >= |v.elems| {
      var w := v.elems + seq(t.pos - |v.elems|, _ => Undefined) + [x];
      if s.pos < |w| {
        assert w[s.pos] == if s.pos < |v.elems| then v.elems[s.pos] else Undefined;
      }
    }
  }

  lemma AssignKeepsKind(v: Value, s: Seg, x: Value)
    ensures Assign(v, s, x).Obj? == v.Obj? && Assign(v, s, x).Arr? == v.Arr?
  {
  }

  lemma GetPathOfNonObject(v: Value, p: seq<Seg>)
    requires !IsObject(v)
    ensures GetPath(v, p) == Undefined
    decreases |p|
  {
    if |p| > 1 {
      GetPathOfNonObject(At(v, p[0]), p[1..]);
    }
  }

  /** After `_.set(v, p, x)`, `_.get(_, p)` is `x` whenever `p` fits `v`. */
  lemma {:induction false} GetSetSame(v: Value, p: seq<Seg>, x: Value)
    requires Fits(v, p)
    ensures GetPath(SetPath(v, p, x), p) == x
    decreases |p|
  {
    if |p| == 1 {
      AtAssign(v, p[0], x);
    } else {
      var c := At(v, p[0]);
      var c' := if IsObject(c) then c else Fresh(p[1]);
      assert Fits(c', p[1..]);
      GetSetSame(c', p[1..], x);
      AtAssign(v, p[0], SetPath(c', p[1..], x));
    }
  }

  /** Writing along a path that parts from `p` leaves a defined value at `p` alone. */
  lemma {:induction false} GetSetOther(v: Value, p: seq<Seg>, q: seq<Seg>, x: Value)
    requires Compatible(p, q)
    requires GetPath(v, p) != Undefined
    ensures GetPath(SetPath(v, q, x), p) == GetPath(v, p)
    decreases |p|
  {
    var w := SetPath(v, q, x);
    if p[0] != q[0] {
      if |q| == 1 {
        AtAssignOther(v, p[0], q[0], x);
      } else {
        var c := At(v, q[0]);
        AtAssignOther(v, p[0], q[0], SetPath(if IsObject(c) then c else Fresh(q[1]), q[1..], x));
      }
    } else {
      var c := At(v, p[0]);
      if !IsObject(c) {
        GetPathOfNonObject(c, p[1..]);
      }
      assert IsObject(c);
      assert Accepts(v, p[0]);
      GetSetOther(c, p[1..], q[1..], x);
      AtAssign(v, p[0], SetPath(c, q[1..], x));
    }
  }

  /** Writing along a compatible path keeps `p` fitting. */
  lemma {:induction false} FitsAfterSet(v: Value, p: seq<Seg>, q: seq<Seg>, x: Value)
    requires Fits(v, p) && Compatible(p, q)
    ensures Fits(SetPath(v, q, x), p)
    decreases |p|
  {
    var w := SetPath(v, q, x);
    if |q| == 1 {
      AssignKeepsKind(v, q[0], x);
      if |p| > 1 && p[0] != q[0] {
        AtAssignOther(v, p[0], q[0], x);
      }
    } else {
      var c := At(v, q[0]);
      var c' := if IsObject(c) then c else Fresh(q[1]);
      var child := SetPath(c', q[1..], x);
      AssignKeepsKind(v, q[0], child);
      if |p| > 1 {
        if p[0] != q[0] {
          AtAssignOther(v, p[0], q[0], child);
        } else {
          assert Accepts(v, p[0]);
          AtAssign(v, p[0], child);
          assert Fits(c', p[1..]);
          FitsAfterSet(c', p[1..], q[1..], x);
        }
      }
    }
  }

  // ---------------------------------------------------------------------------
  // Strings

  function DigitChar(d: nat): char
    requires d < 10
  {
    "0123456789"[d]
  }

  function NatToString(n: nat): (r: string)
    ensures |r| > 0
    decreases n
  {
    if n < 10 then [DigitChar(n)] else NatToString(n / 10) + [DigitChar(n % 10)]
  }

  function IntToString(i: int): string {
    if i < 0 then "-" + NatToString(-i) else NatToString(i)
  }

  /** `Array.prototype.join` */
  function Join(parts: seq<string>, sep: string): string
    decreases |parts|
  {
    if |parts| == 0 then ""
    else if |parts| == 1 then parts[0]
    else parts[0] + sep + Join(parts[1..], sep)
  }

  /** `${v}`: template-literal conversion.  Inside an array null and undefined
      print as ''. */
  function ToStr(v: Value): string {
    match v
    case Undefined => "undefined"
    case Null => "null"
    case Bool(b) => if b then "true" else "false"
    case Num(n) => IntToString(n)
    case Str(s) => s
    case Arr(es) =>
      Join(seq(|es|, i requires 0 <= i < |es| => if es[i].Null? || es[i].Undefined? then "" else ToStr(es[i])), ",")
    case Obj(_) => "[object Object]"
  }

  /** The text of an array element as `Array.prototype.join` writes it. */
  function ElemStr(v: Value): string {
    if v.Null? || v.Undefined? then "" else ToStr(v)
  }

  /** lodash `baseToString`: like `${v}` except that arrays keep 'null' inside. */
  function LodashBaseStr(v: Value): string {
    match v
    case Str(s) => s
    case Arr(es) => Join(seq(|es|, i requires 0 <= i < |es| => LodashBaseStr(es[i])), ",")
    case _ => ToStr(v)
  }

  /** lodash `toString`: null and undefined become ''. */
  function LodashStr(v: Value): string {
    if v.Null? || v.Undefined? then "" else LodashBaseStr(v)
  }

  function Spaces(n: nat): string {
    seq(n, _ => ' ')
  }

  /** `_.padEnd(s, n)` */
  function PadEnd(s: string, n: nat): (r: string)
    ensures |r| == if |s| >= n then |s| else n
    ensures r[..|s|] == s
    ensures forall i :: |s| <= i < |r| ==> r[i] == ' '
  {
    if |s| >= n then s else s + Spaces(n - |s|)
  }

  function LeadingCount(s: string, drop: char -> bool): (n: nat)
    ensures n <= |s|
    ensures forall i :: 0 <= i < n ==> drop(s[i])
    ensures n < |s| ==> !drop(s[n])
    decreases |s|
  {
    if s == [] || !drop(s[0]) then 0 else 1 + LeadingCount(s[1..], drop)
  }

  function TrailingCount(s: string, drop: char -> bool): (n: nat)
    ensures n <= |s|
    ensures forall i :: |s| - n <= i < |s| ==> drop(s[i])
    ensures n < |s| ==> !drop(s[|s| - n - 1])
    decreases |s|
  {
    if s == [] || !drop(s[|s| - 1]) then 0 else 1 + TrailingCount(s[..|s| - 1], drop)
  }

  /** `_.trim(s, chars)`: strips every leading and trailing character `drop` accepts. */
  function TrimWhere(s: string, drop: char -> bool): (r: string)
    ensures exists i, j :: 0 <= i <= j <= |s| && r == s[i..j] &&
              (forall k :: 0 <= k < i ==> drop(s[k])) &&
              (forall k :: j <= k < |s| ==> drop(s[k]))
    ensures r == [] || (!drop(r[0]) && !drop(r[|r| - 1]))
  {
    var i := LeadingCount(s, drop);
    var t := TrailingCount(s, drop);
    if i == |s| then s[|s|..|s|]
    else
      assert !drop(s[i]);
      assert |s| - t > i;
      s[i..|s| - t]
  }

  /** `_.last(_.split(s, '/'))`: the text after the last slash. */
  function LastSegment(s: string): (r: string)
    ensures '/' !in r
    ensures |r| <= |s| && r == s[|s| - |r|..]
    ensures |r| < |s| ==> s[|s| - |r| - 1] == '/'
    decreases |s|
  {
    if s == [] || s[|s| - 1] == '/' then []
    else LastSegment(s[..|s| - 1]) + [s[|s| - 1]]
  }

  /** Whatever precedes the last slash, the last segment is what follows it. */
  lemma {:induction false} LastSegmentAfterSlash(a: string, b: string)
    requires '/' !in b
    ensures LastSegment(a + "/" + b) == b
    decreases |b|
  {
    if b == [] {
      assert (a + "/" + b)[|a + "/" + b| - 1] == '/';
    } else {
      var s := a + "/" + b;
      assert s[..|s| - 1] == a + "/" + b[..|b| - 1];
      assert s[|s| - 1] == b[|b| - 1];
      LastSegmentAfterSlash(a, b[..|b| - 1]);
    }
  }

  // ---------------------------------------------------------------------------
  // Collections

  /** `_.flatten([v])`: an array stands for its elements, anything else for itself. */
  function Wrap(v: Value): seq<Value> {
    if v.Arr? then v.elems else [v]
  }

  /** The values lodash's collection functions visit: array elements, object
      property values in order, the characters of a string. */
  function Elements(v: Value): seq<Value> {
    match v
    case Arr(es) => es
    case Obj(ps) => seq(|ps|, i requires 0 <= i < |ps| => ps[i].val)
    case Str(s) => seq(|s|, i requires 0 <= i < |s| => Str([s[i]]))
    case _ => []
  }

  /** `_.flatten(vs)`: one level of arrays spread into their elements. */
  function Flatten(vs: seq<Value>): (r: seq<Value>)
    ensures forall x :: x in r <==> exists i :: 0 <= i < |vs| && x in Wrap(vs[i])
    decreases |vs|
  {
    if vs == [] then []
    else
      var rest := Flatten(vs[..|vs| - 1]);
      assert forall i :: 0 <= i < |vs| - 1 ==> vs[..|vs| - 1][i] == vs[i];
      rest + Wrap(vs[|vs| - 1])
  }

  /** Flattening only empty arrays gives nothing. */
  lemma {:induction false} FlattenOfEmpties(vs: seq<Value>)
    requires forall i :: 0 <= i < |vs| ==> vs[i] == Arr([])
    ensures Flatten(vs) == []
    decreases |vs|
  {
    if vs != [] {
      FlattenOfEmpties(vs[..|vs| - 1]);
    }
  }

  /** The name `_.keyBy(vs, field)` files a value under. */
  function KeyOf(v: Value, field: string): string {
    ToStr(Dot(v, field))
  }

  /** `_.find(vs, {[field]: v})`: the first value whose `field` is `v`, if any. */
  function FirstWith(vs: seq<Value>, field: string, v: Value): (r: Option<Value>)
    ensures r.None? <==> forall i :: 0 <= i < |vs| ==> Dot(vs[i], field) != v
    ensures r.Some? ==> exists i :: (0 <= i < |vs| && r.value == vs[i] && Dot(vs[i], field) == v &&
                                     forall j :: 0 <= j < i ==> Dot(vs[j], field) != v)
    decreases |vs|
  {
    if vs == [] then None
    else if Dot(vs[0], field) == v then Some(vs[0])
    else
      var r := FirstWith(vs[1..], field, v);
      if r.Some? then
        var i :| 0 <= i < |vs| - 1 && r.value == vs[1..][i] && Dot(vs[1..][i], field) == v &&
          forall j :: 0 <= j < i ==> Dot(vs[1..][j], field) != v;
        assert vs[i + 1] == vs[1..][i];
        r
      else r
  }

  /** The last of `vs` filed under `k`. */
  function LastWith(vs: seq<Value>, field: string, k: string): (r: Option<Value>)
    ensures r.Some? ==> r.value in vs && KeyOf(r.value, field) == k
    ensures r.None? <==> forall i :: 0 <= i < |vs| ==> KeyOf(vs[i], field) != k
    decreases |vs|
  {
    if vs == [] then None
    else if KeyOf(vs[|vs| - 1], field) == k then Some(vs[|vs| - 1])
    else LastWith(vs[..|vs| - 1], field, k)
  }

  /** `_.keyBy(vs, field)`: a later value filed under a name replaces an earlier one. */
  function KeyBy(vs: seq<Value>, field: string): (r: seq<Prop>)
    ensures forall k :: Lookup(r, k) == LastWith(vs, field, k)
    ensures Distinct(Keys(r))
    decreases |vs|
  {
    if vs == [] then []
    else
      var init := KeyBy(vs[..|vs| - 1], field);
      Put(init, KeyOf(vs[|vs| - 1], field), vs[|vs| - 1])
  }

  /** `_.mapValues(obj, field)` */
  function MapValues(ps: seq<Prop>, field: string): (r: seq<Prop>)
    ensures Keys(r) == Keys(ps)
    ensures forall k :: Lookup(r, k) == match Lookup(ps, k) case None => None case Some(v) => Some(Dot(v, field))
    decreases |ps|
  {
    if ps == [] then []
    else
      var rest := MapValues(ps[1..], field);
      assert Keys([Prop(ps[0].key, Dot(ps[0].val, field))] + rest) == [ps[0].key] + Keys(rest);
      assert Keys(ps) == [ps[0].key] + Keys(ps[1..]);
      [Prop(ps[0].key, Dot(ps[0].val, field))] + rest
  }

  /** A path of property names, as lodash parses `'a.b.c'`. */
  function Dotted(names: seq<string>): (p: seq<Seg>)
    ensures |p| == |names|
    ensures forall i :: 0 <= i < |p| ==> p[i] == Key(names[i])
  {
    seq(|names|, i requires 0 <= i < |names| => Key(names[i]))
  }

  /** A two-step dotted path reads one property, then a property of that. */
  lemma GetTwo(v: Value, a: string, b: string)
    ensures GetPath(v, Dotted([a, b])) == Dot(Dot(v, a), b)
  {
    var p := Dotted([a, b]);
    assert p[1..] == [Key(b)];
  }

  /** Assigning a key the object lacks appends it. */
  lemma {:induction false} PutAppends(ps: seq<Prop>, k: string, v: Value)
    requires k !in Keys(ps)
    ensures Put(ps, k, v) == ps + [Prop(k, v)]
    decreases |ps|
  {
    if ps != [] {
      KeysCons(ps);
      PutAppends(ps[1..], k, v);
      assert Put(ps, k, v) == [ps[0]] + Put(ps[1..], k, v);
      assert [ps[0]] + (ps[1..] + [Prop(k, v)]) == ps + [Prop(k, v)];
    }
  }

  /** `_.compact`: drops the falsy values, keeping the order of the rest. */
  function Compact(vs: seq<Value>): (r: seq<Value>)
    ensures |r| <= |vs|
    ensures forall x :: x in r <==> x in vs && Truthy(x)
    decreases |vs|
  {
    if vs == [] then []
    else
      var rest := Compact(vs[1..]);
      assert vs == [vs[0]] + vs[1..];
      if Truthy(vs[0]) then [vs[0]] + rest else rest
  }

  lemma {:induction false} CompactAppend(a: seq<Value>, b: seq<Value>)
    ensures Compact(a + b) == Compact(a) + Compact(b)
    decreases |a|
  {
    if a != [] {
      assert (a + b)[1..] == a[1..] + b;
      CompactAppend(a[1..], b);
    } else {
      assert a + b == b;
    }
  }

  lemma {:induction false} CompactAllTruthy(vs: seq<Value>)
    requires forall i :: 0 <= i < |vs| ==> Truthy(vs[i])
    ensures Compact(vs) == vs
    decreases |vs|
  {
    if vs != [] {
      CompactAllTruthy(vs[1..]);
      assert vs == [vs[0]] + vs[1..];
    }
  }

  predicate Distinct<T(==)>(xs: seq<T>) {
    forall i, j :: 0 <= i < j < |xs| ==> xs[i] != xs[j]
  }

  /** `_.uniq`: the first occurrence of every value, in order. */
  function Uniq<T(==,!new)>(xs: seq<T>): (r: seq<T>)
    ensures Distinct(r)
    ensures forall x :: x in r <==> x in xs
    ensures |r| <= |xs|
    decreases |xs|
  {
    if xs == [] then []
    else
      var rest := Uniq(xs[..|xs| - 1]);
      var x := xs[|xs| - 1];
      assert xs == xs[..|xs| - 1] + [x];
      if x in rest then rest else rest + [x]
  }

  /** Nothing is dropped by `_.uniq` exactly when there was no duplicate. */
  lemma {:induction false} UniqKeepsAll<T(!new)>(xs: seq<T>)
    ensures |Uniq(xs)| == |xs| <==> Distinct(xs)
    decreases |xs|
  {
    if xs != [] {
      var init := xs[..|xs| - 1];
      var x := xs[|xs| - 1];
      UniqKeepsAll(init);
      if Distinct(xs) {
        assert Distinct(init);
        forall i | 0 <= i < |init| ensures init[i] != x {
          assert init[i] == xs[i];
        }
      } else if |Uniq(xs)| == |xs| {
        assert x !in Uniq(init);
        assert Distinct(init);
        assert x !in init;
        assert Distinct(xs) by {
          forall i, j | 0 <= i < j < |xs| ensures xs[i] != xs[j] {
            if j == |xs| - 1 {
              assert xs[i] == init[i];
            } else {
              assert xs[i] == init[i] && xs[j] == init[j];
            }
          }
        }
      }
    }
  }

  /** A sequence without duplicates has as many elements as its set. */
  lemma {:induction false} DistinctCard<T(!new)>(xs: seq<T>)
    requires Distinct(xs)
    ensures |set x | x in xs| == |xs|
    decreases |xs|
  {
    if xs != [] {
      var init := xs[..|xs| - 1];
      var x := xs[|xs| - 1];
      assert Distinct(init);
      DistinctCard(init);
      assert (set y | y in xs) == (set y | y in init) + {x};
      forall i | 0 <= i < |init| ensures init[i] != x {
        assert init[i] == xs[i];
      }
    }
  }
}
