/** models/instance.js: the platform-independent part of a machine instance.

    Loading the running instances is the platform's business; here the loaded list
    is an argument (or the rejection `load` settled with). */
module Instance {
  import opened Js
  import Mappable

  const SubclassError := "Instance must be subclassed with a platform connector like AWS."
  const FindOneError := "findOne did not find exactly 1 match."

  /** The base class has no table, no `load` and no `create`. */
  function BaseMapping(): (t: Result<Mappable.Mapping>)
    ensures t.Err? && t.msg == SubclassError
  {
    Err(SubclassError)
  }

  function BaseLoad(): (r: Result<seq<Value>>)
    ensures r.Err? && r.msg == SubclassError
  {
    Err(SubclassError)
  }

  function BaseCreate(options: Value): (r: Result<Value>)
    ensures r.Err? && r.msg == SubclassError
  {
    Err(SubclassError)
  }

  /** Without a platform connector nothing can be built, written back or found. */
  lemma BaseInstanceFails(input: Value, filter: seq<Prop>)
    requires Truthy(input) && !input.Arr?
    ensures Mappable.Construct(BaseMapping(), input) == Err(SubclassError)
    ensures Mappable.Map(BaseMapping(), input) == Err(SubclassError)
    ensures Mappable.Unmap(BaseMapping(), input) == Err(SubclassError)
    ensures Find(BaseLoad(), filter) == Err(SubclassError)
  {
    assert Mappable.Records(input) == [input];
  }

  /** `_.join([key, value], '')` */
  function PairText(p: Prop): string {
    p.key + ElemStr(p.val)
  }

  function PairTexts(ps: seq<Prop>): seq<string> {
    seq(|ps|, i requires 0 <= i < |ps| => PairText(ps[i]))
  }

  /** Some pair of the filter is also a pair of the instance. */
  predicate MatchesAny(instance: Value, filter: seq<Prop>) {
    exists j :: 0 <= j < |filter| && PairText(filter[j]) in PairTexts(OwnProps(instance))
  }

  /** `find` keeps an instance when the filter is empty or when any pair matches. */
  predicate Kept(instance: Value, filter: seq<Prop>) {
    Truthy(instance) && (|filter| == 0 || MatchesAny(instance, filter))
  }

  function Select(loaded: seq<Value>, filter: seq<Prop>): (r: seq<Value>)
    ensures forall x :: x in r <==> x in loaded && Kept(x, filter)
    ensures |r| <= |loaded|
    decreases |loaded|
  {
    if loaded == [] then []
    else
      assert loaded == [loaded[0]] + loaded[1..];
      (if Kept(loaded[0], filter) then [loaded[0]] else []) + Select(loaded[1..], filter)
  }

  /** One element is kept exactly when the filter keeps it. */
  lemma SelectOne(x: Value, filter: seq<Prop>)
    ensures Select([x], filter) == if Kept(x, filter) then [x] else []
  {
    assert [x][1..] == [];
  }

  /** Selecting from two runs one after the other selects from each in turn, so
      what is kept stays in load order, repeats included. */
  lemma {:induction false} SelectAppend(a: seq<Value>, b: seq<Value>, filter: seq<Prop>)
    ensures Select(a + b, filter) == Select(a, filter) + Select(b, filter)
    decreases |a|
  {
    if a == [] {
      assert a + b == b;
    } else {
      assert (a + b)[0] == a[0];
      assert (a + b)[1..] == a[1..] + b;
      SelectAppend(a[1..], b, filter);
    }
  }

  /** `Instance.find(filter)` */
  function Find(load: Result<seq<Value>>, filter: seq<Prop>): (r: Result<seq<Value>>)
    ensures r.Err? <==> load.Err?
    ensures r.Ok? ==> forall x :: x in r.value <==> x in load.value && Kept(x, filter)
  {
    if load.Err? then Err(load.msg) else Ok(Select(load.value, filter))
  }

  /** An empty filter returns every loaded instance, in load order. */
  lemma {:induction false} SelectEmptyFilter(loaded: seq<Value>)
    requires forall i :: 0 <= i < |loaded| ==> loaded[i].Obj?
    ensures Select(loaded, []) == loaded
    decreases |loaded|
  {
    if loaded != [] {
      SelectEmptyFilter(loaded[1..]);
    }
  }

  /** An instance with a property whose pair text equals a filter pair's is kept:
      one matching pair is enough. */
  lemma OnePairMatches(instance: Value, filter: seq<Prop>, k: string, j: nat)
    requires instance.Obj? && k in Keys(instance.props)
    requires j < |filter| && PairText(filter[j]) == k + ElemStr(Dot(instance, k))
    ensures Kept(instance, filter)
  {
    var i :| 0 <= i < |instance.props| && instance.props[i].key == k;
    FirstWithKey(instance.props, k, i);
    var i' :| 0 <= i' < |instance.props| && instance.props[i'].key == k &&
      Lookup(instance.props, k) == Some(instance.props[i'].val);
    assert PairTexts(instance.props)[i'] == PairText(filter[j]);
  }

  /** The property `Lookup` finds for a key is one with that key. */
  lemma {:induction false} FirstWithKey(ps: seq<Prop>, k: string, i: nat)
    requires i < |ps| && ps[i].key == k
    ensures exists i' :: 0 <= i' < |ps| && ps[i'].key == k && Lookup(ps, k) == Some(ps[i'].val)
    decreases |ps|
  {
    if ps[0].key != k {
      FirstWithKey(ps[1..], k, i - 1);
      var i' :| 0 <= i' < |ps| - 1 && ps[1..][i'].key == k && Lookup(ps[1..], k) == Some(ps[1..][i'].val);
      assert ps[i' + 1].key == k;
    }
  }

  /** `Instance.findOne(filter)` */
  function FindOne(load: Result<seq<Value>>, filter: seq<Prop>): (r: Result<Value>)
    ensures r.Ok? <==> Find(load, filter).Ok? && |Find(load, filter).value| == 1
    ensures r.Ok? ==> r.value == Find(load, filter).value[0]
    ensures load.Ok? && !r.Ok? ==> r == Err(FindOneError)
  {
    match Find(load, filter)
    case Err(m) => Err(m)
    case Ok(found) => if |found| != 1 then Err(FindOneError) else Ok(found[0])
  }

  /** `Instance.byId(id)`: the one instance with a pair text of `id` followed by the id. */
  function ById(load: Result<seq<Value>>, id: Value): (r: Result<Value>)
    ensures r.Ok? ==> load.Ok? && r.value in load.value && Kept(r.value, [Prop("id", id)])
    ensures r.Ok? <==> FindOne(load, [Prop("id", id)]).Ok?
  {
    FindOne(load, [Prop("id", id)])
  }

  /** `path.join(dir, file)` for a plain file name (no `.` or `..` to resolve). */
  function JoinPath(dir: string, file: string): (r: string)
    ensures r == if dir == [] then file else if dir[|dir| - 1] == '/' then dir + file else dir + "/" + file
  {
    if dir == [] then file
    else if dir[|dir| - 1] == '/' then dir + file
    else dir + "/" + file
  }

  /** Joined onto a directory, a file name without slashes is the last segment. */
  lemma JoinPathLast(dir: string, file: string)
    requires dir != [] && '/' !in file
    ensures LastSegment(JoinPath(dir, file)) == file
  {
    if dir[|dir| - 1] == '/' {
      assert JoinPath(dir, file) == dir[..|dir| - 1] + "/" + file;
      LastSegmentAfterSlash(dir[..|dir| - 1], file);
    } else {
      LastSegmentAfterSlash(dir, file);
    }
  }

  /** A joined path starts with the directory and ends with the file name. */
  lemma JoinPathEnds(dir: string, file: string)
    ensures var r := JoinPath(dir, file);
      |r| >= |dir| + |file| && r[..|dir|] == dir && r[|r| - |file|..] == file
  {
  }

  /** `${keyName}_${region}.pem` */
  function KeyFile(keyName: Value, region: Value): string {
    ToStr(keyName) + "_" + ToStr(region) + ".pem"
  }

  /** `instance.keyPath()`: the key file `<keyName>_<region>.pem` in the working directory. */
  function KeyPath(cwd: string, keyName: Value, region: Value): (r: string)
    ensures |r| >= |cwd| + |KeyFile(keyName, region)| && r[..|cwd|] == cwd &&
      r[|r| - |KeyFile(keyName, region)|..] == KeyFile(keyName, region)
    ensures cwd != [] && cwd[|cwd| - 1] != '/' ==> r == cwd + "/" + KeyFile(keyName, region)
    ensures '/' !in KeyFile(keyName, region) && cwd != [] ==> LastSegment(r) == KeyFile(keyName, region)
  {
    var file := KeyFile(keyName, region);
    JoinPathEnds(cwd, file);
    if '/' !in file && cwd != [] then
      JoinPathLast(cwd, file);
      JoinPath(cwd, file)
    else JoinPath(cwd, file)
  }

  /** `instance.ssh(commands, results)`: the raw remote results only when asked for,
      the re-fetched instance otherwise; a failed command run fails the call. */
  function SshOutcome(results: Value, ran: Result<Value>, refetched: Result<Value>): (r: Result<Value>)
    ensures ran.Err? ==> r == Err(ran.msg)
    ensures ran.Ok? && Truthy(results) ==> r == ran
    ensures ran.Ok? && !Truthy(results) ==> r == refetched
  {
    if ran.Err? then Err(ran.msg)
    else if Truthy(results) then ran
    else refetched
  }
}
