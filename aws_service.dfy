/** models/aws-service.js: ECS services. */
module AwsService {
  import opened Js
  import Mappable
  import Instance

  /** `_(input.clusterArn).split('/').last()` */
  function ClusterNameOf(input: Value): Value {
    Str(LastSegment(LodashStr(Dot(input, "clusterArn"))))
  }

  function Table(): Mappable.Mapping {
    [ Mappable.Field("id", Mappable.Path(Dotted(["serviceArn"]))),
      Mappable.Field("name", Mappable.Path(Dotted(["serviceName"]))),
      Mappable.Field("clusterId", Mappable.Path(Dotted(["clusterArn"]))),
      Mappable.Field("status", Mappable.Path(Dotted(["status"]))),
      Mappable.Field("loadBalancers", Mappable.Path(Dotted(["loadBalancers"]))),
      Mappable.Field("desiredCount", Mappable.Path(Dotted(["desiredCount"]))),
      Mappable.Field("runningCount", Mappable.Path(Dotted(["runningCount"]))),
      Mappable.Field("pendingCount", Mappable.Path(Dotted(["pendingCount"]))),
      Mappable.Field("taskId", Mappable.Path(Dotted(["taskDefinition"]))),
      Mappable.Field("clusterName", Mappable.Derived(ClusterNameOf)) ]
  }

  /** `clusterName` is the text after the last slash of the cluster ARN. */
  lemma ClusterNameField(input: Value, prefix: string, name: string)
    requires Truthy(input) && Dot(input, "clusterArn") == Str(prefix + "/" + name)
    requires '/' !in name && name != []
    ensures Mappable.Construct(Ok(Table()), input).Ok?
    ensures Dot(Mappable.Construct(Ok(Table()), input).value, "clusterName") == Str(name)
  {
    ClusterNameOfArn(input, prefix, name);
    var t := Table();
    assert t[9] == Mappable.Field("clusterName", Mappable.Derived(ClusterNameOf));
    Mappable.FieldOf(t, input, 9);
  }

  lemma ClusterNameOfArn(input: Value, prefix: string, name: string)
    requires Dot(input, "clusterArn") == Str(prefix + "/" + name)
    requires '/' !in name && name != []
    ensures ClusterNameOf(input) == Str(name) && Truthy(Str(name))
  {
    var arn := prefix + "/" + name;
    assert LodashStr(Str(arn)) == arn;
    LastSegmentAfterSlash(prefix, name);
  }

  /** Without a cluster ARN, or with one ending in a slash, `clusterName` is null. */
  lemma NoClusterName(input: Value)
    requires Truthy(input)
    requires Dot(input, "clusterArn") == Undefined || LastSegment(LodashStr(Dot(input, "clusterArn"))) == []
    ensures Mappable.Construct(Ok(Table()), input).Ok?
    ensures Dot(Mappable.Construct(Ok(Table()), input).value, "clusterName") == Null
  {
    assert LodashStr(Undefined) == [];
    assert ClusterNameOf(input) == Str([]);
    var t := Table();
    assert t[9] == Mappable.Field("clusterName", Mappable.Derived(ClusterNameOf));
    Mappable.FieldOf(t, input, 9);
  }

  // ---------------------------------------------------------------------------
  // load: paging through listServices

  /** How many replies the paging reads from reply `i` on: up to and including the
      first one without a `nextToken`. */
  function PageEnd(replies: seq<Value>, i: nat): (n: nat)
    requires i <= |replies|
    ensures i <= n <= |replies|
    ensures i < |replies| ==> i < n
    ensures forall j :: i <= j < n - 1 ==> Truthy(Dot(replies[j], "nextToken"))
    ensures n < |replies| ==> !Truthy(Dot(replies[n - 1], "nextToken"))
    decreases |replies| - i
  {
    if i == |replies| then i
    else if !Truthy(Dot(replies[i], "nextToken")) then i + 1
    else PageEnd(replies, i + 1)
  }

  /** The listServices replies `load` reads: each reply with a `nextToken` asks for
      the next page, the first reply without one ends the paging. */
  function Pages(replies: seq<Value>): (r: seq<Value>)
    ensures |r| <= |replies| && r == replies[..|r|]
    ensures replies != [] ==> r != []
    ensures forall i :: 0 <= i < |r| - 1 ==> Truthy(Dot(r[i], "nextToken"))
    ensures |r| < |replies| ==> !Truthy(Dot(r[|r| - 1], "nextToken"))
  {
    replies[..PageEnd(replies, 0)]
  }

  /** The token each listServices request carries: none for the first page, the
      previous reply's `nextToken` after that. */
  function RequestTokens(pages: seq<Value>): (r: seq<Value>)
    ensures |r| == |pages|
    ensures |r| > 0 ==> r[0] == Undefined
    ensures forall i :: 0 < i < |r| ==> r[i] == Dot(pages[i - 1], "nextToken")
  {
    seq(|pages|, i requires 0 <= i < |pages| => if i == 0 then Undefined else Dot(pages[i - 1], "nextToken"))
  }

  /** The service names of one page: the last slash segment of every ARN listed. */
  function ServiceNames(reply: Value): (r: seq<string>)
    ensures |r| == |Elements(GetOr(reply, [Key("serviceArns")], Arr([])))|
  {
    var arns := Elements(GetOr(reply, [Key("serviceArns")], Arr([])));
    seq(|arns|, i requires 0 <= i < |arns| => LastSegment(LodashStr(arns[i])))
  }

  /** A service ARN's name is what follows its last slash. */
  lemma ServiceNameOfArn(reply: Value, prefix: string, name: string, i: nat)
    requires i < |Elements(GetOr(reply, [Key("serviceArns")], Arr([])))|
    requires Elements(GetOr(reply, [Key("serviceArns")], Arr([])))[i] == Str(prefix + "/" + name)
    requires '/' !in name
    ensures ServiceNames(reply)[i] == name
  {
    LastSegmentAfterSlash(prefix, name);
  }

  /** The describeServices request for one page, if the page lists any service. */
  function DescribeCall(reply: Value): (r: Option<seq<string>>)
    ensures r.Some? <==> |ServiceNames(reply)| > 0
    ensures r.Some? ==> r.value == ServiceNames(reply)
  {
    var names := ServiceNames(reply);
    if |names| > 0 then Some(names) else None
  }

  /** The `servicePromises` the paging pushes, one per page read, in page order. */
  function DescribeCalls(pages: seq<Value>): (r: seq<Option<seq<string>>>)
    ensures |r| == |pages|
    ensures forall i :: 0 <= i < |r| ==> r[i] == DescribeCall(pages[i])
  {
    seq(|pages|, i requires 0 <= i < |pages| => DescribeCall(pages[i]))
  }

  /** The recursive `fn(nextToken)` of `load`, as a loop over the replies: one entry
      pushed per page read, paging on while a reply carries a `nextToken`. */
  method CollectDescribes(replies: seq<Value>) returns (calls: seq<Option<seq<string>>>)
    ensures calls == DescribeCalls(Pages(replies))
  {
    calls := [];
    var i := 0;
    var more := replies != [];
    while more
      invariant i <= |replies|
      invariant more ==> i < |replies| && PageEnd(replies, i) == PageEnd(replies, 0)
      invariant !more ==> i == PageEnd(replies, 0)
      invariant calls == DescribeCalls(replies[..i])
      decreases |replies| - i
    {
      var reply := replies[i];
      assert replies[..i + 1] == replies[..i] + [reply];
      calls := calls + [DescribeCall(reply)];
      assert calls == DescribeCalls(replies[..i + 1]);
      if Truthy(Dot(reply, "nextToken")) {
        assert PageEnd(replies, i) == PageEnd(replies, i + 1);
        more := i + 1 < |replies|;
      } else {
        more := false;
      }
      i := i + 1;
    }
  }

  /** What a describe call settles with; an empty page stands for `{'services': []}`. */
  function DescribeResult(call: Option<seq<string>>, describe: seq<string> -> Value): Value {
    if call.Some? then describe(call.value) else Obj([Prop("services", Arr([]))])
  }

  /** The `services` of every describe result, in page order, one level flattened. */
  function AllServices(calls: seq<Option<seq<string>>>, describe: seq<string> -> Value): (r: seq<Value>)
    ensures forall x :: x in r <==>
      exists i :: 0 <= i < |calls| && x in Wrap(Dot(DescribeResult(calls[i], describe), "services"))
    ensures (forall i :: 0 <= i < |calls| ==> calls[i].None?) ==> r == []
  {
    var vs := seq(|calls|, i requires 0 <= i < |calls| => Dot(DescribeResult(calls[i], describe), "services"));
    assert forall i :: 0 <= i < |calls| ==> vs[i] == Dot(DescribeResult(calls[i], describe), "services");
    if forall i :: 0 <= i < |calls| ==> calls[i].None? then
      assert forall i :: 0 <= i < |calls| ==> DescribeResult(calls[i], describe) == Obj([Prop("services", Arr([]))]);
      FlattenOfEmpties(vs);
      Flatten(vs)
    else Flatten(vs)
  }

  /** `AWSService.load(cluster)`: every described service of every page, mapped,
      in page order. */
  function Load(replies: seq<Value>, describe: seq<string> -> Value): (r: Result<Value>)
    ensures r.Ok? && r.value.Arr?
    ensures var live := Compact(AllServices(DescribeCalls(Pages(replies)), describe));
      |r.value.elems| == |live| &&
      forall i :: 0 <= i < |live| ==> Mappable.Construct(Ok(Table()), live[i]) == Ok(r.value.elems[i])
    ensures forall x :: x in r.value.elems ==>
      exists s :: s in AllServices(DescribeCalls(Pages(replies)), describe) && Truthy(s) &&
                  Mappable.Construct(Ok(Table()), s) == Ok(x)
    ensures forall s :: s in AllServices(DescribeCalls(Pages(replies)), describe) && Truthy(s) ==>
      exists x :: x in r.value.elems && Mappable.Construct(Ok(Table()), s) == Ok(x)
  {
    var all := AllServices(DescribeCalls(Pages(replies)), describe);
    Mappable.MapOfArray(Table(), all);
    Mappable.Map(Ok(Table()), Arr(all))
  }

  /** When no page lists a service, no describe call is made and nothing is loaded. */
  lemma LoadWithoutServices(replies: seq<Value>, describe: seq<string> -> Value)
    requires forall i :: 0 <= i < |replies| ==> ServiceNames(replies[i]) == []
    ensures forall c :: c in DescribeCalls(Pages(replies)) ==> c.None?
    ensures Load(replies, describe) == Ok(Arr([]))
  {
    var pages := Pages(replies);
    var calls := DescribeCalls(pages);
    forall i | 0 <= i < |calls| ensures calls[i].None? {
      assert pages[i] == replies[i];
    }
    assert Mappable.Records(Arr([])) == [];
  }

  // ---------------------------------------------------------------------------
  // Requests

  /** The createService parameters: `desiredCount` is 1 unless the caller gave one;
      an omitted argument stands for `{}`. */
  function CreateRequest(params: Option<seq<Prop>>): (r: seq<Prop>)
    ensures var ps := if params.Some? then params.value else [];
      Lookup(r, "desiredCount") == (if Missing(ps, "desiredCount") then Some(Num(1)) else Lookup(ps, "desiredCount")) &&
      forall k :: k != "desiredCount" ==> Lookup(r, k) == Lookup(ps, k)
  {
    Default(if params.Some? then params.value else [], "desiredCount", Num(1))
  }

  /** `AWSService.create`: the reply's `service`, mapped. */
  function CreateResult(reply: Value): (r: Result<Value>)
    ensures r.Ok?
    ensures Truthy(Dot(reply, "service")) && !Dot(reply, "service").Arr? ==>
      Mappable.Construct(Ok(Table()), Dot(reply, "service")) == r
  {
    Mappable.Map(Ok(Table()), Dot(reply, "service"))
  }

  /** The updateService parameters of `service.update(params)`: the service's cluster
      and name, which the caller's parameters override. */
  function UpdateRequest(service: Value, params: Option<seq<Prop>>): (r: seq<Prop>)
    requires params.Some? ==> Distinct(Keys(params.value))
    ensures var ps := if params.Some? then params.value else [];
      (Lookup(r, "cluster") == if "cluster" in Keys(ps) then Lookup(ps, "cluster") else Some(Dot(service, "clusterName"))) &&
      (Lookup(r, "service") == if "service" in Keys(ps) then Lookup(ps, "service") else Some(Dot(service, "name"))) &&
      forall k :: k != "cluster" && k != "service" ==> Lookup(r, k) == Lookup(ps, k)
  {
    var base := [Prop("cluster", Dot(service, "clusterName")), Prop("service", Dot(service, "name"))];
    var ps := if params.Some? then params.value else [];
    assert Lookup(base, "service") == Lookup(base[1..], "service");
    assert Keys(base) == ["cluster", "service"];
    LookupFoundAll(base);
    LookupFoundAll(ps);
    Overlay(base, ps)
  }

  /** The deleteService parameters of `service.delete()`. */
  function DeleteRequest(service: Value): (r: seq<Prop>)
    ensures Keys(r) == ["cluster", "service"]
    ensures Lookup(r, "cluster") == Some(Dot(service, "clusterName"))
    ensures Lookup(r, "service") == Some(Dot(service, "name"))
  {
    var r := [Prop("cluster", Dot(service, "clusterName")), Prop("service", Dot(service, "name"))];
    assert Lookup(r, "service") == Lookup(r[1..], "service");
    r
  }

  /** `AWSService.registerTaskDefinition(task)`: arn, name and revision of the
      registered task definition. */
  function TaskDefinitionSummary(reply: Value): (r: seq<Prop>)
    ensures Keys(r) == ["arn", "name", "revision"]
    ensures Lookup(r, "arn") == Some(GetPath(reply, [Key("taskDefinition"), Key("taskDefinitionArn")]))
    ensures Lookup(r, "name") == Some(GetPath(reply, [Key("taskDefinition"), Key("family")]))
    ensures Lookup(r, "revision") == Some(GetPath(reply, [Key("taskDefinition"), Key("revision")]))
  {
    var r := [ Prop("arn", GetPath(reply, [Key("taskDefinition"), Key("taskDefinitionArn")])),
               Prop("name", GetPath(reply, [Key("taskDefinition"), Key("family")])),
               Prop("revision", GetPath(reply, [Key("taskDefinition"), Key("revision")])) ];
    assert r[1..][1..] == [r[2]];
    assert Lookup(r, "name") == Lookup(r[1..], "name");
    assert Lookup(r, "revision") == Lookup(r[1..], "revision") == Lookup(r[1..][1..], "revision");
    r
  }

  /** `service.registerTaskDefinition(task)`: the service is updated to the new
      definition's ARN, on its own cluster and name. */
  lemma RegisterThenUpdate(service: Value, reply: Value)
    ensures var r := UpdateRequest(service, Some([Prop("taskDefinition", Dot(Obj(TaskDefinitionSummary(reply)), "arn"))]));
      Lookup(r, "taskDefinition") == Some(GetPath(reply, [Key("taskDefinition"), Key("taskDefinitionArn")])) &&
      Lookup(r, "cluster") == Some(Dot(service, "clusterName")) &&
      Lookup(r, "service") == Some(Dot(service, "name"))
  {
  }

  // ---------------------------------------------------------------------------
  // find: every pair of the filter must match

  /** `_.intersection(a, b)`: the distinct values of `a` that `b` holds, in `a`'s order. */
  function Intersection(a: seq<string>, b: seq<string>): (r: seq<string>)
    ensures Distinct(r)
    ensures forall x :: x in r <==> x in a && x in b
  {
    Uniq(Common(a, b))
  }

  /** The values of `a` that `b` holds, repeats included, in `a`'s order. */
  function Common(a: seq<string>, b: seq<string>): (r: seq<string>)
    ensures forall x :: x in r <==> x in a && x in b
    decreases |a|
  {
    if a == [] then []
    else
      assert a == [a[0]] + a[1..];
      (if a[0] in b then [a[0]] else []) + Common(a[1..], b)
  }

  /** The test `find` applies as written: the service shares as many distinct pair
      texts with the filter as the filter has keys. */
  predicate MatchesAsWritten(service: Value, filter: seq<Prop>) {
    |Intersection(Instance.PairTexts(OwnProps(service)), Instance.PairTexts(filter))| == |filter|
  }

  /** Every pair of the filter is a pair of the service. */
  predicate MatchesAll(service: Value, filter: seq<Prop>) {
    forall j :: 0 <= j < |filter| ==> Instance.PairText(filter[j]) in Instance.PairTexts(OwnProps(service))
  }

  /** A subset as large as its superset is the superset. */
  lemma SubsetSameSize(a: set<string>, b: set<string>)
    requires a <= b && |a| == |b|
    ensures a == b
  {
    var d := b - a;
    assert b == a + d;
    assert a * d == {};
    assert |a + d| == |a| + |d|;
  }

  /** While no two filter pairs read the same, counting the intersection is the same
      as asking every filter pair to match. */
  lemma AsWrittenAgrees(service: Value, filter: seq<Prop>)
    requires Distinct(Instance.PairTexts(filter))
    ensures MatchesAsWritten(service, filter) <==> MatchesAll(service, filter)
  {
    var sp := Instance.PairTexts(OwnProps(service));
    var fp := Instance.PairTexts(filter);
    IntersectionFull(sp, fp);
    if MatchesAll(service, filter) {
      forall x | x in fp ensures x in sp {
        var j :| 0 <= j < |fp| && fp[j] == x;
        assert Instance.PairText(filter[j]) == x;
      }
    }
    if forall x :: x in fp ==> x in sp {
      forall j | 0 <= j < |filter| ensures Instance.PairText(filter[j]) in sp {
        assert fp[j] in fp;
      }
    }
  }

  /** Distinct values all of which `sp` holds, and only those, fill the intersection. */
  lemma IntersectionFull(sp: seq<string>, fp: seq<string>)
    requires Distinct(fp)
    ensures |Intersection(sp, fp)| == |fp| <==> forall x :: x in fp ==> x in sp
  {
    var common := Intersection(sp, fp);
    DistinctCard(common);
    DistinctCard(fp);
    var c := set x | x in common;
    var f := set x | x in fp;
    assert c <= f;
    if forall x :: x in fp ==> x in sp {
      assert c == f;
    }
    if |common| == |fp| {
      SubsetSameSize(c, f);
      forall x | x in fp ensures x in sp {
        assert x in f;
      }
    }
  }

  /** Two filter pairs that read the same ("a" + "bc" and "ab" + "c") make `find`
      drop a service holding both pairs. */
  lemma CollidingFilterDropsMatch()
    ensures var filter := [Prop("a", Str("bc")), Prop("ab", Str("c"))];
      MatchesAll(Obj(filter), filter) && !MatchesAsWritten(Obj(filter), filter)
  {
    var filter := [Prop("a", Str("bc")), Prop("ab", Str("c"))];
    var texts := Instance.PairTexts(filter);
    assert Instance.PairText(filter[0]) == "abc";
    assert Instance.PairText(filter[1]) == "abc";
    assert texts == ["abc", "abc"];
    assert texts[1..] == ["abc"];
    assert Common(["abc"], texts) == ["abc"];
    assert Common(texts, texts) == ["abc", "abc"];
    assert Intersection(texts, texts) == ["abc"];
  }

  /** `AWSService.find(cluster, filter)`: with an empty filter every loaded service,
      otherwise the services that hold every pair of the filter. */
  predicate Keeps(service: Value, filter: seq<Prop>) {
    Truthy(service) && (|filter| == 0 || MatchesAll(service, filter))
  }

  function Select(services: seq<Value>, filter: seq<Prop>): (r: seq<Value>)
    ensures |r| <= |services|
    ensures forall x :: x in r <==> x in services && Keeps(x, filter)
    decreases |services|
  {
    if services == [] then []
    else
      assert services == [services[0]] + services[1..];
      (if Keeps(services[0], filter) then [services[0]] else []) + Select(services[1..], filter)
  }

  /** One element is kept exactly when the filter keeps it. */
  lemma SelectOne(x: Value, filter: seq<Prop>)
    ensures Select([x], filter) == if Keeps(x, filter) then [x] else []
  {
    assert [x][1..] == [];
  }

  /** Selecting from two runs one after the other selects from each in turn, so
      what is kept stays in listing order, repeats included. */
  lemma {:induction false} SelectAppend(a: seq<Value>, b: seq<Value>, filter: seq<Prop>)
    ensures Select(a + b, filter) == Select(a, filter) + Select(b, filter)
    decreases |a|
  {
    if a == [] {
      assert a + b == b;
    } else {
      assert (a + b)[0] == a[0];
      assert (a + b)[1..] == a[1..] + b;
      SelectAppend(a[1..], b, filter);
    }
  }

  function Find(load: Result<seq<Value>>, filter: seq<Prop>): (r: Result<seq<Value>>)
    ensures r.Err? <==> load.Err?
    ensures r.Ok? ==> forall x :: x in r.value <==> x in load.value && Keeps(x, filter)
  {
    if load.Err? then Err(load.msg) else Ok(Select(load.value, filter))
  }

  /** A service kept by `AWSService.find` is kept by `Instance.find` with the same
      filter: every pair matching implies some pair matching. */
  lemma AllImpliesAny(service: Value, filter: seq<Prop>)
    requires Keeps(service, filter)
    ensures Instance.Kept(service, filter)
  {
    if |filter| > 0 {
      assert Instance.PairText(filter[0]) in Instance.PairTexts(OwnProps(service));
    }
  }
}
