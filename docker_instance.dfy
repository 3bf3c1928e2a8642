/** models/docker-instance.js: local containers reached through the Docker socket. */
module DockerInstance {
  import opened Js
  import Mappable
  import Instance

  const Localhost := "127.0.0.1"
  const SocketPath := "/var/run/docker.sock"
  const MissingIdError := "Unable to find Id on docker response."

  /** Every container is reached on the local host. */
  function LocalIp(input: Value): Value {
    Str(Localhost)
  }

  function Table(): Mappable.Mapping {
    [ Mappable.Field("id", Mappable.Path(Dotted(["Id"]))),
      Mappable.Field("imageId", Mappable.Path(Dotted(["ImageID"]))),
      Mappable.Field("state", Mappable.Path(Dotted(["State"]))),
      Mappable.Field("ip", Mappable.Derived(LocalIp)),
      Mappable.Field("name", Mappable.Path([Key("Names"), Index(0)])),
      Mappable.Field("type", Mappable.Path(Dotted(["InstanceType"]))),
      Mappable.Field("tags", Mappable.Path(Dotted(["Labels"]))) ]
  }

  /** `ip` is the local host, whatever the container record says. */
  lemma IpField(input: Value)
    requires Truthy(input)
    ensures Mappable.Construct(Ok(Table()), input).Ok?
    ensures Dot(Mappable.Construct(Ok(Table()), input).value, "ip") == Str(Localhost)
  {
    assert Table()[3].spec == Mappable.Derived(LocalIp);
    assert Mappable.FieldValue(Table()[3].spec, input) == Str(Localhost);
    Mappable.FieldOf(Table(), input, 3);
  }

  /** `name` is the first of the container's `Names`. */
  lemma NameField(input: Value, first: Value, rest: seq<Value>)
    requires input.Obj? && Dot(input, "Names") == Arr([first] + rest) && first != Undefined
    ensures Mappable.Construct(Ok(Table()), input).Ok?
    ensures Dot(Mappable.Construct(Ok(Table()), input).value, "name") == first
  {
    var p := [Key("Names"), Index(0)];
    assert Table()[4].spec == Mappable.Path(p);
    assert GetPath(input, p) == first;
    assert Mappable.FieldValue(Table()[4].spec, input) == first;
    Mappable.FieldOf(Table(), input, 4);
  }

  /** `id`, `state` and `tags` read `Id`, `State` and `Labels`, null where missing. */
  lemma IdField(input: Value)
    requires Truthy(input)
    ensures Mappable.Construct(Ok(Table()), input).Ok?
    ensures Dot(Mappable.Construct(Ok(Table()), input).value, "id") == GetOr(input, [Key("Id")], Null)
  {
    assert Table()[0].spec == Mappable.Path([Key("Id")]);
    Mappable.FieldOf(Table(), input, 0);
  }

  lemma StateField(input: Value)
    requires Truthy(input)
    ensures Mappable.Construct(Ok(Table()), input).Ok?
    ensures Dot(Mappable.Construct(Ok(Table()), input).value, "state") == GetOr(input, [Key("State")], Null)
  {
    assert Table()[2].spec == Mappable.Path([Key("State")]);
    Mappable.FieldOf(Table(), input, 2);
  }

  lemma TagsField(input: Value)
    requires Truthy(input)
    ensures Mappable.Construct(Ok(Table()), input).Ok?
    ensures Dot(Mappable.Construct(Ok(Table()), input).value, "tags") == GetOr(input, [Key("Labels")], Null)
  {
    assert Table()[6].spec == Mappable.Path([Key("Labels")]);
    Mappable.FieldOf(Table(), input, 6);
  }

  // ---------------------------------------------------------------------------
  // docker(pathname, query, options)

  /** The query `docker` sends: object and array values JSON-encoded, the rest as given. */
  function NormalizeQuery(query: seq<Prop>, stringify: Value -> string): (r: seq<Prop>)
    ensures Keys(r) == Keys(query)
    ensures forall i :: 0 <= i < |r| ==>
      r[i].val == if IsObject(query[i].val) then Str(stringify(query[i].val)) else query[i].val
  {
    seq(|query|, i requires 0 <= i < |query| =>
      Prop(query[i].key, if IsObject(query[i].val) then Str(stringify(query[i].val)) else query[i].val))
  }

  /** The request options: socket, method and path are filled in only where the
      caller left them undefined. */
  function RequestOptions(options: seq<Prop>, path: string): (r: seq<Prop>)
    ensures Lookup(r, "socketPath") == if Missing(options, "socketPath") then Some(Str(SocketPath)) else Lookup(options, "socketPath")
    ensures Lookup(r, "method") == if Missing(options, "method") then Some(Str("GET")) else Lookup(options, "method")
    ensures Lookup(r, "path") == if Missing(options, "path") then Some(Str(path)) else Lookup(options, "path")
    ensures forall k :: k != "socketPath" && k != "method" && k != "path" ==> Lookup(r, k) == Lookup(options, k)
  {
    DefaultChain(options, "socketPath", Str(SocketPath), "method", Str("GET"), "path", Str(path));
    Default(Default(Default(options, "socketPath", Str(SocketPath)), "method", Str("GET")), "path", Str(path))
  }

  /** What the response stream delivers: a chunk of text or an error. */
  datatype Event = Chunk(text: string) | Failure(reason: string)

  /** The text of every chunk, in arrival order. */
  function Body(events: seq<Event>): (r: string)
    ensures forall i :: 0 <= i < |events| && events[i].Chunk? ==> |events[i].text| <= |r|
    decreases |events|
  {
    if events == [] then ""
    else
      var init := Body(events[..|events| - 1]);
      var e := events[|events| - 1];
      assert forall i :: 0 <= i < |events| - 1 ==> events[..|events| - 1][i] == events[i];
      if e.Chunk? then init + e.text else init
  }

  /** The position of the last error the stream reported, -1 when none did. */
  function LastFailureAt(events: seq<Event>): (i: int)
    ensures -1 <= i < |events|
    ensures i >= 0 ==> events[i].Failure?
    ensures forall j :: i < j < |events| ==> events[j].Chunk?
    decreases |events|
  {
    if events == [] then -1
    else if events[|events| - 1].Failure? then |events| - 1
    else
      var init := events[..|events| - 1];
      assert forall j :: 0 <= j < |init| ==> init[j] == events[j];
      LastFailureAt(init)
  }

  /** The last error the stream reported, if any. */
  function LastFailure(events: seq<Event>): (r: Option<string>)
    ensures r.None? <==> forall i :: 0 <= i < |events| ==> events[i].Chunk?
    ensures r.Some? ==> exists i :: 0 <= i < |events| && events[i] == Failure(r.value) &&
                                   forall j :: i < j < |events| ==> events[j].Chunk?
  {
    var i := LastFailureAt(events);
    if i < 0 then None else Some(events[i].reason)
  }

  /** How `docker` settles once the stream ends: rejected with the last error, else
      the body parsed as JSON when it parses, else the raw body. */
  function Settle(events: seq<Event>, parse: string -> Option<Value>): (r: Result<Value>)
    ensures r.Err? <==> exists i :: 0 <= i < |events| && events[i].Failure?
    ensures r.Err? ==> Some(r.msg) == LastFailure(events)
    ensures r.Ok? && parse(Body(events)).Some? ==> r.value == parse(Body(events)).value
    ensures r.Ok? && parse(Body(events)).None? ==> r.value == Str(Body(events))
  {
    match LastFailure(events)
    case Some(reason) => Err(reason)
    case None =>
      match parse(Body(events))
      case Some(v) => Ok(v)
      case None => Ok(Str(Body(events)))
  }

  /** The response handlers of `docker`: `data += chunk` on every chunk, `err = e`
      on every error, and the settlement at the end. */
  method ReadResponse(events: seq<Event>, parse: string -> Option<Value>) returns (r: Result<Value>)
    ensures r == Settle(events, parse)
  {
    var data := "";
    var err: Option<string> := None;
    var i := 0;
    while i < |events|
      invariant i <= |events|
      invariant data == Body(events[..i])
      invariant err == LastFailure(events[..i])
    {
      assert events[..i + 1][..i] == events[..i];
      assert LastFailureAt(events[..i + 1]) == if events[i].Failure? then i else LastFailureAt(events[..i]);
      match events[i] {
        case Chunk(text) => data := data + text;
        case Failure(reason) => err := Some(reason);
      }
      i := i + 1;
    }
    assert events[..i] == events;
    if err.Some? {
      r := Err(err.value);
    } else {
      match parse(data) {
        case Some(v) => r := Ok(v);
        case None => r := Ok(Str(data));
      }
    }
  }

  // ---------------------------------------------------------------------------
  // Operations

  /** `TestInstance.load()`: the containers the socket lists, mapped. */
  function Load(output: Result<Value>): (r: Result<Value>)
    ensures output.Err? ==> r == Err(output.msg)
    ensures output.Ok? ==> r == Mappable.Map(Ok(Table()), output.value)
  {
    if output.Err? then Err(output.msg) else Mappable.Map(Ok(Table()), output.value)
  }

  /** `TestInstance.byName(name)`: the instances with that name among the loaded ones. */
  function ByName(load: Result<seq<Value>>, name: Value): (r: Result<seq<Value>>)
    ensures r == Instance.Find(load, [Prop("name", name)])
    ensures r.Ok? ==> forall x :: x in r.value ==> x in load.value && Instance.Kept(x, [Prop("name", name)])
  {
    Instance.Find(load, [Prop("name", name)])
  }

  /** The port binding `create` asks for: host port `port` for the container's ssh port. */
  function CreateQuery(port: int): (r: seq<Prop>)
    ensures Lookup(r, "Image") == Some(Str("rastasheep/ubuntu-sshd:16.04"))
    ensures GetPath(Obj(r), [Key("HostConfig"), Key("PortBindings"), Key("22/tcp"), Index(0), Key("HostPort")]) ==
      Str(IntToString(port))
  {
    var binding := Obj([Prop("HostPort", Str(IntToString(port)))]);
    var r := [ Prop("Image", Str("rastasheep/ubuntu-sshd:16.04")),
               Prop("HostConfig", Obj([Prop("PortBindings", Obj([Prop("22/tcp", Arr([binding]))]))])) ];
    assert Lookup(r, "HostConfig") == Lookup(r[1..], "HostConfig");
    r
  }

  /** `TestInstance.create()`: without an `Id` in the response it fails; otherwise it
      is the instance `byId` finds, with the chosen port recorded on it. */
  function Create(response: Value, port: int, load: Result<seq<Value>>): (r: Result<Value>)
    ensures !Truthy(GetPath(response, [Key("Id")])) ==> r == Err(MissingIdError)
    ensures Truthy(GetPath(response, [Key("Id")])) ==>
      (r.Ok? <==> Instance.ById(load, Dot(response, "Id")).Ok?)
    ensures r.Ok? ==> Dot(r.value, "port") == Num(port)
    ensures r.Ok? ==> (r.value.Obj? && Instance.ById(load, Dot(response, "Id")).Ok? &&
      forall k :: k != "port" ==> Lookup(r.value.props, k) == Lookup(OwnProps(Instance.ById(load, Dot(response, "Id")).value), k))
  {
    if !Truthy(GetPath(response, [Key("Id")])) then Err(MissingIdError)
    else
      match Instance.ById(load, Dot(response, "Id"))
      case Err(m) => Err(m)
      case Ok(instance) => Ok(Obj(Put(OwnProps(instance), "port", Num(port))))
  }

  /** What calling a static member through an instance (`this.docker`) throws. */
  const NotAFunctionError := "TypeError: this.docker is not a function"

  /** `instance.setTags(tags)` as written: `docker` and `Map` are static, so
      `this.docker(...)` on an instance throws before any request is made; only the
      empty-tags path (through `this.constructor`) settles. */
  function SetTagsAsWritten(tags: seq<Prop>, self: Value, load: Result<seq<Value>>): (r: Result<Value>)
    ensures |tags| == 0 ==> r == Instance.ById(load, Dot(self, "id"))
    ensures |tags| > 0 ==> r.Err?
  {
    if |tags| == 0 then Instance.ById(load, Dot(self, "id")) else Err(NotAFunctionError)
  }

  /** `instance.setName(name)` as written always rejects, whatever the containers are. */
  lemma SetNameAlwaysFails(name: Value, self: Value, load: Result<seq<Value>>)
    ensures SetTagsAsWritten([Prop("Name", name)], self, load) == Err(NotAFunctionError)
  {
  }

  /** `instance.setTags(tags)` with the listing and the mapping reached through
      `this.constructor`, as the empty-tags path already does: with no tags the
      instance is fetched again by id; otherwise every container is listed and
      mapped again.  No tag is written. */
  function SetTags(tags: seq<Prop>, self: Value, load: Result<seq<Value>>, output: Value): (r: Result<Value>)
    ensures |tags| == 0 ==> r == Instance.ById(load, Dot(self, "id"))
    ensures |tags| > 0 ==> r == Mappable.Map(Ok(Table()), output)
  {
    if |tags| == 0 then Instance.ById(load, Dot(self, "id")) else Mappable.Map(Ok(Table()), output)
  }

  /** `instance.setName(name)`, corrected as `SetTags`, lists the containers again
      and never renames one; it settles exactly where the as-written call rejects. */
  lemma SetNameOnlyReloads(name: Value, self: Value, load: Result<seq<Value>>, output: Value)
    ensures SetTags([Prop("Name", name)], self, load, output) == Mappable.Map(Ok(Table()), output)
    ensures SetTagsAsWritten([Prop("Name", name)], self, load).Err?
  {
  }

  /** The ssh target of `instance.ssh`: `<ip>:<port>`, port 22 unless one is recorded. */
  function SshHost(instance: Value): (r: string)
    ensures var port := Dot(instance, "port");
      r == ToStr(Dot(instance, "ip")) + ":" + (if Truthy(port) then ToStr(port) else "22")
  {
    var port := Dot(instance, "port");
    ToStr(Dot(instance, "ip")) + ":" + ToStr(if Truthy(port) then port else Num(22))
  }

  /** A mapped container has no `port`: the table does not name one. */
  lemma NoPortField(input: Value)
    requires Truthy(input)
    ensures Mappable.Construct(Ok(Table()), input).Ok?
    ensures Dot(Mappable.Construct(Ok(Table()), input).value, "port") == Undefined
  {
    var m := Table();
    forall i | 0 <= i < |m| ensures Mappable.Names(m)[i] != "port" {
      assert m[i].name[0] != 'p';
    }
    Mappable.NotAField(m, input, "port");
  }

  /** A loaded container is reached on port 22 of the local host. */
  lemma LoadedSshHost(input: Value)
    requires Truthy(input)
    ensures SshHost(Mappable.Construct(Ok(Table()), input).value) == Localhost + ":" + "22"
  {
    IpField(input);
    NoPortField(input);
    LocalSshHost(Mappable.Construct(Ok(Table()), input).value);
  }

  /** An instance on the local host without a port is reached on port 22. */
  lemma LocalSshHost(e: Value)
    requires Dot(e, "ip") == Str(Localhost) && Dot(e, "port") == Undefined
    ensures SshHost(e) == Localhost + ":" + "22"
  {
    assert ToStr(Dot(e, "ip")) == Localhost;
  }

  /** A created container is reached on the port `create` chose. */
  lemma CreatedSshHost(response: Value, port: nat, load: Result<seq<Value>>)
    requires port > 0 && Create(response, port, load).Ok?
    ensures SshHost(Create(response, port, load).value) ==
      ToStr(Dot(Create(response, port, load).value, "ip")) + ":" + NatToString(port)
  {
  }
}
