/** models/aws-instance.js: EC2 instances.

    The EC2 calls are oracles: a describe response per region, the image search
    response, the stop/terminate responses. */
module AwsInstance {
  import opened Js
  import Mappable
  import Instance

  /** The regions `load` queries, in order. */
  const Regions: seq<string> := ["us-east-1", "us-east-2", "us-west-1", "us-west-2"]

  const DefaultImageName := "ubuntu/images/hvm-ssd/ubuntu-xenial-16.04-amd64-server-20170414"

  // ---------------------------------------------------------------------------
  // Mapping table

  /** The public address when there is one, the private address otherwise. */
  function IpOf(input: Value): Value {
    var pub := Dot(input, "PublicIpAddress");
    if Truthy(pub) then pub else Dot(input, "PrivateIpAddress")
  }

  /** The `Tags` list filed by tag key. */
  function TagsByKey(input: Value): seq<Prop> {
    KeyBy(Elements(Dot(input, "Tags")), "Key")
  }

  /** The value of the `Name` tag, or '--none--' without one. */
  function NameOf(input: Value): Value {
    GetOr(Obj(TagsByKey(input)), Dotted(["Name", "Value"]), Str("--none--"))
  }

  /** The tags as an object from tag key to tag value. */
  function TagsOf(input: Value): Value {
    Obj(MapValues(TagsByKey(input), "Value"))
  }

  function Table(): Mappable.Mapping {
    [ Mappable.Field("id", Mappable.Path(Dotted(["InstanceId"]))),
      Mappable.Field("imageId", Mappable.Path(Dotted(["ImageId"]))),
      Mappable.Field("state", Mappable.Path(Dotted(["State", "Name"]))),
      Mappable.Field("keyName", Mappable.Path(Dotted(["KeyName"]))),
      Mappable.Field("zone", Mappable.Path(Dotted(["Placement", "AvailabilityZone"]))),
      Mappable.Field("subnetId", Mappable.Path(Dotted(["SubnetId"]))),
      Mappable.Field("ip", Mappable.Derived(IpOf)),
      Mappable.Field("privateIp", Mappable.Path(Dotted(["PrivateIpAddress"]))),
      Mappable.Field("ebsOptimized", Mappable.Path(Dotted(["EbsOptimized"]))),
      Mappable.Field("name", Mappable.Derived(NameOf)),
      Mappable.Field("type", Mappable.Path(Dotted(["InstanceType"]))),
      Mappable.Field("tags", Mappable.Derived(TagsOf)) ]
  }

  /** `ip`: the public address when truthy, else the private one, else null. */
  lemma IpField(input: Value)
    requires Truthy(input)
    ensures Mappable.Construct(Ok(Table()), input).Ok?
    ensures var pub := Dot(input, "PublicIpAddress");
      var priv := Dot(input, "PrivateIpAddress");
      Dot(Mappable.Construct(Ok(Table()), input).value, "ip") ==
        if Truthy(pub) then pub else if Truthy(priv) then priv else Null
  {
    Mappable.FieldOf(Table(), input, 6);
  }

  /** `state` is read from the nested path `State.Name`. */
  lemma StateField(input: Value)
    requires Truthy(input)
    ensures Mappable.Construct(Ok(Table()), input).Ok?
    ensures Dot(Mappable.Construct(Ok(Table()), input).value, "state") == GetOr(input, Dotted(["State", "Name"]), Null)
  {
    Mappable.FieldOf(Table(), input, 2);
  }

  /** `zone` is read from the nested path `Placement.AvailabilityZone`. */
  lemma ZoneField(input: Value)
    requires Truthy(input)
    ensures Mappable.Construct(Ok(Table()), input).Ok?
    ensures Dot(Mappable.Construct(Ok(Table()), input).value, "zone") == GetOr(input, Dotted(["Placement", "AvailabilityZone"]), Null)
  {
    Mappable.FieldOf(Table(), input, 4);
  }

  /** `name` is the last `Name` tag's value. */
  lemma NameField(input: Value)
    requires Truthy(input)
    ensures Mappable.Construct(Ok(Table()), input).Ok?
    ensures Dot(Mappable.Construct(Ok(Table()), input).value, "name") == NameTag(Elements(Dot(input, "Tags")))
  {
    Mappable.FieldOf(Table(), input, 9);
    NameOfTags(input);
  }

  /** `tags` is the tag object. */
  lemma TagsField(input: Value)
    requires Truthy(input)
    ensures Mappable.Construct(Ok(Table()), input).Ok?
    ensures Dot(Mappable.Construct(Ok(Table()), input).value, "tags") == TagsOf(input)
  {
    var t := Table();
    assert t[11] == Mappable.Field("tags", Mappable.Derived(TagsOf));
    Mappable.FieldOf(t, input, 11);
    assert Truthy(TagsOf(input));
  }

  /** The `name` field by the tags alone: the value of the last tag keyed 'Name',
      '--none--' when no tag is, null when that value is falsy but defined. */
  function NameTag(tags: seq<Value>): Value {
    match LastWith(tags, "Key", "Name")
    case None => Str("--none--")
    case Some(t) =>
      var v := Dot(t, "Value");
      if v == Undefined then Str("--none--") else if Truthy(v) then v else Null
  }

  lemma NameOfTags(input: Value)
    ensures (if Truthy(NameOf(input)) then NameOf(input) else Null) == NameTag(Elements(Dot(input, "Tags")))
  {
    var tags := Elements(Dot(input, "Tags"));
    GetTwo(Obj(TagsByKey(input)), "Name", "Value");
    assert Lookup(TagsByKey(input), "Name") == LastWith(tags, "Key", "Name");
  }

  // ---------------------------------------------------------------------------
  // load

  /** The instance records of one describe response, reservation by reservation. */
  function ReservationInstances(res: Value): seq<Value> {
    var rs := Elements(Dot(res, "Reservations"));
    Flatten(seq(|rs|, i requires 0 <= i < |rs| => Dot(rs[i], "Instances")))
  }

  /** The instances of one region's response, each tagged with that region. */
  function RegionInstances(res: Value, region: string): (r: seq<Value>)
    ensures |r| == |Mappable.Records(Arr(ReservationInstances(res)))|
  {
    var mapped := Mappable.Map(Ok(Table()), Arr(ReservationInstances(res))).value.elems;
    seq(|mapped|, j requires 0 <= j < |mapped| => Obj(Put(OwnProps(mapped[j]), "region", Str(region))))
  }

  /** A record mapped through any table and tagged with a region keeps every
      field the table gives it, except `region`. */
  lemma {:induction false} TaggedRecord(m: Mappable.Mapping, inputs: Value, region: string, j: nat)
    requires inputs.Arr? && j < |Mappable.Records(inputs)|
    ensures var elems := Mappable.Map(Ok(m), inputs).value.elems;
      j < |elems| && elems[j].Obj? &&
      var r := Obj(Put(OwnProps(elems[j]), "region", Str(region)));
      Dot(r, "region") == Str(region) &&
      forall k :: k in Mappable.Names(m) && k != "region" ==>
        Dot(r, k) == Mappable.FieldValue(Mappable.SpecOf(m, k), Mappable.Records(inputs)[j])
  {
    var elems := Mappable.Map(Ok(m), inputs).value.elems;
    var rec := Mappable.Records(inputs)[j];
    assert Mappable.Construct(Ok(m), rec) == Ok(elems[j]);
  }

  /** The `j`-th instance of a region's response is its `j`-th record mapped
      through the table, with `region` set to that region. */
  lemma RegionInstance(res: Value, region: string, j: nat)
    requires j < |RegionInstances(res, region)|
    ensures var r := RegionInstances(res, region)[j];
      var rec := Mappable.Records(Arr(ReservationInstances(res)))[j];
      r.Obj? && Dot(r, "region") == Str(region) &&
      forall k :: k in Mappable.Names(Table()) && k != "region" ==>
        Dot(r, k) == Mappable.FieldValue(Mappable.SpecOf(Table(), k), rec)
  {
    var inputs := Arr(ReservationInstances(res));
    TaggedRecord(Table(), inputs, region, j);
  }

  /** `AWSInstance.load()`: all regions are queried; the first failed query (in
      region order) fails the load. */
  function Load(responses: seq<Result<Value>>): (r: Result<seq<Value>>)
    requires |responses| == |Regions|
    ensures r.Ok? <==> forall i :: 0 <= i < |Regions| ==> responses[i].Ok?
  {
    LoadFrom(responses, 0, RegionInstances)
  }

  /** The regions from `i` on, each response read by `instancesOf`. */
  function LoadFrom(responses: seq<Result<Value>>, i: nat, instancesOf: (Value, string) -> seq<Value>): (r: Result<seq<Value>>)
    requires |responses| == |Regions| && i <= |Regions|
    ensures r.Ok? <==> forall j :: i <= j < |Regions| ==> responses[j].Ok?
    decreases |Regions| - i
  {
    if i == |Regions| then Ok([])
    else if responses[i].Err? then Err(responses[i].msg)
    else
      match LoadFrom(responses, i + 1, instancesOf)
      case Err(m) => Err(m)
      case Ok(rest) => Ok(instancesOf(responses[i].value, Regions[i]) + rest)
  }

  /** A loaded instance is one some region's query returned, and every instance
      every query returned is loaded. */
  lemma LoadHolds(responses: seq<Result<Value>>, x: Value)
    requires |responses| == |Regions| && Load(responses).Ok?
    ensures x in Load(responses).value <==>
      exists i :: 0 <= i < |Regions| && x in RegionInstances(responses[i].value, Regions[i])
  {
    LoadFromHolds(responses, 0, RegionInstances, x);
  }

  lemma {:induction false} LoadFromHolds(responses: seq<Result<Value>>, i: nat, instancesOf: (Value, string) -> seq<Value>, x: Value)
    requires |responses| == |Regions| && i <= |Regions| && LoadFrom(responses, i, instancesOf).Ok?
    ensures x in LoadFrom(responses, i, instancesOf).value <==>
      exists j :: i <= j < |Regions| && x in instancesOf(responses[j].value, Regions[j])
    decreases |Regions| - i
  {
    if i < |Regions| {
      LoadFromHolds(responses, i + 1, instancesOf, x);
      var here := instancesOf(responses[i].value, Regions[i]);
      var rest := LoadFrom(responses, i + 1, instancesOf).value;
      assert LoadFrom(responses, i, instancesOf).value == here + rest;
      if x in here {
        assert i <= i < |Regions| && x in instancesOf(responses[i].value, Regions[i]);
      }
    }
  }

  /** Every instance `load` returns carries the region whose query returned it. */
  lemma LoadTagsRegion(responses: seq<Result<Value>>, x: Value)
    requires |responses| == |Regions|
    requires Load(responses).Ok? && x in Load(responses).value
    ensures exists i :: (0 <= i < |Regions| && Dot(x, "region") == Str(Regions[i]) &&
                         x in RegionInstances(responses[i].value, Regions[i]))
  {
    LoadHolds(responses, x);
    var i :| 0 <= i < |Regions| && x in RegionInstances(responses[i].value, Regions[i]);
    var rs := RegionInstances(responses[i].value, Regions[i]);
    var j :| 0 <= j < |rs| && rs[j] == x;
    RegionInstance(responses[i].value, Regions[i], j);
  }

  // ---------------------------------------------------------------------------
  // create

  /** The defaults `create` fills in, in the order it fills them. */
  function CreateDefaults(envRegion: Value): seq<Prop> {
    [ Prop("imageName", Str(DefaultImageName)),
      Prop("MaxCount", Num(1)),
      Prop("MinCount", Num(1)),
      Prop("type", Str("t2.micro")),
      Prop("BlockDeviceMappings", Arr([Obj([
        Prop("DeviceName", Str("/dev/sda1")),
        Prop("Ebs", Obj([Prop("VolumeSize", Num(32)), Prop("VolumeType", Str("gp2"))]))])])),
      Prop("tags", Obj([])),
      Prop("name", Str("aws-formation")),
      Prop("region", if Truthy(envRegion) then envRegion else Str("us-east-1")) ]
  }

  lemma CreateDefaultsDistinct(envRegion: Value)
    ensures Distinct(Keys(CreateDefaults(envRegion)))
  {
    assert Keys(CreateDefaults(envRegion)) ==
      ["imageName", "MaxCount", "MinCount", "type", "BlockDeviceMappings", "tags", "name", "region"];
  }

  /** `_.defaults(options, defaults)` */
  function DefaultAll(options: seq<Prop>, defaults: seq<Prop>): (r: seq<Prop>)
    requires Distinct(Keys(defaults))
    ensures forall k :: Lookup(r, k) == (if k in Keys(defaults) && Missing(options, k) then Lookup(defaults, k) else Lookup(options, k))
    decreases |defaults|
  {
    if defaults == [] then options
    else
      var d := defaults[0];
      KeysCons(defaults);
      assert d.key !in Keys(defaults[1..]) by {
        forall i | 0 <= i < |defaults| - 1 ensures Keys(defaults[1..])[i] != d.key {
          assert Keys(defaults)[0] != Keys(defaults)[i + 1];
        }
      }
      assert Distinct(Keys(defaults[1..])) by {
        forall i, j | 0 <= i < j < |defaults| - 1 ensures Keys(defaults[1..])[i] != Keys(defaults[1..])[j] {
          assert Keys(defaults)[i + 1] != Keys(defaults)[j + 1];
        }
      }
      DefaultAll(Default(options, d.key, d.val), defaults[1..])
  }

  /** The options once `create` has filled in its defaults. */
  function Defaulted(options: seq<Prop>, envRegion: Value): seq<Prop> {
    CreateDefaultsDistinct(envRegion);
    DefaultAll(options, CreateDefaults(envRegion))
  }

  /** A default fills exactly the options the caller left missing. */
  lemma DefaultedLookup(options: seq<Prop>, envRegion: Value, k: string)
    ensures Lookup(Defaulted(options, envRegion), k) ==
      if k in Keys(CreateDefaults(envRegion)) && Missing(options, k) then Lookup(CreateDefaults(envRegion), k) else Lookup(options, k)
  {
  }

  /** The options after `create` has reshaped them, and the runInstances request. */
  datatype CreateCall = CreateCall(options: seq<Prop>, params: Value)

  /** The image `create` asks for: the caller's `imageId` only when `imageName`
      is explicitly falsy, the image found by name otherwise. */
  function ChosenImage(defaulted: seq<Prop>, byName: (Value, Value) -> Result<Value>): Result<Value> {
    var imageName := Dot(Obj(defaulted), "imageName");
    if !Truthy(imageName) then Ok(Dot(Obj(defaulted), "imageId"))
    else byName(imageName, Dot(Obj(defaulted), "region"))
  }

  /** `tags.Name` takes a truthy `name`, which is then removed. */
  function MoveName(o: seq<Prop>): seq<Prop> {
    var name := Dot(Obj(o), "name");
    if Truthy(name) then Delete(OwnProps(SetPath(Obj(o), Dotted(["tags", "Name"]), name)), "name") else o
  }

  /** The options once the image is settled and the name moved into the tags. */
  function Reshaped(d: seq<Prop>, imageId: Value): seq<Prop> {
    MoveName(Put(Delete(d, "imageName"), "imageId", imageId))
  }

  /** The runInstances request: the unmapped options without `region` and `tags`. */
  function CreateParams(o: seq<Prop>): Value {
    Obj(Delete(Delete(OwnProps(Mappable.UnmapRecord(Table(), Obj(o))), "region"), "tags"))
  }

  /** What `create` sends, and the options it goes on with. */
  function CreateSpec(options: seq<Prop>, envRegion: Value, byName: (Value, Value) -> Result<Value>): Result<CreateCall>
  {
    ReshapeSpec(Defaulted(options, envRegion), byName)
  }

  /** What `create` sends once the defaults are in. */
  function ReshapeSpec(d: seq<Prop>, byName: (Value, Value) -> Result<Value>): Result<CreateCall>
  {
    match ChosenImage(d, byName)
    case Err(m) => Err(m)
    case Ok(id) => var o := Reshaped(d, id); Ok(CreateCall(o, CreateParams(o)))
  }

  /** `AWSInstance.create(options)` up to the runInstances request. */
  method ShapeCreate(options: seq<Prop>, envRegion: Value, byName: (Value, Value) -> Result<Value>)
    returns (r: Result<CreateCall>)
    ensures r == CreateSpec(options, envRegion, byName)
  {
    var d := Defaulted(options, envRegion);
    r := Reshape(d, byName);
  }

  /** The body of `create` after `_.defaults`: settle the image, move the name
      into the tags, unmap the options into the request. */
  method Reshape(d: seq<Prop>, byName: (Value, Value) -> Result<Value>) returns (r: Result<CreateCall>)
    ensures r == ReshapeSpec(d, byName)
  {
    var imageName := Dot(Obj(d), "imageName");
    var opts := Delete(d, "imageName");
    assert Dot(Obj(opts), "imageId") == Dot(Obj(d), "imageId");
    assert Dot(Obj(opts), "region") == Dot(Obj(d), "region");
    var imageId: Value;
    if !Truthy(imageName) {
      imageId := Dot(Obj(opts), "imageId");
    } else {
      var found := byName(imageName, Dot(Obj(opts), "region"));
      if found.Err? {
        assert ChosenImage(d, byName) == found;
        return Err(found.msg);
      }
      imageId := found.value;
    }
    assert ChosenImage(d, byName) == Ok(imageId);
    opts := Put(opts, "imageId", imageId);
    var name := Dot(Obj(opts), "name");
    if Truthy(name) {
      opts := OwnProps(SetPath(Obj(opts), Dotted(["tags", "Name"]), name));
      opts := Delete(opts, "name");
    }
    assert opts == Reshaped(d, imageId);
    var unmapped := Mappable.UnmapOne(Table(), Obj(opts));
    var params := Delete(Delete(OwnProps(unmapped), "region"), "tags");
    r := Ok(CreateCall(opts, Obj(params)));
  }

  /** Setting a property path of an object leaves it an object. */
  lemma SetPathKeepsObject(o: seq<Prop>, p: seq<Seg>, x: Value)
    requires |p| > 0
    ensures SetPath(Obj(o), p, x).Obj?
  {
    if |p| > 1 {
      var c := At(Obj(o), p[0]);
      AssignKeepsKind(Obj(o), p[0], SetPath(if IsObject(c) then c else Fresh(p[1]), p[1..], x));
    }
  }

  /** A truthy name ends up as the `Name` tag and nowhere else; other options stay. */
  lemma MoveNameFacts(o: seq<Prop>)
    ensures var name := Dot(Obj(o), "name");
      && (Truthy(name) ==> Lookup(MoveName(o), "name").None?)
      && (Truthy(name) && !Dot(Obj(o), "tags").Arr? ==>
            GetPath(Obj(MoveName(o)), Dotted(["tags", "Name"])) == name)
      && (forall k :: k != "name" && k != "tags" ==> Lookup(MoveName(o), k) == Lookup(o, k))
  {
    var name := Dot(Obj(o), "name");
    if Truthy(name) {
      var p := Dotted(["tags", "Name"]);
      SetPathKeepsObject(o, p, name);
      var w := SetPath(Obj(o), p, name);
      assert w == Assign(Obj(o), Key("tags"), SetPath(if IsObject(Dot(Obj(o), "tags")) then Dot(Obj(o), "tags") else Obj([]), p[1..], name));
      if !Dot(Obj(o), "tags").Arr? {
        assert Fits(Obj(o), p);
        GetSetSame(Obj(o), p, name);
        assert Dot(Obj(MoveName(o)), "tags") == Dot(w, "tags");
      }
    }
  }

  /** `create` fails exactly when the image lookup does. */
  lemma CreateFailsIff(options: seq<Prop>, envRegion: Value, byName: (Value, Value) -> Result<Value>)
    ensures var d := Defaulted(options, envRegion);
      CreateSpec(options, envRegion, byName).Err? <==> ChosenImage(d, byName).Err?
  {
  }

  /** The runInstances request never carries `region` or `tags`. */
  lemma CreateParamsFacts(o: seq<Prop>)
    ensures Lookup(OwnProps(CreateParams(o)), "region").None?
    ensures Lookup(OwnProps(CreateParams(o)), "tags").None?
  {
  }

  /** After reshaping, `imageName` is gone, `imageId` is the chosen image and the
      region is kept. */
  lemma ReshapedImage(d: seq<Prop>, imageId: Value)
    ensures var o := Reshaped(d, imageId);
      && Lookup(o, "imageName").None?
      && Dot(Obj(o), "imageId") == imageId
      && Dot(Obj(o), "region") == Dot(Obj(d), "region")
  {
    ReshapedKey(d, imageId, "imageName");
    ReshapedKey(d, imageId, "imageId");
    ReshapedKey(d, imageId, "region");
  }

  /** Reshaping touches no option but `imageName`, `imageId`, `name` and `tags`. */
  lemma ReshapedKey(d: seq<Prop>, imageId: Value, k: string)
    requires k != "name" && k != "tags"
    ensures Lookup(Reshaped(d, imageId), k) ==
      if k == "imageId" then Some(imageId) else if k == "imageName" then None else Lookup(d, k)
  {
    var o1 := Put(Delete(d, "imageName"), "imageId", imageId);
    MoveNameFacts(o1);
  }

  /** After reshaping, a truthy name has moved to the `Name` tag. */
  lemma ReshapedName(d: seq<Prop>, imageId: Value)
    requires Truthy(Dot(Obj(d), "name"))
    ensures Lookup(Reshaped(d, imageId), "name").None?
    ensures !Dot(Obj(d), "tags").Arr? ==>
      GetPath(Obj(Reshaped(d, imageId)), Dotted(["tags", "Name"])) == Dot(Obj(d), "name")
  {
    var o1 := Put(Delete(d, "imageName"), "imageId", imageId);
    assert Lookup(o1, "name") == Lookup(d, "name");
    assert Lookup(o1, "tags") == Lookup(d, "tags");
    MoveNameFacts(o1);
  }

  /** Without an explicit falsy `imageName` the default Ubuntu image is looked up by
      name and the caller's `imageId` is not used. */
  lemma DefaultImageWins(options: seq<Prop>, envRegion: Value, byName: (Value, Value) -> Result<Value>)
    requires Missing(options, "imageName")
    ensures var d := Defaulted(options, envRegion);
      ChosenImage(d, byName) == byName(Str(DefaultImageName), Dot(Obj(d), "region"))
  {
    DefaultImageNamed(envRegion);
    DefaultedLookup(options, envRegion, "imageName");
    var d := Defaulted(options, envRegion);
    assert Lookup(d, "imageName") == Some(Str(DefaultImageName));
    assert Truthy(Str(DefaultImageName));
  }

  /** The defaults start with the default image name. */
  lemma DefaultImageNamed(envRegion: Value)
    ensures "imageName" in Keys(CreateDefaults(envRegion))
    ensures Lookup(CreateDefaults(envRegion), "imageName") == Some(Str(DefaultImageName))
  {
    assert Keys(CreateDefaults(envRegion))[0] == "imageName";
  }

  /** `AWSInstance.imageIdByName(name)`: exactly one image, and it has an id. */
  function ImageIdByName(name: Value, images: seq<Value>): (r: Result<Value>)
    ensures r.Ok? <==> |images| == 1 && Truthy(Dot(images[0], "ImageId"))
    ensures r.Ok? ==> r.value == Dot(images[0], "ImageId")
    ensures |images| > 1 ==> r == Err("Found multiple AMI's for " + ToStr(name))
    ensures |images| <= 1 && !r.Ok? ==> r == Err("AMI not found for name " + ToStr(name))
  {
    if |images| > 1 then Err("Found multiple AMI's for " + ToStr(name))
    else
      var id := if |images| == 0 then Undefined else Dot(images[0], "ImageId");
      if !Truthy(id) then Err("AMI not found for name " + ToStr(name)) else Ok(id)
  }

  // ---------------------------------------------------------------------------
  // setTags

  function TagEntry(p: Prop): Value {
    Obj([Prop("Key", Str(p.key)), Prop("Value", p.val)])
  }

  /** The `Tags` list of a createTags request, one entry per tag in order. */
  function TagList(tags: seq<Prop>): seq<Value> {
    seq(|tags|, i requires 0 <= i < |tags| => TagEntry(tags[i]))
  }

  /** `instance.setTags(tags)`: no request at all for an empty tag object. */
  function SetTagsRequest(tags: seq<Prop>): (r: Option<seq<Value>>)
    ensures r.None? <==> |tags| == 0
    ensures r.Some? ==> r.value == TagList(tags)
  {
    if |tags| == 0 then None else Some(TagList(tags))
  }

  function Filed(tags: seq<Prop>): seq<Prop> {
    seq(|tags|, i requires 0 <= i < |tags| => Prop(tags[i].key, TagEntry(tags[i])))
  }

  /** Distinct keys stay distinct without the last property, which none of the
      others shares. */
  lemma DistinctInit(tags: seq<Prop>)
    requires tags != [] && Distinct(Keys(tags))
    ensures Distinct(Keys(tags[..|tags| - 1]))
    ensures tags[|tags| - 1].key !in Keys(tags[..|tags| - 1])
  {
    var n := |tags|;
    var init := tags[..n - 1];
    forall i, j | 0 <= i < j < n - 1 ensures Keys(init)[i] != Keys(init)[j] {
      assert Keys(tags)[i] != Keys(tags)[j];
    }
    forall i | 0 <= i < n - 1 ensures Keys(init)[i] != tags[n - 1].key {
      assert Keys(tags)[i] != Keys(tags)[n - 1];
    }
  }

  lemma KeyByTagListLast(tags: seq<Prop>)
    requires tags != []
    ensures KeyBy(TagList(tags), "Key") ==
      Put(KeyBy(TagList(tags[..|tags| - 1]), "Key"), tags[|tags| - 1].key, TagEntry(tags[|tags| - 1]))
  {
    var n := |tags|;
    assert TagList(tags)[..n - 1] == TagList(tags[..n - 1]);
    assert KeyOf(TagEntry(tags[n - 1]), "Key") == tags[n - 1].key;
  }

  lemma {:induction false} KeyByTagList(tags: seq<Prop>)
    requires Distinct(Keys(tags))
    ensures KeyBy(TagList(tags), "Key") == Filed(tags)
    decreases |tags|
  {
    if tags != [] {
      var n := |tags|;
      var init := tags[..n - 1];
      DistinctInit(tags);
      KeyByTagList(init);
      KeyByTagListLast(tags);
      FiledLast(tags);
      PutAppends(Filed(init), tags[n - 1].key, TagEntry(tags[n - 1]));
    }
  }

  lemma FiledLast(tags: seq<Prop>)
    requires tags != []
    ensures Keys(Filed(tags[..|tags| - 1])) == Keys(tags[..|tags| - 1])
    ensures Filed(tags[..|tags| - 1]) + [Prop(tags[|tags| - 1].key, TagEntry(tags[|tags| - 1]))] == Filed(tags)
  {
  }

  lemma {:induction false} ValuesOfFiled(tags: seq<Prop>)
    ensures MapValues(Filed(tags), "Value") == tags
    decreases |tags|
  {
    if tags != [] {
      assert Filed(tags)[1..] == Filed(tags[1..]);
      ValuesOfFiled(tags[1..]);
      var ps := TagEntry(tags[0]).props;
      assert ps[1..] == [Prop("Value", tags[0].val)];
      assert Lookup(ps, "Value") == Lookup(ps[1..], "Value");
    }
  }

  /** The tags written by `setTags` read back unchanged through the `tags` field. */
  lemma TagsRoundTrip(tags: seq<Prop>)
    requires Distinct(Keys(tags))
    ensures TagsOf(Obj([Prop("Tags", Arr(TagList(tags)))])) == Obj(tags)
  {
    var input := Obj([Prop("Tags", Arr(TagList(tags)))]);
    assert Elements(Dot(input, "Tags")) == TagList(tags);
    KeyByTagList(tags);
    assert TagsByKey(input) == Filed(tags);
    ValuesOfFiled(tags);
  }

  // ---------------------------------------------------------------------------
  // stop / terminate

  /** The one instance id a stop or terminate response lists under `listKey`. */
  function SingleInstanceId(res: Value, listKey: string): (r: Result<Value>)
    ensures var items := Elements(Dot(res, listKey));
      && (r.Ok? <==> |items| == 1)
      && (r.Ok? ==> r.value == Dot(items[0], "InstanceId"))
      && (r.Err? ==> |r.msg| >= |"Invalid instances length: "| && r.msg[..|"Invalid instances length: "|] == "Invalid instances length: ")
  {
    var items := Elements(Dot(res, listKey));
    var ids := seq(|items|, i requires 0 <= i < |items| => Dot(items[i], "InstanceId"));
    if |ids| != 1 then Err("Invalid instances length: " + ToStr(Arr(ids))) else Ok(ids[0])
  }

  /** `instance.stop()`: the stopped instance re-fetched by its id. */
  function Stop(res: Value, load: Result<seq<Value>>): (r: Result<Value>)
    ensures SingleInstanceId(res, "StoppingInstances").Err? ==> r.Err?
    ensures SingleInstanceId(res, "StoppingInstances").Ok? ==>
      r == Instance.ById(load, SingleInstanceId(res, "StoppingInstances").value)
  {
    match SingleInstanceId(res, "StoppingInstances")
    case Err(m) => Err(m)
    case Ok(id) => Instance.ById(load, id)
  }

  /** `instance.terminate()`: the instance itself, once exactly one termination is reported. */
  function Terminate(self: Value, res: Value): (r: Result<Value>)
    ensures r.Ok? <==> |Elements(Dot(res, "TerminatingInstances"))| == 1
    ensures r.Ok? ==> r.value == self
  {
    match SingleInstanceId(res, "TerminatingInstances")
    case Err(m) => Err(m)
    case Ok(_) => Ok(self)
  }
}
