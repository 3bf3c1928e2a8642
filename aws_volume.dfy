/** models/aws-volume.js: EBS volumes. */
module AwsVolume {
  import opened Js
  import Mappable
  import AwsInstance

  const DefaultDevice := "/dev/sdf"

  function Table(): Mappable.Mapping {
    [ Mappable.Field("device", Mappable.Path([Key("Attachments"), Index(0), Key("Device")])),
      Mappable.Field("instanceId", Mappable.Path([Key("Attachments"), Index(0), Key("InstanceId")])),
      Mappable.Field("id", Mappable.Path(Dotted(["VolumeId"]))),
      Mappable.Field("zone", Mappable.Path(Dotted(["AvailabilityZone"]))),
      Mappable.Field("size", Mappable.Path(Dotted(["Size"]))),
      Mappable.Field("state", Mappable.Path(Dotted(["State"]))),
      Mappable.Field("type", Mappable.Path(Dotted(["VolumeType"]))),
      Mappable.Field("name", Mappable.Derived(AwsInstance.NameOf)) ]
  }

  const DevicePath: seq<Seg> := [Key("Attachments"), Index(0), Key("Device")]
  const InstanceIdPath: seq<Seg> := [Key("Attachments"), Index(0), Key("InstanceId")]

  /** A volume without attachments has a null `device`. */
  lemma UnattachedDevice(input: Value)
    requires input.Obj? && Dot(input, "Attachments") == Arr([])
    ensures Mappable.Construct(Ok(Table()), input).Ok?
    ensures Dot(Mappable.Construct(Ok(Table()), input).value, "device") == Null
  {
    assert Table()[0].spec == Mappable.Path(DevicePath);
    assert GetPath(input, DevicePath) == Undefined;
    assert Mappable.FieldValue(Table()[0].spec, input) == Null;
    Mappable.FieldOf(Table(), input, 0);
  }

  /** A volume without attachments has a null `instanceId`. */
  lemma UnattachedInstanceId(input: Value)
    requires input.Obj? && Dot(input, "Attachments") == Arr([])
    ensures Mappable.Construct(Ok(Table()), input).Ok?
    ensures Dot(Mappable.Construct(Ok(Table()), input).value, "instanceId") == Null
  {
    assert Table()[1].spec == Mappable.Path(InstanceIdPath);
    assert GetPath(input, InstanceIdPath) == Undefined;
    assert Mappable.FieldValue(Table()[1].spec, input) == Null;
    Mappable.FieldOf(Table(), input, 1);
  }

  /** An attached volume takes `device` from its first attachment. */
  lemma AttachedDevice(input: Value, first: Value, rest: seq<Value>)
    requires input.Obj? && Dot(input, "Attachments") == Arr([first] + rest)
    requires Dot(first, "Device") != Undefined
    ensures Mappable.Construct(Ok(Table()), input).Ok?
    ensures Dot(Mappable.Construct(Ok(Table()), input).value, "device") == Dot(first, "Device")
  {
    assert Table()[0].spec == Mappable.Path(DevicePath);
    assert At(Dot(input, "Attachments"), Index(0)) == first;
    assert GetPath(input, DevicePath) == Dot(first, "Device");
    assert Mappable.FieldValue(Table()[0].spec, input) == Dot(first, "Device");
    Mappable.FieldOf(Table(), input, 0);
  }

  /** An attached volume takes `instanceId` from its first attachment. */
  lemma AttachedInstanceId(input: Value, first: Value, rest: seq<Value>)
    requires input.Obj? && Dot(input, "Attachments") == Arr([first] + rest)
    requires Dot(first, "InstanceId") != Undefined
    ensures Mappable.Construct(Ok(Table()), input).Ok?
    ensures Dot(Mappable.Construct(Ok(Table()), input).value, "instanceId") == Dot(first, "InstanceId")
  {
    assert Table()[1].spec == Mappable.Path(InstanceIdPath);
    assert At(Dot(input, "Attachments"), Index(0)) == first;
    assert GetPath(input, InstanceIdPath) == Dot(first, "InstanceId");
    assert Mappable.FieldValue(Table()[1].spec, input) == Dot(first, "InstanceId");
    Mappable.FieldOf(Table(), input, 1);
  }

  /** `id`, `zone`, `size`, `state` and `type` read the volume's `VolumeId`,
      `AvailabilityZone`, `Size`, `State` and `VolumeType`, null where missing. */
  lemma AttributeFields(input: Value)
    requires Truthy(input)
    ensures Mappable.Construct(Ok(Table()), input).Ok?
    ensures var e := Mappable.Construct(Ok(Table()), input).value;
      && Dot(e, "id") == GetOr(input, Dotted(["VolumeId"]), Null)
      && Dot(e, "zone") == GetOr(input, Dotted(["AvailabilityZone"]), Null)
      && Dot(e, "size") == GetOr(input, Dotted(["Size"]), Null)
      && Dot(e, "state") == GetOr(input, Dotted(["State"]), Null)
      && Dot(e, "type") == GetOr(input, Dotted(["VolumeType"]), Null)
  {
    var t := Table();
    assert t[2] == Mappable.Field("id", Mappable.Path(Dotted(["VolumeId"])));
    assert t[3] == Mappable.Field("zone", Mappable.Path(Dotted(["AvailabilityZone"])));
    assert t[4] == Mappable.Field("size", Mappable.Path(Dotted(["Size"])));
    assert t[5] == Mappable.Field("state", Mappable.Path(Dotted(["State"])));
    assert t[6] == Mappable.Field("type", Mappable.Path(Dotted(["VolumeType"])));
    PlainField(input, 2, "id", "VolumeId");
    PlainField(input, 3, "zone", "AvailabilityZone");
    PlainField(input, 4, "size", "Size");
    PlainField(input, 5, "state", "State");
    PlainField(input, 6, "type", "VolumeType");
  }

  /** Entry `i` of the table reads the attribute `attr` under the name `name`. */
  lemma PlainField(input: Value, i: nat, name: string, attr: string)
    requires Truthy(input) && 2 <= i <= 6
    requires Table()[i] == Mappable.Field(name, Mappable.Path(Dotted([attr])))
    ensures Mappable.Construct(Ok(Table()), input).Ok?
    ensures Dot(Mappable.Construct(Ok(Table()), input).value, name) == GetOr(input, Dotted([attr]), Null)
  {
    Mappable.FieldOf(Table(), input, i);
  }

  /** `name` is the `Name` tag's value, as for instances. */
  lemma NameField(input: Value)
    requires Truthy(input)
    ensures Mappable.Construct(Ok(Table()), input).Ok?
    ensures Dot(Mappable.Construct(Ok(Table()), input).value, "name") == AwsInstance.NameTag(Elements(Dot(input, "Tags")))
  {
    Mappable.FieldOf(Table(), input, 7);
    AwsInstance.NameOfTags(input);
  }

  /** The device path parts from the write path of every other field of the table:
      from `instanceId` at their last step, from the rest at their first. */
  lemma DevicePathParts(k: string)
    requires k in Mappable.Names(Table()) && k != "device"
    ensures Compatible(DevicePath, Mappable.WritePath(Table(), k))
  {
    var m := Table();
    var i :| 0 <= i < |m| && Mappable.Names(m)[i] == k;
    assert m[i].name == k;
    assert i != 0;
    if i == 1 {
      Mappable.SpecOfIndex(m, 1);
      assert DevicePath[1..][1..] == [Key("Device")];
    } else if i < 7 {
      Mappable.SpecOfIndex(m, i);
      assert Mappable.WritePath(m, k) == m[i].spec.path;
    } else {
      Mappable.SpecOfIndex(m, 7);
      assert Mappable.WritePath(m, k) == [Key(k)];
    }
  }

  /** Writing a volume back and mapping it again keeps its device, whichever of the
      table's fields the volume carries alongside. */
  lemma DeviceRoundTrip(e: Value)
    requires e.Obj? && Distinct(Keys(e.props))
    requires forall k :: k in Keys(e.props) ==> k in Mappable.Names(Table())
    requires Dot(e, "device") != Undefined
    ensures Mappable.Unmap(Ok(Table()), e).Ok?
    ensures Mappable.Map(Ok(Table()), Mappable.Unmap(Ok(Table()), e).value).Ok?
    ensures Dot(Mappable.Map(Ok(Table()), Mappable.Unmap(Ok(Table()), e).value).value, "device") == Dot(e, "device")
  {
    var m := Table();
    Mappable.SpecOfIndex(m, 0);
    forall k | k in Keys(e.props) && k != "device"
      ensures Compatible(Mappable.SpecOf(m, "device").path, Mappable.WritePath(m, k))
    {
      DevicePathParts(k);
    }
    Mappable.MapUnmapRestores(m, e, "device");
  }

  /** In particular a volume as `Volume.map` builds it round-trips its device. */
  lemma MappedDeviceRoundTrip(input: Value)
    requires Truthy(input)
    ensures Mappable.Construct(Ok(Table()), input).Ok?
    ensures var e := Mappable.Construct(Ok(Table()), input).value;
      Dot(Mappable.Map(Ok(Table()), Mappable.Unmap(Ok(Table()), e).value).value, "device") == Dot(e, "device")
  {
    var m := Table();
    Mappable.FieldOf(m, input, 0);
    var e := Mappable.Construct(Ok(m), input).value;
    assert e.props == Mappable.Entity(m, input);
    assert Keys(e.props) == Uniq(Mappable.Names(m));
    DeviceRoundTrip(e);
  }

  /** `Volume.byInstanceId(instanceId)`: the volumes attached to the instance, in load order. */
  function ByInstanceId(volumes: seq<Value>, instanceId: Value): (r: seq<Value>)
    ensures |r| <= |volumes|
    ensures forall v :: v in r <==> v in volumes && Dot(v, "instanceId") == instanceId
    decreases |volumes|
  {
    if volumes == [] then []
    else
      assert volumes == [volumes[0]] + volumes[1..];
      (if Dot(volumes[0], "instanceId") == instanceId then [volumes[0]] else []) + ByInstanceId(volumes[1..], instanceId)
  }

  /** A single volume is kept exactly when it is attached to the instance. */
  lemma ByInstanceIdOne(v: Value, instanceId: Value)
    ensures ByInstanceId([v], instanceId) == if Dot(v, "instanceId") == instanceId then [v] else []
  {
    assert [v][1..] == [];
  }

  /** The volumes of an instance keep load order: filtering a concatenation
      concatenates the filtered parts. */
  lemma {:induction false} ByInstanceIdAppend(a: seq<Value>, b: seq<Value>, instanceId: Value)
    ensures ByInstanceId(a + b, instanceId) == ByInstanceId(a, instanceId) + ByInstanceId(b, instanceId)
    decreases |a|
  {
    if a == [] {
      assert a + b == b;
    } else {
      assert (a + b)[1..] == a[1..] + b;
      ByInstanceIdAppend(a[1..], b, instanceId);
    }
  }

  /** `Volume.byId(id)`: the first volume with that id, if any. */
  function ById(volumes: seq<Value>, id: Value): Option<Value> {
    FirstWith(volumes, "id", id)
  }

  /** The attachVolume request of `volume.attach(instanceId, device)`. */
  function AttachRequest(volumeId: Value, instanceId: Value, device: Value): (r: Value)
    ensures Dot(r, "Device") == if device == Undefined then Str(DefaultDevice) else device
    ensures Dot(r, "InstanceId") == instanceId && Dot(r, "VolumeId") == volumeId
  {
    var ps := [ Prop("InstanceId", instanceId),
                Prop("VolumeId", volumeId),
                Prop("Device", if device == Undefined then Str(DefaultDevice) else device) ];
    assert ps[1..] == ps[1..2] + ps[2..];
    assert Lookup(ps, "Device") == Lookup(ps[1..], "Device") == Lookup(ps[2..], "Device");
    assert Lookup(ps, "VolumeId") == Lookup(ps[1..], "VolumeId");
    Obj(ps)
  }
}
