/** models/aws-elastic-ip.js: elastic IP addresses. */
module AwsElasticIp {
  import opened Js
  import Mappable

  function Table(): Mappable.Mapping {
    [ Mappable.Field("id", Mappable.Path(Dotted(["AllocationId"]))),
      Mappable.Field("instanceId", Mappable.Path(Dotted(["InstanceId"]))),
      Mappable.Field("ip", Mappable.Path(Dotted(["PublicIp"]))) ]
  }

  /** The attribute `k` of an EC2 address record, null when missing. */
  function Attr(record: Value, k: string): Value {
    GetOr(record, [Key(k)], Null)
  }

  /** The address object with the three fields of the table, in table order. */
  function Fields(id: Value, instanceId: Value, ip: Value): seq<Prop> {
    [Prop("id", id), Prop("instanceId", instanceId), Prop("ip", ip)]
  }

  /** The table names every field once. */
  lemma TableDistinct()
    ensures Distinct(Mappable.Names(Table()))
  {
    var names := Mappable.Names(Table());
    assert names[0] == "id" && names[1] == "instanceId" && names[2] == "ip";
    assert |names[0]| == 2 && |names[1]| == 10 && |names[2]| == 2;
    assert names[0][1] != names[2][1];
  }

  /** Each field reads the record attribute of the same position. */
  lemma TableValues(record: Value)
    ensures Mappable.FieldValue(Table()[0].spec, record) == Attr(record, "AllocationId")
    ensures Mappable.FieldValue(Table()[1].spec, record) == Attr(record, "InstanceId")
    ensures Mappable.FieldValue(Table()[2].spec, record) == Attr(record, "PublicIp")
  {
    assert Dotted(["AllocationId"]) == [Key("AllocationId")];
    assert Dotted(["InstanceId"]) == [Key("InstanceId")];
    assert Dotted(["PublicIp"]) == [Key("PublicIp")];
  }

  /** The entity the table builds from any record. */
  lemma EntityShape(record: Value)
    ensures Mappable.Entity(Table(), record) ==
      Fields(Attr(record, "AllocationId"), Attr(record, "InstanceId"), Attr(record, "PublicIp"))
  {
    TableDistinct();
    TableValues(record);
    Mappable.EntityOfDistinct(Table(), record);
  }

  /** `new ElasticIp(record)`: `id`, `instanceId` and `ip` from the record's
      `AllocationId`, `InstanceId` and `PublicIp`, null where missing. */
  function Address(record: Value): (e: Value)
    requires Truthy(record)
    ensures Mappable.Construct(Ok(Table()), record) == Ok(e)
    ensures e == Obj(Fields(Attr(record, "AllocationId"), Attr(record, "InstanceId"), Attr(record, "PublicIp")))
  {
    EntityShape(record);
    Obj(Mappable.Entity(Table(), record))
  }

  /** Where `Unmap` writes each field of an address. */
  lemma WritePaths()
    ensures Mappable.WritePath(Table(), "id") == [Key("AllocationId")]
    ensures Mappable.WritePath(Table(), "instanceId") == [Key("InstanceId")]
    ensures Mappable.WritePath(Table(), "ip") == [Key("PublicIp")]
  {
    var m := Table();
    Mappable.SpecOfIndex(m, 0);
    Mappable.SpecOfIndex(m, 1);
    Mappable.SpecOfIndex(m, 2);
  }

  /** Writing an address back puts field `f` under the record attribute `k`. */
  lemma WritesField(a: Value, b: Value, c: Value, f: string, k: string, v: Value)
    requires a != Undefined && b != Undefined && c != Undefined
    requires (f, k, v) in [("id", "AllocationId", a), ("instanceId", "InstanceId", b), ("ip", "PublicIp", c)]
    ensures GetPath(Mappable.UnmapProps(Table(), Fields(a, b, c), Obj([])), [Key(k)]) == v
  {
    var m := Table();
    var ps := Fields(a, b, c);
    WritePaths();
    assert Keys(ps) == ["id", "instanceId", "ip"];
    assert Distinct(Keys(ps));
    assert Lookup(ps, f) == Some(v) by {
      assert ps[1..] == [Prop("instanceId", b), Prop("ip", c)];
      assert ps[1..][1..] == [Prop("ip", c)];
      if f != "id" {
        assert Lookup(ps, f) == Lookup(ps[1..], f);
        if f != "instanceId" {
          assert Lookup(ps[1..], f) == Lookup(ps[1..][1..], f);
        }
      }
    }
    assert Mappable.WritePath(m, f) == [Key(k)];
    assert Fits(Obj([]), [Key(k)]);
    forall i | 0 <= i < |ps| && ps[i].key != f
      ensures Compatible(Mappable.WritePath(m, f), Mappable.WritePath(m, ps[i].key))
    {
    }
    Mappable.UnmapPropsWrites(m, ps, Obj([]), f, v);
  }

  /** Every field is a plain path, so writing an address back and reading it again
      gives the same address. */
  lemma AddressRoundTrip(record: Value)
    requires Truthy(record) && !record.Arr?
    ensures Mappable.Map(Ok(Table()), record) == Ok(Address(record))
    ensures Mappable.Unmap(Ok(Table()), Address(record)).Ok?
    ensures Mappable.Map(Ok(Table()), Mappable.Unmap(Ok(Table()), Address(record)).value) == Ok(Address(record))
  {
    var m := Table();
    var a, b, c := Attr(record, "AllocationId"), Attr(record, "InstanceId"), Attr(record, "PublicIp");
    var e := Address(record);
    assert Mappable.Records(record) == [record];
    Mappable.UnmapOfObject(m, e);
    var u := Mappable.UnmapRecord(m, e);
    assert u == Mappable.UnmapProps(m, Fields(a, b, c), Obj([]));
    WritesField(a, b, c, "id", "AllocationId", a);
    WritesField(a, b, c, "instanceId", "InstanceId", b);
    WritesField(a, b, c, "ip", "PublicIp", c);
    Mappable.MapOfObject(m, u);
    EntityShape(u);
  }

  /** `ElasticIp.load()`: one address per record, in order. */
  function Load(addresses: Value): (r: seq<Value>)
    requires addresses.Arr?
    ensures |r| == |Mappable.Records(addresses)|
    ensures forall i :: 0 <= i < |r| ==> r[i] == Address(Mappable.Records(addresses)[i])
  {
    var recs := Mappable.Records(addresses);
    seq(|recs|, i requires 0 <= i < |recs| => Address(recs[i]))
  }

  /** `ElasticIp.byUrl(url)` once the URL is resolved: the first address with that ip. */
  function ByIp(addresses: seq<Value>, ip: Value): (r: Option<Value>)
    ensures r.Some? ==> r.value in addresses && Dot(r.value, "ip") == ip
    ensures r.None? <==> forall a :: a in addresses ==> Dot(a, "ip") != ip
  {
    FirstWith(addresses, "ip", ip)
  }
}
