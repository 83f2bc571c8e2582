/**
 * The join of one status reading against the descriptor: find the sensor
 * the reading belongs to, collect the blocks that sensor links to, and name
 * the device after them. The reading is returned as a record rather than
 * printed; the descriptor is only read.
 */
module Correlator {
  import opened Types
  import opened Wrappers
  import opened Json
  import opened Schema

  /** What `pretty_print` reports for one reading. */
  datatype Reading<V> =
    | NoDescription(entry: StatusEntry<V>)
    | Reading(id: u32, device: string, descr: string, value: V, unit: string, range: Option<RangeDesc>)

  /** The label used when a sensor links to no known block. */
  const UNKNOWN_DEVICE := "Unknown device"

  /** The position of the first sensor with id `id`. */
  function FirstSensor(sen: seq<SenDesc>, id: u32): (r: Option<nat>)
    ensures r.None? <==> forall i :: 0 <= i < |sen| ==> sen[i].id != id
    ensures r.Some? ==> r.value < |sen| && sen[r.value].id == id
    ensures r.Some? ==> forall i :: 0 <= i < r.value ==> sen[i].id != id
  {
    if |sen| == 0 then None
    else if sen[0].id == id then Some(0)
    else match FirstSensor(sen[1..], id)
      case None => None
      case Some(i) => Some(i + 1)
  }

  /** The blocks whose id is among `links`, in descriptor order. */
  function LinkedBlocks(blk: seq<BlockDesc>, links: seq<u32>): (r: seq<BlockDesc>)
    ensures |r| <= |blk|
    ensures forall b :: b in r <==> b in blk && b.id in links
  {
    if |blk| == 0 then []
    else (if blk[0].id in links then [blk[0]] else []) + LinkedBlocks(blk[1..], links)
  }

  /** The descriptions of `bs` run together, with no separator. */
  function ConcatDescr(bs: seq<BlockDesc>): (s: string)
    ensures |bs| == 0 ==> s == ""
    ensures |bs| > 0 ==> bs[0].descr <= s
    ensures |bs| == 1 ==> s == bs[0].descr
  {
    if |bs| == 0 then "" else bs[0].descr + ConcatDescr(bs[1..])
  }

  /**
   * The device label: `Unknown device` for no block, that block's
   * description for one, and all descriptions run together for more.
   */
  function DeviceLabel(bs: seq<BlockDesc>): (name: string)
    ensures |bs| == 0 ==> name == UNKNOWN_DEVICE
    ensures |bs| >= 1 ==> name == ConcatDescr(bs)
    ensures |bs| == 2 ==> name == bs[0].descr + bs[1].descr
  {
    match |bs|
    case 0 => UNKNOWN_DEVICE
    case 1 => bs[0].descr
    case _ => ConcatDescr(bs)
  }

  /**
   * The record for one reading: the first sensor with the reading's id
   * gives the description, unit (empty when absent) and range, and its
   * linked blocks give the device label; without such a sensor the record
   * says that no description was found.
   */
  function Correlate<V>(e: StatusEntry<V>, desc: Description): (r: Reading<V>)
    ensures r.NoDescription? <==> forall i :: 0 <= i < |desc.sen| ==> desc.sen[i].id != e.id
    ensures r.NoDescription? ==> r.entry == e
    ensures r.Reading? ==> r.id == e.id && r.value == e.value
    ensures r.Reading? ==>
      exists i ::
        && 0 <= i < |desc.sen| && desc.sen[i].id == e.id
        && (forall j :: 0 <= j < i ==> desc.sen[j].id != e.id)
        && r.descr == desc.sen[i].descr
        && r.unit == desc.sen[i].unit.GetOr("")
        && r.range == desc.sen[i].range
        && r.device == DeviceLabel(LinkedBlocks(desc.blk, desc.sen[i].links))
  {
    match FirstSensor(desc.sen, e.id)
    case None => NoDescription(e)
    case Some(i) =>
      var d := desc.sen[i];
      var device := DeviceLabel(LinkedBlocks(desc.blk, d.links));
      Reading(e.id, device, d.descr, e.value, d.unit.GetOr(""), d.range)
  }

  // ---------------------------------------------------------------------
  // Properties

  /** Filtering keeps descriptor order: it distributes over concatenation. */
  lemma {:induction false} LinkedBlocksAppend(a: seq<BlockDesc>, b: seq<BlockDesc>, links: seq<u32>)
    ensures LinkedBlocks(a + b, links) == LinkedBlocks(a, links) + LinkedBlocks(b, links)
  {
    if |a| == 0 {
      assert a + b == b;
    } else {
      var head := if a[0].id in links then [a[0]] else [];
      assert (a + b)[0] == a[0] && (a + b)[1..] == a[1..] + b;
      assert LinkedBlocks(a + b, links) == head + LinkedBlocks(a[1..] + b, links);
      LinkedBlocksAppend(a[1..], b, links);
      assert LinkedBlocks(a, links) == head + LinkedBlocks(a[1..], links);
    }
  }

  /** Every block is kept exactly when linked: all of them when all are linked, none when none is. */
  lemma {:induction false} LinkedBlocksExtremes(blk: seq<BlockDesc>, links: seq<u32>)
    ensures (forall i :: 0 <= i < |blk| ==> blk[i].id in links) ==> LinkedBlocks(blk, links) == blk
    ensures (forall i :: 0 <= i < |blk| ==> blk[i].id !in links) ==> LinkedBlocks(blk, links) == []
  {
    if |blk| > 0 {
      LinkedBlocksExtremes(blk[1..], links);
      assert blk == [blk[0]] + blk[1..];
    }
  }

  /** Descriptions run together block by block: the label of a concatenation is the concatenation of labels. */
  lemma {:induction false} ConcatDescrAppend(a: seq<BlockDesc>, b: seq<BlockDesc>)
    ensures ConcatDescr(a + b) == ConcatDescr(a) + ConcatDescr(b)
  {
    if |a| == 0 {
      assert a + b == b;
    } else {
      assert (a + b)[0] == a[0] && (a + b)[1..] == a[1..] + b;
      assert ConcatDescr(a + b) == a[0].descr + ConcatDescr(a[1..] + b);
      ConcatDescrAppend(a[1..], b);
      assert ConcatDescr(a) == a[0].descr + ConcatDescr(a[1..]);
    }
  }

  /** A sensor whose links name no block of the descriptor reads as `Unknown device`. */
  lemma DanglingLinks<V>(e: StatusEntry<V>, desc: Description, i: nat)
    requires i < |desc.sen| && desc.sen[i].id == e.id
    requires forall j :: 0 <= j < i ==> desc.sen[j].id != e.id
    requires forall k :: 0 <= k < |desc.blk| ==> desc.blk[k].id !in desc.sen[i].links
    ensures Correlate(e, desc).Reading? && Correlate(e, desc).device == UNKNOWN_DEVICE
  {
    LinkedBlocksExtremes(desc.blk, desc.sen[i].links);
  }

  /**
   * When several sensors share an id, the first one describes the reading:
   * sensors after it never matter.
   */
  lemma FirstSensorWins<V>(e: StatusEntry<V>, blk: seq<BlockDesc>, pre: seq<SenDesc>, d: SenDesc, post: seq<SenDesc>)
    requires d.id == e.id
    requires forall j :: 0 <= j < |pre| ==> pre[j].id != e.id
    ensures Correlate(e, Description(blk, pre + [d] + post))
         == Reading(e.id, DeviceLabel(LinkedBlocks(blk, d.links)), d.descr, e.value, d.unit.GetOr(""), d.range)
  {
    var sen := pre + [d] + post;
    assert sen[|pre|] == d;
    assert FirstSensor(sen, e.id) == Some(|pre|);
  }

  /** A sensor without a unit reads with the empty unit. */
  lemma MissingUnitIsEmpty<V>(e: StatusEntry<V>, desc: Description)
    requires Correlate(e, desc).Reading?
    requires forall i :: 0 <= i < |desc.sen| && desc.sen[i].id == e.id ==> desc.sen[i].unit.None?
    ensures Correlate(e, desc).unit == ""
  {
  }

  // ---------------------------------------------------------------------
  // One device end to end: a relay block with one power sensor

  /** The descriptor `{"blk":[{"I":b,"D":relay}],"sen":[{"I":s,"D":power,"T":"P","U":unit,"L":b}]}`. */
  function RelayDescriptor(b: u32, s: u32, relay: string, power: string, unit: string): Value {
    Obj(map[
      "blk" := Arr([Obj(map["I" := Num(Int(b)), "D" := Str(relay)])]),
      "sen" := Arr([Obj(map["I" := Num(Int(s)), "D" := Str(power), "T" := Str("P"), "U" := Str(unit), "L" := Num(Int(b))])])])
  }

  /** The status `{"G":[[0,s,x]]}`. */
  function RelayStatus(s: u32, x: Number): Value {
    Obj(map["G" := Arr([Arr([Num(Int(0)), Num(Int(s)), Num(x)])])])
  }

  /** A one-item list decodes exactly when its item does. */
  lemma DecodeSingle<T>(j: Value, elem: Value -> Option<T>)
    ensures elem(j).None? ==> DecodeEach([j], elem).None?
    ensures elem(j).Some? ==> DecodeEach([j], elem) == Some([elem(j).value])
  {
    assert [j][1..] == [];
    if elem(j).Some? {
      var one := [elem(j).value];
      assert one + [] == one;
    }
  }

  /** The catalog that descriptor stands for. */
  function RelayDescription(b: u32, s: u32, relay: string, power: string, unit: string): Description {
    Description([BlockDesc(b, relay)], [SenDesc(s, power, SenType.Power, Some(unit), None, [b])])
  }

  /** The descriptor decodes to one block and one power sensor linked to it by a bare id. */
  lemma RelayDescriptorDecodes(b: u32, s: u32, relay: string, power: string, unit: string)
    ensures DecodeDescription(RelayDescriptor(b, s, relay, power, unit)) == Some(RelayDescription(b, s, relay, power, unit))
  {
    var bj := Obj(map["I" := Num(Int(b)), "D" := Str(relay)]);
    var sf := map["I" := Num(Int(s)), "D" := Str(power), "T" := Str("P"), "U" := Str(unit), "L" := Num(Int(b))];
    LinksScalar(b);
    assert SenTypeOfToken("P") == Some(SenType.Power);
    assert DecodeSenDesc(Obj(sf)) == Some(SenDesc(s, power, SenType.Power, Some(unit), None, [b]));
    assert DecodeBlockDesc(bj) == Some(BlockDesc(b, relay));
    DecodeSingle(bj, DecodeBlockDesc);
    DecodeSingle(Obj(sf), DecodeSenDesc);
  }

  /** The status decodes to the one reading `[0, s, x]`. */
  lemma RelayStatusDecodes(s: u32, x: Number)
    ensures DecodeStatus(RelayStatus(s, x)) == Some(Status.Status([StatusEntry(0, s, x)]))
  {
    var ej := Arr([Num(Int(0)), Num(Int(s)), Num(x)]);
    assert DecodeStatusEntry(ej) == Some(StatusEntry(0, s, x));
    DecodeSingle(ej, DecodeStatusEntry);
  }

  /**
   * In that catalog a reading of the power sensor is named after the relay
   * and carries the sensor's description and unit; any other id has no
   * description.
   */
  lemma RelayReadings(b: u32, s: u32, relay: string, power: string, unit: string, x: Number)
    ensures Correlate(StatusEntry(0, s, x), RelayDescription(b, s, relay, power, unit)) == Reading(s, relay, power, x, unit, None)
    ensures forall s' :: s' != s ==> Correlate(StatusEntry(0, s', x), RelayDescription(b, s, relay, power, unit)).NoDescription?
  {
    var sen := SenDesc(s, power, SenType.Power, Some(unit), None, [b]);
    assert LinkedBlocks([BlockDesc(b, relay)], [b]) == [BlockDesc(b, relay)];
    FirstSensorWins(StatusEntry(0, s, x), [BlockDesc(b, relay)], [], sen, []);
    assert [] + [sen] + [] == [sen];
  }

  /** Decoding both documents and correlating gives those readings. */
  lemma RelayEndToEnd(b: u32, s: u32, relay: string, power: string, unit: string, x: Number)
    ensures
      var desc := DecodeDescription(RelayDescriptor(b, s, relay, power, unit));
      var status := DecodeStatus(RelayStatus(s, x));
      && desc.Some? && status.Some? && |status.value.generic| == 1
      && Correlate(status.value.generic[0], desc.value) == Reading(s, relay, power, x, unit, None)
    ensures forall s' :: s' != s ==>
      Correlate(StatusEntry(0, s', x), DecodeDescription(RelayDescriptor(b, s, relay, power, unit)).value).NoDescription?
  {
    RelayDescriptorDecodes(b, s, relay, power, unit);
    RelayStatusDecodes(s, x);
    RelayReadings(b, s, relay, power, unit, x);
  }
}
