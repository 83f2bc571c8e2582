/**
 * The descriptor (`/cit/d`) and status (`/cit/s`) schemas, and how each is
 * decoded from a JSON value: short keys (`I`, `D`, `T`, `U`, `R`, `L`,
 * `G`), a closed set of sensor-category tokens, fields that take one value
 * or a list, and status entries written as 3-element arrays.
 * Keys a schema does not name are ignored.
 */
module Schema {
  import opened Types
  import opened Wrappers
  import opened Json

  /** A block: one logical sub-device, such as one relay channel. */
  datatype BlockDesc = BlockDesc(id: u32, descr: string)

  /** The sensor categories this decoder accepts. */
  datatype SenType = Alarm | Current | Energy | EventCounter | Power | Status | Voltage

  /** The range tokens of a sensor. */
  datatype RangeDesc = RangeDesc(tokens: seq<string>)

  /** A sensor: its id, description, category, optional unit and range, and the blocks it belongs to. */
  datatype SenDesc = SenDesc(
    id: u32,
    descr: string,
    kind: SenType,
    unit: Option<string>,
    range: Option<RangeDesc>,
    links: seq<u32>)

  /** The catalog of a device's blocks and sensors. */
  datatype Description = Description(blk: seq<BlockDesc>, sen: seq<SenDesc>)

  /** One reading: channel, sensor id and value. The value type is left open. */
  datatype StatusEntry<V> = StatusEntry(channel: u32, id: u32, value: V)

  /** The live status: its readings in wire order. */
  datatype Status<V> = Status(generic: seq<StatusEntry<V>>)

  /** `gen_entries`: each reading of the status, once, in wire order. */
  function GenEntries<V>(s: Status<V>): (es: seq<StatusEntry<V>>)
    ensures |es| == |s.generic|
    ensures forall i :: 0 <= i < |es| ==> es[i] == s.generic[i]
  {
    s.generic
  }

  // ---------------------------------------------------------------------
  // Sensor categories

  /** The wire token of each category. */
  function SenTypeToken(k: SenType): (t: string)
    ensures t in {"A", "I", "E", "EVC", "P", "S", "V"}
  {
    match k
    case Alarm => "A"
    case Current => "I"
    case Energy => "E"
    case EventCounter => "EVC"
    case Power => "P"
    case Status => "S"
    case Voltage => "V"
  }

  /** The category a wire token names; any other token is refused. */
  function SenTypeOfToken(t: string): (k: Option<SenType>)
    ensures k.Some? ==> SenTypeToken(k.value) == t
  {
    match t
    case "A" => Some(Alarm)
    case "I" => Some(Current)
    case "E" => Some(Energy)
    case "EVC" => Some(EventCounter)
    case "P" => Some(Power)
    case "S" => Some(SenType.Status)
    case "V" => Some(Voltage)
    case _ => None
  }

  /** Every category is read back from its own token, so the mapping is exact in both directions. */
  lemma SenTypeTokenRoundTrip(k: SenType, t: string)
    ensures SenTypeOfToken(SenTypeToken(k)) == Some(k)
    ensures SenTypeOfToken(t) == Some(k) <==> t == SenTypeToken(k)
  {
  }

  /** Exactly seven tokens are accepted. */
  lemma AcceptedTokens(t: string)
    ensures SenTypeOfToken(t).Some? <==> t in {"A", "I", "E", "EVC", "P", "S", "V"}
  {
  }

  /** Categories the protocol documents but this decoder does not support are refused. */
  lemma UnsupportedTokens()
    ensures SenTypeOfToken("B").None? && SenTypeOfToken("C").None?
    ensures SenTypeOfToken("EV").None? && SenTypeOfToken("H").None?
    ensures SenTypeOfToken("L").None? && SenTypeOfToken("T").None?
  {
  }

  // ---------------------------------------------------------------------
  // Decoding from JSON values

  /** A `u32`: an integer literal in range. Fractions, negatives and other kinds are refused. */
  function DecodeU32(j: Value): (n: Option<u32>)
    ensures n.Some? <==> j.Num? && j.n.Int? && 0 <= j.n.i < 0x1_0000_0000
    ensures n.Some? ==> j == Num(Int(n.value))
  {
    if j.Num? && j.n.Int? && 0 <= j.n.i < 0x1_0000_0000 then Some(j.n.i) else None
  }

  /** A string. */
  function DecodeStr(j: Value): (s: Option<string>)
    ensures s.Some? <==> j.Str?
    ensures s.Some? ==> j == Str(s.value)
  {
    if j.Str? then Some(j.s) else None
  }

  /** An `f64`: any number, integer literals included. */
  function DecodeNumber(j: Value): (x: Option<Number>)
    ensures x.Some? <==> j.Num?
    ensures x.Some? ==> j == Num(x.value)
  {
    if j.Num? then Some(j.n) else None
  }

  /** A category: a string holding one of the seven tokens. */
  function DecodeSenType(j: Value): (k: Option<SenType>)
    ensures k.Some? ==> j == Str(SenTypeToken(k.value))
  {
    if j.Str? then SenTypeOfToken(j.s) else None
  }

  /** Every item decoded by `elem`, or `None` if any item fails. */
  function DecodeEach<T>(items: seq<Value>, elem: Value -> Option<T>): (r: Option<seq<T>>)
    ensures r.Some? <==> forall i :: 0 <= i < |items| ==> elem(items[i]).Some?
    ensures r.Some? ==> |r.value| == |items|
    ensures r.Some? ==> forall i :: 0 <= i < |items| ==> elem(items[i]) == Some(r.value[i])
  {
    if |items| == 0 then Some([])
    else
      match elem(items[0])
      case None => None
      case Some(x) =>
        match DecodeEach(items[1..], elem)
        case None => None
        case Some(xs) => Some([x] + xs)
  }

  /** A `Vec<T>`: a JSON array whose every item decodes. */
  function DecodeVec<T>(j: Value, elem: Value -> Option<T>): (r: Option<seq<T>>)
    ensures r.Some? ==> j.Arr?
  {
    if j.Arr? then DecodeEach(j.items, elem) else None
  }

  /**
   * A one-or-many field: a single value is tried first and becomes a
   * one-element list; otherwise the value must be a list.
   */
  function DecodeOneOrMany<T>(j: Value, elem: Value -> Option<T>): (r: Option<seq<T>>)
    ensures elem(j).Some? ==> r == Some([elem(j).value])
    ensures elem(j).None? ==> r == DecodeVec(j, elem)
  {
    match elem(j)
    case Some(x) => Some([x])
    case None => DecodeVec(j, elem)
  }

  /** A field that must be present. */
  function Required<T>(fields: map<string, Value>, key: string, dec: Value -> Option<T>): (r: Option<T>)
    ensures key !in fields ==> r.None?
    ensures key in fields ==> r == dec(fields[key])
  {
    if key in fields then dec(fields[key]) else None
  }

  /** An `Option<T>` field: absent or `null` is `None`; anything else must decode. */
  function Optional<T>(fields: map<string, Value>, key: string, dec: Value -> Option<T>): (r: Option<Option<T>>)
    ensures key !in fields || fields[key] == Null ==> r == Some(None)
    ensures key in fields && fields[key] != Null ==>
      (r.Some? <==> dec(fields[key]).Some?) && (r.Some? ==> r.value == dec(fields[key]))
  {
    if key !in fields || fields[key] == Null then Some(None)
    else
      match dec(fields[key])
      case None => None
      case Some(x) => Some(Some(x))
  }

  /** A range: a bare string is a one-token range; otherwise a list of strings, token by token. */
  function DecodeRange(j: Value): (r: Option<RangeDesc>)
    ensures j.Str? ==> r == Some(RangeDesc([j.s]))
    ensures !j.Str? ==> (r.Some? <==> j.Arr? && forall i :: 0 <= i < |j.items| ==> j.items[i].Str?)
    ensures !j.Str? && r.Some? ==>
      |r.value.tokens| == |j.items| && forall i :: 0 <= i < |j.items| ==> j.items[i] == Str(r.value.tokens[i])
  {
    var tokens :- DecodeOneOrMany(j, DecodeStr);
    Some(RangeDesc(tokens))
  }

  /** Links: a bare `u32` is a one-block list; otherwise a list of `u32`s, id by id. */
  function DecodeLinks(j: Value): (r: Option<seq<u32>>)
    ensures DecodeU32(j).Some? ==> r == Some([DecodeU32(j).value])
    ensures DecodeU32(j).None? ==> (r.Some? <==> j.Arr? && forall i :: 0 <= i < |j.items| ==> DecodeU32(j.items[i]).Some?)
    ensures DecodeU32(j).None? && r.Some? ==>
      |r.value| == |j.items| && forall i :: 0 <= i < |j.items| ==> j.items[i] == Num(Int(r.value[i]))
  {
    DecodeOneOrMany(j, DecodeU32)
  }

  /** A block: `{"I": id, "D": description}`. */
  function DecodeBlockDesc(j: Value): (b: Option<BlockDesc>)
    ensures b.Some? <==>
      j.Obj? && "I" in j.fields && DecodeU32(j.fields["I"]).Some? && "D" in j.fields && j.fields["D"].Str?
    ensures b.Some? ==> j.fields["I"] == Num(Int(b.value.id)) && j.fields["D"] == Str(b.value.descr)
  {
    match j
    case Obj(f) =>
      var id :- Required(f, "I", DecodeU32);
      var descr :- Required(f, "D", DecodeStr);
      Some(BlockDesc(id, descr))
    case _ => None
  }

  /** A sensor: `{"I", "D", "T", "U"?, "R"?, "L"}`. */
  function DecodeSenDesc(j: Value): (s: Option<SenDesc>)
    ensures s.Some? <==> j.Obj? && SenDescDecodable(j.fields)
    ensures s.Some? ==> var f := j.fields;
      && f["I"] == Num(Int(s.value.id))
      && f["D"] == Str(s.value.descr)
      && f["T"] == Str(SenTypeToken(s.value.kind))
      && (s.value.unit.None? <==> "U" !in f || f["U"] == Null)
      && (s.value.unit.Some? ==> f["U"] == Str(s.value.unit.value))
      && (s.value.range.None? <==> "R" !in f || f["R"] == Null)
      && (s.value.range.Some? ==> DecodeRange(f["R"]) == s.value.range)
      && DecodeLinks(f["L"]) == Some(s.value.links)
  {
    match j
    case Obj(f) =>
      var id :- Required(f, "I", DecodeU32);
      var descr :- Required(f, "D", DecodeStr);
      var kind :- Required(f, "T", DecodeSenType);
      var unit :- Optional(f, "U", DecodeStr);
      var range :- Optional(f, "R", DecodeRange);
      var links :- Required(f, "L", DecodeLinks);
      Some(SenDesc(id, descr, kind, unit, range, links))
    case _ => None
  }

  /**
   * The keys a sensor needs: `I`, `D`, `T` and `L` present and decodable, and
   * `U` and `R` each absent, `null` or decodable.
   */
  predicate SenDescDecodable(f: map<string, Value>) {
    && "I" in f && DecodeU32(f["I"]).Some?
    && "D" in f && f["D"].Str?
    && "T" in f && DecodeSenType(f["T"]).Some?
    && ("U" in f && f["U"] != Null ==> f["U"].Str?)
    && ("R" in f && f["R"] != Null ==> DecodeRange(f["R"]).Some?)
    && "L" in f && DecodeLinks(f["L"]).Some?
  }

  /** The descriptor: `{"blk": [block, ...], "sen": [sensor, ...]}`. */
  function DecodeDescription(j: Value): (d: Option<Description>)
    ensures d.Some? <==>
      && j.Obj? && "blk" in j.fields && "sen" in j.fields
      && DecodeVec(j.fields["blk"], DecodeBlockDesc).Some?
      && DecodeVec(j.fields["sen"], DecodeSenDesc).Some?
    ensures d.Some? ==>
      && j.fields["blk"].Arr? && |d.value.blk| == |j.fields["blk"].items|
      && forall i :: 0 <= i < |d.value.blk| ==> DecodeBlockDesc(j.fields["blk"].items[i]) == Some(d.value.blk[i])
    ensures d.Some? ==>
      && j.fields["sen"].Arr? && |d.value.sen| == |j.fields["sen"].items|
      && forall i :: 0 <= i < |d.value.sen| ==> DecodeSenDesc(j.fields["sen"].items[i]) == Some(d.value.sen[i])
  {
    match j
    case Obj(f) =>
      var blk :- Required(f, "blk", j => DecodeVec(j, DecodeBlockDesc));
      var sen :- Required(f, "sen", j => DecodeVec(j, DecodeSenDesc));
      Some(Description(blk, sen))
    case _ => None
  }

  /** A reading: exactly `[channel, sensor id, value]`, by position. */
  function DecodeStatusEntry(j: Value): (e: Option<StatusEntry<Number>>)
    ensures e.Some? <==>
      j.Arr? && |j.items| == 3 && DecodeU32(j.items[0]).Some? && DecodeU32(j.items[1]).Some? && j.items[2].Num?
    ensures e.Some? ==> j == EncodeStatusEntry(e.value)
  {
    if j.Arr? && |j.items| == 3 then
      var channel :- DecodeU32(j.items[0]);
      var id :- DecodeU32(j.items[1]);
      var value :- DecodeNumber(j.items[2]);
      assert j.items == [EncodeU32(channel), EncodeU32(id), Num(value)];
      Some(StatusEntry(channel, id, value))
    else None
  }

  /** The status: `{"G": [reading, ...]}`. */
  function DecodeStatus(j: Value): (s: Option<Status<Number>>)
    ensures s.Some? <==>
      && j.Obj? && "G" in j.fields && j.fields["G"].Arr?
      && forall i :: 0 <= i < |j.fields["G"].items| ==> DecodeStatusEntry(j.fields["G"].items[i]).Some?
    ensures s.Some? ==>
      && |GenEntries(s.value)| == |j.fields["G"].items|
      && forall i :: 0 <= i < |GenEntries(s.value)| ==> DecodeStatusEntry(j.fields["G"].items[i]) == Some(GenEntries(s.value)[i])
  {
    match j
    case Obj(f) =>
      var generic :- Required(f, "G", j => DecodeVec(j, DecodeStatusEntry));
      Some(Status.Status(generic))
    case _ => None
  }

  // ---------------------------------------------------------------------
  // Properties of the decoders

  /** A bare scalar and the one-element list holding it decode alike, when the scalar is not itself a list. */
  lemma OneOrManyScalar<T>(j: Value, elem: Value -> Option<T>)
    requires !j.Arr? && elem(Arr([j])).None?
    ensures DecodeOneOrMany(j, elem) == DecodeOneOrMany(Arr([j]), elem)
  {
    assert [j][1..] == [];
    assert DecodeEach([j][1..], elem) == Some([]);
    match elem(j)
    case None =>
    case Some(x) =>
      var one: seq<T> := [x];
      assert one + [] == one;
      assert DecodeEach([j], elem) == Some(one);
      assert DecodeVec(Arr([j]), elem) == Some([x]);
      assert DecodeOneOrMany(j, elem) == Some([x]);
  }

  /** `"L": n` and `"L": [n]` are the same links. */
  lemma LinksScalar(n: u32)
    ensures DecodeLinks(Num(Int(n))) == Some([n])
    ensures DecodeLinks(Arr([Num(Int(n))])) == Some([n])
  {
    OneOrManyScalar(Num(Int(n)), DecodeU32);
  }

  /** `"R": t` and `"R": [t]` are the same range. */
  lemma RangeScalar(t: string)
    ensures DecodeRange(Str(t)) == Some(RangeDesc([t]))
    ensures DecodeRange(Arr([Str(t)])) == Some(RangeDesc([t]))
  {
    OneOrManyScalar(Str(t), DecodeStr);
  }

  /** A block ignores every key other than `I` and `D`. */
  lemma BlockDescIgnoresUnknownKeys(f: map<string, Value>, k: string, v: Value)
    requires k != "I" && k != "D"
    ensures DecodeBlockDesc(Obj(f[k := v])) == DecodeBlockDesc(Obj(f))
  {
    assert Required(f[k := v], "I", DecodeU32) == Required(f, "I", DecodeU32);
    assert Required(f[k := v], "D", DecodeStr) == Required(f, "D", DecodeStr);
  }

  /** A sensor ignores every key other than `I`, `D`, `T`, `U`, `R` and `L`. */
  lemma SenDescIgnoresUnknownKeys(f: map<string, Value>, k: string, v: Value)
    requires k !in {"I", "D", "T", "U", "R", "L"}
    ensures DecodeSenDesc(Obj(f[k := v])) == DecodeSenDesc(Obj(f))
  {
    var g := f[k := v];
    assert Required(g, "I", DecodeU32) == Required(f, "I", DecodeU32);
    assert Required(g, "D", DecodeStr) == Required(f, "D", DecodeStr);
    assert Required(g, "T", DecodeSenType) == Required(f, "T", DecodeSenType);
    assert Optional(g, "U", DecodeStr) == Optional(f, "U", DecodeStr);
    assert Optional(g, "R", DecodeRange) == Optional(f, "R", DecodeRange);
    assert Required(g, "L", DecodeLinks) == Required(f, "L", DecodeLinks);
  }

  /** A sensor whose unit is `null` decodes as one with no unit key. */
  lemma NullUnitIsAbsent(f: map<string, Value>)
    requires "U" !in f
    ensures DecodeSenDesc(Obj(f["U" := Null])) == DecodeSenDesc(Obj(f))
  {
    var g := f["U" := Null];
    assert Required(g, "I", DecodeU32) == Required(f, "I", DecodeU32);
    assert Required(g, "D", DecodeStr) == Required(f, "D", DecodeStr);
    assert Required(g, "T", DecodeSenType) == Required(f, "T", DecodeSenType);
    assert Optional(g, "U", DecodeStr) == Optional(f, "U", DecodeStr) == Some(None);
    assert Optional(g, "R", DecodeRange) == Optional(f, "R", DecodeRange);
    assert Required(g, "L", DecodeLinks) == Required(f, "L", DecodeLinks);
  }

  /** A sensor without links, or with an unknown category, is refused. */
  lemma SenDescRequiresLinksAndKnownType(f: map<string, Value>)
    ensures "L" !in f ==> DecodeSenDesc(Obj(f)).None?
    ensures "T" in f && f["T"].Str? && SenTypeOfToken(f["T"].s).None? ==> DecodeSenDesc(Obj(f)).None?
  {
  }

  // ---------------------------------------------------------------------
  // Encoders: what a device sends, and the round trips through the decoders

  function EncodeEach<T>(xs: seq<T>, enc: T -> Value): (vs: seq<Value>)
    ensures |vs| == |xs|
    ensures forall i :: 0 <= i < |xs| ==> vs[i] == enc(xs[i])
  {
    seq(|xs|, i requires 0 <= i < |xs| => enc(xs[i]))
  }

  function EncodeU32(n: u32): Value {
    Num(Int(n))
  }

  function EncodeStr(s: string): Value {
    Str(s)
  }

  function EncodeBlockDesc(b: BlockDesc): Value {
    Obj(map["I" := EncodeU32(b.id), "D" := Str(b.descr)])
  }

  /** A sensor as a device writes it: the unit and the range only when present, the links as a list. */
  function EncodeSenDesc(s: SenDesc): Value {
    var required := map["I" := EncodeU32(s.id), "D" := Str(s.descr), "T" := Str(SenTypeToken(s.kind)),
                        "L" := Arr(EncodeEach(s.links, EncodeU32))];
    var withUnit := if s.unit.Some? then required["U" := Str(s.unit.value)] else required;
    Obj(if s.range.Some? then withUnit["R" := Arr(EncodeEach(s.range.value.tokens, EncodeStr))] else withUnit)
  }

  function EncodeDescription(d: Description): Value {
    Obj(map["blk" := Arr(EncodeEach(d.blk, EncodeBlockDesc)), "sen" := Arr(EncodeEach(d.sen, EncodeSenDesc))])
  }

  function EncodeStatusEntry(e: StatusEntry<Number>): Value {
    Arr([EncodeU32(e.channel), EncodeU32(e.id), Num(e.value)])
  }

  function EncodeStatus(s: Status<Number>): Value {
    Obj(map["G" := Arr(EncodeEach(s.generic, EncodeStatusEntry))])
  }

  /** A list decodes item by item when every item does. */
  lemma DecodeEachEncode<T>(xs: seq<T>, enc: T -> Value, elem: Value -> Option<T>)
    requires forall x :: elem(enc(x)) == Some(x)
    ensures DecodeEach(EncodeEach(xs, enc), elem) == Some(xs)
  {
    var vs := EncodeEach(xs, enc);
    assert forall i :: 0 <= i < |vs| ==> elem(vs[i]) == Some(xs[i]);
    var r := DecodeEach(vs, elem);
    assert r.Some?;
    assert forall i :: 0 <= i < |xs| ==> r.value[i] == xs[i];
    assert r.value == xs;
  }

  lemma BlockDescRoundTrip(b: BlockDesc)
    ensures DecodeBlockDesc(EncodeBlockDesc(b)) == Some(b)
  {
  }

  /** What each key of an encoded sensor holds. */
  lemma EncodedSenDescFields(s: SenDesc)
    ensures var f := EncodeSenDesc(s).fields;
      && "I" in f && f["I"] == EncodeU32(s.id)
      && "D" in f && f["D"] == Str(s.descr)
      && "T" in f && f["T"] == Str(SenTypeToken(s.kind))
      && "L" in f && f["L"] == Arr(EncodeEach(s.links, EncodeU32))
      && ("U" in f <==> s.unit.Some?) && (s.unit.Some? ==> f["U"] == Str(s.unit.value))
      && ("R" in f <==> s.range.Some?) && (s.range.Some? ==> f["R"] == Arr(EncodeEach(s.range.value.tokens, EncodeStr)))
  {
  }

  lemma SenDescRoundTrip(s: SenDesc)
    ensures DecodeSenDesc(EncodeSenDesc(s)) == Some(s)
  {
    EncodedSenDescDecodes(s);
  }

  /** Each key of an encoded sensor decodes to the field it was written from. */
  lemma EncodedSenDescDecodes(s: SenDesc)
    ensures var f := EncodeSenDesc(s).fields;
      && Required(f, "I", DecodeU32) == Some(s.id)
      && Required(f, "D", DecodeStr) == Some(s.descr)
      && Required(f, "T", DecodeSenType) == Some(s.kind)
      && Optional(f, "U", DecodeStr) == Some(s.unit)
      && Optional(f, "R", DecodeRange) == Some(s.range)
      && Required(f, "L", DecodeLinks) == Some(s.links)
  {
    EncodedSenDescFields(s);
    DecodeEachEncode(s.links, EncodeU32, DecodeU32);
    SenTypeTokenRoundTrip(s.kind, SenTypeToken(s.kind));
    if s.range.Some? {
      DecodeEachEncode(s.range.value.tokens, EncodeStr, DecodeStr);
    }
  }

  /** Every descriptor survives the trip through its JSON form. */
  lemma DescriptionRoundTrip(d: Description)
    ensures DecodeDescription(EncodeDescription(d)) == Some(d)
  {
    forall b: BlockDesc ensures DecodeBlockDesc(EncodeBlockDesc(b)) == Some(b) {
      BlockDescRoundTrip(b);
    }
    forall s: SenDesc ensures DecodeSenDesc(EncodeSenDesc(s)) == Some(s) {
      SenDescRoundTrip(s);
    }
    DecodeEachEncode(d.blk, EncodeBlockDesc, DecodeBlockDesc);
    DecodeEachEncode(d.sen, EncodeSenDesc, DecodeSenDesc);
  }

  /** Every status survives the trip through its JSON form. */
  lemma StatusRoundTrip(s: Status<Number>)
    ensures DecodeStatus(EncodeStatus(s)) == Some(s)
  {
    DecodeEachEncode(s.generic, EncodeStatusEntry, DecodeStatusEntry);
  }
}
