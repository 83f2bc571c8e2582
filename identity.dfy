/**
 * The device identity carried by the GlobalDevId option: the text
 * `<type>#<serial>#<version>`, split at the first, the second and the last
 * `#`. Every failure is `None`; nothing here reports why.
 */
module Identity {
  import opened Types
  import opened Wrappers
  import opened Options
  import Utf8
  import opened Strings

  /** The CoIoT protocol version a device announces. */
  datatype Version = V1 | V2 | Unknown(n: u32)

  /** The GlobalDevId text: the first value of the option, when it is UTF-8. */
  function DeviceId(r: Response): (id: Option<string>)
    ensures id.Some? <==> FirstValue(r, GlobalDevId).Some? && Utf8.Decode(FirstValue(r, GlobalDevId).value).Some?
    ensures id.Some? ==> Utf8.Encode(id.value) == FirstValue(r, GlobalDevId).value
  {
    var bytes :- FirstValue(r, GlobalDevId);
    Utf8.Decode(bytes)
  }

  /** The text before the first `#` of a device id. */
  function TypeOf(id: string): (t: Option<string>)
    ensures t.Some? <==> '#' in id
    ensures t.Some? ==> '#' !in t.value && t.value + "#" <= id
  {
    match SplitOnce(id, '#')
    case None => None
    case Some((before, after)) =>
      assert id == before + "#" + after;
      Some(before)
  }

  /** The text between the first and the second `#` of a device id. */
  function SerialOf(id: string): (s: Option<string>)
    ensures s.Some? <==> multiset(id)['#'] >= 2
    ensures s.Some? ==> '#' !in s.value && TypeOf(id).Some? && TypeOf(id).value + "#" + s.value + "#" <= id
  {
    match SplitOnce(id, '#')
    case None => None
    case Some((before, after)) =>
      HashCount(before, after);
      match SplitOnce(after, '#')
      case None => None
      case Some((serial, rest)) =>
        SerialPrefix(before, serial, rest);
        Some(serial)
  }

  /** The device type: the text before the first `#` of the device id. */
  function DeviceType(r: Response): (t: Option<string>)
    ensures t.Some? <==> DeviceId(r).Some? && '#' in DeviceId(r).value
    ensures t.Some? ==> '#' !in t.value && t.value + "#" <= DeviceId(r).value
  {
    var id :- DeviceId(r);
    TypeOf(id)
  }

  /**
   * The serial: the text between the first and the second `#` of the
   * device id; `None` unless the id holds at least two of them.
   */
  function DeviceSerial(r: Response): (s: Option<string>)
    ensures s.Some? <==> DeviceId(r).Some? && multiset(DeviceId(r).value)['#'] >= 2
    ensures s.Some? ==> '#' !in s.value && DeviceType(r).Some?
    ensures s.Some? ==> DeviceType(r).value + "#" + s.value + "#" <= DeviceId(r).value
  {
    var id :- DeviceId(r);
    SerialOf(id)
  }

  /** The type, the serial and both separators lead the id they were split from. */
  lemma SerialPrefix(before: string, serial: string, rest: string)
    ensures before + "#" + serial + "#" <= before + "#" + (serial + "#" + rest)
  {
    assert before + "#" + (serial + "#" + rest) == (before + "#" + serial + "#") + rest;
  }

  /** Splitting at the first `#` removes exactly one `#` from the count. */
  lemma HashCount(before: string, after: string)
    requires '#' !in before
    ensures multiset(before + "#" + after)['#'] == multiset(after)['#'] + 1
    ensures '#' in after <==> multiset(after)['#'] > 0
  {
    assert multiset(before)['#'] == 0;
    assert multiset(before + "#" + after) == multiset(before) + multiset("#") + multiset(after);
  }

  /**
   * The version tag: `"1"` and `"2"` name the known versions, any other
   * text that `u32::from_str` accepts is kept as an unknown version, and
   * anything else is `None`.
   */
  function VersionTag(tag: string): (v: Option<Version>)
    ensures v == Some(V1) <==> tag == "1"
    ensures v == Some(V2) <==> tag == "2"
    ensures v.None? <==> ParseU32(tag).None?
    ensures v.Some? && v.value.Unknown? ==> ParseU32(tag) == Some(v.value.n) && tag != "1" && tag != "2"
  {
    match tag
    case "1" => assert ParseU32(tag) == Some(1); Some(V1)
    case "2" => assert ParseU32(tag) == Some(2); Some(V2)
    case _ =>
      match ParseU32(tag)
      case None => None
      case Some(n) => Some(Unknown(n))
  }

  /** The version named by the tag after the last `#` of a device id. */
  function VersionOf(id: string): (v: Option<Version>)
    ensures '#' !in id ==> v.None?
    ensures '#' in id ==>
      exists i :: 0 <= i < |id| && id[i] == '#' && '#' !in id[i + 1..] && v == VersionTag(id[i + 1..])
  {
    match RSplitOnce(id, '#')
    case None => None
    case Some((head, tag)) =>
      assert id == head + "#" + tag && id[|head| + 1..] == tag;
      VersionTag(tag)
  }

  /** The protocol version: the tag after the LAST `#` of the device id. */
  function CoiotVersion(r: Response): (v: Option<Version>)
    ensures DeviceId(r).None? || '#' !in DeviceId(r).value ==> v.None?
    ensures DeviceId(r).Some? && '#' in DeviceId(r).value ==>
      var id := DeviceId(r).value;
      exists i :: 0 <= i < |id| && id[i] == '#' && '#' !in id[i + 1..] && v == VersionTag(id[i + 1..])
  {
    var id :- DeviceId(r);
    VersionOf(id)
  }

  /**
   * For an id `t#s#v` whose type and serial hold no `#`, the accessors give
   * back `t` and `s` whatever `v` holds, and the version is read from `v`
   * alone when `v` holds no `#`.
   */
  lemma {:induction false} DeviceIdentityJoin(r: Response, t: string, s: string, v: string)
    requires DeviceId(r) == Some(t + "#" + s + "#" + v)
    requires '#' !in t && '#' !in s
    ensures DeviceType(r) == Some(t)
    ensures DeviceSerial(r) == Some(s)
    ensures '#' !in v ==> CoiotVersion(r) == VersionTag(v)
  {
    var id := t + "#" + s + "#" + v;
    SplitOnceJoin(t, s + "#" + v, '#');
    assert id == t + "#" + (s + "#" + v);
    SplitOnceJoin(s, v, '#');
    if '#' !in v {
      RSplitOnceJoin(t + "#" + s, v, '#');
    }
  }

  /** A response carrying the UTF-8 form of `t#s#v` decodes to exactly those parts. */
  lemma WireIdentity(t: string, s: string, v: string)
    requires '#' !in t && '#' !in s && '#' !in v
    ensures var r := Response(map[Code(GlobalDevId) := [Utf8.Encode(t + "#" + s + "#" + v)]]);
      && DeviceId(r) == Some(t + "#" + s + "#" + v)
      && DeviceType(r) == Some(t) && DeviceSerial(r) == Some(s) && CoiotVersion(r) == VersionTag(v)
  {
    var r := Response(map[Code(GlobalDevId) := [Utf8.Encode(t + "#" + s + "#" + v)]]);
    Utf8.DecodeEncode(t + "#" + s + "#" + v);
    DeviceIdentityJoin(r, t, s, v);
  }

  /** Only the first GlobalDevId value matters: later values never change any identity accessor. */
  lemma IdentityReadsFirstValue(r1: Response, r2: Response)
    requires FirstValue(r1, GlobalDevId) == FirstValue(r2, GlobalDevId)
    ensures DeviceId(r1) == DeviceId(r2)
    ensures DeviceType(r1) == DeviceType(r2) && DeviceSerial(r1) == DeviceSerial(r2)
    ensures CoiotVersion(r1) == CoiotVersion(r2)
  {
  }

  /** An id without any `#` has no type, no serial and no version. */
  lemma NoSeparator(r: Response)
    requires DeviceId(r).Some? && '#' !in DeviceId(r).value
    ensures DeviceType(r).None? && DeviceSerial(r).None? && CoiotVersion(r).None?
  {
    assert multiset(DeviceId(r).value)['#'] == 0;
  }

  /** With a single `#` there is a type but no serial, and the version is read after that `#`. */
  lemma {:induction false} OneSeparator(t: string, v: string)
    requires '#' !in t && '#' !in v
    ensures TypeOf(t + "#" + v) == Some(t)
    ensures SerialOf(t + "#" + v).None?
    ensures VersionOf(t + "#" + v) == VersionTag(v)
  {
    SplitOnceJoin(t, v, '#');
    RSplitOnceJoin(t, v, '#');
  }

  /** The malformed id `onlyonehash#nosecond` has a type, but neither a serial nor a version. */
  lemma OnlyOneHash(id: string)
    requires id == "onlyonehash#nosecond"
    ensures TypeOf(id) == Some("onlyonehash")
    ensures SerialOf(id).None?
    ensures VersionOf(id).None?
  {
    var t, v := "onlyonehash", "nosecond";
    OnlyOneHashSplit(id, t, v);
    NonNumericTag(v);
  }

  lemma OnlyOneHashSplit(id: string, t: string, v: string)
    requires id == "onlyonehash#nosecond" && t == "onlyonehash" && v == "nosecond"
    ensures TypeOf(id) == Some(t) && SerialOf(id).None? && VersionOf(id) == VersionTag(v)
  {
    assert id == t + "#" + v;
    assert '#' !in t && '#' !in v;
    OneSeparator(t, v);
  }

  lemma NonNumericTag(tag: string)
    requires |tag| > 0 && !IsDigit(tag[0]) && tag[0] != '+'
    ensures VersionTag(tag).None?
  {
    assert !AllDigits(Unsigned(tag));
  }

  /** The two literal tags name the known versions. */
  lemma KnownVersionTags()
    ensures VersionTag("1") == Some(V1) && VersionTag("2") == Some(V2)
  {
  }

  /** Other `u32` spellings, `1` and `2` with a leading zero or `+` among them, are unknown versions. */
  lemma UnknownVersionTags()
    ensures VersionTag("01") == Some(Unknown(1))
    ensures VersionTag("+2") == Some(Unknown(2))
    ensures VersionTag("3") == Some(Unknown(3))
  {
    assert DigitsValue("01") == 1 by { assert "01"[..1] == "0"; }
    assert Unsigned("+2") == "2";
  }

  /**
   * Every number a device may print, other than 1 and 2, names an unknown
   * version; a number past the `u32` range names none.
   */
  lemma DecimalVersionTag(n: nat)
    requires n != 1 && n != 2
    ensures n < 0x1_0000_0000 ==> VersionTag(ToDecimal(n)) == Some(Unknown(n))
    ensures n >= 0x1_0000_0000 ==> VersionTag(ToDecimal(n)).None?
  {
    if n < 0x1_0000_0000 {
      ParseU32ToDecimal(n);
    } else {
      ParseU32Overflow(n);
    }
  }

  /** Empty, sign-only, negative and non-numeric tags are rejected. */
  lemma RejectedVersionTags()
    ensures VersionTag("").None? && VersionTag("+").None?
    ensures VersionTag("-1").None? && VersionTag("v2").None?
  {
    NonNumericTag("-1");
    NonNumericTag("v2");
    assert Unsigned("+") == "";
  }
}
