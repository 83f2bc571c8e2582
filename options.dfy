/**
 * The CoIoT options of a CoAP response and the lookup that finds them.
 * A decoded packet's option table maps each option number to the list of
 * values received under it, in wire order.
 */
module Options {
  import opened Types
  import opened Wrappers

  /** The vendor options this layer reads. */
  datatype CoIoTOption = GlobalDevId | StatusValidity | StatusSerial

  /** The vendor's first option number; the others sit at fixed offsets of 8 from it. */
  const BASE: u16 := 3332

  /**
   * The registered option number of `o`. Each lies in the Expert Review
   * range of section 12.2 of RFC 7252, so none is a standard CoAP option,
   * and each is elective and safe-to-forward in the sense of section 5.4.6
   * (bits 0 and 1 clear).
   */
  function Code(o: CoIoTOption): (c: u16)
    ensures 2048 <= c <= 64999
    ensures c % 2 == 0 && c / 2 % 2 == 0
    ensures (c - BASE) % 8 == 0
  {
    match o
    case GlobalDevId => BASE
    case StatusValidity => BASE + 8 * (10 + 0)
    case StatusSerial => BASE + 8 * (10 + 1)
  }

  /** The three numbers, and no two options share one. */
  lemma CodesDistinct(o1: CoIoTOption, o2: CoIoTOption)
    ensures Code(GlobalDevId) == 3332 && Code(StatusValidity) == 3412 && Code(StatusSerial) == 3420
    ensures Code(o1) == Code(o2) <==> o1 == o2
  {
  }

  /**
   * Section 5.4.6 of RFC 7252: an option is NoCacheKey when bits 1 to 4 of
   * its number are 1110. Only the sequence number is left out of cache keys.
   */
  predicate NoCacheKey(c: u16) {
    c / 2 % 16 == 14
  }

  lemma OnlySerialIsNoCacheKey(o: CoIoTOption)
    ensures NoCacheKey(Code(o)) <==> o == StatusSerial
  {
  }

  /** A decoded CoAP response, reduced to its option table. */
  datatype Response = Response(options: map<u16, seq<seq<byte>>>)

  /** The list of values stored under the number of `o`, or `None` if the response has none. */
  function GetOpt(r: Response, o: CoIoTOption): (vals: Option<seq<seq<byte>>>)
    ensures vals.Some? <==> Code(o) in r.options
    ensures vals.Some? ==> vals.value == r.options[Code(o)]
  {
    if Code(o) in r.options then Some(r.options[Code(o)]) else None
  }

  /** `LinkedList::front`. */
  function Front<T>(l: seq<T>): (x: Option<T>)
    ensures x.Some? <==> |l| > 0
    ensures x.Some? ==> x.value == l[0]
  {
    if |l| == 0 then None else Some(l[0])
  }

  /**
   * `get_opt(o)?.front()`: the one value every accessor reads. An option
   * that is absent and one stored with no values both give `None`.
   */
  function FirstValue(r: Response, o: CoIoTOption): (v: Option<seq<byte>>)
    ensures v.Some? <==> Code(o) in r.options && |r.options[Code(o)]| > 0
    ensures v.Some? ==> v.value == r.options[Code(o)][0]
  {
    var vals :- GetOpt(r, o);
    Front(vals)
  }
}
