/**
 * The two 16-bit CoIoT fields: the status validity period and the status
 * sequence number. Each is read from the first two bytes of the option's
 * first value; later bytes are ignored and a shorter value gives `None`.
 */
module Fields {
  import opened Types
  import opened Wrappers
  import opened Options

  /** `u16::from_ne_bytes` on a little-endian target: low byte first. */
  function LeU16(lo: byte, hi: byte): (v: u16)
    ensures v % 0x100 == lo && v / 0x100 == hi
  {
    lo + 0x100 * hi
  }

  /** The two bytes a little-endian target stores `v` as. */
  function LeBytes(v: u16): (bs: seq<byte>)
    ensures |bs| == 2
  {
    [v % 0x100, v / 0x100]
  }

  /** Reading back the stored bytes gives the value. */
  lemma LeU16OfBytes(v: u16)
    ensures LeU16(LeBytes(v)[0], LeBytes(v)[1]) == v
  {
  }

  /** Every byte pair is the stored form of the value read from it. */
  lemma LeBytesOfU16(lo: byte, hi: byte)
    ensures LeBytes(LeU16(lo, hi)) == [lo, hi]
  {
  }

  /** Milliseconds in one 4-second unit. */
  const FOUR_SECONDS := 4000

  /**
   * The validity period, in milliseconds, that a raw field value `d`
   * announces: when bit 0 is set, `d` counts 4-second units (the flag bit
   * is not cleared first), otherwise `d` counts tenths of a second.
   */
  function ValidityMs(d: u16): (ms: nat)
    ensures d % 2 == 1 ==> ms == d * FOUR_SECONDS
    ensures d % 2 == 0 ==> ms == d * 100
    ensures ms <= 0xFFFF * FOUR_SECONDS
    ensures ms % 100 == 0
  {
    if d % 2 == 1 then d * 4 * 1000 else d * 100
  }

  /**
   * The field value a device sends for a period of `ms` milliseconds:
   * tenths of a second whenever that count is even and fits, otherwise an
   * odd count of 4-second units; `None` for a period no field can express.
   */
  function ValidityField(ms: nat): (d: Option<u16>)
  {
    if ms % 200 == 0 && ms / 100 <= 0xFFFF then Some(ms / 100)
    else if ms % FOUR_SECONDS == 0 && (ms / FOUR_SECONDS) % 2 == 1 && ms / FOUR_SECONDS <= 0xFFFF then Some(ms / FOUR_SECONDS)
    else None
  }

  /** Every period the encoder accepts decodes back to itself. */
  lemma ValidityFieldDecodes(ms: nat)
    requires ValidityField(ms).Some?
    ensures ValidityMs(ValidityField(ms).value) == ms
  {
  }

  /** Every period a field announces can be sent again, and its field decodes to the same period. */
  lemma ValidityMsEncodes(d: u16)
    ensures ValidityField(ValidityMs(d)).Some?
    ensures ValidityMs(ValidityField(ValidityMs(d)).value) == ValidityMs(d)
  {
    var ms := ValidityMs(d);
    if d % 2 == 1 {
      assert ms / FOUR_SECONDS == d;
      if ms % 200 == 0 && ms / 100 <= 0xFFFF {
      } else {
        assert ms % FOUR_SECONDS == 0;
      }
    } else {
      assert ms / 100 == d && ms % 200 == 0;
    }
  }

  /** The boundary values: 0 is no time, 1 is 4 s, 2 is 200 ms, and 3 is 12 s (flag bit kept). */
  lemma ValidityExamples()
    ensures ValidityMs(0) == 0
    ensures ValidityMs(1) == 4000
    ensures ValidityMs(2) == 200
    ensures ValidityMs(3) == 12000
    ensures ValidityMs(0xFFFF) == 0xFFFF * 4000 && ValidityMs(0xFFFE) == 0xFFFE * 100
  {
  }

  /** Two field values can announce the same period: 1 (one 4-second unit) and 40 (forty tenths). */
  lemma ValidityNotInjective()
    ensures ValidityMs(1) == ValidityMs(40)
  {
  }

  /** The first two bytes of the first value of `o`, when it has at least two. */
  function FirstTwoBytes(r: Response, o: CoIoTOption): (bs: Option<(byte, byte)>)
    ensures bs.Some? <==> FirstValue(r, o).Some? && |FirstValue(r, o).value| >= 2
    ensures bs.Some? ==> bs.value == (FirstValue(r, o).value[0], FirstValue(r, o).value[1])
  {
    var v :- FirstValue(r, o);
    if |v| < 2 then None else Some((v[0], v[1]))
  }

  /**
   * `validity_duration`: the period announced by the StatusValidity
   * option, or `None` when the option is absent or its first value has
   * fewer than two bytes.
   */
  function ValidityDuration(r: Response): (ms: Option<nat>)
    ensures ms.None? <==> FirstValue(r, StatusValidity).None? || |FirstValue(r, StatusValidity).value| < 2
    ensures ms.Some? ==> ms.value <= 0xFFFF * FOUR_SECONDS
    ensures ms.Some? ==> var v := FirstValue(r, StatusValidity).value;
      ms.value == ValidityMs(LeU16(v[0], v[1]))
  {
    var (lo, hi) :- FirstTwoBytes(r, StatusValidity);
    Some(ValidityMs(LeU16(lo, hi)))
  }

  /**
   * `msg_seq_no`: the StatusSerial counter, or `None` when the option is
   * absent or its first value has fewer than two bytes.
   */
  function MsgSeqNo(r: Response): (n: Option<u16>)
    ensures n.None? <==> FirstValue(r, StatusSerial).None? || |FirstValue(r, StatusSerial).value| < 2
    ensures n.Some? ==> var v := FirstValue(r, StatusSerial).value;
      n.value == v[0] as int + 0x100 * v[1] as int && LeBytes(n.value) == v[..2]
  {
    var (lo, hi) :- FirstTwoBytes(r, StatusSerial);
    LeBytesOfU16(lo, hi);
    Some(LeU16(lo, hi))
  }

  /** Bytes after the first two, and values after the first, never change either field. */
  lemma FieldsReadTwoBytes(r1: Response, r2: Response)
    requires forall o :: FirstTwoBytes(r1, o) == FirstTwoBytes(r2, o)
    ensures ValidityDuration(r1) == ValidityDuration(r2)
    ensures MsgSeqNo(r1) == MsgSeqNo(r2)
  {
    assert FirstTwoBytes(r1, StatusValidity) == FirstTwoBytes(r2, StatusValidity);
    assert FirstTwoBytes(r1, StatusSerial) == FirstTwoBytes(r2, StatusSerial);
  }

  /** A response carrying `LeBytes(n)` followed by anything under StatusSerial reads back `n`. */
  lemma WireSeqNo(n: u16, extra: seq<byte>, more: seq<seq<byte>>)
    ensures MsgSeqNo(Response(map[Code(StatusSerial) := [LeBytes(n) + extra] + more])) == Some(n)
  {
  }
}
