/**
 * RejectRules: the optimistic-concurrency preconditions that a read, write,
 * remove or increment may carry, and their canonical 12-byte wire form.
 */
module RejectRulesCodec {
  import opened Wrappers
  import opened Bytes

  /** The number of bytes every rule set, present or absent, occupies in a frame. */
  const REJECT_RULES_SIZE: nat := 12

  datatype RejectRules = RejectRules(
    givenVersion: int64,
    rejectIfDoesntExist: bool,
    rejectIfExists: bool,
    rejectIfVersionLeGiven: bool,
    rejectIfVersionNeGiven: bool)

  /** The rule set that rejects nothing: what an absent (null) rule set stands for. */
  const NO_RULES: RejectRules := RejectRules(0, false, false, false, false)

  function FlagByte(flag: bool): (b: byte)
  {
    if flag then 1 else 0
  }

  /**
   * getRejectRulesBytes as a value: absent rules are twelve zero bytes; otherwise
   * the given version in little-endian order, then one 0/1 byte per flag.
   */
  function RejectRulesBytes(rules: Option<RejectRules>): (bytes: seq<byte>)
    ensures |bytes| == REJECT_RULES_SIZE
  {
    match rules
    case None => Zeros(REJECT_RULES_SIZE)
    case Some(r) =>
      EncodeInt64(r.givenVersion)
      + [FlagByte(r.rejectIfDoesntExist), FlagByte(r.rejectIfExists),
         FlagByte(r.rejectIfVersionLeGiven), FlagByte(r.rejectIfVersionNeGiven)]
  }

  /** How the receiving side reads the twelve bytes back: a nonzero flag byte is true. */
  function DecodeRejectRules(bytes: seq<byte>): RejectRules
    requires |bytes| == REJECT_RULES_SIZE
  {
    RejectRules(DecodeInt64(bytes[..8]), bytes[8] != 0, bytes[9] != 0, bytes[10] != 0, bytes[11] != 0)
  }

  /**
   * The layout of a present rule set: byte i < 8 is `(byte) (givenVersion >>> 8i)`,
   * bytes 8..11 are 1 exactly when the matching flag is set and 0 otherwise.
   */
  lemma RejectRulesLayout(r: RejectRules)
    ensures var bytes := RejectRulesBytes(Some(r));
      && (forall i :: 0 <= i < 8 ==> bytes[i] == (Unsigned64(r.givenVersion) / Pow256(i)) % 256)
      && (bytes[8] == 1 <==> r.rejectIfDoesntExist) && (bytes[8] == 0 <==> !r.rejectIfDoesntExist)
      && (bytes[9] == 1 <==> r.rejectIfExists) && (bytes[9] == 0 <==> !r.rejectIfExists)
      && (bytes[10] == 1 <==> r.rejectIfVersionLeGiven) && (bytes[10] == 0 <==> !r.rejectIfVersionLeGiven)
      && (bytes[11] == 1 <==> r.rejectIfVersionNeGiven) && (bytes[11] == 0 <==> !r.rejectIfVersionNeGiven)
  {
    var bytes := RejectRulesBytes(Some(r));
    forall i | 0 <= i < 8
      ensures bytes[i] == (Unsigned64(r.givenVersion) / Pow256(i)) % 256
    {
      EncodeInt64Byte(r.givenVersion, i);
    }
  }

  /** Decoding bytes 0-7 little-endian recovers the given version. */
  lemma RejectRulesVersionRoundTrip(r: RejectRules)
    ensures DecodeInt64(RejectRulesBytes(Some(r))[..8]) == r.givenVersion
  {
    assert RejectRulesBytes(Some(r))[..8] == EncodeInt64(r.givenVersion);
    DecodeEncodeInt64(r.givenVersion);
  }

  /** Decoding is the exact inverse of encoding a present rule set. */
  lemma DecodeRejectRulesInverse(r: RejectRules)
    ensures DecodeRejectRules(RejectRulesBytes(Some(r))) == r
  {
    RejectRulesVersionRoundTrip(r);
  }

  /** An absent rule set reads back as the rule set that rejects nothing. */
  lemma DecodeAbsentRejectRules()
    ensures DecodeRejectRules(RejectRulesBytes(None)) == NO_RULES
  {
    EncodeInt64ZeroIff(0);
    assert RejectRulesBytes(None)[..8] == Zeros(8);
    DecodeEncodeInt64(0);
  }

  /**
   * The encoding is canonical: a present rule set has the bytes of an absent
   * one exactly when it is version 0 with every flag false.
   */
  lemma RejectRulesCanonical(r: RejectRules)
    ensures RejectRulesBytes(Some(r)) == RejectRulesBytes(None) <==> r == NO_RULES
  {
    if r == NO_RULES {
      EncodeInt64ZeroIff(0);
      assert RejectRulesBytes(Some(r)) == Zeros(8) + [0, 0, 0, 0];
    }
    if RejectRulesBytes(Some(r)) == RejectRulesBytes(None) {
      DecodeRejectRulesInverse(r);
      DecodeAbsentRejectRules();
    }
  }

  /** Distinct rule sets never share an encoding. */
  lemma RejectRulesInjective(r1: RejectRules, r2: RejectRules)
    requires RejectRulesBytes(Some(r1)) == RejectRulesBytes(Some(r2))
    ensures r1 == r2
  {
    DecodeRejectRulesInverse(r1);
    DecodeRejectRulesInverse(r2);
  }
}
