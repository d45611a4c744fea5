/**
 * The RN2483 MAC status register: how rn2483MacStatusResponse validates the
 * 8-hex-digit line the modem answers `mac get status` with, and how
 * rn2483printMACStatus decodes the 32-bit value into the MAC sub-state and
 * the names of the flags that are set.
 */
module MacStatus {
  import opened Basics
  import opened Numerals

  // Bit masks of the status register
  const STATUS_JOINED: bv32 := 0x0000_0001
  const STATUS_MAC_STATE: bv32 := 0x0000_000E
  const STATUS_AUTO_REPLY: bv32 := 0x0000_0010
  const STATUS_ADR: bv32 := 0x0000_0020
  const STATUS_SILENT: bv32 := 0x0000_0040
  const STATUS_MAC_PAUSED: bv32 := 0x0000_0080
  const STATUS_RFU: bv32 := 0x0000_0100
  const STATUS_LINK_CHECK: bv32 := 0x0000_0200
  const STATUS_CHAN_UPDATED: bv32 := 0x0000_0400
  const STATUS_OUTPWR_UPDATED: bv32 := 0x0000_0800
  const STATUS_NB_REP_UPDATED: bv32 := 0x0000_1000
  const STATUS_PRESC_UPDATED: bv32 := 0x0000_2000
  const STATUS_SEC_RCV_UPDATED: bv32 := 0x0000_4000
  const STATUS_TX_SETUP_UPDATED: bv32 := 0x0000_8000
  const REJOIN_NEEDED: bv32 := 0x0001_0000
  /** What rn2483getMACStatus returns when it has no status to report. */
  const STATUS_ERROR: u32 := 0xFFFF_FFFF

  // ---------------------------------------------------------------------------
  // Validating a status line

  /** One outcome per branch of rn2483MacStatusResponse (and the message it logs). */
  datatype Verdict =
    | BadLength           // "bad response lenght"
    | BadHex              // "bad hex value"
    | EmptyValue          // "empty"
    | Accepted(value: u32)

  lemma Pow16Of8()
    ensures Pow16(8) == 0x1_0000_0000
  {
    assert Pow16(2) == 0x100;
    assert Pow16(4) == 0x1_0000;
    assert Pow16(6) == 0x100_0000;
  }

  /** The verdict on a received line. */
  function Classify(line: string): (r: Verdict)
    ensures r.Accepted? <==> |line| == 8 && AllHex(line) && ParseHex(line) != 0
    ensures r.Accepted? ==> r.value as int == ParseHex(line)
    ensures r == BadHex <==> |line| == 8 && !AllHex(line)
    ensures r == BadLength <==> |line| != 8
    ensures r == EmptyValue <==> |line| == 8 && AllHex(line) && ParseHex(line) == 0
  {
    if |line| != 8 then BadLength
    else if !AllHex(line) then BadHex
    else
      ParseHexBound(line);
      Pow16Of8();
      var v := ParseHex(line);
      if v == 0 then EmptyValue else Accepted(v)
  }

  /**
   * The checking half of rn2483MacStatusResponse: the length test, the
   * character loop that stops at the first non-digit, and the strtoul parse.
   */
  method ValidateStatusLine(line: string) returns (verdict: Verdict)
    ensures verdict == Classify(line)
  {
    if |line| == 8 {
      var hexok := true;
      for i := 0 to 8
        invariant hexok
        invariant forall k :: 0 <= k < i ==> IsHexDigit(line[k])
      {
        if !IsHexDigit(line[i]) {
          hexok := false;
          break;
        }
      }
      if hexok {
        ParseHexBound(line);
        Pow16Of8();
        var macStatus := ParseHex(line);
        if macStatus != 0 {
          verdict := Accepted(macStatus);
        } else {
          verdict := EmptyValue;
        }
      } else {
        verdict := BadHex;
      }
    } else {
      verdict := BadLength;
    }
  }

  /** The 8-digit rendering of any nonzero register value is accepted as that value. */
  lemma StatusRoundTrip(v: u32)
    requires v != 0
    ensures Classify(ToHex(v, 8)) == Accepted(v)
  {
    Pow16Of8();
    HexRoundTrip(v, 8);
  }

  /** An all-zero register reads as "empty" and is refused. */
  lemma ZeroRejected()
    ensures Classify(ToHex(0, 8)) == EmptyValue
  {
    Pow16Of8();
    HexRoundTrip(0, 8);
  }

  /** A line with any non-hex character is refused, e.g. "ZZZZZZZZ". */
  lemma NonHexRejected()
    ensures Classify("ZZZZZZZZ") == BadHex
  {
    assert !IsHexDigit("ZZZZZZZZ"[0]);
  }

  /** A genuine all-ones register is accepted, with the value of the error sentinel. */
  lemma AllOnesIsSentinel()
    ensures Classify(ToHex(0xFFFF_FFFF, 8)) == Accepted(STATUS_ERROR)
    ensures ToHex(0xFFFF_FFFF, 8) == "FFFFFFFF"
  {
    StatusRoundTrip(STATUS_ERROR);
    AllOnesHex();
  }

  /** The rendering of all-ones, one digit at a time. */
  lemma AllOnesHex()
    ensures ToHex(0xFFFF_FFFF, 8) == "FFFFFFFF"
  {
    assert HexChar(15) == 'F';
    assert ToHex(0xF, 1) == "F";
    assert ToHex(0xFF, 2) == "FF";
    assert ToHex(0xFFF, 3) == "FFF";
    assert ToHex(0xFFFF, 4) == "FFFF";
    assert ToHex(0xF_FFFF, 5) == "FFFFF";
    assert ToHex(0xFF_FFFF, 6) == "FFFFFF";
    assert ToHex(0xFFF_FFFF, 7) == "FFFFFFF";
  }

  // ---------------------------------------------------------------------------
  // Decoding the register

  /** The 3-bit MAC sub-state field, rn2483_mac_state_e. */
  function SubState(status: bv32): (k: nat)
    ensures k < 8
    ensures k == 0 <==> status & STATUS_MAC_STATE == 0
  {
    ((status & STATUS_MAC_STATE) >> 1) as nat
  }

  /** The text printed for a sub-state; 7 is not an rn2483_mac_state_e value. */
  function SubStateName(k: nat): string
  {
    if k == 0 then "Idle"
    else if k == 1 then "Transmission occuring"
    else if k == 2 then "Before openning receive W1"
    else if k == 3 then "Receive W1 open"
    else if k == 4 then "Between receive W1 and W2"
    else if k == 5 then "Receive W2 open"
    else if k == 6 then "ACK Timeout"
    else "??????"
  }

  /** The one-bit flags of the register. */
  datatype MacFlag =
    | Joined | AutoReply | Adr | Silent | Paused | Rfu | LinkCheck
    | ChanUpdated | PowerUpdated | NbRepUpdated | PrescUpdated
    | SecRcvUpdated | TxSetupUpdated | RejoinNeeded

  function Mask(f: MacFlag): bv32
  {
    match f
    case Joined => STATUS_JOINED
    case AutoReply => STATUS_AUTO_REPLY
    case Adr => STATUS_ADR
    case Silent => STATUS_SILENT
    case Paused => STATUS_MAC_PAUSED
    case Rfu => STATUS_RFU
    case LinkCheck => STATUS_LINK_CHECK
    case ChanUpdated => STATUS_CHAN_UPDATED
    case PowerUpdated => STATUS_OUTPWR_UPDATED
    case NbRepUpdated => STATUS_NB_REP_UPDATED
    case PrescUpdated => STATUS_PRESC_UPDATED
    case SecRcvUpdated => STATUS_SEC_RCV_UPDATED
    case TxSetupUpdated => STATUS_TX_SETUP_UPDATED
    case RejoinNeeded => REJOIN_NEEDED
  }

  /** The name printed for a flag (after a space). */
  function Name(f: MacFlag): string
  {
    match f
    case Joined => "Joined"
    case AutoReply => "Auto-Reply"
    case Adr => "ADR"
    case Silent => "Silent"
    case Paused => "Paused"
    case Rfu => "RFU"
    case LinkCheck => "Link-Check"
    case ChanUpdated => "Chan-Upd"
    case PowerUpdated => "Powr-Upd"
    case NbRepUpdated => "NRep-Upd"
    case PrescUpdated => "Prsc-Upd"
    case SecRcvUpdated => "2Win-Upd"
    case TxSetupUpdated => "TX-Upd"
    case RejoinNeeded => "Rejoin"
  }

  /** The order in which the flags are tested and printed. */
  const FlagOrder: seq<MacFlag> := [
    Joined, AutoReply, Adr, Silent, Paused, Rfu, LinkCheck,
    ChanUpdated, PowerUpdated, NbRepUpdated, PrescUpdated,
    SecRcvUpdated, TxSetupUpdated, RejoinNeeded]

  /** The bit a flag occupies; its mask is 1 << Bit(f). */
  function Bit(f: MacFlag): nat
  {
    match f
    case Joined => 0
    case AutoReply => 4
    case Adr => 5
    case Silent => 6
    case Paused => 7
    case Rfu => 8
    case LinkCheck => 9
    case ChanUpdated => 10
    case PowerUpdated => 11
    case NbRepUpdated => 12
    case PrescUpdated => 13
    case SecRcvUpdated => 14
    case TxSetupUpdated => 15
    case RejoinNeeded => 16
  }

  /** The bit table agrees with the masks of the status register. */
  lemma MaskIsBit(f: MacFlag)
    ensures Mask(f) == (1 as bv32) << Bit(f)
  {
    match f
    case Joined =>
    case AutoReply =>
    case Adr =>
    case Silent =>
    case Paused =>
    case Rfu =>
    case LinkCheck =>
    case ChanUpdated =>
    case PowerUpdated =>
    case NbRepUpdated =>
    case PrescUpdated =>
    case SecRcvUpdated =>
    case TxSetupUpdated =>
    case RejoinNeeded =>
  }

  /** `status & mask` is nonzero. */
  predicate IsSet(status: bv32, f: MacFlag)
  {
    status & Mask(f) != 0
  }

  /** The flags of `order` whose bit is set in `status`, in the order given. */
  function SetFlags(status: bv32, order: seq<MacFlag>): seq<MacFlag>
  {
    if order == [] then []
    else (if IsSet(status, order[0]) then [order[0]] else []) + SetFlags(status, order[1..])
  }

  function Names(fs: seq<MacFlag>): (r: seq<string>)
    ensures |r| == |fs| && forall i :: 0 <= i < |fs| ==> r[i] == Name(fs[i])
  {
    seq(|fs|, i requires 0 <= i < |fs| => Name(fs[i]))
  }

  /**
   * rn2483printMACStatus as a decoder: the sub-state text when the sub-state
   * field is nonzero, then the name of every flag that is set.
   */
  function Decode(status: bv32): seq<string>
  {
    SubStateText(status) + Names(SetFlags(status, FlagOrder))
  }

  /** The sub-state part of the report: printed only when the field is nonzero. */
  function SubStateText(status: bv32): (t: seq<string>)
    ensures |t| <= 1
    ensures t == [] <==> SubState(status) == 0
  {
    if status & STATUS_MAC_STATE != 0 then [SubStateName(SubState(status))] else []
  }

  lemma {:induction false} SetFlagsMembers(status: bv32, order: seq<MacFlag>, f: MacFlag)
    ensures f in SetFlags(status, order) <==> f in order && IsSet(status, f)
  {
    if order != [] {
      SetFlagsMembers(status, order[1..], f);
      assert order == [order[0]] + order[1..];
    }
  }

  lemma FlagInOrder(f: MacFlag)
    ensures f in FlagOrder
  {
    match f
    case Joined => assert FlagOrder[0] == f;
    case AutoReply => assert FlagOrder[1] == f;
    case Adr => assert FlagOrder[2] == f;
    case Silent => assert FlagOrder[3] == f;
    case Paused => assert FlagOrder[4] == f;
    case Rfu => assert FlagOrder[5] == f;
    case LinkCheck => assert FlagOrder[6] == f;
    case ChanUpdated => assert FlagOrder[7] == f;
    case PowerUpdated => assert FlagOrder[8] == f;
    case NbRepUpdated => assert FlagOrder[9] == f;
    case PrescUpdated => assert FlagOrder[10] == f;
    case SecRcvUpdated => assert FlagOrder[11] == f;
    case TxSetupUpdated => assert FlagOrder[12] == f;
    case RejoinNeeded => assert FlagOrder[13] == f;
  }

  /** A flag's name is in a list of names exactly when the flag is in the list of flags. */
  lemma NamesMember(fs: seq<MacFlag>, f: MacFlag)
    ensures Name(f) in Names(fs) <==> f in fs
  {
    if Name(f) in Names(fs) {
      var j :| 0 <= j < |fs| && Names(fs)[j] == Name(f);
      NameInjective(fs[j], f);
    }
    if f in fs {
      var j :| 0 <= j < |fs| && fs[j] == f;
      assert Names(fs)[j] == Name(f);
    }
  }

  /** A flag's name never comes from the sub-state part. */
  lemma NotSubStateText(status: bv32, f: MacFlag)
    ensures Name(f) !in SubStateText(status)
  {
    NameNotSubState(f);
  }

  /** Each flag is reported exactly when its mask bit is set. */
  lemma FlagReportedIff(status: bv32, f: MacFlag)
    ensures Name(f) in Decode(status) <==> status & Mask(f) != 0
  {
    var fs := SetFlags(status, FlagOrder);
    SetFlagsMembers(status, FlagOrder, f);
    FlagInOrder(f);
    NamesMember(fs, f);
    NotSubStateText(status, f);
    assert Decode(status) == SubStateText(status) + Names(fs);
  }

  lemma NameInjective(f: MacFlag, g: MacFlag)
    requires Name(f) == Name(g)
    ensures f == g
  {
  }

  /** No flag name is also a sub-state text. */
  lemma NameNotSubState(f: MacFlag)
    ensures forall k :: Name(f) != SubStateName(k)
  {
  }

  predicate Increasing(fs: seq<MacFlag>)
  {
    forall a, b :: 0 <= a < b < |fs| ==> Bit(fs[a]) < Bit(fs[b])
  }

  /** A flag below every flag of an increasing list can be put in front of it. */
  lemma PrependIncreasing(f: MacFlag, fs: seq<MacFlag>)
    requires Increasing(fs)
    requires forall j :: 0 <= j < |fs| ==> Bit(f) < Bit(fs[j])
    ensures Increasing([f] + fs)
  {
    var g := [f] + fs;
    forall a, b | 0 <= a < b < |g|
      ensures Bit(g[a]) < Bit(g[b])
    {
      assert g[b] == fs[b - 1];
      if a > 0 {
        assert g[a] == fs[a - 1];
      }
    }
  }

  lemma {:induction false} SetFlagsKeepsOrder(status: bv32, order: seq<MacFlag>)
    requires Increasing(order)
    ensures Increasing(SetFlags(status, order))
  {
    if order != [] {
      var tail := order[1..];
      var rest := SetFlags(status, tail);
      assert Increasing(tail) by {
        forall a, b | 0 <= a < b < |tail|
          ensures Bit(tail[a]) < Bit(tail[b])
        {
          assert tail[a] == order[a + 1] && tail[b] == order[b + 1];
        }
      }
      SetFlagsKeepsOrder(status, tail);
      if IsSet(status, order[0]) {
        forall j | 0 <= j < |rest|
          ensures Bit(order[0]) < Bit(rest[j])
        {
          SetFlagsMembers(status, tail, rest[j]);
          var m :| 0 <= m < |tail| && tail[m] == rest[j];
          assert order[m + 1] == rest[j];
        }
        PrependIncreasing(order[0], rest);
        assert SetFlags(status, order) == [order[0]] + rest;
      } else {
        assert SetFlags(status, order) == rest;
      }
    }
  }

  /** Position k of FlagOrder holds bit 0 for k = 0 and bit k + 3 after it. */
  lemma FlagOrderBits()
    ensures |FlagOrder| == 14
    ensures forall k :: 0 <= k < 14 ==> Bit(FlagOrder[k]) == if k == 0 then 0 else k + 3
  {
    forall k | 0 <= k < 14
      ensures Bit(FlagOrder[k]) == if k == 0 then 0 else k + 3
    {
      if k == 0 {} else if k == 1 {} else if k == 2 {} else if k == 3 {}
      else if k == 4 {} else if k == 5 {} else if k == 6 {} else if k == 7 {}
      else if k == 8 {} else if k == 9 {} else if k == 10 {} else if k == 11 {}
      else if k == 12 {} else {}
    }
  }

  /** The flags are reported in the fixed order of the register's bits, each at most once. */
  lemma FlagsInBitOrder(status: bv32)
    ensures Increasing(SetFlags(status, FlagOrder))
  {
    FlagOrderBits();
    SetFlagsKeepsOrder(status, FlagOrder);
  }

  /**
   * The sub-state is reported, first, exactly when it is nonzero, so "Idle"
   * is never printed; 7 prints as "??????".
   */
  lemma SubStateReport(status: bv32)
    ensures SubState(status) != 0 ==> Decode(status)[0] == SubStateName(SubState(status))
    ensures |Decode(status)| == |SetFlags(status, FlagOrder)| + (if SubState(status) == 0 then 0 else 1)
    ensures "Idle" !in Decode(status)
    ensures SubState(status) == 7 ==> Decode(status)[0] == "??????"
  {
    var fs := SetFlags(status, FlagOrder);
    IdleNotFlag(fs);
    IdleNotSubStateText(status);
    assert Decode(status) == SubStateText(status) + Names(fs);
  }

  lemma IdleNotFlag(fs: seq<MacFlag>)
    ensures "Idle" !in Names(fs)
  {
    forall j | 0 <= j < |fs|
      ensures Names(fs)[j] != "Idle"
    {
      NameNotSubState(fs[j]);
      assert SubStateName(0) == "Idle";
    }
  }

  lemma IdleNotSubStateText(status: bv32)
    ensures "Idle" !in SubStateText(status)
  {
    var k := SubState(status);
    if k != 0 {
      assert SubStateText(status) == [SubStateName(k)];
      assert SubStateName(k) != "Idle";
    }
  }

  lemma {:induction false} NoneSet(status: bv32, order: seq<MacFlag>)
    requires forall f :: f in order ==> !IsSet(status, f)
    ensures SetFlags(status, order) == []
  {
    if order != [] {
      assert order[0] in order;
      NoneSet(status, order[1..]);
    }
  }

  /** "0000000B": sub-state 5 (receive window 2 open) and Joined, nothing else. */
  lemma DecodeB()
    ensures SubState(0xB) == 5
    ensures SetFlags(0xB, FlagOrder) == [Joined]
    ensures Decode(0xB) == ["Receive W2 open", "Joined"]
  {
    SubStateOfB();
    OnlyJoinedInB();
    JoinedNames();
    assert Decode(0xB) == SubStateText(0xB) + Names(SetFlags(0xB, FlagOrder));
  }

  /** The line "0000000B" is the rendering of 0xB and is accepted as that value. */
  lemma LineB()
    ensures ToHex(0xB, 8) == "0000000B"
    ensures Classify("0000000B") == Accepted(0xB)
  {
    assert HexChar(0) == '0' && HexChar(11) == 'B';
    assert ToHex(0, 1) == "0";
    assert ToHex(0, 2) == "00";
    assert ToHex(0, 3) == "000";
    assert ToHex(0, 4) == "0000";
    assert ToHex(0, 5) == "00000";
    assert ToHex(0, 6) == "000000";
    assert ToHex(0, 7) == "0000000";
    StatusRoundTrip(0xB);
  }

  lemma JoinedNames()
    ensures Names([Joined]) == ["Joined"]
  {
  }

  lemma SubStateOfB()
    ensures SubState(0xB) == 5
    ensures SubStateText(0xB) == ["Receive W2 open"]
  {
    var x: bv32 := 0xB;
    assert x & STATUS_MAC_STATE == 0xA;
    assert (0xA as bv32) >> 1 == 5;
  }

  /** In 0x0000000B no flag after Joined is set. */
  lemma OnlyJoinedInB()
    ensures SetFlags(0xB, FlagOrder) == [Joined]
  {
    assert FlagOrder == [Joined] + FlagOrder[1..];
    assert IsSet(0xB, Joined);
    forall f | f in FlagOrder[1..]
      ensures !IsSet(0xB, f)
    {
      assert Bit(f) >= 4;
      assert f != Joined;
    }
    NoneSet(0xB, FlagOrder[1..]);
  }
}
