/**
 * The RN2483 radio link controller: the state machine driven by the lines the
 * modem answers with (rn2483Response), the send guard (rn2483Send), the
 * status query (rn2483getMACStatus) and the per-poll step that maps button
 * gestures to uplinks and clears RECEIVED_DATA on a state edge
 * (rn2483ManageState). Every LED call of the controller goes through the
 * engine of module Led.
 */
module Radio {
  import opened Basics
  import opened Numerals
  import opened MacStatus
  import Led

  /** rn2483_state_e */
  datatype RadioState = Idle | Sending | ReceivedData | WaitOk | WaitOkSend | Error

  /** btn_action_e: the gestures the push button reports. */
  datatype Button = NoPress | QuickPress | Pressed12 | Pressed23

  /** String::startsWith */
  predicate HasPrefix(line: string, prefix: string)
  {
    |prefix| <= |line| && line[..|prefix|] == prefix
  }

  // ---------------------------------------------------------------------------
  // rn2483Response as a function of the state and the two strings it reads

  /**
   * What one response line does: the next state, the hue given to the
   * indicator (None when the LED is not touched) and the return value.
   */
  datatype Reaction = Reaction(next: RadioState, indicator: Option<u16>, dataAvailable: bool)

  /**
   * `s` is the parameter, read only while waiting for the "ok" of a send;
   * `input` is the global receive buffer, read in every other branch.
   */
  function Respond(state: RadioState, s: string, input: string): (r: Reaction)
    ensures r.dataAvailable <==> r.next == ReceivedData
    ensures r.next == Idle || r.next == Sending || r.next == ReceivedData
    ensures state == WaitOkSend ==>
      !r.dataAvailable && (r.next == Sending <==> s == "ok") &&
      (r.indicator == Some(Led.COLOR_RED) <==> s != "ok") && (s == "ok" ==> r.indicator == None)
    ensures state == Sending ==>
      (r.next == ReceivedData <==> HasPrefix(input, "mac_rx ")) &&
      (input == "mac_tx_ok" ==> r.next == Idle && r.indicator == Some(Led.COLOR_GREEN)) &&
      (HasPrefix(input, "mac_rx ") ==> r.indicator == Some(Led.COLOR_GREEN)) &&
      (input != "mac_tx_ok" && !HasPrefix(input, "mac_rx ") ==> r.next == Idle && r.indicator == Some(Led.COLOR_RED))
    ensures state != WaitOkSend && state != Sending ==>
      (r.next == ReceivedData <==> HasPrefix(input, "mac_rx ")) &&
      (r.next == Idle <==> !HasPrefix(input, "mac_rx ")) &&
      r.indicator == (if HasPrefix(input, "mac_rx ") then Some(Led.COLOR_YELLOW_GREEN) else None)
  {
    if state == WaitOkSend then
      if s != "ok" then Reaction(Idle, Some(Led.COLOR_RED), false)
      else Reaction(Sending, None, false)
    else if state == Sending then
      if input == "mac_tx_ok" then
        assert !HasPrefix(input, "mac_rx ") by { assert input[4] != "mac_rx "[4]; }
        Reaction(Idle, Some(Led.COLOR_GREEN), false)
      else if HasPrefix(input, "mac_rx ") then Reaction(ReceivedData, Some(Led.COLOR_GREEN), true)
      else Reaction(Idle, Some(Led.COLOR_RED), false)
    else if HasPrefix(input, "mac_rx ") then Reaction(ReceivedData, Some(Led.COLOR_YELLOW_GREEN), true)
    else Reaction(Idle, None, false)
  }

  /** Data is reported only for a downlink line, whatever the state. */
  lemma DataOnlyOnDownlink(state: RadioState, s: string, input: string)
    ensures Respond(state, s, input).dataAvailable ==> HasPrefix(input, "mac_rx ") && state != WaitOkSend
  {
  }

  /** SENDING is entered only from WAIT_OK_SEND on the line "ok". */
  lemma SendingOnlyAfterOk(state: RadioState, s: string, input: string)
    ensures Respond(state, s, input).next == Sending <==> state == WaitOkSend && s == "ok"
  {
  }

  /**
   * The branch waiting for "ok" looks at the parameter and the other branches
   * at the receive buffer: with the two different, an "ok" parameter sends
   * the controller on from WAIT_OK_SEND while a downlink left in the buffer is
   * ignored, and from IDLE the same pair reports the buffered downlink.
   */
  lemma TwoStringsRead()
    ensures Respond(WaitOkSend, "ok", "mac_rx 1 AB") == Reaction(Sending, None, false)
    ensures Respond(Idle, "ok", "mac_rx 1 AB") == Reaction(ReceivedData, Some(Led.COLOR_YELLOW_GREEN), true)
    ensures Respond(Idle, "mac_rx 1 AB", "") == Reaction(Idle, None, false)
  {
    assert HasPrefix("mac_rx 1 AB", "mac_rx ");
    assert !HasPrefix("", "mac_rx ");
  }

  /** The only way to SENDING and back: "ok", then "mac_tx_ok", ends idle with a green rest colour. */
  lemma UnconfirmedUplink(s: string)
    ensures Respond(WaitOkSend, "ok", s).next == Sending
    ensures Respond(Sending, s, "mac_tx_ok") == Reaction(Idle, Some(Led.COLOR_GREEN), false)
  {
  }

  /** The record array after one LED call `LedRGBON(hue, true)`: only pixel 0's rest colour. */
  function Indicated(s: seq<Led.AnimState>, hue: u16, luminosity: u8): (r: seq<Led.AnimState>)
    requires |s| == Led.N
    ensures |r| == Led.N && r[1..] == s[1..]
    ensures r[0].rest == Led.Hsl(hue, luminosity)
    ensures r[0].starting == s[0].starting && r[0].ending == s[0].ending
    ensures r[0].effect == s[0].effect && r[0].time == s[0].time && r[0].count == s[0].count
  {
    s[0 := s[0].(rest := Led.Hsl(hue, luminosity))]
  }

  /** The record array after a reaction: Indicated when it names a hue, untouched otherwise. */
  function AfterIndicator(s: seq<Led.AnimState>, indicator: Option<u16>, luminosity: u8): seq<Led.AnimState>
    requires |s| == Led.N
  {
    if indicator.Some? then Indicated(s, indicator.value, luminosity) else s
  }

  // ---------------------------------------------------------------------------
  // Uplink commands

  /** The command line a gesture sends (sprintf "%lu" of the seconds counter), if any. */
  function ButtonCommand(btn: Button, seconds: u32): Option<string>
  {
    if btn == QuickPress then Some("mac tx uncnf 1 " + Decimal(seconds))
    else if btn == Pressed12 then Some("mac tx cnf 1 " + Decimal(seconds))
    else None
  }

  /**
   * Only the quick press and the 1-2 s press send; the command is the
   * unconfirmed, respectively confirmed, uplink on port 1 whose payload reads
   * back as the seconds counter, and it fits the 32-byte buffer with its NUL.
   */
  lemma ButtonCommandPayload(btn: Button, seconds: u32)
    ensures ButtonCommand(btn, seconds).Some? <==> btn == QuickPress || btn == Pressed12
    ensures btn == QuickPress ==>
      var c := ButtonCommand(btn, seconds).value;
      16 <= |c| && c[..15] == "mac tx uncnf 1 " && AllDecimal(c[15..]) && ParseDecimal(c[15..]) == seconds
    ensures btn == Pressed12 ==>
      var c := ButtonCommand(btn, seconds).value;
      14 <= |c| && c[..13] == "mac tx cnf 1 " && AllDecimal(c[13..]) && ParseDecimal(c[13..]) == seconds
    ensures ButtonCommand(btn, seconds).Some? ==> |ButtonCommand(btn, seconds).value| < 32
  {
    DecimalRoundTrip(seconds);
    assert Pow10(10) == 10_000_000_000 by {
      assert Pow10(5) == 100_000;
    }
    DecimalLength(seconds, 10);
    var d := Decimal(seconds);
    if btn == QuickPress {
      var c := "mac tx uncnf 1 " + d;
      assert c[15..] == d;
    } else if btn == Pressed12 {
      var c := "mac tx cnf 1 " + d;
      assert c[13..] == d;
    }
  }

  // ---------------------------------------------------------------------------
  // rn2483getMACStatus on the line handleSerial delivers (None: time-out)

  function QueryResult(reply: Option<string>): (r: u32)
    ensures reply.Some? && Classify(reply.value).Accepted? ==> r == Classify(reply.value).value
    ensures reply.None? || !Classify(reply.value).Accepted? ==> r == STATUS_ERROR
  {
    if reply.Some? && Classify(reply.value).Accepted? then Classify(reply.value).value else STATUS_ERROR
  }

  /** Any register value other than 0 and all-ones comes back from the query, and is not the sentinel. */
  lemma QueryRoundTrip(v: u32)
    requires v != 0 && v != STATUS_ERROR
    ensures QueryResult(Some(ToHex(v, 8))) == v != STATUS_ERROR
  {
    StatusRoundTrip(v);
  }

  /** A genuine "FFFFFFFF" status is indistinguishable from a time-out or a rejected line. */
  lemma SentinelAmbiguous(bad: string)
    requires !Classify(bad).Accepted?
    ensures QueryResult(Some("FFFFFFFF")) == QueryResult(None) == QueryResult(Some(bad)) == STATUS_ERROR
  {
    AllOnesIsSentinel();
  }

  // ---------------------------------------------------------------------------
  // The state-edge step of rn2483ManageState

  /** The controller state and the value the static "previously observed state" holds. */
  datatype Watch = Watch(state: RadioState, seen: RadioState)

  /** On an edge the observation catches up, and a RECEIVED_DATA edge is consumed back to IDLE. */
  function Edge(w: Watch): (r: Watch)
    ensures r.seen == w.state
    ensures w.state == w.seen ==> r == w
    ensures r.state == w.state || (w.state == ReceivedData && r.state == Idle)
    ensures r.state == ReceivedData ==> w.seen == ReceivedData
  {
    if w.state != w.seen then
      Watch(if w.state == ReceivedData then Idle else w.state, w.state)
    else w
  }

  /** n polls with no response line in between. */
  function Polls(w: Watch, n: nat): Watch
    decreases n
  {
    if n == 0 then w else Polls(Edge(w), n - 1)
  }

  /** Two quiet polls reach a watch that no further poll changes, with nothing left to consume. */
  lemma TwoPollsSettle(w: Watch)
    ensures Edge(Polls(w, 2)) == Polls(w, 2)
    ensures Polls(w, 2).state == Polls(w, 2).seen
  {
    assert Polls(w, 2) == Edge(Edge(w));
  }

  /** Once state and observation agree, any number of quiet polls leave both alone. */
  lemma {:induction false} QuietPolls(w: Watch, n: nat)
    requires w.state == w.seen
    ensures Polls(w, n) == w
  {
    if n > 0 {
      QuietPolls(Edge(w), n - 1);
    }
  }

  /**
   * A downlink consumed on one poll and a second downlink that arrives while
   * the controller sits idle before the next poll: the observation still
   * says RECEIVED_DATA, so no edge is seen, no later poll clears the state,
   * and the send guard refuses uplinks until another response line arrives.
   */
  lemma ReceivedTwiceStaysUncleared(x: RadioState, s: string, input: string, n: nat)
    requires x != ReceivedData && HasPrefix(input, "mac_rx ")
    ensures Edge(Watch(ReceivedData, x)) == Watch(Idle, ReceivedData)
    ensures Respond(Idle, s, input).next == ReceivedData
    ensures Polls(Watch(ReceivedData, ReceivedData), n) == Watch(ReceivedData, ReceivedData)
  {
    QuietPolls(Watch(ReceivedData, ReceivedData), n);
  }

  // ---------------------------------------------------------------------------
  // The controller: the globals of rn2483.cpp and the LED engine it drives

  class Link {
    /** _rn2483_state */
    var state: RadioState
    /** _rn2483_mac_status */
    var macStatus: u32
    /** The global receive buffer handleSerial fills. */
    var inputString: string
    /** The static old_rn2483_state; None until the first poll initialises it. */
    var seen: Option<RadioState>
    /** Lines handed to ws.textAll and execCommand, oldest first. */
    var outbox: seq<string>
    /** The LED engine of RGBLed.cpp. */
    const led: Led.Engine

    ghost predicate Valid()
      reads this, led
    {
      led.Valid()
    }

    /** The globals at start-up: idle, zero status, empty buffer. */
    constructor (engine: Led.Engine)
      requires engine.Valid()
      ensures Valid() && led == engine
      ensures state == Idle && macStatus == 0 && inputString == "" && seen == None && outbox == []
    {
      led := engine;
      state := Idle;
      macStatus := 0;
      inputString := "";
      seen := None;
      outbox := [];
    }

    /** `LedRGBON(hue, true)`: index 1, doitnow false. */
    method Indicate(hue: u16)
      requires Valid()
      modifies led, led.anim
      ensures Valid()
      ensures led.anim[..] == Indicated(old(led.anim[..]), hue, led.luminosity)
      ensures led.pixels == old(led.pixels) && led.log == old(led.log)
      ensures led.luminosity == old(led.luminosity)
    {
      Led.IndexOneRestOnly(led.anim[..], led.Target(hue));
      led.On(hue, 1, false);
    }

    /** rn2483Exec: blue rest colour, then the line goes out. */
    method Exec(cmd: string)
      requires Valid()
      modifies this, led, led.anim
      ensures Valid()
      ensures outbox == old(outbox) + [cmd]
      ensures state == old(state) && macStatus == old(macStatus)
      ensures inputString == old(inputString) && seen == old(seen)
      ensures led.anim[..] == Indicated(old(led.anim[..]), Led.COLOR_BLUE, led.luminosity)
      ensures led.pixels == old(led.pixels) && led.log == old(led.log)
      ensures led.luminosity == old(led.luminosity)
    {
      Indicate(Led.COLOR_BLUE);
      outbox := outbox + [cmd];
    }

    /** rn2483Send: refused, with no effect at all, unless the controller is idle. */
    method Send(cmd: string) returns (ok: bool)
      requires Valid()
      modifies this, led, led.anim
      ensures Valid()
      ensures ok <==> old(state) == Idle
      ensures state == (if ok then WaitOkSend else old(state))
      ensures outbox == old(outbox) + (if ok then [cmd] else [])
      ensures macStatus == old(macStatus) && inputString == old(inputString) && seen == old(seen)
      ensures led.anim[..] == if ok then Indicated(old(led.anim[..]), Led.COLOR_PINK, led.luminosity) else old(led.anim[..])
      ensures led.pixels == old(led.pixels) && led.log == old(led.log)
      ensures led.luminosity == old(led.luminosity)
    {
      if state != Idle {
        return false;
      }
      Indicate(Led.COLOR_PINK);
      outbox := outbox + [cmd];
      state := WaitOkSend;
      return true;
    }

    /** rn2483Response: one response line moves the state machine as Respond says. */
    method Response(s: string) returns (data: bool)
      requires Valid()
      modifies this, led, led.anim
      ensures Valid()
      ensures state == Respond(old(state), s, old(inputString)).next
      ensures data == Respond(old(state), s, old(inputString)).dataAvailable
      ensures led.anim[..] == AfterIndicator(old(led.anim[..]), Respond(old(state), s, old(inputString)).indicator, led.luminosity)
      ensures macStatus == old(macStatus) && inputString == old(inputString)
      ensures seen == old(seen) && outbox == old(outbox)
      ensures led.pixels == old(led.pixels) && led.log == old(led.log)
      ensures led.luminosity == old(led.luminosity)
    {
      data := false;
      if state == WaitOkSend {
        if s != "ok" {
          Indicate(Led.COLOR_RED);
          state := Idle;
        } else {
          state := Sending;
        }
      } else if state == Sending {
        state := Idle;
        if inputString == "mac_tx_ok" {
          Indicate(Led.COLOR_GREEN);
        } else if HasPrefix(inputString, "mac_rx ") {
          state := ReceivedData;
          Indicate(Led.COLOR_GREEN);
          return true;
        } else {
          Indicate(Led.COLOR_RED);
        }
      } else if HasPrefix(inputString, "mac_rx ") {
        state := ReceivedData;
        Indicate(Led.COLOR_YELLOW_GREEN);
        return true;
      } else {
        state := Idle;
      }
    }

    /** rn2483MacStatusResponse: store the value of an accepted line, leave the register alone otherwise. */
    method MacStatusResponse(line: string) returns (ok: bool)
      modifies this`macStatus
      ensures ok <==> Classify(line).Accepted?
      ensures macStatus == if ok then Classify(line).value else old(macStatus)
    {
      var verdict := ValidateStatusLine(line);
      ok := verdict.Accepted?;
      if ok {
        macStatus := verdict.value;
      }
    }

    /** rn2483getMACStatus, given the line handleSerial reads (None on time-out). */
    method GetMacStatus(reply: Option<string>) returns (status: u32)
      requires Valid()
      modifies this, led, led.anim
      ensures Valid()
      ensures status == QueryResult(reply)
      ensures macStatus == if reply.Some? && Classify(reply.value).Accepted? then status else old(macStatus)
      ensures outbox == old(outbox) + ["mac get status"] && inputString == ""
      ensures state == old(state) && seen == old(seen)
      ensures led.anim[..] == Indicated(old(led.anim[..]), Led.COLOR_BLUE, led.luminosity)
      ensures led.pixels == old(led.pixels) && led.log == old(led.log)
      ensures led.luminosity == old(led.luminosity)
    {
      status := STATUS_ERROR;
      Exec("mac get status");
      if reply.Some? {
        inputString := reply.value;
        var ok := MacStatusResponse(inputString);
        if ok {
          status := macStatus;
        }
      }
      inputString := "";
    }

    /**
     * rn2483ManageState: the first poll initialises the observation, a gesture
     * may send an uplink, then a state edge is handled as Edge says.
     */
    method ManageState(btn: Button, seconds: u32)
      requires Valid()
      modifies this, led, led.anim
      ensures Valid()
      ensures
        var seen0 := if old(seen).Some? then old(seen).value else old(state);
        var cmd := ButtonCommand(btn, seconds);
        var sends := cmd.Some? && old(state) == Idle;
        var afterButton := if sends then WaitOkSend else old(state);
        seen.Some? && Watch(state, seen.value) == Edge(Watch(afterButton, seen0)) &&
        outbox == old(outbox) + (if sends then [cmd.value] else []) &&
        led.anim[..] == (if sends then Indicated(old(led.anim[..]), Led.COLOR_PINK, led.luminosity) else old(led.anim[..]))
      ensures macStatus == old(macStatus) && inputString == old(inputString)
      ensures led.pixels == old(led.pixels) && led.log == old(led.log)
      ensures led.luminosity == old(led.luminosity)
    {
      if seen.None? {
        seen := Some(state);
      }
      var cmd := ButtonCommand(btn, seconds);
      if cmd.Some? {
        var _ := Send(cmd.value);
      }
      if state != seen.value {
        seen := Some(state);
        if state == ReceivedData {
          state := Idle;
        }
      }
    }
  }
}
