/**
 * The language-service logger handed to the TypeScript server: it numbers its messages,
 * groups them, and writes each one as a line with a fixed-width prefix. The clock is a
 * parameter of each message and the console is the sequence of lines written so far.
 */
module Logging {
  import opened Text

  /** `ts.server.Msg`: the message types, whose values are their own names. */
  datatype MsgType = Err | Info | Perf {
    function Name(): (r: string)
      ensures 3 <= |r| <= 4
    {
      match this
      case Err => "Err"
      case Info => "Info"
      case Perf => "Perf"
    }
  }

  /** The width of a message prefix, as ten spaces. */
  const Padding: string := "          "

  /** `padStringRight`: `str` followed by the start of `padding`, or cut, to the length of `padding`. */
  function PadStringRight(str: string, padding: string): (r: string)
    ensures |r| == |padding|
    ensures |str| <= |padding| ==> r[..|str|] == str && r[|str|..] == padding[..|padding| - |str|]
    ensures |str| >= |padding| ==> r == str[..|padding|]
  {
    (str + padding)[..|padding|]
  }

  /** The prefix of a message: its type and sequence number, padded or cut to ten characters. */
  function Prefix(t: MsgType, n: nat): (r: string)
    ensures |r| == 10
  {
    PadStringRight(t.Name() + " " + DecimalString(n), Padding)
  }

  /** The line written for one message, with or without its prefix. */
  function Entry(prefixed: bool, t: MsgType, n: nat, now: string, s: string): string {
    (if prefixed then Prefix(t, n) else "") + ("[" + now + "] " + s + "\n")
  }

  function Pow10(k: nat): (r: nat)
    ensures r >= 1
  {
    if k == 0 then 1 else 10 * Pow10(k - 1)
  }

  /** A number below 10^k has at most k decimal digits. */
  lemma {:induction false} DecimalLength(n: nat, k: nat)
    requires 1 <= k && n < Pow10(k)
    ensures |DecimalString(n)| <= k
  {
    if n >= 10 {
      DecimalLength(n / 10, k - 1);
    }
  }

  /**
   * Below 100000 the prefix is not cut: it reads the type, a space and the decimal digits
   * of the sequence number, then spaces up to ten characters.
   */
  lemma PrefixShowsSequenceNumber(t: MsgType, n: nat)
    requires n < 100000
    ensures var tag := t.Name() + " " + DecimalString(n);
      && |tag| <= 10
      && Prefix(t, n)[..|tag|] == tag
      && forall i | |tag| <= i < 10 :: Prefix(t, n)[i] == ' '
  {
    assert Pow10(5) == 100000;
    DecimalLength(n, 5);
    var tag := t.Name() + " " + DecimalString(n);
    var r := Prefix(t, n);
    forall i | |tag| <= i < 10
      ensures r[i] == ' '
    {
      assert r[i] == r[|tag|..][i - |tag|];
    }
  }

  class Logger {
    /** `seq`: the number of the next message outside a group. */
    var sequenceNumber: nat
    var inGroup: bool
    var firstInGroup: bool
    /** The lines written to the console, oldest first. */
    var output: seq<string>

    /** `firstInGroup` is never cleared, so every message carries its prefix. */
    ghost predicate Valid()
      reads this
    {
      firstInGroup
    }

    constructor ()
      ensures Valid()
      ensures sequenceNumber == 0 && !inGroup && output == []
    {
      sequenceNumber := 0;
      inGroup := false;
      firstInGroup := true;
      output := [];
    }

    /** `close`: there is nothing to release. */
    method Close() {
    }

    /** `getLogFileName`: the logger writes to no file. */
    function GetLogFileName(): (r: string)
      ensures |r| == 4
    {
      "none"
    }

    /** `loggingEnabled`: no level of logging is switched on. */
    function LoggingEnabled(): (r: bool)
      ensures !r
    {
      false
    }

    /** `hasLevel`: no level is enabled, as `LoggingEnabled` says. */
    function HasLevel(): (r: bool)
      ensures r == LoggingEnabled()
      ensures !r
    {
      LoggingEnabled()
    }

    /**
     * `msg`: one line, stamped with `now` and prefixed with the type and the current
     * sequence number unless inside a group after its first message; the number moves on
     * only outside a group.
     */
    method Msg(s: string, now: string, t: MsgType := MsgType.Err)
      modifies this
      ensures output == old(output) + [Entry(!old(inGroup) || old(firstInGroup), t, old(sequenceNumber), now, s)]
      ensures old(Valid()) ==> output == old(output) + [Entry(true, t, old(sequenceNumber), now, s)]
      ensures sequenceNumber == if old(inGroup) then old(sequenceNumber) else old(sequenceNumber) + 1
      ensures inGroup == old(inGroup) && firstInGroup == old(firstInGroup)
    {
      var line := "[" + now + "] " + s + "\n";
      if !inGroup || firstInGroup {
        var prefix := PadStringRight(t.Name() + " " + DecimalString(sequenceNumber), Padding);
        line := prefix + line;
      } else {
        assert "" + line == line;
      }
      output := output + [line];
      if !inGroup {
        sequenceNumber := sequenceNumber + 1;
      }
    }

    /** `perftrc`: a `Perf` message. */
    method Perftrc(s: string, now: string)
      modifies this
      ensures output == old(output) + [Entry(!old(inGroup) || old(firstInGroup), MsgType.Perf, old(sequenceNumber), now, s)]
      ensures sequenceNumber == if old(inGroup) then old(sequenceNumber) else old(sequenceNumber) + 1
      ensures inGroup == old(inGroup) && firstInGroup == old(firstInGroup)
    {
      Msg(s, now, MsgType.Perf);
    }

    /** `info`: an `Info` message. */
    method Info(s: string, now: string)
      modifies this
      ensures output == old(output) + [Entry(!old(inGroup) || old(firstInGroup), MsgType.Info, old(sequenceNumber), now, s)]
      ensures sequenceNumber == if old(inGroup) then old(sequenceNumber) else old(sequenceNumber) + 1
      ensures inGroup == old(inGroup) && firstInGroup == old(firstInGroup)
    {
      Msg(s, now, MsgType.Info);
    }

    /** `err`: an `Err` message. */
    method Err(s: string, now: string)
      modifies this
      ensures output == old(output) + [Entry(!old(inGroup) || old(firstInGroup), MsgType.Err, old(sequenceNumber), now, s)]
      ensures sequenceNumber == if old(inGroup) then old(sequenceNumber) else old(sequenceNumber) + 1
      ensures inGroup == old(inGroup) && firstInGroup == old(firstInGroup)
    {
      Msg(s, now, MsgType.Err);
    }

    /** `startGroup`: the following messages share one sequence number. */
    method StartGroup()
      modifies this
      ensures Valid()
      ensures inGroup
      ensures sequenceNumber == old(sequenceNumber) && output == old(output)
    {
      inGroup := true;
      firstInGroup := true;
    }

    /** `endGroup`: back to numbering each message; `firstInGroup` is left as it is. */
    method EndGroup()
      modifies this
      ensures !inGroup
      ensures firstInGroup == old(firstInGroup)
      ensures sequenceNumber == old(sequenceNumber) && output == old(output)
    {
      inGroup := false;
    }
  }
}
