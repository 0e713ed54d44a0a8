/** What lines from the modem say, in bytes: the final responses that atchannel.c knows, and its prompts. */
module AtTexts {
  import opened Bytes

  /** OK, +QIND: "FOTA","END",0 and CONNECT. */
  predicate SaysDone(line: seq<byte>) {
    || [79, 75] <= line
    || [43, 81, 73, 78, 68, 58, 32, 34, 70, 79, 84, 65, 34, 44, 34, 69, 78, 68, 34, 44, 48] <= line
    || [67, 79, 78, 78, 69, 67, 84] <= line
  }

  /** ERROR, +CMS ERROR:, +CME ERROR:, NO CARRIER, NO ANSWER, NO DIALTONE and COMMAND NOT SUPPORT. */
  predicate SaysFailed(line: seq<byte>) {
    || [69, 82, 82, 79, 82] <= line
    || [43, 67, 77, 83, 32, 69, 82, 82, 79, 82, 58] <= line
    || [43, 67, 77, 69, 32, 69, 82, 82, 79, 82, 58] <= line
    || [78, 79, 32, 67, 65, 82, 82, 73, 69, 82] <= line
    || [78, 79, 32, 65, 78, 83, 87, 69, 82] <= line
    || [78, 79, 32, 68, 73, 65, 76, 84, 79, 78, 69] <= line
    || [67, 79, 77, 77, 65, 78, 68, 32, 78, 79, 84, 32, 83, 85, 80, 80, 79, 82, 84] <= line
  }

  /** +CMT:, +CDS:, +CBM: and +CMTI:, which announce a second line. */
  predicate SaysMessage(line: seq<byte>) {
    || [43, 67, 77, 84, 58] <= line
    || [43, 67, 68, 83, 58] <= line
    || [43, 67, 66, 77, 58] <= line
    || [43, 67, 77, 84, 73, 58] <= line
  }

  /** What is written for prompts: the raw data for the first CONNECT, the PDU and its 26 for the first "> ". */
  function PromptData(lines: seq<seq<byte>>, raw: Option<seq<byte>>, sms: Option<seq<byte>>): seq<seq<byte>> {
    if lines == [] then []
    else
      var before, line := lines[..|lines| - 1], lines[|lines| - 1];
      PromptData(before, raw, sms) +
        (if raw.Some? && line == [67, 79, 78, 78, 69, 67, 84] && line !in before then [raw.value]
         else if sms.Some? && line == [62, 32] && line !in before then [sms.value + [26]]
         else [])
  }
}
