/**
  NMEA 0183 sentence headers (utils/nmea_parser.py, copied in database.py):
  recognising `!AIVDM` / `!AIVDO` sentences and reading the multipart
  fields of a VDM sentence: fragment count, fragment number, sequential
  message id and radio channel.
*/
module Nmea {
  import opened Common
  import opened Text

  /** The header fields of one VDM/VDO sentence. The source does not check
      that the counts are positive, so neither does the model. */
  datatype FragmentHeader = FragmentHeader(
    totalFragments: int,
    fragmentNumber: int,
    messageId: Option<string>,
    channel: string)

  /** `parse_nmea_fields`: `None` for fewer than six comma-separated fields
      or when field 1 or field 2 is not an integer (Python's `ValueError`,
      which the source catches). */
  function ParseNmeaFields(line: string): (r: Option<FragmentHeader>)
    ensures |Split(line, ',')| < 6 ==> r == None
    ensures r.Some? ==> r.value.messageId != Some("")
    ensures r.Some? ==> ',' !in r.value.channel
  {
    var parts := Split(line, ',');
    if |parts| < 6 then None
    else
      match (ParseInt(parts[1]), ParseInt(parts[2]))
      case (Some(total), Some(number)) =>
        Some(FragmentHeader(total, number, if parts[3] == "" then None else Some(parts[3]), parts[4]))
      case _ => None
  }

  /** Field 3 of a sentence as written: empty when there is no message id. */
  function MessageIdField(id: Option<string>): string {
    match id
    case None => ""
    case Some(s) => s
  }

  /** The comma-separated fields of a VDM sentence whose header is `h`. */
  function SentenceFields(talker: string, h: FragmentHeader, payload: string, tail: seq<string>): seq<string> {
    [talker, IntToString(h.totalFragments), IntToString(h.fragmentNumber),
     MessageIdField(h.messageId), h.channel, payload] + tail
  }

  /** Parsing a line whose fields are known, and whose fields 1 and 2 are
      integers, reads fields 1 to 4 of them. */
  lemma ParseOfFields(fields: seq<string>, total: int, number: int)
    requires |fields| >= 6
    requires forall i :: 0 <= i < |fields| ==> ',' !in fields[i]
    requires ParseInt(fields[1]) == Some(total) && ParseInt(fields[2]) == Some(number)
    ensures ParseNmeaFields(Join(fields, ',')) ==
      Some(FragmentHeader(total, number, if fields[3] == "" then None else Some(fields[3]), fields[4]))
  {
    SplitJoin(fields, ',');
  }

  /** Fields 1 and 2 written by `str` are read back by `int`. */
  lemma ParseOfPrinted(fields: seq<string>, total: int, number: int)
    requires |fields| >= 6
    requires forall i :: 0 <= i < |fields| ==> ',' !in fields[i]
    requires fields[1] == IntToString(total) && fields[2] == IntToString(number)
    ensures ParseNmeaFields(Join(fields, ',')) ==
      Some(FragmentHeader(total, number, if fields[3] == "" then None else Some(fields[3]), fields[4]))
  {
    ParseIntToString(total);
    ParseIntToString(number);
    ParseOfFields(fields, total, number);
  }

  /** Writing a header into a sentence and parsing it back gives the header:
      fields 1 to 4 are read exactly as written, whatever the talker, the
      payload and the trailing fields are (as long as none holds a comma). */
  lemma ParseSentenceRoundTrip(talker: string, h: FragmentHeader, payload: string, tail: seq<string>)
    requires h.messageId != Some("")
    requires ',' !in talker && ',' !in MessageIdField(h.messageId) && ',' !in h.channel && ',' !in payload
    requires forall i :: 0 <= i < |tail| ==> ',' !in tail[i]
    ensures ParseNmeaFields(Join(SentenceFields(talker, h, payload, tail), ',')) == Some(h)
  {
    var fields := SentenceFields(talker, h, payload, tail);
    assert |fields| >= 6;
    forall i | 0 <= i < |fields| ensures ',' !in fields[i] {
      if i >= 6 { assert fields[i] == tail[i - 6]; }
    }
    assert fields[1] == IntToString(h.totalFragments) && fields[2] == IntToString(h.fragmentNumber);
    ParseOfPrinted(fields, h.totalFragments, h.fragmentNumber);
    assert fields[3] == MessageIdField(h.messageId) && fields[4] == h.channel;
    assert (if fields[3] == "" then None else Some(fields[3])) == h.messageId;
  }

  /** The first fields of a sentence decide the header: any sentence whose
      fields 1 and 2 do not parse as integers is rejected. */
  lemma ParseRejectsNonInteger(line: string)
    requires |Split(line, ',')| >= 6
    requires ParseInt(Split(line, ',')[1]).None? || ParseInt(Split(line, ',')[2]).None?
    ensures ParseNmeaFields(line) == None
  {
  }

  /** The message id is absent exactly when field 3 is empty, and otherwise
      field 3 verbatim; the channel is field 4 verbatim. */
  lemma ParsedFieldsVerbatim(line: string)
    requires ParseNmeaFields(line).Some?
    ensures var parts := Split(line, ',');
      var h := ParseNmeaFields(line).value;
      && |parts| >= 6
      && Some(h.totalFragments) == ParseInt(parts[1])
      && Some(h.fragmentNumber) == ParseInt(parts[2])
      && (h.messageId == None <==> parts[3] == "")
      && MessageIdField(h.messageId) == parts[3]
      && h.channel == parts[4]
  {
  }

  /** `!AIVDM,2,1,3,A,xxx,0*1B` (its seven fields joined by commas) is
      fragment 1 of 2 of message 3 on channel A. */
  lemma ParseExample()
    ensures ParseNmeaFields(Join(["!AIVDM", "2", "1", "3", "A", "xxx", "0*1B"], ','))
      == Some(FragmentHeader(2, 1, Some("3"), "A"))
  {
    var h := FragmentHeader(2, 1, Some("3"), "A");
    assert SentenceFields("!AIVDM", h, "xxx", ["0*1B"]) == ["!AIVDM", "2", "1", "3", "A", "xxx", "0*1B"];
    ParseSentenceRoundTrip("!AIVDM", h, "xxx", ["0*1B"]);
  }

  /** `!AIVDM,bad` has two fields and is rejected. */
  lemma ParseExampleMalformed()
    ensures ParseNmeaFields("!AIVDM,bad") == None
  {
    SplitJoin(["!AIVDM", "bad"], ',');
    assert Join(["!AIVDM", "bad"], ',') == "!AIVDM,bad";
  }

  predicate StartsWith(s: string, prefix: string) {
    |prefix| <= |s| && s[..|prefix|] == prefix
  }

  /** `is_ais_message`: the stripped line is non-empty and starts with
      `!AIVDM` or `!AIVDO`. */
  function IsAisMessage(line: string): (b: bool)
    ensures b ==> Strip(line, IsSpace) != []
    ensures b <==>
      && |Strip(line, IsSpace)| >= 6
      && (Strip(line, IsSpace)[..6] == "!AIVDM" || Strip(line, IsSpace)[..6] == "!AIVDO")
  {
    var t := Strip(line, IsSpace);
    t != [] && (StartsWith(t, "!AIVDM") || StartsWith(t, "!AIVDO"))
  }

  /** Surrounding white space never matters: a line and its stripped form
      are classified alike. */
  lemma IsAisMessageIgnoresSpace(line: string)
    ensures IsAisMessage(Strip(line, IsSpace)) == IsAisMessage(line)
  {
    var t := Strip(line, IsSpace);
    if t != [] {
      StripNoOp(t, IsSpace);
    }
  }

  /** A sentence such as the formatted ones above, with a VDM or VDO talker,
      is recognised. */
  lemma IsAisMessageOfSentence(talker: string, h: FragmentHeader, payload: string, tail: seq<string>)
    requires talker == "!AIVDM" || talker == "!AIVDO"
    requires !IsSpace(Join(SentenceFields(talker, h, payload, tail), ',')[|Join(SentenceFields(talker, h, payload, tail), ',')| - 1])
    ensures IsAisMessage(Join(SentenceFields(talker, h, payload, tail), ','))
  {
    var line := Join(SentenceFields(talker, h, payload, tail), ',');
    assert line[..6] == talker;
    StripNoOp(line, IsSpace);
  }
}
