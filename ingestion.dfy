/**
  Line routing and the throughput counter: `AISService` of
  services/ais_service.py and the older `parse_ais_message` / UDP loop of
  app.py. A line is stripped, classified and parsed; a single-part
  sentence is decoded at once, a fragment goes through the multipart
  buffer and is decoded when its message completes; decoded messages go
  to the message processor. The two versions count lines differently and
  evict stale fragments on different schedules.

  `pyais.decode` is the parameter `decode`; its exceptions and a falsy
  result are both `None`, since the source swallows the first and skips
  the second. The database calls the processor asks for are recorded in
  order rather than executed (Store models what they do).
*/
module Ingestion {
  import opened Common
  import opened Text
  import opened Nmea
  import opened FragmentBuffer
  import opened Decoded
  import opened Processor

  /** `pyais.decode(*lines)`. */
  type Decoder = seq<string> -> Option<DecodedMessage>

  /** The default `max_age_seconds` of `cleanup_old_fragments`. */
  const FragmentMaxAge: int := 60

  /** app.py's fixed schedule: evict fragments every 1000 lines, sweep the
      positions table every 10000, deleting rows older than 7 days. */
  const AppEvictEvery: int := 1000
  const AppSweepEvery: int := 10000
  const AppSweepDays: int := 7

  /** What the pipeline asked of the database, in order. */
  datatype Effect = Store(call: StoreCall) | SweepPositions(days: int)

  /** The state both versions share: the fragment buffer, the processor's
      two dictionaries, the line counter and the database effects. */
  datatype PipelineState = PipelineState(
    buffer: Buffer,
    ships: map<string, LatLon>,
    details: map<string, Record>,
    count: int,
    effects: seq<Effect>)

  /** How a line is handled. */
  datatype Route = Ignored | Single(line: string) | Fragment(line: string, header: FragmentHeader)

  /** Strip, require an AIS sentence, parse the header, and split on the
      fragment count. */
  function RouteLine(nmeaLine: string): (r: Route)
    ensures r.Ignored? <==> !IsAisMessage(Strip(nmeaLine, IsSpace)) || ParseNmeaFields(Strip(nmeaLine, IsSpace)).None?
    ensures r.Single? ==> r.line == Strip(nmeaLine, IsSpace) && ParseNmeaFields(r.line).value.totalFragments == 1
    ensures r.Fragment? ==> r.line == Strip(nmeaLine, IsSpace) && Some(r.header) == ParseNmeaFields(r.line)
                            && r.header.totalFragments != 1
  {
    var line := Strip(nmeaLine, IsSpace);
    if !IsAisMessage(line) then Ignored
    else match ParseNmeaFields(line)
      case None => Ignored
      case Some(h) => if h.totalFragments == 1 then Single(line) else Fragment(line, h)
  }

  /** `_decode_and_process`: decode, hand the message to the processor and
      record the database call it asks for. */
  function Deliver(s: PipelineState, lines: seq<string>, decode: Decoder, now: int): (r: PipelineState)
    ensures r.buffer == s.buffer && r.count == s.count
    ensures decode(lines).None? ==> r == s
    ensures s.effects <= r.effects && |r.effects| <= |s.effects| + 1
  {
    match decode(lines)
    case None => s
    case Some(msg) =>
      var o := Process(s.ships, s.details, msg, now);
      s.(ships := o.ships, details := o.details,
         effects := s.effects + (if o.call.Some? then [Store(o.call.value)] else []))
  }

  /** The routing both versions share (app.py's `parse_ais_message`, and
      `_process_ais_line` without its counter). */
  function Handle(s: PipelineState, nmeaLine: string, decode: Decoder, now: int): (r: PipelineState)
    ensures r.count == s.count
  {
    match RouteLine(nmeaLine)
    case Ignored => s
    case Single(line) => Deliver(s, [line], decode, now)
    case Fragment(line, h) =>
      var added := Add(s.buffer, line, h.totalFragments, h.fragmentNumber, h.messageId, h.channel, now);
      var s' := s.(buffer := added.buffer);
      if added.assembled.Some? then Deliver(s', added.assembled.value, decode, now) else s'
  }

  // ---------------------------------------------------- the service

  /** `_update_message_count`: count the line, then evict stale fragments
      when the count is a multiple of the interval. A zero interval makes
      `%` raise after the count has grown; the caller swallows it. */
  function CountLine(s: PipelineState, interval: int, now: int): (r: PipelineState)
    ensures r.count == s.count + 1
    ensures r.buffer == if interval != 0 && r.count % interval == 0 then Evict(s.buffer, now, FragmentMaxAge) else s.buffer
    ensures r.ships == s.ships && r.details == s.details && r.effects == s.effects
  {
    var c := s.count + 1;
    s.(count := c, buffer := if interval != 0 && c % interval == 0 then Evict(s.buffer, now, FragmentMaxAge) else s.buffer)
  }

  /** A line the service acts on: an AIS sentence with a readable header. */
  predicate Routed(nmeaLine: string) {
    !RouteLine(nmeaLine).Ignored?
  }

  /** `_process_ais_line`: a line that is not routed changes nothing, not
      even the counter. */
  function ServiceLine(s: PipelineState, nmeaLine: string, decode: Decoder, now: int, interval: int): PipelineState {
    if Routed(nmeaLine) then CountLine(Handle(s, nmeaLine, decode, now), interval, now) else s
  }

  predicate NonBlank(line: string) {
    Strip(line, IsSpace) != []
  }

  /** The service's per-datagram loop over `msg.strip().split("\n")`,
      skipping blank lines. */
  function ServiceLines(s: PipelineState, lines: seq<string>, decode: Decoder, now: int, interval: int): PipelineState {
    if |lines| == 0 then s
    else
      var prev := ServiceLines(s, lines[..|lines| - 1], decode, now, interval);
      var line := lines[|lines| - 1];
      if NonBlank(line) then ServiceLine(prev, line, decode, now, interval) else prev
  }

  function DatagramLines(msg: string): seq<string> {
    Split(Strip(msg, IsSpace), '\n')
  }

  // ---------------------------------------------------- app.py

  /** The counting part of app.py's loop: count the line whatever
      happened to it, evict fragments at every 1000th line and, inside
      that check, sweep the positions table at every 10000th. */
  function AppCount(s: PipelineState, now: int): PipelineState {
    var c := s.count + 1;
    if c % AppEvictEvery != 0 then s.(count := c)
    else
      s.(count := c, buffer := Evict(s.buffer, now, FragmentMaxAge),
         effects := s.effects + (if c % AppSweepEvery == 0 then [SweepPositions(AppSweepDays)] else []))
  }

  /** One step of app.py's loop over a non-blank line. */
  function AppLine(s: PipelineState, line: string, decode: Decoder, now: int): PipelineState {
    AppCount(Handle(s, line, decode, now), now)
  }

  function AppLines(s: PipelineState, lines: seq<string>, decode: Decoder, now: int): PipelineState {
    if |lines| == 0 then s
    else
      var prev := AppLines(s, lines[..|lines| - 1], decode, now);
      var line := lines[|lines| - 1];
      if NonBlank(line) then AppLine(prev, line, decode, now) else prev
  }

  // ---------------------------------------------------- properties

  /** One more line of a datagram, for the service's loop. */
  lemma ServiceLinesStep(s: PipelineState, lines: seq<string>, i: int, decode: Decoder, now: int, interval: int)
    requires 0 <= i < |lines|
    ensures var prev := ServiceLines(s, lines[..i], decode, now, interval);
      ServiceLines(s, lines[..i + 1], decode, now, interval)
        == if NonBlank(lines[i]) then ServiceLine(prev, lines[i], decode, now, interval) else prev
  {
    assert lines[..i + 1][..i] == lines[..i];
  }

  /** One more line of a datagram, for app.py's loop. */
  lemma AppLinesStep(s: PipelineState, lines: seq<string>, i: int, decode: Decoder, now: int)
    requires 0 <= i < |lines|
    ensures var prev := AppLines(s, lines[..i], decode, now);
      AppLines(s, lines[..i + 1], decode, now)
        == if NonBlank(lines[i]) then AppLine(prev, lines[i], decode, now) else prev
  {
    assert lines[..i + 1][..i] == lines[..i];
  }

  /** A blank line is never routed, so the inner blank check of the
      service is redundant with the one inside `is_ais_message`. */
  lemma BlankNotRouted(line: string)
    requires !NonBlank(line)
    ensures !Routed(line)
  {
  }

  /** The service counts exactly the routed lines of a datagram. */
  lemma {:induction false} ServiceCountsRoutedLines(s: PipelineState, lines: seq<string>, decode: Decoder, now: int, interval: int)
    ensures ServiceLines(s, lines, decode, now, interval).count == s.count + CountWhere(lines, Routed)
  {
    if |lines| > 0 {
      ServiceCountsRoutedLines(s, lines[..|lines| - 1], decode, now, interval);
      var line := lines[|lines| - 1];
      if !NonBlank(line) {
        BlankNotRouted(line);
      }
    }
  }

  /** app.py counts every non-blank line, routed or not. */
  lemma {:induction false} AppCountsNonBlankLines(s: PipelineState, lines: seq<string>, decode: Decoder, now: int)
    ensures AppLines(s, lines, decode, now).count == s.count + CountWhere(lines, NonBlank)
  {
    if |lines| > 0 {
      AppCountsNonBlankLines(s, lines[..|lines| - 1], decode, now);
    }
  }

  /** The two counters differ on a line that is not an AIS sentence: the
      service ignores it, app.py counts it. */
  lemma CountsDiffer(s: PipelineState, decode: Decoder, now: int, interval: int)
    ensures ServiceLine(s, "hello", decode, now, interval) == s
    ensures AppLine(s, "hello", decode, now).count == s.count + 1
  {
    StripNoOp("hello", IsSpace);
    assert !StartsWith("hello", "!AIVDM") by { assert "hello"[0] != '!'; }
    assert !StartsWith("hello", "!AIVDO") by { assert "hello"[0] != '!'; }
  }

  /** A line that is not routed changes nothing but app.py's counter and
      the work its schedule triggers: no buffer entry, no decoded message,
      no database call. */
  lemma UnroutedLineDoesNothing(s: PipelineState, line: string, decode: Decoder, now: int)
    requires !Routed(line)
    ensures Handle(s, line, decode, now) == s
  {
  }

  /** A single-part sentence never touches the buffer before the counter
      runs, and its decoded message is processed at once. */
  lemma SingleBypassesBuffer(s: PipelineState, nmeaLine: string, decode: Decoder, now: int)
    requires RouteLine(nmeaLine).Single?
    ensures Handle(s, nmeaLine, decode, now) == Deliver(s, [Strip(nmeaLine, IsSpace)], decode, now)
    ensures Handle(s, nmeaLine, decode, now).buffer == s.buffer
  {
  }

  /** A fragment is stored in the buffer, and its message is decoded (from
      the fragments in order) exactly when the buffer completes it. */
  lemma FragmentGoesThroughBuffer(s: PipelineState, nmeaLine: string, decode: Decoder, now: int)
    requires RouteLine(nmeaLine).Fragment?
    ensures var h := RouteLine(nmeaLine).header;
      var added := Add(s.buffer, Strip(nmeaLine, IsSpace), h.totalFragments, h.fragmentNumber, h.messageId, h.channel, now);
      var r := Handle(s, nmeaLine, decode, now);
      && r.buffer == added.buffer
      && (added.assembled.None? ==> r.ships == s.ships && r.details == s.details && r.effects == s.effects)
      && (added.assembled.Some? ==> r == Deliver(s.(buffer := added.buffer), added.assembled.value, decode, now))
  {
  }

  /** app.py's sweep sits inside the 1000-line check, which never hides
      it: a sweep is recorded exactly at every multiple of 10000, and that
      line also evicts. */
  lemma AppSweepSchedule(s: PipelineState, now: int)
    ensures var r := AppCount(s, now);
      var c := s.count + 1;
      && r.count == c && r.ships == s.ships && r.details == s.details
      && (r.effects == s.effects + [SweepPositions(AppSweepDays)] <==> c % AppSweepEvery == 0)
      && (c % AppSweepEvery != 0 ==> r.effects == s.effects)
      && (r.buffer == if c % AppEvictEvery == 0 then Evict(s.buffer, now, FragmentMaxAge) else s.buffer)
  {
    var c := s.count + 1;
    if c % AppSweepEvery == 0 {
      var k := c / AppSweepEvery;
      assert c == 1000 * (10 * k);
    }
  }

  /** `get_stats` without the timer flag. */
  datatype ServiceStats = ServiceStats(shipsCount: nat, detailsCount: nat, messageCount: int, bufferStats: BufferStats)

  /** A datagram none of whose lines is routed leaves the service exactly
      as it was: no fragment, no decoded message, no count. */
  lemma {:induction false} DatagramLeavesUnroutedAlone(s: PipelineState, lines: seq<string>, decode: Decoder, now: int, interval: int)
    requires forall i :: 0 <= i < |lines| ==> !Routed(lines[i])
    ensures ServiceLines(s, lines, decode, now, interval) == s
  {
    if |lines| > 0 {
      DatagramLeavesUnroutedAlone(s, lines[..|lines| - 1], decode, now, interval);
    }
  }

  // ---------------------------------------------------- the classes

  /** `AISService`: the buffer and the processor it owns (whose two
      dictionaries are the service's `ships` and `ship_details`), the
      configured cleanup interval, the counter and the recorded database
      calls. */
  class AisService {
    const multipartBuffer: MultipartMessageBuffer
    const messageProcessor: AisMessageProcessor
    const cleanupInterval: int
    var messageCount: int
    var effects: seq<Effect>

    function State(): PipelineState
      reads this, multipartBuffer, messageProcessor
    {
      PipelineState(multipartBuffer.buffer, messageProcessor.ships, messageProcessor.shipDetails, messageCount, effects)
    }

    constructor (cleanupInterval: int)
      ensures State() == PipelineState(map[], map[], map[], 0, [])
      ensures this.cleanupInterval == cleanupInterval
      ensures fresh(multipartBuffer) && fresh(messageProcessor)
    {
      this.cleanupInterval := cleanupInterval;
      multipartBuffer := new MultipartMessageBuffer();
      messageProcessor := new AisMessageProcessor(map[], map[]);
      messageCount := 0;
      effects := [];
    }

    /** `_decode_and_process`. */
    method DecodeAndProcess(lines: seq<string>, decode: Decoder, now: int)
      modifies this, messageProcessor
      ensures State() == Deliver(old(State()), lines, decode, now)
    {
      var decoded := decode(lines);
      if decoded.Some? {
        var call := messageProcessor.ProcessDecodedMessage(decoded.value, now);
        if call.Some? {
          effects := effects + [Store(call.value)];
        }
      }
    }

    /** `_update_message_count`. */
    method UpdateMessageCount(now: int)
      modifies this, multipartBuffer
      ensures State() == CountLine(old(State()), cleanupInterval, now)
    {
      messageCount := messageCount + 1;
      if cleanupInterval != 0 && messageCount % cleanupInterval == 0 {
        multipartBuffer.CleanupOldFragments(now, FragmentMaxAge);
      }
    }

    /** `_process_ais_line`. */
    method ProcessAisLine(nmeaLine: string, decode: Decoder, now: int)
      modifies this, multipartBuffer, messageProcessor
      ensures State() == ServiceLine(old(State()), nmeaLine, decode, now, cleanupInterval)
    {
      var line := Strip(nmeaLine, IsSpace);
      if !IsAisMessage(line) {
        return;
      }
      var fields := ParseNmeaFields(line);
      if fields.None? {
        return;
      }
      var h := fields.value;
      if h.totalFragments == 1 {
        DecodeAndProcess([line], decode, now);
      } else {
        var complete := multipartBuffer.AddFragment(line, h.totalFragments, h.fragmentNumber, h.messageId, h.channel, now);
        if complete.Some? {
          DecodeAndProcess(complete.value, decode, now);
        }
      }
      UpdateMessageCount(now);
    }

    /** The body of the UDP listener loop for one datagram. */
    method ReceiveDatagram(msg: string, decode: Decoder, now: int)
      modifies this, multipartBuffer, messageProcessor
      ensures State() == ServiceLines(old(State()), DatagramLines(msg), decode, now, cleanupInterval)
    {
      var lines := DatagramLines(msg);
      var i := 0;
      while i < |lines|
        invariant 0 <= i <= |lines|
        invariant State() == ServiceLines(old(State()), lines[..i], decode, now, cleanupInterval)
      {
        ghost var before := State();
        ServiceLinesStep(old(State()), lines, i, decode, now, cleanupInterval);
        if NonBlank(lines[i]) {
          ProcessAisLine(lines[i], decode, now);
          assert State() == ServiceLine(before, lines[i], decode, now, cleanupInterval);
        }
        i := i + 1;
      }
      assert lines[..i] == lines;
    }

    /** `get_stats`: the sizes of the two dictionaries and of the buffer,
        and the counter. */
    function GetStats(): (st: ServiceStats)
      reads this, multipartBuffer, messageProcessor
      ensures st.messageCount == State().count
      ensures st.shipsCount == |State().ships| && st.detailsCount == |State().details|
      ensures st.bufferStats.bufferedMessageCount == |State().buffer|
    {
      ServiceStats(|messageProcessor.ships|, |messageProcessor.shipDetails|, messageCount, multipartBuffer.GetStats())
    }
  }

  /** app.py's module-level buffer and processor, and the counter and
      database calls of its `udp_listener` loop. */
  class UdpListener {
    const multipartBuffer: MultipartMessageBuffer
    const messageProcessor: AisMessageProcessor
    var messageCount: int
    var effects: seq<Effect>

    function State(): PipelineState
      reads this, multipartBuffer, messageProcessor
    {
      PipelineState(multipartBuffer.buffer, messageProcessor.ships, messageProcessor.shipDetails, messageCount, effects)
    }

    constructor ()
      ensures State() == PipelineState(map[], map[], map[], 0, [])
      ensures fresh(multipartBuffer) && fresh(messageProcessor)
    {
      multipartBuffer := new MultipartMessageBuffer();
      messageProcessor := new AisMessageProcessor(map[], map[]);
      messageCount := 0;
      effects := [];
    }

    /** `parse_ais_message`. */
    method ParseAisMessage(nmeaLine: string, decode: Decoder, now: int)
      modifies this, multipartBuffer, messageProcessor
      ensures State() == Handle(old(State()), nmeaLine, decode, now)
    {
      var line := Strip(nmeaLine, IsSpace);
      if !IsAisMessage(line) {
        return;
      }
      var fields := ParseNmeaFields(line);
      if fields.None? {
        return;
      }
      var h := fields.value;
      var lines: seq<string>;
      if h.totalFragments == 1 {
        lines := [line];
      } else {
        var complete := multipartBuffer.AddFragment(line, h.totalFragments, h.fragmentNumber, h.messageId, h.channel, now);
        if complete.None? {
          return;
        }
        lines := complete.value;
      }
      DecodeAndProcess(lines, decode, now);
    }

    /** The `try: decode(...)` block that `parse_ais_message` has in both
        of its branches. */
    method DecodeAndProcess(lines: seq<string>, decode: Decoder, now: int)
      modifies this, messageProcessor
      ensures State() == Deliver(old(State()), lines, decode, now)
    {
      var decoded := decode(lines);
      if decoded.Some? {
        var call := messageProcessor.ProcessDecodedMessage(decoded.value, now);
        if call.Some? {
          effects := effects + [Store(call.value)];
        }
      }
    }

    /** The counting part of the `udp_listener` loop: count the line, evict
        fragments at every 1000th and, inside that check, sweep the
        positions table at every 10000th. */
    method CountMessage(now: int)
      modifies this, multipartBuffer
      ensures State() == AppCount(old(State()), now)
    {
      messageCount := messageCount + 1;
      if messageCount % AppEvictEvery == 0 {
        multipartBuffer.CleanupOldFragments(now, FragmentMaxAge);
        if messageCount % AppSweepEvery == 0 {
          effects := effects + [SweepPositions(AppSweepDays)];
        }
      }
    }

    /** One datagram of `udp_listener`. */
    method ReceiveDatagram(msg: string, decode: Decoder, now: int)
      modifies this, multipartBuffer, messageProcessor
      ensures State() == AppLines(old(State()), DatagramLines(msg), decode, now)
    {
      var lines := DatagramLines(msg);
      var i := 0;
      while i < |lines|
        invariant 0 <= i <= |lines|
        invariant State() == AppLines(old(State()), lines[..i], decode, now)
      {
        AppLinesStep(old(State()), lines, i, decode, now);
        if NonBlank(lines[i]) {
          ParseAisMessage(lines[i], decode, now);
          CountMessage(now);
        }
        i := i + 1;
      }
      assert lines[..i] == lines;
    }
  }
}
