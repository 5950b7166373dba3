/**
  Reassembly of multipart AIS sentences (utils/multipart_message_buffer.py,
  copied in database.py:273-338). Pending fragment sets are kept in a map
  keyed by message id and channel; a set is handed out, ordered by fragment
  number, once it is complete, and stale sets are evicted by age.

  The functions `Add` and `Evict` state what one call does to the whole map;
  the class `MultipartMessageBuffer` holds the map as a field and its methods
  are proved to change it exactly as those functions say.
*/
module FragmentBuffer {
  import opened Common
  import opened Text

  /** One pending multipart message: fragment number to raw line, the total
      announced by the fragment that created it, and its creation time. */
  datatype Pending = Pending(fragments: map<int, string>, total: int, timestamp: int)

  type Buffer = map<string, Pending>

  /** `message_id + "_" + channel` for a non-empty id, otherwise
      `"no_id_" + channel + "_" + str(total)`. */
  function BufferKey(messageId: Option<string>, channel: string, total: int): string {
    if messageId.Some? && messageId.value != "" then messageId.value + "_" + channel
    else "no_id_" + channel + "_" + IntToString(total)
  }

  /** Every fragment number 1..total is stored. */
  predicate AllPresent(fragments: map<int, string>, total: int) {
    forall i :: 1 <= i <= total ==> i in fragments
  }

  /** The reassembly loop of `add_fragment`: numbers 1, 2, ..., n are looked
      up in order and the lines collected; `None` at the first missing one. */
  function Assemble(fragments: map<int, string>, n: int): (r: Option<seq<string>>)
    ensures r.Some? <==> AllPresent(fragments, n)
    ensures r.Some? ==> |r.value| == (if n < 0 then 0 else n)
    decreases n
  {
    if n <= 0 then Some([])
    else
      match Assemble(fragments, n - 1)
      case None => None
      case Some(prefix) => if n in fragments then Some(prefix + [fragments[n]]) else None
  }

  /** The assembled list holds fragment `i` at position `i - 1`. */
  lemma {:induction false} AssembleLines(fragments: map<int, string>, n: int)
    requires Assemble(fragments, n).Some?
    ensures forall i :: 1 <= i <= n ==> Assemble(fragments, n).value[i - 1] == fragments[i]
    decreases n
  {
    if n > 0 {
      AssembleLines(fragments, n - 1);
    }
  }

  /** What one `add_fragment` call returns and leaves in the buffer. */
  datatype AddResult = AddResult(buffer: Buffer, assembled: Option<seq<string>>)

  /** `add_fragment` on the whole buffer. The entry is created only when its
      key is absent; the line is stored under its number (overwriting);
      completion compares the number of stored fragments with the `total`
      argument of THIS call, then needs every number 1..total. */
  function Add(buf: Buffer, line: string, total: int, number: int,
               messageId: Option<string>, channel: string, now: int): AddResult
  {
    AddAt(buf, BufferKey(messageId, channel, total), line, total, number, now)
  }

  /** The rest of `add_fragment` once the key is derived. */
  function AddAt(buf: Buffer, key: string, line: string, total: int, number: int, now: int): AddResult
  {
    var entry := if key in buf then buf[key] else Pending(map[], total, now);
    var entry' := entry.(fragments := entry.fragments[number := line]);
    if |entry'.fragments| == total && Assemble(entry'.fragments, total).Some? then
      AddResult(buf - {key}, Assemble(entry'.fragments, total))
    else
      AddResult(buf[key := entry'], None)
  }

  /** Strictly older than `maxAge` seconds at time `now`. */
  predicate Expired(p: Pending, now: int, maxAge: int) {
    now - p.timestamp > maxAge
  }

  /** `cleanup_old_fragments`: the entries that are not expired. */
  function Evict(buf: Buffer, now: int, maxAge: int): Buffer {
    map k | k in buf && !Expired(buf[k], now, maxAge) :: buf[k]
  }

  // ------------------------------------------------------------ lemmas

  /** `Add` on a key whose pending fragments are known to be `f`. */
  lemma AddAtKnown(b: Buffer, line: string, total: int, n: int,
                   messageId: Option<string>, channel: string, now: int,
                   f: map<int, string>, storedTotal: int, stamp: int)
    requires var key := BufferKey(messageId, channel, total);
      (key !in b && f == map[] && storedTotal == total && stamp == now)
      || (key in b && b[key] == Pending(f, storedTotal, stamp))
    ensures var key := BufferKey(messageId, channel, total);
      var f' := f[n := line];
      Add(b, line, total, n, messageId, channel, now) ==
        if |f'| == total && Assemble(f', total).Some? then AddResult(b - {key}, Assemble(f', total))
        else AddResult(b[key := Pending(f', storedTotal, stamp)], None)
  {
  }

  /** A call touches only the key it derives: every other entry is kept
      as it was. */
  lemma AddOtherKeysUntouched(buf: Buffer, line: string, total: int, number: int,
                              messageId: Option<string>, channel: string, now: int, k: string)
    requires k != BufferKey(messageId, channel, total)
    ensures var r := Add(buf, line, total, number, messageId, channel, now);
      (k in r.buffer <==> k in buf) && (k in buf ==> r.buffer[k] == buf[k])
  {
  }

  /** A fragment that does not complete its message leaves it pending with
      the line stored under its number; an existing entry keeps its total
      and creation time, and a new one takes the call's total and `now`. */
  lemma AddIncomplete(buf: Buffer, line: string, total: int, number: int,
                      messageId: Option<string>, channel: string, now: int)
    requires Add(buf, line, total, number, messageId, channel, now).assembled.None?
    ensures var key := BufferKey(messageId, channel, total);
      var r := Add(buf, line, total, number, messageId, channel, now);
      && key in r.buffer
      && r.buffer[key].fragments == (if key in buf then buf[key].fragments else map[])[number := line]
      && (key in buf ==> r.buffer[key].total == buf[key].total && r.buffer[key].timestamp == buf[key].timestamp)
      && (key !in buf ==> r.buffer[key].total == total && r.buffer[key].timestamp == now)
  {
  }

  /** Receiving a fragment number a second time replaces its line and does
      not change how many fragments are pending. */
  lemma AddRepeatedFragment(buf: Buffer, line: string, total: int, number: int,
                            messageId: Option<string>, channel: string, now: int)
    requires BufferKey(messageId, channel, total) in buf
    requires number in buf[BufferKey(messageId, channel, total)].fragments
    requires |buf[BufferKey(messageId, channel, total)].fragments| != total
    ensures var key := BufferKey(messageId, channel, total);
      var r := Add(buf, line, total, number, messageId, channel, now);
      && r.assembled == None
      && |r.buffer[key].fragments| == |buf[key].fragments|
      && r.buffer[key].fragments[number] == line
  {
    var key := BufferKey(messageId, channel, total);
    var f := buf[key].fragments;
    assert f[number := line].Keys == f.Keys;
  }

  /** A completed message is handed out in fragment order 1..total and its
      entry is removed; it completes exactly when the stored count equals
      the call's total and no number 1..total is missing. */
  lemma AddComplete(buf: Buffer, line: string, total: int, number: int,
                    messageId: Option<string>, channel: string, now: int)
    ensures var key := BufferKey(messageId, channel, total);
      var r := Add(buf, line, total, number, messageId, channel, now);
      var old_ := if key in buf then buf[key].fragments else map[];
      var f := old_[number := line];
      && (r.assembled.Some? <==> |f| == total && AllPresent(f, total))
      && (r.assembled.Some? ==>
            && total >= 1
            && key !in r.buffer
            && |r.assembled.value| == total
            && (forall i :: 1 <= i <= total ==> r.assembled.value[i - 1] == f[i]))
  {
    var key := BufferKey(messageId, channel, total);
    var old_ := if key in buf then buf[key].fragments else map[];
    var f := old_[number := line];
    assert number in f;
    assert |f| >= 1 by { assert number in f.Keys; }
    if |f| == total && AllPresent(f, total) {
      AssembleLines(f, total);
    }
  }

  /** A count that matches while a number in 1..total is missing (because an
      out-of-range number was stored) returns None and keeps the entry. */
  lemma AddCountMatchesButGap(buf: Buffer, line: string, total: int, number: int,
                              messageId: Option<string>, channel: string, now: int, missing: int)
    requires var key := BufferKey(messageId, channel, total);
      var f := (if key in buf then buf[key].fragments else map[])[number := line];
      |f| == total && 1 <= missing <= total && missing !in f
    ensures var r := Add(buf, line, total, number, messageId, channel, now);
      r.assembled == None && BufferKey(messageId, channel, total) in r.buffer
  {
  }

  /** Completion is checked against the total carried by the current call,
      not the stored one: an entry created by 3-part fragments completes,
      short of its third part, when a fragment claiming 2 parts arrives. */
  lemma CompletionUsesCallTotal()
    ensures var first := Add(map[], "p1", 3, 1, Some("7"), "A", 0);
      var second := Add(first.buffer, "p2", 2, 2, Some("7"), "A", 1);
      && first.assembled == None
      && "7_A" in first.buffer && first.buffer["7_A"].total == 3
      && second.assembled == Some(["p1", "p2"])
  {
    assert BufferKey(Some("7"), "A", 3) == "7_A";
    assert BufferKey(Some("7"), "A", 2) == "7_A";
    var f1 := map[1 := "p1"];
    assert f1.Keys == {1};
    assert |f1| == 1;
    AddAtKnown(map[], "p1", 3, 1, Some("7"), "A", 0, map[], 3, 0);
    var first := Add(map[], "p1", 3, 1, Some("7"), "A", 0);
    assert first == AddResult(map["7_A" := Pending(f1, 3, 0)], None);
    var f2 := f1[2 := "p2"];
    assert f2.Keys == {1, 2};
    assert |f2| == 2;
    AddAtKnown(first.buffer, "p2", 2, 2, Some("7"), "A", 1, f1, 3, 0);
    assert AllPresent(f2, 2) by { assert 1 in f2 && 2 in f2; }
    AssembleLines(f2, 2);
    assert Assemble(f2, 2).value == ["p1", "p2"];
  }

  /** Eviction removes exactly the entries strictly older than `maxAge` and
      keeps all others unchanged. */
  lemma EvictExactly(buf: Buffer, now: int, maxAge: int, k: string)
    ensures k in Evict(buf, now, maxAge) <==> k in buf && !Expired(buf[k], now, maxAge)
    ensures k in Evict(buf, now, maxAge) ==> Evict(buf, now, maxAge)[k] == buf[k]
  {
  }

  /** Once evicted, a message cannot be completed by its old fragments: the
      next fragment with that key starts a fresh entry holding only itself. */
  lemma EvictedThenFresh(buf: Buffer, now: int, maxAge: int, line: string, total: int, number: int,
                         messageId: Option<string>, channel: string, later: int)
    requires var key := BufferKey(messageId, channel, total);
      key in buf && Expired(buf[key], now, maxAge)
    requires total != 1 || number != 1
    ensures var key := BufferKey(messageId, channel, total);
      var r := Add(Evict(buf, now, maxAge), line, total, number, messageId, channel, later);
      && r.assembled == None
      && r.buffer[key] == Pending(map[number := line], total, later)
  {
    var key := BufferKey(messageId, channel, total);
    assert key !in Evict(buf, now, maxAge);
    var f := map[number := line];
    assert f.Keys == {number};
    if |f| == total {
      assert total == 1;
      assert !AllPresent(f, total) by { assert 1 !in f; }
    }
  }

  // ------------------------------------------------- any-order reassembly

  /** Adds the fragments numbered `order[0]`, `order[1]`, ... with line
      `lines[n - 1]` for number `n`, all under `key` with total `|lines|`;
      yields the last call's result. With `key == BufferKey(id, channel,
      |lines|)` every step is exactly `Add(_, _, |lines|, n, id, channel, now)`. */
  function Replay(buf: Buffer, lines: seq<string>, order: seq<int>,
                  key: string, now: int): AddResult
    requires InRange(order, |lines|)
  {
    if |order| == 0 then AddResult(buf, None)
    else
      var prev := Replay(buf, lines, order[..|order| - 1], key, now);
      var n := order[|order| - 1];
      AddAt(prev.buffer, key, lines[n - 1], |lines|, n, now)
  }

  /** Every number in `order` is a fragment number 1..n. */
  predicate InRange(order: seq<int>, n: nat) {
    forall i :: 0 <= i < |order| ==> 1 <= order[i] <= n
  }

  predicate Distinct(s: seq<int>) {
    forall i, j :: 0 <= i < j < |s| ==> s[i] != s[j]
  }

  /** `order` lists each of the numbers 1..n once. */
  predicate IsOrdering(order: seq<int>, n: nat) {
    |order| == n && Distinct(order) && InRange(order, n)
  }

  /** The fragments stored after submitting `order`: number `n` holds
      `lines[n - 1]`. */
  function Collected(lines: seq<string>, order: seq<int>): (f: map<int, string>)
    requires InRange(order, |lines|)
    ensures f.Keys == set i | i in order
  {
    map n | n in order :: lines[n - 1]
  }

  lemma {:induction false} DistinctCard(s: seq<int>)
    requires Distinct(s)
    ensures |set i | i in s| == |s|
  {
    if |s| > 0 {
      var s' := s[..|s| - 1];
      DistinctCard(s');
      assert (set i | i in s) == (set i | i in s') + {s[|s| - 1]};
      assert s[|s| - 1] !in s';
    }
  }

  /** The numbers 1..n. */
  function Range(n: nat): (r: seq<int>)
    ensures |r| == n && forall j :: 0 <= j < n ==> r[j] == j + 1
  {
    seq(n, j => j + 1)
  }

  lemma RangeSet(n: nat)
    ensures forall i :: i in Range(n) <==> 1 <= i <= n
  {
    forall i | 1 <= i <= n ensures i in Range(n) { assert Range(n)[i - 1] == i; }
  }

  lemma RangeCard(n: nat)
    ensures |set i | i in Range(n)| == n
  {
    assert Distinct(Range(n));
    DistinctCard(Range(n));
  }

  /** `n` distinct numbers drawn from 1..n are all of 1..n. */
  lemma Pigeonhole(s: set<int>, n: nat)
    requires forall i :: i in s ==> 1 <= i <= n
    requires |s| == n
    ensures forall i :: 1 <= i <= n ==> i in s
  {
    var range := set i | i in Range(n);
    RangeCard(n);
    RangeSet(n);
    forall i | i in s ensures i in range { }
    var missing := range - s;
    assert range == s + missing && s * missing == {};
    assert |range| == |s| + |missing|;
    forall i | 1 <= i <= n ensures i in s {
      if i !in s {
      }
    }
  }

  /** The last step of a replay is one more `add_fragment` call. */
  lemma ReplayStep(buf: Buffer, lines: seq<string>, order: seq<int>,
                   key: string, now: int, n: int)
    requires InRange(order, |lines|)
    requires |order| >= 1 && n == order[|order| - 1]
    ensures Replay(buf, lines, order, key, now)
        == AddAt(Replay(buf, lines, order[..|order| - 1], key, now).buffer,
                 key, lines[n - 1], |lines|, n, now)
  {
  }

  /** The fragments of `order` are those of its first part plus the last. */
  lemma CollectedStep(lines: seq<string>, order: seq<int>, n: int, pre: seq<int>)
    requires InRange(order, |lines|)
    requires |order| >= 1 && n == order[|order| - 1] && pre == order[..|order| - 1]
    ensures InRange(pre, |lines|) && 1 <= n <= |lines|
    ensures Collected(lines, order) == Collected(lines, pre)[n := lines[n - 1]]
  {
    assert order == pre + [n];
    assert forall i :: i in order <==> i in pre || i == n;
  }

  /** Distinct fragment numbers give as many collected fragments. */
  lemma CollectedCard(lines: seq<string>, order: seq<int>)
    requires InRange(order, |lines|)
    requires Distinct(order)
    ensures |Collected(lines, order)| == |order|
  {
    DistinctCard(order);
    assert |Collected(lines, order)| == |Collected(lines, order).Keys|;
  }

  /** Adding a fragment that does not complete the pending entry under
      `key` only stores it there. */
  lemma AddPendingStep(b: Buffer, prev: Buffer, line: string, total: int, n: int,
                       key: string, now: int,
                       f: map<int, string>, f': map<int, string>)
    requires key !in b
    requires f' == f[n := line] && |f'| < total
    requires (prev == b && f == map[]) || prev == b[key := Pending(f, total, now)]
    ensures AddAt(prev, key, line, total, n, now)
        == AddResult(b[key := Pending(f', total, now)], None)
  {
    assert b[key := Pending(f, total, now)][key := Pending(f', total, now)]
        == b[key := Pending(f', total, now)];
  }

  /** Adding the fragment that completes the pending entry under `key`
      hands out the ordered lines and restores the rest of the buffer. */
  lemma AddFinalStep(b: Buffer, prev: Buffer, line: string, total: int, n: int,
                     key: string, now: int,
                     f: map<int, string>, f': map<int, string>, lines: seq<string>)
    requires key !in b
    requires f' == f[n := line] && |f'| == total && Assemble(f', total) == Some(lines)
    requires (prev == b && f == map[]) || prev == b[key := Pending(f, total, now)]
    ensures AddAt(prev, key, line, total, n, now) == AddResult(b, Some(lines))
  {
    assert b[key := Pending(f, total, now)] - {key} == b;
  }

  /** The state after the fragments of `order`, none completing. */
  predicate PendingAfter(buf: Buffer, lines: seq<string>, order: seq<int>,
                         key: string, now: int)
    requires InRange(order, |lines|)
  {
    Replay(buf, lines, order, key, now)
      == AddResult(buf[key := Pending(Collected(lines, order), |lines|, now)], None)
  }

  /** The `add_fragment` call for the last number of `order`, made on the
      buffer left by the numbers before it, leaves all of `order` pending. */
  lemma PendingFromPrevious(buf: Buffer, prev: Buffer, lines: seq<string>, order: seq<int>,
                            key: string, now: int)
    requires InRange(order, |lines|) && Distinct(order)
    requires key !in buf
    requires 1 <= |order| < |lines|
    requires var pre := order[..|order| - 1];
      (|pre| == 0 && prev == buf)
      || prev == buf[key := Pending(Collected(lines, pre), |lines|, now)]
    ensures var n := order[|order| - 1];
      AddAt(prev, key, lines[n - 1], |lines|, n, now)
        == AddResult(buf[key := Pending(Collected(lines, order), |lines|, now)], None)
  {
    var n := order[|order| - 1];
    var pre := order[..|order| - 1];
    CollectedStep(lines, order, n, pre);
    CollectedCard(lines, order);
    if |pre| == 0 {
      assert Collected(lines, pre) == map[];
    }
    AddPendingStep(buf, prev, lines[n - 1], |lines|, n, key, now,
                   Collected(lines, pre), Collected(lines, order));
  }

  /** One inductive step: from the buffer after `order` without its last
      number to the buffer after all of `order`. */
  lemma PendingStep(buf: Buffer, lines: seq<string>, order: seq<int>,
                    key: string, now: int)
    requires InRange(order, |lines|) && Distinct(order)
    requires key !in buf
    requires 1 <= |order| < |lines|
    requires |order| == 1 || PendingAfter(buf, lines, order[..|order| - 1], key, now)
    ensures PendingAfter(buf, lines, order, key, now)
  {
    var pre := order[..|order| - 1];
    ReplayStep(buf, lines, order, key, now, order[|order| - 1]);
    PendingFromPrevious(buf, Replay(buf, lines, pre, key, now).buffer, lines, order, key, now);
  }

  /** Before the last fragment arrives the message stays pending, holding
      exactly the fragments seen so far. */
  lemma {:induction false} ReplayPending(buf: Buffer, lines: seq<string>, order: seq<int>,
                                         key: string, now: int)
    requires InRange(order, |lines|) && Distinct(order)
    requires key !in buf
    requires 1 <= |order| < |lines|
    ensures PendingAfter(buf, lines, order, key, now)
  {
    if |order| > 1 {
      ReplayPending(buf, lines, order[..|order| - 1], key, now);
    }
    PendingStep(buf, lines, order, key, now);
  }

  /** `n` distinct numbers from 1..n leave none of them uncollected. */
  lemma CollectedAllPresent(lines: seq<string>, order: seq<int>)
    requires IsOrdering(order, |lines|)
    ensures AllPresent(Collected(lines, order), |lines|)
  {
    var f := Collected(lines, order);
    CollectedCard(lines, order);
    assert |f.Keys| == |lines|;
    forall i | i in f.Keys ensures 1 <= i <= |lines| {
      var j :| 0 <= j < |order| && order[j] == i;
    }
    Pigeonhole(f.Keys, |lines|);
  }

  /** Fragments that hold `lines[i - 1]` under every number `i` assemble to
      `lines`. */
  lemma AssembleOf(f: map<int, string>, lines: seq<string>)
    requires forall i :: 1 <= i <= |lines| ==> i in f && f[i] == lines[i - 1]
    ensures Assemble(f, |lines|) == Some(lines)
  {
    assert AllPresent(f, |lines|);
    var r := Assemble(f, |lines|).value;
    AssembleLines(f, |lines|);
    assert |r| == |lines|;
    forall i | 0 <= i < |lines| ensures r[i] == lines[i] {
      assert r[i] == f[i + 1];
    }
    assert r == lines;
  }

  /** All of 1..N, in the order given, assemble to the lines themselves. */
  lemma CollectedAssembles(lines: seq<string>, order: seq<int>)
    requires IsOrdering(order, |lines|)
    ensures Assemble(Collected(lines, order), |lines|) == Some(lines)
  {
    var f := Collected(lines, order);
    CollectedAllPresent(lines, order);
    forall i | 1 <= i <= |lines| ensures i in f && f[i] == lines[i - 1] {
      assert i in f;
    }
    AssembleOf(f, lines);
  }

  /** What the last number of an ordering adds to the fragments before it. */
  lemma CollectedLast(lines: seq<string>, order: seq<int>, n: int, pre: seq<int>)
    requires IsOrdering(order, |lines|) && |lines| >= 1
    requires n == order[|order| - 1] && pre == order[..|order| - 1]
    ensures |Collected(lines, pre)[n := lines[n - 1]]| == |lines|
    ensures Assemble(Collected(lines, pre)[n := lines[n - 1]], |lines|) == Some(lines)
  {
    CollectedStep(lines, order, n, pre);
    CollectedCard(lines, order);
    CollectedAssembles(lines, order);
  }

  /** The last fragment of an ordering, added to a buffer that holds the
      fragments before it under its key (or to the untouched buffer when
      there are none), completes the message. */
  lemma FinalFromPrefix(buf: Buffer, lines: seq<string>, order: seq<int>, key: string, now: int,
                        prev: Buffer, n: int, f: map<int, string>, f': map<int, string>)
    requires InRange(order, |lines|) && |order| >= 1 && n == order[|order| - 1]
    requires key !in buf
    requires f' == f[n := lines[n - 1]] && |f'| == |lines| && Assemble(f', |lines|) == Some(lines)
    requires (prev == buf && f == map[]) || prev == buf[key := Pending(f, |lines|, now)]
    requires prev == Replay(buf, lines, order[..|order| - 1], key, now).buffer
    ensures Replay(buf, lines, order, key, now) == AddResult(buf, Some(lines))
  {
    AddFinalStep(buf, prev, lines[n - 1], |lines|, n, key, now, f, f', lines);
    ReplayStep(buf, lines, order, key, now, n);
  }

  /** The buffer left by all numbers of an ordering but the last holds
      them pending under `key`, or is untouched when there are none. */
  lemma PrefixState(buf: Buffer, lines: seq<string>, order: seq<int>, key: string, now: int)
      returns (prev: Buffer, f: map<int, string>)
    requires |lines| >= 1
    requires IsOrdering(order, |lines|)
    requires key !in buf
    ensures prev == Replay(buf, lines, order[..|order| - 1], key, now).buffer
    ensures f == Collected(lines, order[..|order| - 1])
    ensures (prev == buf && f == map[]) || prev == buf[key := Pending(f, |lines|, now)]
  {
    var pre := order[..|order| - 1];
    prev := Replay(buf, lines, pre, key, now).buffer;
    f := Collected(lines, pre);
    if |pre| > 0 {
      ReplayPending(buf, lines, pre, key, now);
    } else {
      assert f == map[];
    }
  }

  /** The full replay completes the message. */
  lemma ReplayLast(buf: Buffer, lines: seq<string>, order: seq<int>, key: string, now: int)
    requires |lines| >= 1
    requires IsOrdering(order, |lines|)
    requires key !in buf
    ensures Replay(buf, lines, order, key, now) == AddResult(buf, Some(lines))
  {
    var n := order[|order| - 1];
    var prev, f := PrefixState(buf, lines, order, key, now);
    CollectedLast(lines, order, n, order[..|order| - 1]);
    FinalFromPrefix(buf, lines, order, key, now, prev, n, f, f[n := lines[n - 1]]);
  }

  /** Fragments 1..N of one message, submitted in any order, produce nothing
      until the last and then exactly one list `[line_1, ..., line_N]`, after
      which the buffer is as it was before the first fragment. */
  lemma AnyOrderReassembles(buf: Buffer, lines: seq<string>, order: seq<int>,
                            messageId: Option<string>, channel: string, now: int)
    requires |lines| >= 1
    requires IsOrdering(order, |lines|)
    requires BufferKey(messageId, channel, |lines|) !in buf
    ensures var key := BufferKey(messageId, channel, |lines|);
      forall k :: 1 <= k < |lines| ==> Replay(buf, lines, order[..k], key, now).assembled == None
    ensures Replay(buf, lines, order, BufferKey(messageId, channel, |lines|), now) == AddResult(buf, Some(lines))
  {
    var key := BufferKey(messageId, channel, |lines|);
    forall k | 1 <= k < |lines|
      ensures Replay(buf, lines, order[..k], key, now).assembled == None
    {
      ReplayPending(buf, lines, order[..k], key, now);
    }
    ReplayLast(buf, lines, order, key, now);
  }

  // ------------------------------------------------------------- stats

  /** `get_stats`: number of pending entries and, per key, the text
      `received/total`. */
  datatype BufferStats = BufferStats(bufferedMessageCount: nat, bufferedMessages: map<string, string>)

  function Summary(p: Pending): string {
    IntToString(|p.fragments|) + "/" + IntToString(p.total)
  }

  /** The per-key summary reads back as the received count and the total. */
  lemma SummaryReadsBack(p: Pending)
    ensures Split(Summary(p), '/') == [IntToString(|p.fragments|), IntToString(p.total)]
    ensures ParseInt(Split(Summary(p), '/')[0]) == Some(|p.fragments|)
    ensures ParseInt(Split(Summary(p), '/')[1]) == Some(p.total)
  {
    var parts := [IntToString(|p.fragments|), IntToString(p.total)];
    assert Join(parts, '/') == Summary(p);
    SplitJoin(parts, '/');
    ParseIntToString(|p.fragments|);
    ParseIntToString(p.total);
  }

  // ------------------------------------------------------------- class

  class MultipartMessageBuffer {
    var buffer: Buffer

    constructor ()
      ensures buffer == map[]
    {
      buffer := map[];
    }

    /** `add_fragment`. */
    method AddFragment(line: string, total: int, number: int,
                       messageId: Option<string>, channel: string, now: int)
      returns (assembled: Option<seq<string>>)
      modifies this
      ensures var r := Add(old(buffer), line, total, number, messageId, channel, now);
        buffer == r.buffer && assembled == r.assembled
    {
      var key := BufferKey(messageId, channel, total);
      var entry := if key in buffer then buffer[key] else Pending(map[], total, now);
      entry := entry.(fragments := entry.fragments[number := line]);
      if |entry.fragments| == total {
        var sorted := SortFragments(entry.fragments, total);
        if sorted.Some? {
          buffer := buffer - {key};
          return sorted;
        }
      }
      buffer := buffer[key := entry];
      return None;
    }

    /** The reassembly loop of `add_fragment`: fragments 1..total in order,
        or `None` at the first number that is missing. */
    static method SortFragments(fragments: map<int, string>, total: int)
      returns (sorted: Option<seq<string>>)
      ensures sorted == Assemble(fragments, total)
    {
      var lines: seq<string> := [];
      var i := 1;
      while i <= total
        invariant 1 <= i && (total >= 0 ==> i <= total + 1) && (total < 0 ==> i == 1)
        invariant Assemble(fragments, i - 1) == Some(lines)
      {
        if i in fragments {
          lines := lines + [fragments[i]];
        } else {
          return None;
        }
        i := i + 1;
      }
      return Some(lines);
    }

    /** `cleanup_old_fragments`: collect the expired keys, then delete them. */
    method CleanupOldFragments(now: int, maxAge: int)
      modifies this
      ensures buffer == Evict(old(buffer), now, maxAge)
    {
      var keysToRemove: seq<string> := [];
      var remaining := buffer.Keys;
      while remaining != {}
        invariant remaining <= buffer.Keys
        invariant forall k :: k in keysToRemove <==>
          k in buffer && k !in remaining && Expired(buffer[k], now, maxAge)
        decreases remaining
      {
        var k :| k in remaining;
        if Expired(buffer[k], now, maxAge) {
          keysToRemove := keysToRemove + [k];
        }
        remaining := remaining - {k};
      }
      var j := 0;
      ghost var removed: set<string> := {};
      while j < |keysToRemove|
        invariant 0 <= j <= |keysToRemove|
        invariant removed == set i | 0 <= i < j :: keysToRemove[i]
        invariant buffer == old(buffer) - removed
      {
        removed := removed + {keysToRemove[j]};
        buffer := buffer - {keysToRemove[j]};
        j := j + 1;
      }
      assert forall k :: k in removed <==> k in keysToRemove;
    }

    /** `get_stats`. */
    function GetStats(): (s: BufferStats)
      reads this
      ensures s.bufferedMessageCount == |buffer|
      ensures s.bufferedMessages.Keys == buffer.Keys
      ensures forall k :: k in buffer ==> s.bufferedMessages[k] == Summary(buffer[k])
    {
      BufferStats(|buffer|, map k | k in buffer :: Summary(buffer[k]))
    }
  }
}
