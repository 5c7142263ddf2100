/**
 * The log shipper of paramedic/writer.go: `CloudWatchLogsWriter` buffers each
 * write as one log entry, and a flush swaps the buffer out, splits every entry
 * into lines the way `bufio.ScanLines` does and sends them in one
 * `PutLogEvents` call, retrying the same batch with doubling sleeps until the
 * call succeeds.
 *
 * `PutLogEvents` and `CreateLogStream` are oracles: the answers of successive
 * calls are passed in. The clock is an input too: a write is given the time
 * it happens, in Unix nanoseconds. The background flush goroutine becomes
 * explicit steps: `Tick` is one timer-driven iteration, `Close` the last one.
 */
module LogEvents {
  import opened Common
  import opened Lines

  /** One buffered write; `timestamp` is `time.Time.UnixNano()`. */
  datatype LogEntry = LogEntry(text: string, timestamp: int)

  /** `cloudwatchlogs.InputLogEvent`; `timestamp` is in milliseconds. */
  datatype InputLogEvent = InputLogEvent(message: string, timestamp: int)

  /** `cloudwatchlogs.PutLogEventsInput`. */
  datatype PutLogEventsInput = PutLogEventsInput(
    group: string, stream: string, events: seq<InputLogEvent>, sequenceToken: Option<string>)

  /** One second as a `time.Duration` (nanoseconds). */
  const Second: nat := 1_000_000_000

  // ---------------------------------------------------------------------------
  // Entries to events

  /** Go's integer division, which truncates toward zero. */
  function GoDiv(a: int, b: int): int
    requires b > 0
  {
    if a >= 0 then a / b else -((-a) / b)
  }

  /** `UnixNano() / 1000 / 1000`: the timestamp in milliseconds. For times
      after the epoch the two truncating divisions are one division by a
      million; before it they round toward the epoch, not down. */
  function Millis(nanos: int): (ms: int)
    ensures nanos >= 0 ==> ms == nanos / 1_000_000 >= 0
    ensures nanos < 0 ==> ms == -((-nanos) / 1_000_000) <= 0
  {
    DivideTwice(if nanos >= 0 then nanos else -nanos);
    GoDiv(GoDiv(nanos, 1000), 1000)
  }

  /** Dividing by a thousand twice is dividing by a million. */
  lemma DivideTwice(n: nat)
    ensures n / 1000 / 1000 == n / 1_000_000
  {
    var q1, r1 := n / 1000, n % 1000;
    var q2, r2 := q1 / 1000, q1 % 1000;
    assert n == 1000 * q1 + r1;
    assert q1 == 1000 * q2 + r2;
    assert n == 1_000_000 * q2 + (1000 * r2 + r1);
    assert 0 <= 1000 * r2 + r1 < 1_000_000;
  }

  /** The events of one entry: its lines, all stamped with its time in milliseconds. */
  function EntryEvents(e: LogEntry): (events: seq<InputLogEvent>)
    ensures |events| == |ScanLines(e.text)|
  {
    var lines := ScanLines(e.text);
    seq(|lines|, j requires 0 <= j < |lines| => InputLogEvent(lines[j], Millis(e.timestamp)))
  }

  /** The events sent for a batch: the events of each entry, in buffer order. */
  function EventsOf(entries: seq<LogEntry>): (events: seq<InputLogEvent>)
    // one event per line of every entry, no more and no fewer
    ensures |events| == LineCount(entries)
    decreases |entries|
  {
    if entries == [] then []
    else EventsOf(entries[..|entries| - 1]) + EntryEvents(entries[|entries| - 1])
  }

  /** Appending one entry appends its events. */
  lemma EventsOfSnoc(entries: seq<LogEntry>, e: LogEntry)
    ensures EventsOf(entries + [e]) == EventsOf(entries) + EntryEvents(e)
  {
    var all := entries + [e];
    assert all[..|all| - 1] == entries;
  }

  /** Event order follows buffer order: the events of two batches back to back
      are the events of the first followed by those of the second. */
  lemma {:induction false} EventsOfAppend(a: seq<LogEntry>, b: seq<LogEntry>)
    ensures EventsOf(a + b) == EventsOf(a) + EventsOf(b)
    decreases |b|
  {
    if b == [] {
      assert a + b == a;
    } else {
      var b', e := b[..|b| - 1], b[|b| - 1];
      assert b == b' + [e];
      assert a + b == (a + b') + [e];
      calc {
        EventsOf(a + b);
        { EventsOfSnoc(a + b', e); }
        EventsOf(a + b') + EntryEvents(e);
        { EventsOfAppend(a, b'); }
        (EventsOf(a) + EventsOf(b')) + EntryEvents(e);
        { ConcatAssoc(EventsOf(a), EventsOf(b'), EntryEvents(e)); }
        EventsOf(a) + (EventsOf(b') + EntryEvents(e));
        { EventsOfSnoc(b', e); }
        EventsOf(a) + EventsOf(b);
      }
    }
  }

  /** The total number of lines in a batch. */
  function LineCount(entries: seq<LogEntry>): nat
    decreases |entries|
  {
    if entries == [] then 0
    else LineCount(entries[..|entries| - 1]) + |ScanLines(entries[|entries| - 1].text)|
  }

  /** The first message sent for the single write "abc\ndef" is "abc". */
  lemma FirstEventExample(t: int)
    ensures EventsOf([LogEntry("abc\ndef", t)])[0] == InputLogEvent("abc", Millis(t))
  {
    var e := LogEntry("abc\ndef", t);
    ScanLinesExample();
    assert [e][..0] == [];
    assert EventsOf([e]) == EntryEvents(e);
    assert EntryEvents(e)[0] == InputLogEvent(ScanLines(e.text)[0], Millis(t));
  }

  /** `putEvents` builds its events with two nested loops: over the entries,
      and over the tokens the scanner yields for each. */
  method BuildEvents(entries: seq<LogEntry>) returns (events: seq<InputLogEvent>)
    requires forall k :: 0 <= k < |entries| ==> WithinTokenLimit(entries[k].text)
    ensures events == EventsOf(entries)
  {
    events := [];
    for i := 0 to |entries|
      invariant events == EventsOf(entries[..i])
    {
      var e := entries[i];
      var lines := ScanLines(e.text);
      var ms := Millis(e.timestamp);
      ghost var before := events;
      var j := 0;
      while j < |lines|
        invariant 0 <= j <= |lines|
        invariant events == before + EntryEvents(e)[..j]
      {
        events := events + [InputLogEvent(lines[j], ms)];
        j := j + 1;
        assert EntryEvents(e)[..j] == EntryEvents(e)[..j - 1] + [EntryEvents(e)[j - 1]];
      }
      assert EntryEvents(e)[..j] == EntryEvents(e);
      assert entries[..i + 1][..i] == entries[..i];
    }
    assert entries[..|entries|] == entries;
  }

  /** The `PutLogEvents` request for a batch: no token is sent while the
      writer's token is still empty. */
  function Request(group: string, stream: string, entries: seq<LogEntry>, token: string): (r: PutLogEventsInput)
    ensures r.events == EventsOf(entries)
    ensures r.sequenceToken.None? <==> token == ""
    ensures r.sequenceToken.Some? ==> r.sequenceToken.value == token
  {
    PutLogEventsInput(group, stream, EventsOf(entries), if token == "" then None else Some(token))
  }

  function Pow2(n: nat): (p: nat)
    ensures p >= 1
  {
    if n == 0 then 1 else 2 * Pow2(n - 1)
  }

  /** The wait before retry `n + 1`: one second, doubled after each failure. */
  function Backoff(n: nat): nat {
    if n == 0 then Second else 2 * Backoff(n - 1)
  }

  /** The waits after the first `n` failed attempts, in order. */
  function Backoffs(n: nat): (ws: seq<nat>)
    ensures |ws| == n
  {
    if n == 0 then [] else Backoffs(n - 1) + [Backoff(n - 1)]
  }

  /** The j-th wait is 2^j seconds, for every count of failures. */
  lemma {:induction false} BackoffsDouble(n: nat, j: nat)
    requires j < n
    ensures Backoffs(n)[j] == Second * Pow2(j)
  {
    if j < n - 1 {
      BackoffsDouble(n - 1, j);
    } else {
      BackoffIsPowerOfTwo(j);
    }
  }

  /** The n-th wait is 2^n seconds. */
  lemma {:induction false} BackoffIsPowerOfTwo(n: nat)
    ensures Backoff(n) == Second * Pow2(n)
  {
    if n > 0 {
      BackoffIsPowerOfTwo(n - 1);
      assert Second * (2 * Pow2(n - 1)) == 2 * (Second * Pow2(n - 1));
    }
  }

  /** `n` copies of `x`. */
  function Repeat<T>(x: T, n: nat): (r: seq<T>)
    ensures |r| == n
    ensures forall j :: 0 <= j < n ==> r[j] == x
  {
    if n == 0 then [] else Repeat(x, n - 1) + [x]
  }

  /** The position of the first successful answer, or `|answers|` if none succeeds. */
  function FirstSuccess(answers: seq<Result<string>>): (k: nat)
    ensures k <= |answers|
    ensures k < |answers| ==> answers[k].Ok?
    ensures forall j :: 0 <= j < k ==> answers[j].Err?
  {
    if answers == [] then 0
    else if answers[0].Ok? then 0
    else 1 + FirstSuccess(answers[1..])
  }

}

/**
 * The writer object itself: its buffer, its sequence token and the flush
 * loop's life cycle.
 */
module LogsWriter {
  import opened Common
  import opened Lines
  import opened LogEvents

  class CloudWatchLogsWriter {
    const group: string
    const stream: string
    /** The flush interval, in nanoseconds. */
    const interval: int
    var buffer: seq<LogEntry>
    var sequenceToken: string
    /** The flush goroutine has been started. */
    var started: bool
    /** The flush goroutine has seen the close request and signalled done. */
    var stopped: bool

    ghost predicate Valid()
      reads this
    {
      (forall k :: 0 <= k < |buffer| ==> WithinTokenLimit(buffer[k].text)) &&
      (stopped ==> started)
    }

    /** `NewCloudWatchLogsWriter`: an empty buffer and no sequence token yet. */
    constructor (group: string, stream: string, interval: int)
      ensures Valid()
      ensures this.group == group && this.stream == stream && this.interval == interval
      ensures buffer == [] && sequenceToken == ""
      ensures !started && !stopped
    {
      this.group := group;
      this.stream := stream;
      this.interval := interval;
      buffer := [];
      sequenceToken := "";
      started := false;
      stopped := false;
    }

    /** `Start`: create the log stream (`createErr` is `CreateLogStream`'s
        answer); only on success does the flush loop start. */
    method Start(createErr: Option<string>) returns (err: Option<string>)
      requires Valid()
      modifies this`started
      ensures Valid()
      ensures err == createErr
      ensures started == (old(started) || createErr.None?)
    {
      if createErr.Some? {
        return createErr;
      }
      started := true;
      err := None;
    }

    /** `Write`: append one entry holding the whole text, stamped `now`. It
        never fails and reports every byte as written. */
    method Write(p: string, now: int) returns (n: int, err: Option<string>)
      requires Valid()
      requires WithinTokenLimit(p)
      modifies this`buffer
      ensures Valid()
      ensures buffer == old(buffer) + [LogEntry(p, now)]
      ensures n == |p| && err.None?
    {
      buffer := buffer + [LogEntry(p, now)];
      n, err := |p|, None;
    }

    /** `putEvents`: send one request for `entries`; `answer` is what
        `PutLogEvents` returns. The token advances only on success. */
    method PutEvents(entries: seq<LogEntry>, answer: Result<string>)
      returns (input: PutLogEventsInput, err: Option<string>)
      requires forall k :: 0 <= k < |entries| ==> WithinTokenLimit(entries[k].text)
      modifies this`sequenceToken
      ensures input == Request(group, stream, entries, old(sequenceToken))
      ensures answer.Ok? ==> err.None? && sequenceToken == answer.value
      ensures answer.Err? ==> err == Some(answer.error) && sequenceToken == old(sequenceToken)
    {
      var events := BuildEvents(entries);
      var token := if sequenceToken != "" then Some(sequenceToken) else None;
      input := PutLogEventsInput(group, stream, events, token);
      match answer
      case Err(e) =>
        return input, Some(e);
      case Ok(next) =>
        sequenceToken := next;
        err := None;
    }

    /** `flushBuffer`: take the whole buffer as one batch, leaving it empty,
        then call `putEvents` until it succeeds, sleeping 1s, 2s, 4s, ...
        between attempts. `answers` are the answers of successive calls; the
        model follows as many attempts as there are answers, and `delivered`
        says whether one of them succeeded. */
    method FlushBuffer(answers: seq<Result<string>>)
      returns (batch: seq<LogEntry>, attempts: seq<PutLogEventsInput>, sleeps: seq<nat>, delivered: bool)
      requires Valid()
      modifies this`buffer, this`sequenceToken
      ensures Valid()
      ensures batch == old(buffer) && buffer == []
      ensures delivered <==> FirstSuccess(answers) < |answers|
      ensures |attempts| == if delivered then FirstSuccess(answers) + 1 else |answers|
      // every attempt carries the same batch with the same preceding token
      ensures forall j :: 0 <= j < |attempts| ==> attempts[j] == Request(group, stream, batch, old(sequenceToken))
      // one sleep per failed attempt, doubling from one second
      ensures sleeps == Backoffs(FirstSuccess(answers))
      ensures sequenceToken == if delivered then answers[FirstSuccess(answers)].value else old(sequenceToken)
    {
      batch := buffer;
      buffer := [];
      attempts, sleeps, delivered := Retry(batch, answers);
    }

    /** The retry loop of `flushBuffer` for one batch. */
    method Retry(batch: seq<LogEntry>, answers: seq<Result<string>>)
      returns (attempts: seq<PutLogEventsInput>, sleeps: seq<nat>, delivered: bool)
      requires forall k :: 0 <= k < |batch| ==> WithinTokenLimit(batch[k].text)
      modifies this`sequenceToken
      ensures delivered <==> FirstSuccess(answers) < |answers|
      ensures |attempts| == if delivered then FirstSuccess(answers) + 1 else |answers|
      ensures forall j :: 0 <= j < |attempts| ==> attempts[j] == Request(group, stream, batch, old(sequenceToken))
      ensures sleeps == Backoffs(FirstSuccess(answers))
      ensures sequenceToken == if delivered then answers[FirstSuccess(answers)].value else old(sequenceToken)
    {
      ghost var request := Request(group, stream, batch, sequenceToken);
      var sleep: nat := Second;
      attempts, sleeps, delivered := [], [], false;
      var i := 0;
      while i < |answers|
        invariant 0 <= i <= FirstSuccess(answers)
        invariant attempts == Repeat(request, i)
        invariant sleeps == Backoffs(i)
        invariant sleep == Backoff(i)
        invariant sequenceToken == old(sequenceToken)
        invariant !delivered
        decreases |answers| - i
      {
        var input, err := PutEvents(batch, answers[i]);
        attempts := attempts + [input];
        if err.None? {
          assert FirstSuccess(answers) == i;
          delivered := true;
          break;
        }
        sleeps := sleeps + [sleep];
        sleep := sleep * 2;
        i := i + 1;
      }
      assert !delivered ==> i == FirstSuccess(answers) == |answers|;
    }

    /** One timer-driven iteration of the flush loop; nothing happens unless
        the loop was started and has not stopped. */
    method Tick(answers: seq<Result<string>>)
      returns (flushed: bool, attempts: seq<PutLogEventsInput>, delivered: bool)
      requires Valid()
      modifies this`buffer, this`sequenceToken
      ensures Valid()
      ensures flushed == (started && !stopped)
      ensures !flushed ==>
                buffer == old(buffer) && sequenceToken == old(sequenceToken) && attempts == [] && !delivered
      ensures flushed ==>
                buffer == [] &&
                (delivered <==> FirstSuccess(answers) < |answers|) &&
                |attempts| == (if delivered then FirstSuccess(answers) + 1 else |answers|) &&
                (forall j :: 0 <= j < |attempts| ==> attempts[j] == Request(group, stream, old(buffer), old(sequenceToken))) &&
                sequenceToken == (if delivered then answers[FirstSuccess(answers)].value else old(sequenceToken))
    {
      flushed, attempts, delivered := started && !stopped, [], false;
      if flushed {
        var batch, sleeps;
        batch, attempts, sleeps, delivered := FlushBuffer(answers);
      }
    }

    /** `Close`: ask the loop to stop; it runs one final `flushBuffer` and only
        then signals done, so `Close` returns only after that flush has been
        delivered. Without a running loop nobody receives the request and
        `Close` never returns. */
    method Close(answers: seq<Result<string>>)
      returns (returned: bool, batch: seq<LogEntry>, attempts: seq<PutLogEventsInput>)
      requires Valid()
      modifies this`buffer, this`sequenceToken, this`stopped
      ensures Valid()
      ensures !old(started) || old(stopped) ==>
                !returned && attempts == [] &&
                buffer == old(buffer) && sequenceToken == old(sequenceToken) && stopped == old(stopped)
      ensures old(started) && !old(stopped) ==>
                batch == old(buffer) && buffer == [] &&
                returned == (FirstSuccess(answers) < |answers|) && stopped == returned &&
                |attempts| == (if returned then FirstSuccess(answers) + 1 else |answers|) &&
                (forall j :: 0 <= j < |attempts| ==> attempts[j] == Request(group, stream, batch, old(sequenceToken))) &&
                sequenceToken == (if returned then answers[FirstSuccess(answers)].value else old(sequenceToken))
      ensures returned ==> stopped && buffer == [] && sequenceToken == answers[FirstSuccess(answers)].value
    {
      returned, batch, attempts := false, [], [];
      if !started || stopped {
        return;
      }
      var sleeps, delivered;
      batch, attempts, sleeps, delivered := FlushBuffer(answers);
      if delivered {
        stopped := true;
        returned := true;
      }
    }
  }
}
