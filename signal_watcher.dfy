/**
 * The signal watcher of paramedic/signal_watcher.go. `Once` looks up the
 * signal marker object once and sorts the answer into "not found", "error"
 * or "a signal"; `Start` polls forever and passes every signal it finds on.
 *
 * The object store and the JSON decoder are oracles: each poll is given the
 * answer `GetObject` produced for the watcher's bucket and key, and `decode`
 * stands for `json.Unmarshal` into the marker's one integer field.
 */
module SignalWatcher {
  import opened Common

  /** The error code the object store uses for a missing key. */
  const NoSuchKey: string := "NoSuchKey"

  /** Reading the object's body (`ioutil.ReadAll`). */
  datatype ReadOutcome = Read(data: seq<char>) | ReadFailed(text: string)

  /** The answer of one `GetObject` call. `awsCode` is `Some(Code())` when the
      error is an `awserr.Error`, `None` for any other error. */
  datatype Lookup =
    | Object(body: ReadOutcome)
    | LookupFailed(awsCode: Option<string>, text: string)

  /** The three results of `Once`: `(nil, nil)`, `(nil, err)` and `(&s, nil)`. */
  datatype Poll = NotFound | Failed(err: string) | Found(signal: int)

  predicate IsNoSuchKey(l: Lookup) {
    l.LookupFailed? && l.awsCode == Some(NoSuchKey)
  }

  /** `Once`: classify one lookup of the marker object. */
  function Once(l: Lookup, decode: seq<char> -> Result<int>): (r: Poll)
    // a missing marker is the only "not found", and it is not an error
    ensures r.NotFound? <==> IsNoSuchKey(l)
    // every other lookup error is reported as that error
    ensures l.LookupFailed? && !IsNoSuchKey(l) ==> r == Failed(l.text)
    // a body that cannot be read, or cannot be decoded, is an error, never a signal
    ensures l.Object? && l.body.ReadFailed? ==> r == Failed(l.body.text)
    ensures l.Object? && l.body.Read? && decode(l.body.data).Err? ==> r == Failed(decode(l.body.data).error)
    // a decoded marker yields its signal number
    ensures r.Found? <==> l.Object? && l.body.Read? && decode(l.body.data).Ok?
    ensures r.Found? ==> r.signal == decode(l.body.data).value
  {
    match l
    case LookupFailed(code, text) =>
      if code == Some(NoSuchKey) then NotFound else Failed(text)
    case Object(body) =>
      match body
      case ReadFailed(text) => Failed(text)
      case Read(data) =>
        match decode(data)
        case Err(e) => Failed(e)
        case Ok(s) => Found(s)
  }

  /** What one iteration of `Start`'s loop sends on its channel. */
  function Emit(p: Poll): (out: seq<int>)
    ensures |out| <= 1
    ensures |out| == 1 <==> p.Found?
  {
    if p.Found? then [p.signal] else []
  }

  /** The signals `Start` sends for a finite run of polls: the found signals, in poll order. */
  function Emitted(lookups: seq<Lookup>, decode: seq<char> -> Result<int>): (sent: seq<int>)
    // at most one signal per poll
    ensures |sent| <= |lookups|
    decreases |lookups|
  {
    if lookups == [] then []
    else Emitted(lookups[..|lookups| - 1], decode) + Emit(Once(lookups[|lookups| - 1], decode))
  }

  /** The number of polls that found a marker. */
  function CountFound(lookups: seq<Lookup>, decode: seq<char> -> Result<int>): (n: nat)
    ensures n <= |lookups|
  {
    if lookups == [] then 0
    else (if Once(lookups[0], decode).Found? then 1 else 0) + CountFound(lookups[1..], decode)
  }

  /** `Start`'s loop, run for as many polls as there are lookups. Errors and
      "not found" are skipped and never end the loop. */
  method Start(lookups: seq<Lookup>, decode: seq<char> -> Result<int>) returns (sent: seq<int>)
    ensures sent == Emitted(lookups, decode)
  {
    sent := [];
    var i := 0;
    while i < |lookups|
      invariant 0 <= i <= |lookups|
      invariant sent == Emitted(lookups[..i], decode)
    {
      assert lookups[..i + 1][..i] == lookups[..i];
      var p := Once(lookups[i], decode);
      if p.Failed? {
        i := i + 1;
        continue;
      }
      if p.NotFound? {
        i := i + 1;
        continue;
      }
      sent := sent + [p.signal];
      i := i + 1;
    }
    assert lookups[..i] == lookups;
  }

  /** Polls compose: the signals of two runs are the signals of their concatenation. */
  lemma {:induction false} EmittedAppend(a: seq<Lookup>, b: seq<Lookup>, decode: seq<char> -> Result<int>)
    ensures Emitted(a + b, decode) == Emitted(a, decode) + Emitted(b, decode)
    decreases |b|
  {
    if b == [] {
      assert a + b == a;
    } else {
      var b' := b[..|b| - 1];
      assert (a + b)[..|a + b| - 1] == a + b';
      assert (a + b)[|a + b| - 1] == b[|b| - 1];
      EmittedAppend(a, b', decode);
    }
  }

  /** Exactly one signal is sent per poll that found a marker, and none otherwise. */
  lemma {:induction false} EmittedCount(lookups: seq<Lookup>, decode: seq<char> -> Result<int>)
    ensures |Emitted(lookups, decode)| == CountFound(lookups, decode)
    decreases |lookups|
  {
    if lookups != [] {
      assert lookups == [lookups[0]] + lookups[1..];
      EmittedAppend([lookups[0]], lookups[1..], decode);
      assert [lookups[0]][..0] == [];
      EmittedCount(lookups[1..], decode);
    }
  }

  /** A marker that is still present on the next poll is sent again. */
  lemma RepeatedMarkerSentTwice(before: seq<Lookup>, l: Lookup, decode: seq<char> -> Result<int>)
    requires Once(l, decode).Found?
    ensures Emitted(before + [l, l], decode)
         == Emitted(before, decode) + [Once(l, decode).signal, Once(l, decode).signal]
  {
    assert (before + [l, l])[..|before| + 1] == before + [l];
    assert (before + [l])[..|before|] == before;
  }
}
