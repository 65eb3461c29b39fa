/**
 The ingestion side of the server: which watch events are handled, what
 a handled event reads, and what it sends; plus the connection handler,
 and a trace of events over which the client set evolves.
 */
module Server {
  import opened Results
  import opened Message
  import opened DdosReader
  import opened Clients

  /** `path.join('./output', name)` normalises the directory to this. */
  const WatchedDir: string := "output"
  const FilePrefix: string := "predictions-"
  const FileSuffix: string := ".csv"

  predicate StartsWith(s: string, prefix: string)
  {
    prefix <= s
  }

  predicate EndsWith(s: string, suffix: string)
  {
    |suffix| <= |s| && s[|s| - |suffix|..] == suffix
  }

  /** The watch callback's guard: a file name is given and looks like `predictions-*.csv`. */
  predicate Handled(filename: Option<string>)
  {
    filename.Some? && StartsWith(filename.value, FilePrefix) && EndsWith(filename.value, FileSuffix)
  }

  /**
   A name passes the guard exactly when it is the prefix, some stem and
   the suffix: the prefix and the suffix can never overlap.
   */
  lemma HandledIffShaped(name: string)
    ensures Handled(Some(name)) <==> exists stem :: name == FilePrefix + stem + FileSuffix
  {
    if Handled(Some(name)) {
      assert forall k :: 0 <= k < |FilePrefix| ==> FilePrefix[k] != '.';
      assert name[|name| - |FileSuffix|] == '.';
      var stem := name[|FilePrefix|..|name| - |FileSuffix|];
      assert name == FilePrefix + stem + FileSuffix;
    }
    if exists stem :: name == FilePrefix + stem + FileSuffix {
      var stem :| name == FilePrefix + stem + FileSuffix;
      assert name[..|FilePrefix|] == FilePrefix;
      assert name[|name| - |FileSuffix|..] == FileSuffix;
    }
  }

  /** The path the handler reads for an accepted file name. */
  function FilePath(name: string): string
  {
    WatchedDir + "/" + name
  }

  /**
   Which read the watch callback performs: the code as written, where a
   file-stream error is thrown and ends the process, or the intended one,
   where every read error reaches the `.catch` and is logged.
   */
  datatype Mode = AsWritten | CatchSourceErrors

  /** What one watch event leads to. */
  datatype Effect =
    | Ignored                                               // the guard rejected the event: nothing read
    | ReadFailed(path: string, reason: string)              // the read rejected: logged only
    | Crashed(path: string, reason: string)                 // an unlistened `error` event ended the process
    | Read(path: string, value: JsValue, sends: seq<Send>)  // the read resolved with `value`

  /** The sends an effect performs. */
  function SendsOf(e: Effect): seq<Send>
  {
    if e.Read? then e.sends else []
  }

  /** The `.then` handler: the `null` guard, then the fan-out of the value's text. */
  function Resolve(path: string, v: JsValue, clients: seq<Client>): Effect
  {
    Read(path, v, if v != Null then FanOut(clients, Stringify(v)) else [])
  }

  /**
   The `fs.watch` callback for one event, given what reading the file
   yields and the client set at the time the read resolves.
   */
  function OnWatchEvent(mode: Mode, filename: Option<string>, stream: CsvStream, clients: seq<Client>): (e: Effect)
    ensures e.Ignored? <==> !Handled(filename)
    ensures !e.Ignored? ==> e.path == FilePath(filename.value)
    ensures e.Crashed? <==> Handled(filename) && mode == AsWritten && stream.end.SourceFailed?
    ensures e.ReadFailed? <==>
              Handled(filename) && (stream.end.ParseFailed? || (mode == CatchSourceErrors && stream.end.SourceFailed?))
    ensures e.Crashed? || e.ReadFailed? ==> e.reason == stream.end.reason
    ensures e.Read? && |stream.rows| == 0 ==> e.sends == []
    ensures e.Read? && |stream.rows| > 0 ==>
              e.sends == FanOut(clients, Stringify(Field(stream.rows[|stream.rows| - 1])))
  {
    if !Handled(filename) then Ignored
    else
      var path := FilePath(filename.value);
      match mode
      case AsWritten =>
        (match ReadDdosPercentage(stream)
         case Uncaught(reason) => Crashed(path, reason)
         case Rejected(reason) => ReadFailed(path, reason)
         case Resolved(v) => Resolve(path, v, clients))
      case CatchSourceErrors =>
        (match ReadDdosPercentageGuarded(stream)
         case Err(reason) => ReadFailed(path, reason)
         case Ok(v) => Resolve(path, v, clients))
  }

  /** Only a handled event that reads successfully can send anything. */
  lemma NoSendsUnlessRead(mode: Mode, filename: Option<string>, stream: CsvStream, clients: seq<Client>)
    requires !Handled(filename) || !stream.end.Ended? || |stream.rows| == 0
    ensures SendsOf(OnWatchEvent(mode, filename, stream, clients)) == []
  {
  }

  /**
   A last row without a `DDOS%` cell still broadcasts: every OPEN client
   receives the text `{}`.
   */
  lemma MissingColumnStillBroadcasts(mode: Mode, filename: Option<string>, stream: CsvStream, clients: seq<Client>, c: Client)
    requires Handled(filename) && stream.end == Ended && |stream.rows| > 0
    requires DdosColumn !in stream.rows[|stream.rows| - 1]
    requires c in clients && c.state == Open
    ensures Send(c.id, "{}") in SendsOf(OnWatchEvent(mode, filename, stream, clients))
  {
  }

  /**
   One broadcast: every recipient gets the same text, which parses back to
   the raw value of the last row, and the OPEN clients get it exactly once.
   */
  lemma BroadcastDeliversValue(mode: Mode, filename: Option<string>, stream: CsvStream, clients: seq<Client>, id: nat)
    requires Handled(filename) && stream.end == Ended && |stream.rows| > 0
    requires DistinctIds(clients)
    ensures var sends := SendsOf(OnWatchEvent(mode, filename, stream, clients));
            && (forall s :: s in sends ==> ReadField(s.text) == Some(Field(stream.rows[|stream.rows| - 1])))
            && SendsTo(sends, id) == (if Client(id, Open) in clients then 1 else 0)
  {
    var v := Field(stream.rows[|stream.rows| - 1]);
    ReadFieldStringify(v);
    FanOutExactlyOnce(clients, Stringify(v), id);
  }

  /** The server's inputs, in the order the event loop handles them. */
  datatype Event =
    | Connection(id: nat)                           // a client completes its handshake
    | StateChange(id: nat, state: ReadyState)       // the `ws` library moves a client's readyState
    | Watch(filename: Option<string>, stream: CsvStream)

  /**
   The client set after some events, every send performed so far, and
   whether the process is still running.
   */
  datatype Outcome = Outcome(clients: seq<Client>, sends: seq<Send>, alive: bool)

  /**
   The `connection` handler: the `ws` library adds the new client, OPEN,
   to `wss.clients`; the handler itself only logs and sends nothing.
   */
  function OnConnection(clients: seq<Client>, id: nat): (r: Outcome)
    ensures r.sends == [] && r.alive
    ensures |r.clients| == |clients| + 1
    ensures r.clients[..|clients|] == clients && r.clients[|clients|] == Client(id, Open)
  {
    Outcome(clients + [Client(id, Open)], [], true)
  }

  /** One event of the trace. */
  function Step(mode: Mode, clients: seq<Client>, e: Event): (r: Outcome)
    ensures e.Watch? ==> r.clients == clients
    ensures forall s :: s in r.sends ==> Client(s.to, Open) in clients
    ensures !r.alive <==> mode == AsWritten && e.Watch? && Handled(e.filename) && e.stream.end.SourceFailed?
  {
    match e
    case Connection(id) => OnConnection(clients, id)
    case StateChange(id, state) => Outcome(SetState(clients, id, state), [], true)
    case Watch(filename, stream) =>
      var effect := OnWatchEvent(mode, filename, stream, clients);
      Outcome(clients, SendsOf(effect), !effect.Crashed?)
  }

  /** A step adds no client other than the one that connects. */
  lemma StepKnown(mode: Mode, clients: seq<Client>, e: Event, id: nat)
    requires !Known(clients, id) && e != Connection(id)
    ensures !Known(Step(mode, clients, e).clients, id)
  {
    var r := Step(mode, clients, e);
    forall i | 0 <= i < |r.clients|
      ensures r.clients[i].id != id
    {
      if i < |clients| {
        assert r.clients[i].id == clients[i].id;
      }
    }
  }

  /** The outcome after the events of a trace, continuing from `o`; a stopped process handles nothing. */
  function RunFrom(mode: Mode, o: Outcome, events: seq<Event>): Outcome
    decreases |events|
  {
    if |events| == 0 || !o.alive then o
    else
      var step := Step(mode, o.clients, events[0]);
      RunFrom(mode, Outcome(step.clients, o.sends + step.sends, step.alive), events[1..])
  }

  /** A trace of events from the client set `clients`, with nothing sent yet. */
  function Run(mode: Mode, clients: seq<Client>, events: seq<Event>): Outcome
  {
    RunFrom(mode, Outcome(clients, [], true), events)
  }

  /** Running two traces one after the other is running their concatenation. */
  lemma {:induction false} RunFromAppend(mode: Mode, o: Outcome, a: seq<Event>, b: seq<Event>)
    ensures RunFrom(mode, o, a + b) == RunFrom(mode, RunFrom(mode, o, a), b)
    decreases |a|
  {
    if |a| == 0 {
      assert a + b == b;
    } else if o.alive {
      var step := Step(mode, o.clients, a[0]);
      assert (a + b)[0] == a[0];
      assert (a + b)[1..] == a[1..] + b;
      RunFromAppend(mode, Outcome(step.clients, o.sends + step.sends, step.alive), a[1..], b);
    }
  }

  /** Later events only add sends: whatever was sent so far stays a prefix of what is sent after them. */
  lemma {:induction false} RunFromExtends(mode: Mode, o: Outcome, events: seq<Event>)
    ensures o.sends <= RunFrom(mode, o, events).sends
    decreases |events|
  {
    if |events| > 0 && o.alive {
      var step := Step(mode, o.clients, events[0]);
      var next := Outcome(step.clients, o.sends + step.sends, step.alive);
      RunFromExtends(mode, next, events[1..]);
    }
  }

  /**
   Later events only add sends: the sends so far stay a prefix, and a client
   that is not in the set and never connects gets none of the added ones.
   */
  lemma {:induction false} UnknownClientReceivesNothing(mode: Mode, o: Outcome, events: seq<Event>, id: nat)
    requires !Known(o.clients, id)
    requires forall i :: 0 <= i < |events| ==> events[i] != Connection(id)
    ensures o.sends <= RunFrom(mode, o, events).sends
    ensures SendsTo(RunFrom(mode, o, events).sends, id) == SendsTo(o.sends, id)
    decreases |events|
  {
    if |events| > 0 && o.alive {
      var step := Step(mode, o.clients, events[0]);
      forall s | s in step.sends
        ensures s.to != id
      {
        var i :| 0 <= i < |o.clients| && o.clients[i] == Client(s.to, Open);
      }
      NoneAddressed(step.sends, id);
      SendsToAppend(o.sends, step.sends, id);
      StepKnown(mode, o.clients, events[0], id);
      var next := Outcome(step.clients, o.sends + step.sends, step.alive);
      UnknownClientReceivesNothing(mode, next, events[1..], id);
    }
  }

  /**
   A newly connected client is sent nothing on connection and nothing from
   earlier events: everything it receives comes from events after it joined.
   */
  lemma LateJoinerSeesOnlyLater(mode: Mode, clients: seq<Client>, before: seq<Event>, id: nat, after: seq<Event>)
    requires !Known(clients, id)
    requires forall i :: 0 <= i < |before| ==> before[i] != Connection(id)
    ensures var joined := Run(mode, clients, before + [Connection(id)]);
            && SendsTo(joined.sends, id) == 0
            && Run(mode, clients, before + [Connection(id)] + after) == RunFrom(mode, joined, after)
    ensures var joined := Run(mode, clients, before + [Connection(id)]);
            var full := Run(mode, clients, before + [Connection(id)] + after);
            && joined.sends <= full.sends
            && SendsTo(full.sends, id) == SendsTo(full.sends[|joined.sends|..], id)
  {
    var start := Outcome(clients, [], true);
    RunFromAppend(mode, start, before, [Connection(id)]);
    RunFromAppend(mode, start, before + [Connection(id)], after);
    UnknownClientReceivesNothing(mode, start, before, id);
    var mid := RunFrom(mode, start, before);
    assert RunFrom(mode, mid, [Connection(id)]).sends == mid.sends by {
      assert [Connection(id)][1..] == [];
      assert mid.sends + [] == mid.sends;
    }
    var joined := RunFrom(mode, start, before + [Connection(id)]);
    var full := RunFrom(mode, joined, after);
    RunFromExtends(mode, joined, after);
    assert full.sends == joined.sends + full.sends[|joined.sends|..];
    SendsToAppend(joined.sends, full.sends[|joined.sends|..], id);
  }

  // ----- A read error of the file stream, as written and as intended -------

  /**
   As written, a handled event whose file cannot be read (deleted before the
   read, no permission, a directory) ends the process: nothing that happens
   afterwards is handled, so no later broadcast is ever sent.
   */
  lemma {:induction false} SourceErrorEndsBroadcasting(o: Outcome, name: string, stream: CsvStream, later: seq<Event>)
    requires o.alive
    requires Handled(Some(name)) && stream.end.SourceFailed?
    ensures var r := RunFrom(AsWritten, o, [Watch(Some(name), stream)] + later);
            !r.alive && r.sends == o.sends && r.clients == o.clients
  {
    var events := [Watch(Some(name), stream)] + later;
    assert events[0] == Watch(Some(name), stream);
    var step := Step(AsWritten, o.clients, events[0]);
    assert !step.alive && step.sends == [];
    assert o.sends + [] == o.sends;
  }

  /** A watch event for `predictions-1.csv` after the file was deleted: the read fails with ENOENT. */
  const DeletedFile: Event := Watch(Some("predictions-1.csv"), CsvStream([], SourceFailed("ENOENT")))

  /** A watch event for `predictions-2.csv`, whose one row scores 0.82. */
  const ScoredFile: Event := Watch(Some("predictions-2.csv"), CsvStream([map["DDOS%" := "0.82"]], Ended))

  lemma ExampleNamesHandled()
    ensures Handled(DeletedFile.filename) && Handled(ScoredFile.filename)
  {
    assert "predictions-1.csv"[..12] == FilePrefix;
    assert "predictions-1.csv"[13..] == FileSuffix;
    assert "predictions-2.csv"[..12] == FilePrefix;
    assert "predictions-2.csv"[13..] == FileSuffix;
  }

  /** Handling the scored file sends its score to the one OPEN client, in either mode. */
  lemma ScoredFileStep(mode: Mode)
    ensures Step(mode, [Client(1, Open)], ScoredFile)
            == Outcome([Client(1, Open)], [Send(1, "{\"ddosPercentage\":\"0.82\"}")], true)
  {
    ExampleNamesHandled();
    var clients := [Client(1, Open)];
    var text := Stringify(Str("0.82"));
    assert text == "{\"ddosPercentage\":\"0.82\"}" by {
      assert Escape("0.82") == "0.82";
    }
    var row: Row := map["DDOS%" := "0.82"];
    assert Field(row) == Str("0.82");
    assert FanOut(clients, text) == [Send(1, text)] by {
      assert clients[1..] == [];
    }
  }

  /**
   A concrete trace: `predictions-1.csv` is deleted, then
   `predictions-2.csv` arrives with a score. As written, the OPEN client
   receives nothing; with file-stream errors caught, it receives the
   second file's score.
   */
  lemma DeletedFileSilencesServer()
    ensures Run(AsWritten, [Client(1, Open)], [DeletedFile, ScoredFile]).sends == []
    ensures Run(CatchSourceErrors, [Client(1, Open)], [DeletedFile, ScoredFile]).sends
            == [Send(1, "{\"ddosPercentage\":\"0.82\"}")]
  {
    var clients := [Client(1, Open)];
    var start := Outcome(clients, [], true);
    var events := [DeletedFile, ScoredFile];
    ExampleNamesHandled();
    assert events == [DeletedFile] + [ScoredFile];
    SourceErrorEndsBroadcasting(start, "predictions-1.csv", DeletedFile.stream, [ScoredFile]);
    assert Step(CatchSourceErrors, clients, DeletedFile) == start;
    ScoredFileStep(CatchSourceErrors);
    assert events[1..] == [ScoredFile];
    assert RunFrom(CatchSourceErrors, start, events) == RunFrom(CatchSourceErrors, start, [ScoredFile]);
    assert [ScoredFile][1..] == [];
    var done := Outcome(clients, [Send(1, "{\"ddosPercentage\":\"0.82\"}")], true);
    assert RunFrom(CatchSourceErrors, start, [ScoredFile]) == RunFrom(CatchSourceErrors, done, []);
  }

  /**
   With file-stream errors caught, the process never stops, so no earlier
   event can prevent a later event's broadcast.
   */
  lemma {:induction false} GuardedKeepsBroadcasting(o: Outcome, before: seq<Event>, filename: Option<string>, stream: CsvStream)
    requires o.alive
    ensures RunFrom(CatchSourceErrors, o, before).alive
    ensures var mid := RunFrom(CatchSourceErrors, o, before);
            RunFrom(CatchSourceErrors, o, before + [Watch(filename, stream)]).sends
              == mid.sends + SendsOf(OnWatchEvent(CatchSourceErrors, filename, stream, mid.clients))
    decreases |before|
  {
    var w := Watch(filename, stream);
    RunFromAppend(CatchSourceErrors, o, before, [w]);
    if |before| > 0 {
      var step := Step(CatchSourceErrors, o.clients, before[0]);
      GuardedKeepsBroadcasting(Outcome(step.clients, o.sends + step.sends, step.alive), before[1..], filename, stream);
    }
    var mid := RunFrom(CatchSourceErrors, o, before);
    assert [w][0] == w && [w][1..] == [];
  }
}
