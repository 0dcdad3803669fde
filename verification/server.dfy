/**
 The collector's per-connection handler (`handle_client`, src/bin/server.rs)
 with sockets, the async runtime and the mutex stripped away: a step function
 over the metrics store, folded over the lines one connection delivers.
 */
module Server {
  import opened Wrappers
  import opened Metrics

  /** `MetricsStorage`: host name to that host's records in arrival order. */
  type Store = map<string, seq<SystemMetrics>>

  /** The store the collector starts with. */
  const EmptyStore: Store := map[]

  /** Reply to a record that parsed. */
  const Ack: string := "ACK\n"

  /** Reply to a line that did not parse. */
  const InvalidFormat: string := "ERROR: Invalid format\n"

  /**
   One result of `read_line`: a line that parses as a record, a line that does
   not, a zero-byte read (the peer closed the connection) or a read error.
   JSON parsing itself is not modelled; the outcome of parsing is the input.
   */
  datatype Line = Valid(record: SystemMetrics) | Malformed | Eof | ReadError

  /** How a handler ends: `Ok(())` after a clean close, `Err` after a failed read. */
  datatype Ending = Disconnected | ReadFailed

  /** The lines on which the handler stops instead of replying. */
  predicate Ends(line: Line) {
    line.Eof? || line.ReadError?
  }

  /** What one step of the loop does: carry on with a store and a reply, or stop. */
  datatype Transition = Continue(store: Store, reply: string) | Finish(ending: Ending)

  /** The records stored under `host`; an absent key has none. */
  function History(store: Store, host: string): seq<SystemMetrics> {
    if host in store then store[host] else []
  }

  /** Every record is filed under its own host name. */
  predicate Consistent(store: Store) {
    forall host, i :: host in store && 0 <= i < |store[host]| ==> store[host][i].hostname == host
  }

  /**
   `entry(hostname).or_insert_with(Vec::new).push(record)`: the record goes to
   the end of its own host's history, which is created if absent; no other
   host's history changes and no other key appears.
   */
  function Append(store: Store, record: SystemMetrics): (s: Store)
    ensures s.Keys == store.Keys + {record.hostname}
    ensures History(s, record.hostname) == History(store, record.hostname) + [record]
    ensures |History(s, record.hostname)| == |History(store, record.hostname)| + 1
    ensures record.hostname !in store ==> s[record.hostname] == [record]
    ensures forall host :: host != record.hostname ==> History(s, host) == History(store, host)
  {
    store[record.hostname := History(store, record.hostname) + [record]]
  }

  /** One iteration of the handler's loop. */
  function Step(store: Store, line: Line): (t: Transition)
    ensures t.Finish? <==> Ends(line)
    ensures line.Eof? ==> t == Finish(Disconnected)
    ensures line.ReadError? ==> t == Finish(ReadFailed)
    ensures line.Malformed? ==> t == Continue(store, InvalidFormat)
    ensures line.Valid? ==> t.Continue? && t.reply == Ack
    ensures line.Valid? ==>
      forall host :: History(t.store, host) ==
        History(store, host) + (if host == line.record.hostname then [line.record] else [])
  {
    match line
    case Eof => Finish(Disconnected)
    case ReadError => Finish(ReadFailed)
    case Malformed => Continue(store, InvalidFormat)
    case Valid(record) => Continue(Append(store, record), Ack)
  }

  /** A step keeps every record filed under its own host name. */
  lemma StepPreservesConsistent(store: Store, line: Line)
    requires Consistent(store)
    ensures Step(store, line).Continue? ==> Consistent(Step(store, line).store)
  {
  }

  /**
   What a handler has done after reading some lines: the store, the replies
   written, and how it ended (None while the connection is still open).
   */
  datatype Session = Session(store: Store, replies: seq<string>, ending: Option<Ending>)

  /** `handle_client`'s loop, folded over the lines the connection delivers. */
  function Run(store: Store, lines: seq<Line>): (s: Session)
    ensures |s.replies| == |Served(lines)|
    ensures s.ending.None? <==> |Served(lines)| == |lines|
    ensures s.ending == Some(Disconnected) <==> |Served(lines)| < |lines| && lines[|Served(lines)|].Eof?
    ensures s.ending == Some(ReadFailed) <==> |Served(lines)| < |lines| && lines[|Served(lines)|].ReadError?
    decreases |lines|
  {
    if |lines| == 0 then Session(store, [], None)
    else
      match Step(store, lines[0])
      case Finish(ending) => Session(store, [], Some(ending))
      case Continue(next, reply) =>
        var rest := Run(next, lines[1..]);
        Session(rest.store, [reply] + rest.replies, rest.ending)
  }

  /** The lines the handler replies to: everything before the first line that ends it. */
  function Served(lines: seq<Line>): (served: seq<Line>)
    ensures served <= lines
    ensures forall i :: 0 <= i < |served| ==> !Ends(served[i])
    ensures |served| < |lines| ==> Ends(lines[|served|])
  {
    if |lines| == 0 || Ends(lines[0]) then [] else [lines[0]] + Served(lines[1..])
  }

  /** The records among `lines` that come from `host`, in input order. */
  function Received(lines: seq<Line>, host: string): (records: seq<SystemMetrics>)
    ensures forall i :: 0 <= i < |records| ==> records[i].hostname == host
  {
    if |lines| == 0 then []
    else
      (if lines[0].Valid? && lines[0].record.hostname == host then [lines[0].record] else [])
      + Received(lines[1..], host)
  }

  /**
   Per-host arrival order: after the fold, a host's history is what it had
   before followed by exactly the valid records from that host among the lines
   served, in input order. Lines of other hosts and malformed lines leave it alone.
   */
  lemma {:induction false} RunHistory(store: Store, lines: seq<Line>, host: string)
    ensures History(Run(store, lines).store, host) == History(store, host) + Received(Served(lines), host)
    decreases |lines|
  {
    if |lines| == 0 || Ends(lines[0]) {
      assert Served(lines) == [];
    } else {
      var next := Step(store, lines[0]).store;
      var own := if lines[0].Valid? && lines[0].record.hostname == host then [lines[0].record] else [];
      assert History(next, host) == History(store, host) + own;
      RunHistory(next, lines[1..], host);
      var served := Served(lines);
      assert served[0] == lines[0] && served[1..] == Served(lines[1..]);
      assert Received(served, host) == own + Received(Served(lines[1..]), host);
    }
  }

  /** A key is present after the fold iff it was before or some served line came from that host. */
  lemma {:induction false} RunKeys(store: Store, lines: seq<Line>, host: string)
    ensures host in Run(store, lines).store <==> host in store || Received(Served(lines), host) != []
    decreases |lines|
  {
    if |lines| == 0 || Ends(lines[0]) {
      assert Served(lines) == [];
    } else {
      var next := Step(store, lines[0]).store;
      RunKeys(next, lines[1..], host);
      var served := Served(lines);
      assert served[1..] == Served(lines[1..]);
    }
  }

  /**
   One reply per served line, in order: `ACK` exactly for the valid lines and
   the error text exactly for the malformed ones. The line that ends the
   handler gets no reply.
   */
  lemma {:induction false} RunReplies(store: Store, lines: seq<Line>)
    ensures forall i :: 0 <= i < |Served(lines)| ==>
      (Run(store, lines).replies[i] == Ack <==> Served(lines)[i].Valid?) &&
      (Run(store, lines).replies[i] == InvalidFormat <==> Served(lines)[i].Malformed?)
    decreases |lines|
  {
    if |lines| == 0 || Ends(lines[0]) {
      assert Served(lines) == [];
    } else {
      var next := Step(store, lines[0]).store;
      RunReplies(next, lines[1..]);
      var served := Served(lines);
      var replies := Run(store, lines).replies;
      assert served[1..] == Served(lines[1..]);
      assert replies[1..] == Run(next, lines[1..]).replies;
      forall i | 0 <= i < |served|
        ensures (replies[i] == Ack <==> served[i].Valid?) &&
                (replies[i] == InvalidFormat <==> served[i].Malformed?)
      {
        if i > 0 {
          assert replies[i] == replies[1..][i - 1];
          assert served[i] == served[1..][i - 1];
        }
      }
    }
  }

  /** The fold keeps every record filed under its own host name. */
  lemma RunPreservesConsistent(store: Store, lines: seq<Line>)
    requires Consistent(store)
    ensures Consistent(Run(store, lines).store)
  {
    var s: Store := Run(store, lines).store;
    forall host: string, i: int | host in s && 0 <= i < |s[host]|
      ensures s[host][i].hostname == host
    {
      RunHistory(store, lines, host);
      assert s[host] == History(s, host);
      var before := History(store, host);
      if i >= |before| {
        assert s[host][i] == Received(Served(lines), host)[i - |before|];
      } else {
        assert before == store[host];
      }
    }
  }

  /**
   A collector that starts empty holds, for every host, exactly that host's
   valid records in input order, and keys only for hosts that sent one.
   */
  lemma FromEmptyStore(lines: seq<Line>, host: string)
    ensures Consistent(Run(EmptyStore, lines).store)
    ensures History(Run(EmptyStore, lines).store, host) == Received(Served(lines), host)
    ensures host in Run(EmptyStore, lines).store <==> Received(Served(lines), host) != []
  {
    RunPreservesConsistent(EmptyStore, lines);
    RunHistory(EmptyStore, lines, host);
    RunKeys(EmptyStore, lines, host);
  }

  /**
   A malformed line costs one error reply and nothing else: a valid record
   sent after it on the same connection is stored and acknowledged.
   */
  lemma MalformedThenValid(store: Store, record: SystemMetrics)
    ensures var s := Run(store, [Malformed, Valid(record)]);
      s.replies == [InvalidFormat, Ack] && s.ending.None? && s.store == Append(store, record)
  {
    var lines := [Malformed, Valid(record)];
    assert lines[1..] == [Valid(record)];
    assert lines[1..][1..] == [];
    var tail := Run(store, [Valid(record)]);
    assert tail == Session(Append(store, record), [Ack], None) by {
      assert Run(Append(store, record), []) == Session(Append(store, record), [], None);
    }
  }

  /** An agent session that sends one record and closes: the record is stored and acknowledged once. */
  lemma OneRecordSession(store: Store, record: SystemMetrics)
    ensures Run(store, [Valid(record), Eof]) == Session(Append(store, record), [Ack], Some(Disconnected))
  {
    var lines := [Valid(record), Eof];
    assert lines[1..] == [Eof];
    assert Run(Append(store, record), [Eof]) == Session(Append(store, record), [], Some(Disconnected));
  }

  /**
   Two agents, "host-a" and "host-b", each on its own connection, send one
   record to a fresh collector and disconnect. Whichever handler takes the
   shared store first, each agent gets one `ACK` and the store ends with exactly
   one entry per host holding its own record.
   */
  lemma TwoHostFanOut(a: SystemMetrics, b: SystemMetrics, aFirst: bool)
    requires a.hostname == "host-a" && b.hostname == "host-b"
    ensures var (first, second) := if aFirst then (a, b) else (b, a);
      var s1 := Run(EmptyStore, [Valid(first), Eof]);
      var s2 := Run(s1.store, [Valid(second), Eof]);
      && s1.replies == [Ack] && s1.ending == Some(Disconnected)
      && s2.replies == [Ack] && s2.ending == Some(Disconnected)
      && s2.store == map["host-a" := [a], "host-b" := [b]]
  {
    var (first, second) := if aFirst then (a, b) else (b, a);
    OneRecordSession(EmptyStore, first);
    OneRecordSession(Append(EmptyStore, first), second);
    assert Append(Append(EmptyStore, first), second) == map["host-a" := [a], "host-b" := [b]];
  }
}
