# Telemetry agent and collector — Dafny model

This project models the decision logic of a small telemetry pipeline. Agents sample
their host's CPU, memory and disk usage and push one `SystemMetrics` record per line to a
collector. The collector files each record under its host name in an in-memory store and
answers every line with `ACK` or `ERROR: Invalid format`.

Three modules follow the three source files, plus a small `Wrappers` module for `Option`:

- `Metrics` (`src/metrics.rs`): the seven-field `SystemMetrics` record, the `u64` width of
  its counters, and the constructor `New`, which takes the clock reading as an explicit
  `SystemTime` argument.
- `Server` (`src/bin/server.rs`): one connection handler (`handle_client`) as a pure
  `Step(store, line)` and its fold `Run(store, lines)` over the store
  `map<string, seq<SystemMetrics>>`. A line is the outcome of one `read_line` plus parsing:
  `Valid(record)`, `Malformed`, `Eof` (a zero-byte read) or `ReadError`.
- `Client` (`src/bin/client.rs`): `collect_metrics` as `CollectMetrics(provider, hostname, now)`.
  The stats provider's answers are inputs: the CPU result as a nested `Option` (the aggregate
  call, then `done()`), memory as an `Option`, and `mount_at` as a map from mount path to
  answer, where an absent path is a failed query.

## Model

| member | source | states |
|---|---|---|
| `Metrics.UnixSeconds` | src/metrics.rs:17-20 | the timestamp is the whole number of seconds since the epoch in the clock reading, sub-second part dropped; the clock must not be before the epoch (`unwrap`) |
| `Metrics.New` | src/metrics.rs:16-31 | every argument is copied into the record unchanged and the timestamp is the clock's second; the only precondition is the clock's, so construction succeeds for any figures, including used above total or a CPU figure above 100 |
| `Metrics.NewRoundTrip` | src/metrics.rs:22-30 | rebuilding a record from its own fields gives back that record exactly when the clock reads inside the record's second |
| `Server.Append` | src/bin/server.rs:63-66 | the record goes to the end of its own host's history, which grows by exactly one; an absent host gets `[record]`; no other host's history changes and only the record's host can become a new key |
| `Server.Step` | src/bin/server.rs:50-74 | a zero-byte read ends the handler cleanly and a read error ends it with an error, both without reply or store change; a malformed line leaves the store unchanged with reply `ERROR: Invalid format\n`; a valid line appends its record and replies `ACK\n` |
| `Server.StepPreservesConsistent` | src/bin/server.rs:62-66 | one step keeps every stored record under the key equal to its own host name |
| `Server.Served` | src/bin/server.rs:50-56 | the lines the handler replies to are the prefix of the input before the first zero-byte read or read error |
| `Server.Run` | src/bin/server.rs:50-74 | the loop writes one reply per served line; the session is still open exactly when no ending line arrived, and otherwise ends the way the first ending line says |
| `Server.RunHistory` | src/bin/server.rs:50-74 | after any sequence of lines, each host's history is its previous history followed by exactly the valid records from that host, in input order |
| `Server.RunKeys` | src/bin/server.rs:63-66 | a key exists after the fold iff it existed before or a served valid record came from that host |
| `Server.RunReplies` | src/bin/server.rs:69-73 | reply i is `ACK\n` iff served line i was valid and the error text iff it was malformed |
| `Server.RunPreservesConsistent` | src/bin/server.rs:62-66 | the fold keeps every stored record under its own host name |
| `Server.FromEmptyStore` | src/bin/server.rs:21 | starting from the empty store, the store is consistent, each host's history is exactly its valid records in input order, and only hosts that sent one have keys |
| `Server.MalformedThenValid` | src/bin/server.rs:70-73 | a malformed line costs one error reply and the connection stays usable: a following valid record is stored and acknowledged |
| `Server.OneRecordSession` | src/bin/server.rs:50-74 | a connection that sends one valid record and closes gets one `ACK`, ends cleanly, and adds exactly that record to the store |
| `Server.TwoHostFanOut` | src/bin/server.rs:62-66 | two agents on separate connections, handled one after the other over the shared store in either order, each get one `ACK` and leave exactly one entry per host holding its own record |
| `Client.Used` | src/bin/client.rs:89 | bytes in use are total minus free, defined on `u64` only when free does not exceed total, and never exceed total |
| `Client.CpuUsage` | src/bin/client.rs:76-85 | the CPU figure is 0 when `cpu_load_aggregate` or `done()` fails, and 100 times the user fraction otherwise |
| `Client.MemoryUsage` | src/bin/client.rs:88-91 | `(0, 0)` when the memory query fails, else the total and total minus free; used never exceeds total |
| `Client.DiskUsage` | src/bin/client.rs:94-103 | the root mount's total and used when it answers, else the data volume's, else `(0, 0)`; used never exceeds total |
| `Client.CollectMetrics` | src/bin/client.rs:74-113 | always produces a record: host name as given, timestamp from the clock, and each subsystem's fields determined by that subsystem's answer alone |
| `Client.RootMountShadowsFallback` | src/bin/client.rs:94-95 | when the root mount answers, any answer (or failure) for the data volume gives the same disk figures |
| `Client.DiskReadsOnlyTwoMounts` | src/bin/client.rs:94-103 | the disk figures depend only on the root mount's answer and, when it fails, the data volume's |
| `Client.Degradation` | src/bin/client.rs:76-103 | a failed CPU, memory or disk query zeroes exactly that subsystem's fields and leaves all other fields of the record unchanged |
| `Client.RootFailureFallsBack` | src/bin/client.rs:96-101 | with the root mount failing and the data volume answering, only the disk fields change, to the data volume's total and used |

## Left out

- The TCP accept loop, task spawning, socket split, reads and writes (src/bin/server.rs:17-38, src/bin/client.rs:11-44): network I/O and runtime plumbing. A read is modelled by its outcome (`Line`).
- Failed writes of the reply: the model assumes `write_all` succeeds. In the source a failed write ends the handler after the record has already been stored.
- The `Arc<Mutex<..>>` sharing across connections: concurrent handlers are modelled as whole sessions run one after another, each `Run` starting from the store the previous one left. Interleavings of lines from different connections within their sessions are not modelled. `RunHistory` still describes any merged sequence of served lines with the ending lines removed.
- The broadcast shutdown channel (src/bin/server.rs:22,31): created and subscribed to but never used.
- JSON serialization and parsing: library calls. A line is given already classified as `Valid(record)` or `Malformed`, so the wire round trip is not stated.
- The agent's main loop (connect, send, await reply, sleep) and the host-name lookup: I/O; the host name and clock are parameters.
- The commented-out first version of `collect_metrics` (src/bin/client.rs:47-72): not live code.
- Client.CpuUsage: `cpu_usage` is an `f32` and `user * 100.0` is a rounded floating-point product; the model uses an exact real product.
- Client.CollectMetrics: requires free not above total for the memory answer and for the mount actually read. The source's `u64` subtraction panics otherwise in debug builds and wraps in release builds; neither outcome is modelled.
- Metrics.UnixSeconds: requires a clock reading at or after the epoch; the source's `unwrap` panics on an earlier clock, and that panic is not modelled.
- Console logging (`println!` and `eprintln!` in both binaries): output only, with no effect on the store, the replies or the record.
- The one-second sampling sleep between `cpu_load_aggregate` and `done()`: timing only.
