# YCSB key-value benchmark client, modelled in Dafny

The repository is a small YCSB-style load generator written in Go. It has three parts:

- **Workloads.** A workload is a write percentage: A = 50, B = 5, C = 0. It is picked by a token (`ycsb-a`, `ycsb-b`, `ycsb-c`). An unknown token falls back to A.
- **The benchmark run.** `cfg.Workers` workers are spread round-robin over the server addresses. Each worker has its own persistent TCP connection. Until a deadline, a worker repeatedly:
  - draws a key `k<n>` with `n < NumKeys`;
  - draws a 100-character value from a 36-character alphabet;
  - draws `0 <= d < 100` and writes when `d` is below the write percentage, otherwise reads;
  - counts the operation, and adds its latency, only when it succeeds.

  The per-worker counts and durations are folded into totals. From the totals the run reports:
  - the total number of operations;
  - throughput over the fixed 10-second experiment;
  - mean latency: the summed latency, truncated to whole milliseconds, divided by the count, or 0 when nothing succeeded.
- **The line protocol.** There is a client side and a reference test server.
  - The client writes `SET key value\n` or `GET key\n` and reads one reply line.
    - A write succeeds iff the trimmed reply is `OK`.
    - A read succeeds iff the trimmed reply starts with `OK`. Its value is that trimmed line without one leading `OK `, or the whole trimmed line when it does not start with `OK `.
  - The server trims each request line and cuts it at its first two spaces. It answers:
    - `OK` to a complete `SET`;
    - `OK <value>` to a `GET` of a bound key;
    - `ERR` to everything else.

The model is split into these modules:

| file | module | what it holds |
|---|---|---|
| `text.dfy` | `Text` | The Go library behaviour the core relies on: `strings.TrimSpace` over Unicode white space, `HasPrefix`/`TrimPrefix`, `SplitN` with its partner `Join`, `%d` formatting, and `bufio.Reader.ReadString('\n')`. |
| `workload.dfy` | `Workloads` | `ParseWorkload` and `Workload.String`. |
| `protocol.dfy` | `Protocol` | Request encoding and the client's decoding of replies. |
| `client.dfy` | `TcpClient` | `Client`, a class whose state is what it has sent and what it has not yet read, with `Put` and `Get` as methods. |
| `server.dfy` | `TestServer` | The `KVStore` class, `Handle`/`Serve` as the specification of one connection, and `HandleLine`/`HandleConn`, the connection loop proved against them. |
| `benchmark.dfy` | `Benchmark` | Round-robin assignment, key and value generation, the worker loop, the fold, the summary, and `Run` composing them. |
| `roundtrip.dfy` | `RoundTrip` | The client against the reference server, end to end. |

Things the Go code takes from its environment become explicit inputs:

- **Random draws and clocks.** A worker follows a *plan*: one `Step` per iteration, holding
  - the key draw,
  - the 100 value draws,
  - the operation draw,
  - the elapsed nanoseconds.
- **A connection** is described by two things:
  - whether writes to it succeed (`writable`);
  - the bytes the server sends on it (`incoming`).

  On a connection that is not writable, every request fails before anything is read. A reply whose stream ends before its newline is a read error.

## Model

| member | source | states |
|---|---|---|
| Workloads.ParseWorkload | benchmark.go:27-37 | The result is always one of the three named workloads. It is B iff the token is `ycsb-b`, C iff it is `ycsb-c`, and A for every other token, the empty one included. |
| Workloads.String | benchmark.go:39-50 | The name is one of the three tokens iff the workload is one of the three. Any other percentage is named `unknown(` + numeral + `)`, where the numeral is the percentage's canonical `%d` and reads back as the percentage. |
| Workloads.ParseString | benchmark.go:27-50 | Naming a named workload and parsing the name back returns the same workload. |
| Workloads.StringParse | benchmark.go:27-50 | Parsing a token and naming the result returns the same token. |
| Workloads.UnknownFallsBack | benchmark.go:27-50 | The `unknown(...)` name of any other percentage parses back as workload A. |
| Benchmark.RoundRobin | benchmark.go:81-82 | Each of the `workers` workers gets an address index below the number of addresses. |
| Benchmark.AssignAddresses | benchmark.go:81-82 | The loop gives worker `i` the address at `RoundRobin(workers, n)[i]`. There are exactly `workers` targets, and none when `workers <= 0`. |
| Benchmark.RoundRobinAt | benchmark.go:82 | Worker `i` gets address index `i % n`. |
| Benchmark.RoundRobinMod | benchmark.go:82 | `i % n` holds for every worker at once. |
| Benchmark.AssignedByIndex | benchmark.go:81-82 | The assignment loop's result is `addrs[i % len(addrs)]` for every worker, and its length is `max(workers, 0)`. |
| Benchmark.RoundRobinExample | benchmark.go:82 | Five workers on two addresses are assigned 0, 1, 0, 1, 0. |
| Benchmark.RoundRobinLoad | benchmark.go:81-82 | Address `a` serves `workers / n` workers, plus one when `a < workers % n`. The load is balanced to within one. |
| Benchmark.RoundRobinCovers | benchmark.go:81-82 | With at least as many workers as addresses, every address is used. |
| Benchmark.KeyNameFacts | benchmark.go:132 | A key `k<n>` is at least two characters and one word. Distinct draws give distinct keys. |
| Benchmark.KeyName | benchmark.go:132 | No contract of its own: the key `k` followed by the `%d` of the draw. `KeyNameFacts` states it is one word of at least two characters and injective in the draw, and `Text.Decimal` pins the numeral. |
| Text.Decimal | benchmark.go:48 | `%d` of an integer is non-empty, holds no white space, and is a numeral (an optional minus sign and digits) that reads back as the integer. It is canonical: a minus sign iff the integer is negative, and no leading zero. |
| Text.DigitsRoundTrip | benchmark.go:132 | The decimal digits of `n` read back as `n`. |
| Text.DigitsInjective | benchmark.go:132 | Distinct numbers have distinct decimal forms. |
| Benchmark.WriteShare | benchmark.go:138 | For a workload `0 <= w <= 100`, exactly `w` of the 100 possible operation draws choose a write. |
| Benchmark.IsWrite | benchmark.go:138 | No contract of its own: the write test `draw < percentage`. `WriteShare` states that exactly `w` of the 100 draws pass it, and `ReadOnlyNeverWrites` that none does for workload C. |
| Benchmark.Below | benchmark.go:138 | The set of draws below `n` holds exactly `0 .. n-1`. |
| Benchmark.BelowSize | benchmark.go:138 | There are `n` draws below `n`. |
| Benchmark.ReadOnlyNeverWrites | benchmark.go:24 | Workload C never chooses a write. |
| Benchmark.ReadOnlyOps | benchmark.go:138-142 | Every operation a workload C worker performs is a read. |
| Benchmark.RandomValue | benchmark.go:151-158 | The loop fills a buffer of length `size`. Character `i` is the charset character picked by draw `i`. |
| Benchmark.ValueHasNoSpace | benchmark.go:151-158 | A generated value holds no white space, so it survives the server's trim and split. |
| Benchmark.CharsetIsAlphanumeric | benchmark.go:152 | Every charset character is a lower-case letter or a digit. |
| Benchmark.Ops | benchmark.go:125-143 | A plan yields exactly one operation per step. |
| Benchmark.OpsAt | benchmark.go:132-142 | Operation `i` is the one step `i`'s draws choose. |
| Benchmark.ChooseOp | benchmark.go:132-142 | No contract of its own: one turn's operation, a write of the drawn value iff `IsWrite` holds, a read otherwise, of the drawn key either way. `Perform` proves the imperative turn performs exactly it, `RoundTrip.GeneratedOpOk` that its key and value survive the protocol, and `ReadOnlyOps` that workload C only reads. |
| Benchmark.Answers | benchmark.go:139-141 | Each operation's round trip yields exactly one success flag. |
| Benchmark.Perform | benchmark.go:132-142 | One iteration: it builds the key and value and writes iff the draw is below the write percentage. Success is what the reply line decides. The client consumes exactly one exchange and sends exactly that request, or nothing when the connection is not writable. |
| Benchmark.RunWorker | benchmark.go:121-149 | The worker loop's result is the tally of the successes along the plan. The client is left with exactly the bytes past the replies it read, and it has sent every request in order. |
| Benchmark.AnswersStep | benchmark.go:136-147 | Extending the plan by one step appends that step's reply decision and consumes its exchange. |
| Benchmark.TallyStep | benchmark.go:144-147 | Accounting one operation is one more step of the tally: the count and the duration grow only on success. |
| Benchmark.Account | benchmark.go:144-147 | No contract of its own: a success adds one operation and its latency, a failure nothing. `TallyStep` ties it to the worker loop, and `TallyCountsSuccesses` states the count is the number of successes. |
| Benchmark.RequestsStep | benchmark.go:139-141 | The bytes sent grow by exactly the next request. |
| Benchmark.TallyCountsSuccesses | benchmark.go:144-147 | A worker's count is the number of successful operations and at most the plan's length. Count and duration never decrease along the plan. |
| Benchmark.UnwritableCountsNothing | client.go:41-44 | On a connection that refuses writes, nothing is read and the worker counts zero operations and zero time. |
| Benchmark.Aggregate | benchmark.go:95-100 | The fold over the results is their sum. |
| Benchmark.SumAppend | benchmark.go:95-100 | The sum over two batches of results is the sum of the sums. |
| Benchmark.SumOrderIndependent | benchmark.go:92-100 | The sum does not depend on the order in which results leave the channel. Any permutation gives the same totals. |
| Benchmark.RemoveAt | benchmark.go:97 | Taking one result out of a collection removes exactly one occurrence of it. |
| Benchmark.SumRemoveAt | benchmark.go:97-99 | Removing one result removes exactly its counts from the totals. |
| Benchmark.Milliseconds | benchmark.go:105 | `Duration.Milliseconds` rounds down to whole milliseconds. |
| Benchmark.Summarize | benchmark.go:102-106 | The reported total is the summed count. Throughput times 10 s is the count. The mean latency is 0 when nothing succeeded; otherwise it times the count is the whole milliseconds of the summed duration. Both are non-negative. |
| Benchmark.Worker | benchmark.go:83-89 | A worker on a fresh connection counts exactly the tally its plan and replies determine. |
| Benchmark.RunWorkers | benchmark.go:81-90 | Worker `i` gets its own connection and its own result, in order. |
| Benchmark.Run | benchmark.go:71-106 | For a non-negative worker count (and addresses whenever there are workers), Run relates its whole result to the specification: worker `i` goes to `addrs[i % len(addrs)]`, its result is its worker tally, and the summary is computed from the summed results. |
| Protocol.DecodeGet | client.go:58-67 | A read succeeds iff the trimmed reply starts with `OK`. On success the value is the trimmed reply after its leading `OK ` when it starts with `OK `, and the whole trimmed reply otherwise. A failed read returns the empty value. |
| Protocol.EncodeSet | client.go:41 | No contract of its own: the request line `SET key value\n`. `RoundTrip.SetHandled` states it is one line that the server stores exactly and acknowledges. |
| Protocol.EncodeGet | client.go:54 | No contract of its own: the request line `GET key\n`. `RoundTrip.GetHandled` states it is one line that the server answers from its store. |
| Protocol.DecodePut | client.go:50 | No contract of its own: a write is acknowledged iff the trimmed reply is `OK`. `DecodePutExactly` states both directions over the raw line, and `DecodePutLine`, `DecodePutAck` and `DecodePutRejects` give its cases. |
| Protocol.DecodePutExactly | client.go:50 | A write is acknowledged iff its reply is `OK` surrounded only by white space. |
| Protocol.DecodePutLine | client.go:50 | A reply line without edge white space acknowledges a write iff it is exactly `OK`. |
| Protocol.DecodePutAck | client.go:50 | The server's `OK\n` acknowledges a write. |
| Protocol.DecodePutRejects | client.go:50 | `ERR\n`, a read hit and an empty line do not acknowledge a write. |
| Protocol.DecodeGetHit | client.go:63-65 | `OK <value>\n` decodes to exactly the value when the value does not end in white space. |
| Protocol.DecodeGetHitExample | client.go:18 | `OK hello\n` decodes to `hello`. |
| Protocol.DecodeGetBareOk | client.go:63-65 | A bare `OK` line is a hit whose value is `OK`, because `TrimPrefix` has no `OK ` to remove. |
| Protocol.DecodeGetOkay | client.go:64 | A line starting with a longer word such as `OKAY` is a hit too. |
| Protocol.DecodeGetPadded | client.go:63-65 | White space around the reply is trimmed first: ` OK x \r\n` decodes to `x`. |
| Protocol.DecodeGetEmptyValue | client.go:63-65 | `OK \n` loses its space to the trim, so it is a hit whose value is `OK`, not the empty string. |
| Protocol.DecodeGetMisses | client.go:19 | `ERR\n` and an empty line are misses with the empty value. |
| TcpClient.Exchange | client.go:41-49 | With no write possible, nothing is read. Otherwise there is a reply line iff the unread bytes hold a newline. The line is a whole line, ending at the first newline, and line plus rest is exactly what was unread. Without a newline, everything left is consumed and no line is returned. |
| TcpClient.UnterminatedReplyFails | client.go:45-48 | A reply cut off before its newline is a read error: an unterminated `OK` does not acknowledge a write, and an unterminated `OK v` is a failed read. |
| TcpClient.GetOutcome | client.go:58-62 | A read with no reply line fails with the empty value. |
| TcpClient.PutSucceeded | client.go:45-50 | No contract of its own: a write succeeds iff a reply line was read and `DecodePut` accepts it. `UnterminatedReplyFails` and `RoundTrip.PutThenGet` exercise both sides. |
| TcpClient.Client.Put | client.go:40-51 | Writes exactly `SET key value\n` when writable and consumes one exchange. It succeeds iff that exchange's line is the acknowledgement. |
| TcpClient.Client.Get | client.go:53-68 | Writes exactly `GET key\n` when writable and consumes one exchange. Its result is that line decoded. |
| Text.TrimSpace | client.go:50 | The trimmed string neither starts nor ends with white space. |
| Text.IsSpace | client.go:50 | No contract of its own: Go's `unicode.IsSpace`, the ASCII white space, U+0085, U+00A0 and the Unicode White_Space characters. `TrimSpace`, `TrimSpaceSlice` and `TrimSpaceOf` state trimming in its terms. |
| Text.TrimSpaceSlice | client.go:50 | The trimmed string is a slice of the input, and only white space was cut around it. |
| Text.TrimSpaceOf | test-server/main.go:49 | Trimming white space from around a core without edge white space returns that core. |
| Text.TrimPrefix | client.go:65 | With the prefix present, the result is what follows it; without it, the input unchanged. |
| Text.HasPrefix | client.go:64 | No contract of its own: `strings.HasPrefix`, that the prefix is an initial segment. `Protocol.DecodeGet` states the read rule in its terms. |
| Text.IndexOf | test-server/main.go:50 | Finds the first separator, or reports there is none. |
| Text.SplitN | test-server/main.go:50 | Cutting into at most `n` parts gives between 1 and `n` parts. |
| Text.SplitNShape | test-server/main.go:50 | Only the last part may contain the separator, and only when there are `n` parts. |
| Text.JoinSplitN | test-server/main.go:50 | Joining the parts with the separator gives back the input. |
| Text.SplitNJoin | test-server/main.go:50 | Parts of that shape, joined, are cut back into exactly those parts. |
| Text.ReadString | client.go:45 | There is a line iff the buffer holds a newline. The line ends at the first newline, and line plus rest is the buffer. |
| Text.ReadStringLine | test-server/main.go:45 | A stream that starts with a whole line yields exactly that line and the rest. |
| TestServer.KVStore.Set | test-server/main.go:28-32 | The key is bound to the value and nothing else changes. |
| TestServer.KVStore.Get | test-server/main.go:34-39 | Found iff the key is bound. Then the value is its binding; otherwise the empty string. |
| TestServer.HandleLine | test-server/main.go:49-71 | One loop turn replies and updates the store exactly as `Handle` says, through `Set` and `Get`. |
| TestServer.Handle | test-server/main.go:49-71 | No contract of its own: one request line against the store gives the reply and the new store. `HandleSet`, `HandleSetTooShort`, `HandleGet`, `HandleGetTooShort` and `HandleUnknown` together fix its result for every trimmed line, `HandleReplies` bounds its replies and store changes, and `HandleLine` is proved to compute it. |
| TestServer.Hit | test-server/main.go:65 | No contract of its own: the reply `OK <value>\n` to a read of a bound key. `TestServer.HandleGet` states it is the reply exactly when the key is bound, and `RoundTrip.HitDecodes` that the client decodes it back to the value. |
| TestServer.HandleConn | test-server/main.go:41-73 | The connection loop writes exactly the replies `Serve` gives for the input's complete lines and leaves the store as `Serve` says. A final unterminated line is dropped. |
| TestServer.Serve | test-server/main.go:44-72 | No contract of its own: a connection's whole exchange, each complete line handled in order and a last unterminated line dropped. `HandleConn` is proved to compute it, and `RoundTrip.ServeLine`, `RoundTrip.ServeOneLine` and `RoundTrip.ServeAppend` state how it composes over whole lines. |
| TestServer.HandleReplies | test-server/main.go:51-71 | Every reply is `OK`, `ERR` or a stored value. The store changes only on an acknowledged write, and then at one key. |
| TestServer.HandleSet | test-server/main.go:52-58 | `SET key value` stores everything after the second space and replies `OK`. |
| TestServer.HandleSetTooShort | test-server/main.go:53-56 | `SET` with no value is refused and changes nothing. |
| TestServer.HandleGet | test-server/main.go:59-68 | `GET key`, optionally followed by a space and anything else, replies `OK <value>` for a bound key and `ERR` otherwise, and changes nothing. Words after the key are ignored. |
| TestServer.HandleGetExtra | test-server/main.go:50-68 | `GET k extra` is answered from `k` alone. |
| TestServer.HandleGetTooShort | test-server/main.go:60-62 | `GET` with no key is refused. |
| TestServer.HandleUnknown | test-server/main.go:69-70 | Any other first word, the empty line included, is refused and changes nothing. |
| TestServer.HandleEmptyLine | test-server/main.go:49-51 | An empty request line is refused. |
| TestServer.HandleBlankValue | test-server/main.go:49-56 | A value of only white space is lost to the trim, so the write is refused. |
| TestServer.HandleValueWithSpace | test-server/main.go:50-57 | A value containing spaces is stored whole. |
| TestServer.HandleBareGet | test-server/main.go:59-62 | `GET\n` is refused. |
| RoundTrip.SetHandled | test-server/main.go:52-58 | A one-word key and a value without a newline or trailing white space make one request line, which the server stores exactly and acknowledges. |
| RoundTrip.GetHandled | test-server/main.go:59-68 | A read request of a one-word key is one line, which the server answers from the store. |
| RoundTrip.GetServed | test-server/main.go:59-68 | Served alone, a read request yields exactly that answer and leaves the store unchanged. |
| RoundTrip.ServeLine | test-server/main.go:44-72 | Serving a stream that starts with a whole line handles that line first, then the rest on the updated store. |
| RoundTrip.ServeOneLine | test-server/main.go:44-72 | Serving exactly one line is handling it. |
| RoundTrip.ServeAppend | test-server/main.go:44-72 | Serving two streams back to back, the first made of whole lines, is serving one and then the other on the resulting store. |
| RoundTrip.FirstLine | test-server/main.go:45 | A non-empty stream of whole lines starts with a whole line, and the rest is again whole lines. |
| RoundTrip.ExchangeLine | client.go:45-49 | A client facing a whole reply line reads exactly it. |
| RoundTrip.FixedReplyLines | test-server/main.go:54-70 | The server's `OK` and `ERR` replies are each exactly one line. |
| RoundTrip.ReplyLines | test-server/main.go:58-67 | Every reply the server writes is exactly one line. |
| RoundTrip.PutThenGet | client.go:40-68 | For a non-empty one-word key and a non-empty value with no newline that does not end in white space: a write then a read of that key on one connection. The server stores the value and answers `OK`, then `OK <value>`. The client sees the write succeed and reads back exactly the value, with nothing left over. |
| RoundTrip.EmptyKeyStored | test-server/main.go:50-58 | The server accepts a write under the empty key and stores the value there. |
| RoundTrip.EmptyKeyUnreadable | test-server/main.go:49-62 | A read of the empty key trims to a bare `GET` and is refused whatever the store holds, so a value written under the empty key cannot be read back. |
| RoundTrip.GetMissing | test-server/main.go:64-67 | A read of an unbound key is answered `ERR`, which the client reads as a miss. |
| RoundTrip.GeneratedOpOk | benchmark.go:132-142 | Every key and value the benchmark generates survives the protocol. |
| RoundTrip.PutOnPreloaded | benchmark.go:139 | A generated write to a preloaded server is acknowledged and keeps every key bound. |
| RoundTrip.GetOnPreloaded | benchmark.go:141 | A read of a preloaded key is a hit with the stored value. |
| RoundTrip.HitDecodes | client.go:63-65 | A server's hit line decodes to exactly its value. |
| RoundTrip.ServeOp | benchmark.go:138-142 | Every operation a worker draws, served by a server that holds every key, succeeds and keeps every key bound. |
| RoundTrip.EveryOpSucceeds | benchmark.go:125-148 | Against a server that holds every key, the replies to a whole plan make every operation succeed. They are consumed exactly, leaving whatever follows. |
| RoundTrip.RequestsEndInLine | client.go:41 | A worker's requests form whole lines. |
| RoundTrip.LoadedRun | benchmark.go:121-149 | A worker whose connection carries the server's replies to its own requests counts every operation of its plan. |
| RoundTrip.AllSucceed | benchmark.go:144-145 | A run of successes is counted in full. |

## Left out

- The command line (`main.go`) and its flags are not part of this model.
- Printing the summary and the `RESULT:` line is left out. So are `%.2f` formatting, and `appendCSV` with its header check and file I/O. The model stops at the numbers the summary reports.
- Goroutines, the `WaitGroup` and the result channel are not modelled as concurrency:
  - workers run one after another;
  - `Benchmark.SumOrderIndependent` shows that the order in which results arrive does not change the totals.
- The context deadline is the end of a worker's plan. A plan is as long as the deadline allows.
- `time.Now`/`time.Since` are replaced by each step's elapsed nanoseconds, and `math/rand` by the draws in each step.
- `net.Dial`, the panic on a failed dial, `Close` and the debug `log` are left out. A connection is given by its `writable` flag and its incoming bytes.
- Benchmark.Run: a negative worker count makes Go panic at `make(chan workerResult, cfg.Workers)` (benchmark.go:78). The model requires a non-negative worker count.
- Benchmark.Run: an empty address list with workers makes Go panic on `i % 0`. The model requires addresses whenever there are workers.
- Benchmark.Run: `NumKeys <= 0` makes `rand.Intn` panic. The model's valid plans then have no steps, since no key draw is valid.
- Benchmark.Summarize: throughput and latency are exact rationals, not `float64`. They are stated by their defining products.
- Benchmark.Aggregate: Go's `int` and `time.Duration` are 64-bit and could wrap. The model's counts and durations are unbounded, and no run of 10 seconds comes close to wrapping.
- Text.TrimSpace: Go works on UTF-8 bytes. The model works on characters and applies `unicode.IsSpace` to each, without decoding byte sequences.
- TcpClient.Client: whether writes succeed is fixed for the whole connection (the `writable` flag). Go can fail one `Fprintf` and succeed on a later one, and a connection the server has closed may accept some writes and then refuse later ones. The model does not capture a write error that starts or stops partway through a connection. A connection that accepts writes but has no more replies to read is modelled as writable, with its incoming bytes running out.
- TestServer.HandleConn: the server's mutex and the `Accept` loop of `test-server/main.go` `main` are left out. One connection is served against one store; concurrent connections interleaving on the shared map are not modelled.
- TestServer.HandleConn: write errors on the server's replies are ignored, as the Go code ignores them.
- The protocol comment in `client.go` says a read's reply is `OK value` or `ERR`. The code accepts any trimmed line starting with `OK`. The model follows the code: `Protocol.DecodeGetBareOk`, `Protocol.DecodeGetEmptyValue` and `Protocol.DecodeGetOkay` state what it does with `OK`, `OK ` and `OKAY`.
- The test server accepts a write under the empty key but refuses every read of it (`RoundTrip.EmptyKeyStored`, `RoundTrip.EmptyKeyUnreadable`). The end-to-end lemmas are therefore stated for non-empty one-word keys, which are the only keys the benchmark generates.
