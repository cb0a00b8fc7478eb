/**
 * The benchmark harness: assigns workers to servers, runs each worker's
 * operation loop against its own connection, and folds the workers' results.
 * Randomness is supplied as draws, the end of the experiment as the end of a
 * worker's plan, and each operation's measured time as part of that plan.
 */
module Benchmark {
  import opened Text
  import opened Workloads
  import opened Protocol
  import opened TcpClient

  /** Characters of each random value, the values' length, and the fixed
      experiment duration in seconds. */
  const Charset: string := "abcdefghijklmnopqrstuvwxyz0123456789"
  const ValueSize: nat := 100
  const ExperimentSeconds: nat := 10
  /** Nanoseconds in a millisecond: durations are counted in nanoseconds. */
  const NanosPerMilli: nat := 1_000_000

  datatype Config = Config(addrs: seq<string>, workers: int, numKeys: int, workload: Workload)

  /** What one worker accumulates: successful operations and their total
      latency in nanoseconds. */
  datatype WorkerResult = WorkerResult(count: nat, duration: nat)

  /** The draws and the measured latency of one turn of a worker's loop. */
  datatype Step = Step(keyDraw: int, valueDraws: seq<int>, opDraw: int, elapsed: nat)

  /** One operation a worker issues. */
  datatype Op = Put(key: string, value: string) | Get(key: string)

  // ---------------------------------------------------------------------
  // Round-robin assignment of workers to addresses

  /** The address index of each of `workers` workers over `n` addresses. */
  function RoundRobin(workers: nat, n: nat): (r: seq<nat>)
    requires n > 0
    ensures |r| == workers
    ensures forall i :: 0 <= i < workers ==> r[i] < n
  {
    if workers == 0 then [] else RoundRobin(workers - 1, n) + [(workers - 1) % n]
  }

  /** The address each worker connects to, in worker order. */
  method AssignAddresses(addrs: seq<string>, workers: int) returns (targets: seq<string>)
    requires workers > 0 ==> |addrs| > 0
    ensures workers <= 0 ==> targets == []
    ensures workers > 0 ==>
      (|targets| == workers &&
       forall i :: 0 <= i < workers ==> targets[i] == addrs[RoundRobin(workers, |addrs|)[i]])
  {
    targets := [];
    var i := 0;
    while i < workers
      invariant 0 <= i <= (if workers > 0 then workers else 0)
      invariant i > 0 ==> |addrs| > 0
      invariant |targets| == i
      invariant forall j :: 0 <= j < i ==> targets[j] == addrs[RoundRobin(i, |addrs|)[j]]
    {
      targets := targets + [addrs[i % |addrs|]];
      i := i + 1;
    }
  }

  /** Worker `i` is given address `i mod n`. */
  lemma {:induction false} RoundRobinAt(workers: nat, n: nat, i: nat)
    requires n > 0 && i < workers
    ensures RoundRobin(workers, n)[i] == i % n
  {
    if i < workers - 1 {
      RoundRobinAt(workers - 1, n, i);
    }
  }

  /** The whole assignment is `i mod n` for every worker `i`. */
  lemma RoundRobinMod(workers: nat, n: nat)
    requires n > 0
    ensures forall i :: 0 <= i < workers ==> RoundRobin(workers, n)[i] == i % n
  {
    forall i | 0 <= i < workers
      ensures RoundRobin(workers, n)[i] == i % n
    {
      RoundRobinAt(workers, n, i);
    }
  }

  /** Five workers over two addresses. */
  lemma RoundRobinExample()
    ensures RoundRobin(5, 2) == [0, 1, 0, 1, 0]
  {
  }

  function Occurrences(s: seq<nat>, a: nat): nat
  {
    if s == [] then 0 else Occurrences(s[..|s| - 1], a) + (if s[|s| - 1] == a then 1 else 0)
  }

  /** Address `a` serves `workers / n` workers, one more when it is among
      the first `workers % n`: the loads differ by at most one. */
  lemma {:induction false} RoundRobinLoad(workers: nat, n: nat, a: nat)
    requires a < n
    ensures Occurrences(RoundRobin(workers, n), a)
            == workers / n + (if a < workers % n then 1 else 0)
  {
    if workers > 0 {
      var w := workers - 1;
      RoundRobinLoad(w, n, a);
      assert RoundRobin(workers, n)[..w] == RoundRobin(w, n);
      DivModNext(w, n);
    }
  }

  /** How `/` and `%` move from `w` to `w + 1`. */
  lemma DivModNext(w: nat, n: nat)
    requires n > 0
    ensures w % n + 1 < n ==> (w + 1) / n == w / n && (w + 1) % n == w % n + 1
    ensures w % n + 1 == n ==> (w + 1) / n == w / n + 1 && (w + 1) % n == 0
  {
    var q, r := w / n, w % n;
    assert w == q * n + r;
    if r + 1 < n {
      DivModUnique(w + 1, n, q, r + 1);
    } else {
      assert w + 1 == (q + 1) * n;
      DivModUnique(w + 1, n, q + 1, 0);
    }
  }

  lemma DivModUnique(x: nat, n: nat, q: nat, r: nat)
    requires n > 0 && r < n && x == q * n + r
    ensures x / n == q && x % n == r
  {
    var q', r' := x / n, x % n;
    if q' < q {
      MulMonotone(q' + 1, q, n);
    } else if q' > q {
      MulMonotone(q + 1, q', n);
    }
  }

  lemma {:induction false} MulMonotone(a: nat, b: nat, n: nat)
    requires a <= b
    ensures a * n + (b - a) * n == b * n
    ensures a * n <= b * n
    decreases b - a
  {
    if a < b {
      MulMonotone(a, b - 1, n);
    }
  }

  /** With at least as many workers as addresses, every address is used. */
  lemma RoundRobinCovers(workers: nat, n: nat, a: nat)
    requires 0 < n <= workers && a < n
    ensures a in RoundRobin(workers, n)
  {
    RoundRobinAt(workers, n, a);
    DivModUnique(a, n, 0, a);
    assert RoundRobin(workers, n)[a] == a;
  }

  // ---------------------------------------------------------------------
  // Operation choice and random values

  /** A key of the key space: "k" followed by the decimal index. */
  function KeyName(index: int): string
  {
    "k" + Decimal(index)
  }

  /** A key is a non-empty string without white space, and distinct
      indices give distinct keys. */
  lemma KeyNameFacts(i: nat, j: nat)
    ensures |KeyName(i)| >= 2 && NoSpace(KeyName(i))
    ensures KeyName(i) == KeyName(j) ==> i == j
  {
    if KeyName(i) == KeyName(j) {
      assert KeyName(i)[1..] == Digits(i) && KeyName(j)[1..] == Digits(j);
      DigitsInjective(i, j);
    }
  }

  /** The write decision of one turn: the draw falls below the write percentage. */
  predicate IsWrite(w: Workload, draw: int)
  {
    draw < w as int
  }

  /** Of the 100 equally likely draws, exactly as many choose a write as the
      workload's percentage. */
  lemma WriteShare(w: Workload)
    requires 0 <= w <= 100
    ensures |set d | 0 <= d < 100 && IsWrite(w, d)| == w as int
  {
    var writes := set d | 0 <= d < 100 && IsWrite(w, d);
    assert writes == Below(w as int);
    BelowSize(w as int);
  }

  /** The integers 0 .. n-1. */
  function Below(n: nat): (r: set<int>)
    ensures forall d :: d in r <==> 0 <= d < n
  {
    if n == 0 then {} else Below(n - 1) + {n - 1}
  }

  lemma {:induction false} BelowSize(n: nat)
    ensures |Below(n)| == n
  {
    if n > 0 {
      var m := n - 1;
      BelowSize(m);
      var prev := Below(m);
      assert m !in prev;
      assert Below(n) == prev + {m};
      assert |prev + {m}| == |prev| + 1;
    }
  }

  /** The read-only workload never writes. */
  lemma ReadOnlyNeverWrites(draw: int)
    requires 0 <= draw < 100
    ensures !IsWrite(WorkloadC, draw)
  {
  }

  /** The draws of one turn are in the ranges their generators return. */
  predicate ValidStep(step: Step, numKeys: int)
  {
    && 0 <= step.keyDraw < numKeys
    && ValueDraws(step)
    && 0 <= step.opDraw < 100
  }

  /** A value's worth of charset indices. */
  predicate ValueDraws(step: Step)
  {
    && |step.valueDraws| == ValueSize
    && (forall i :: 0 <= i < |step.valueDraws| ==> 0 <= step.valueDraws[i] < |Charset|)
  }

  /** The value spelled by a sequence of charset draws. */
  function ValueFrom(draws: seq<int>): (v: string)
    requires forall i :: 0 <= i < |draws| ==> 0 <= draws[i] < |Charset|
  {
    seq(|draws|, i requires 0 <= i < |draws| => Charset[draws[i]])
  }

  /** A random value of `size` characters, filled in place one draw at a time. */
  method RandomValue(size: int, draws: seq<int>) returns (value: string)
    requires size >= 0 && |draws| == size
    requires forall i :: 0 <= i < size ==> 0 <= draws[i] < |Charset|
    ensures |value| == size
    ensures forall i :: 0 <= i < size ==> value[i] in Charset && value[i] == Charset[draws[i]]
  {
    var b := new char[size];
    for i := 0 to size
      invariant forall j :: 0 <= j < i ==> b[j] == Charset[draws[j]]
    {
      b[i] := Charset[draws[i]];
    }
    value := b[..];
  }

  /** Every character of the charset is a lower-case letter or a digit, so a
      value holds no white space. */
  lemma ValueHasNoSpace(draws: seq<int>)
    requires forall i :: 0 <= i < |draws| ==> 0 <= draws[i] < |Charset|
    ensures NoSpace(ValueFrom(draws))
  {
    var v := ValueFrom(draws);
    forall i | 0 <= i < |v|
      ensures !IsSpace(v[i])
    {
      CharsetIsAlphanumeric(draws[i]);
      AlphanumericIsNotSpace(v[i]);
    }
  }

  lemma CharsetIsAlphanumeric(k: int)
    requires 0 <= k < |Charset|
    ensures IsAlphanumeric(Charset[k])
  {
  }

  predicate IsAlphanumeric(c: char)
  {
    ('a' <= c <= 'z') || ('0' <= c <= '9')
  }

  lemma AlphanumericIsNotSpace(c: char)
    requires IsAlphanumeric(c)
    ensures !IsSpace(c)
  {
  }

  /** The operation of one turn: a write of a fresh value when the draw says
      so, a read otherwise, of the drawn key either way. */
  function ChooseOp(w: Workload, step: Step): (op: Op)
    requires forall i :: 0 <= i < |step.valueDraws| ==> 0 <= step.valueDraws[i] < |Charset|
  {
    if IsWrite(w, step.opDraw) then Put(KeyName(step.keyDraw), ValueFrom(step.valueDraws))
    else Get(KeyName(step.keyDraw))
  }

  // ---------------------------------------------------------------------
  // The worker loop

  /** Whether an operation succeeded, given the response line it obtained. */
  predicate Succeeded(op: Op, reply: Option<string>)
  {
    if op.Put? then PutSucceeded(reply) else GetOutcome(reply).1
  }

  /** The request line of an operation. */
  function Encode(op: Op): string
  {
    match op
    case Put(k, v) => EncodeSet(k, v)
    case Get(k) => EncodeGet(k)
  }

  predicate ValidPlan(plan: seq<Step>, numKeys: int)
  {
    forall i :: 0 <= i < |plan| ==> ValidStep(plan[i], numKeys)
  }

  /** The operations of a plan. */
  function Ops(w: Workload, plan: seq<Step>, numKeys: int): (ops: seq<Op>)
    requires ValidPlan(plan, numKeys)
    ensures |ops| == |plan|
  {
    if plan == [] then []
    else Ops(w, plan[..|plan| - 1], numKeys) + [ChooseOp(w, plan[|plan| - 1])]
  }

  /** Everything a connection that accepts writes carries for `ops`. */
  function Requests(ops: seq<Op>): string
  {
    if ops == [] then [] else Requests(ops[..|ops| - 1]) + Encode(ops[|ops| - 1])
  }

  /** The success of each of `ops` on a connection, and the bytes left
      unread after them. */
  function Answers(writable: bool, unread: string, ops: seq<Op>): (r: (seq<bool>, string))
    ensures |r.0| == |ops|
  {
    if ops == [] then ([], unread)
    else
      var (oks, left) := Answers(writable, unread, ops[..|ops| - 1]);
      var (reply, rest) := Exchange(writable, left);
      (oks + [Succeeded(ops[|ops| - 1], reply)], rest)
  }

  /** The accounting rule of one turn: a success adds one operation and its
      latency, a failure adds nothing. */
  function Account(res: WorkerResult, ok: bool, elapsed: nat): WorkerResult
  {
    if ok then WorkerResult(res.count + 1, res.duration + elapsed) else res
  }

  /** A worker's result after the turns of `plan` whose successes are `oks`. */
  function Tally(oks: seq<bool>, plan: seq<Step>): WorkerResult
    requires |oks| == |plan|
  {
    if plan == [] then WorkerResult(0, 0)
    else Account(Tally(oks[..|oks| - 1], plan[..|plan| - 1]), oks[|oks| - 1], plan[|plan| - 1].elapsed)
  }

  /** How many of `oks` are successes. */
  function Successes(oks: seq<bool>): nat
  {
    if oks == [] then 0 else Successes(oks[..|oks| - 1]) + (if oks[|oks| - 1] then 1 else 0)
  }

  /** The worker loop: one operation per turn of the plan, on the worker's
      own connection, counting only the operations that succeed. */
  method RunWorker(client: Client, w: Workload, numKeys: int, plan: seq<Step>)
    returns (res: WorkerResult)
    requires ValidPlan(plan, numKeys)
    modifies client
    ensures var (oks, left) := Answers(client.writable, old(client.unread), Ops(w, plan, numKeys));
      && res == Tally(oks, plan)
      && client.unread == left
    ensures client.sent
            == old(client.sent) + (if client.writable then Requests(Ops(w, plan, numKeys)) else [])
  {
    ghost var ops := Ops(w, plan, numKeys);
    ghost var start := client.unread;
    ghost var oks: seq<bool> := [];
    ghost var base := client.sent;
    res := WorkerResult(0, 0);
    for i := 0 to |plan|
      invariant |oks| == i
      invariant (oks, client.unread) == Answers(client.writable, start, ops[..i])
      invariant res == Tally(oks, plan[..i])
      invariant client.writable ==> client.sent == base + Requests(ops[..i])
      invariant !client.writable ==> client.sent == base
    {
      var step := plan[i];
      assert ops[i] == ChooseOp(w, step) by { OpsAt(w, plan, numKeys, i); }
      ghost var before := res;
      var ok := Perform(client, w, step);
      res := Account(res, ok, step.elapsed);
      AnswersStep(client.writable, start, ops, i);
      TallyStep(oks, plan, i, ok, before, res);
      RequestsStep(base, ops, i);
      oks := oks + [ok];
    }
    assert ops[..|plan|] == ops && plan[..|plan|] == plan;
  }

  /** One turn's operation: draws the key and a fresh value, and issues a
      write or a read on the connection as the draw decides. */
  method Perform(client: Client, w: Workload, step: Step) returns (ok: bool)
    requires ValueDraws(step)
    modifies client
    ensures var (reply, rest) := Exchange(client.writable, old(client.unread));
      && ok == Succeeded(ChooseOp(w, step), reply)
      && client.unread == rest
    ensures client.sent
            == old(client.sent) + (if client.writable then Encode(ChooseOp(w, step)) else [])
  {
    var key := KeyName(step.keyDraw);
    var value := RandomValue(ValueSize, step.valueDraws);
    assert value == ValueFrom(step.valueDraws);
    if step.opDraw < w as int {
      ok := client.Put(key, value);
    } else {
      var _, got := client.Get(key);
      ok := got;
    }
  }

  /** The answers to one more operation extend the answers so far by its
      success, and the unread bytes by its exchange. */
  lemma AnswersStep(writable: bool, start: string, ops: seq<Op>, i: nat)
    requires i < |ops|
    ensures var (oks, left) := Answers(writable, start, ops[..i]);
      var (reply, rest) := Exchange(writable, left);
      Answers(writable, start, ops[..i + 1]) == (oks + [Succeeded(ops[i], reply)], rest)
  {
    assert ops[..i + 1][..i] == ops[..i];
  }

  lemma TallyStep(oks: seq<bool>, plan: seq<Step>, i: nat, ok: bool,
                  before: WorkerResult, after: WorkerResult)
    requires i < |plan| && |oks| == i && before == Tally(oks, plan[..i])
    requires after == Account(before, ok, plan[i].elapsed)
    ensures after == Tally(oks + [ok], plan[..i + 1])
  {
    assert plan[..i + 1][..i] == plan[..i];
    assert (oks + [ok])[..i] == oks;
  }

  lemma RequestsStep(base: string, ops: seq<Op>, i: nat)
    requires i < |ops|
    ensures base + Requests(ops[..i + 1]) == base + Requests(ops[..i]) + Encode(ops[i])
  {
    assert ops[..i + 1][..i] == ops[..i];
  }

  lemma {:induction false} OpsAt(w: Workload, plan: seq<Step>, numKeys: int, i: nat)
    requires ValidPlan(plan, numKeys) && i < |plan|
    ensures Ops(w, plan, numKeys)[i] == ChooseOp(w, plan[i])
  {
    if i < |plan| - 1 {
      assert ValidPlan(plan[..|plan| - 1], numKeys);
      OpsAt(w, plan[..|plan| - 1], numKeys, i);
    }
  }

  /** The final count is the number of successful turns, and the count and
      the total latency only grow from turn to turn. */
  lemma {:induction false} TallyCountsSuccesses(oks: seq<bool>, plan: seq<Step>, k: nat)
    requires |oks| == |plan| && k <= |plan|
    ensures Tally(oks, plan).count == Successes(oks) <= |plan|
    ensures Tally(oks[..k], plan[..k]).count <= Tally(oks, plan).count
    ensures Tally(oks[..k], plan[..k]).duration <= Tally(oks, plan).duration
  {
    if plan != [] {
      var n := |plan| - 1;
      if k == |plan| {
        assert oks[..k] == oks && plan[..k] == plan;
        TallyCountsSuccesses(oks[..n], plan[..n], n);
      } else {
        assert oks[..n][..k] == oks[..k] && plan[..n][..k] == plan[..k];
        TallyCountsSuccesses(oks[..n], plan[..n], k);
      }
    }
  }

  /** Under the read-only workload a worker only ever reads. */
  lemma {:induction false} ReadOnlyOps(plan: seq<Step>, numKeys: int)
    requires ValidPlan(plan, numKeys)
    ensures forall op :: op in Ops(WorkloadC, plan, numKeys) ==> op.Get?
  {
    if plan != [] {
      assert ValidPlan(plan[..|plan| - 1], numKeys);
      ReadOnlyOps(plan[..|plan| - 1], numKeys);
    }
  }

  /** A connection that refuses writes makes every operation fail, so its
      worker counts nothing. */
  lemma {:induction false} UnwritableCountsNothing(unread: string, ops: seq<Op>, plan: seq<Step>)
    requires |ops| == |plan|
    ensures Tally(Answers(false, unread, ops).0, plan) == WorkerResult(0, 0)
    ensures Answers(false, unread, ops).1 == unread
  {
    if ops != [] {
      var n := |ops| - 1;
      UnwritableCountsNothing(unread, ops[..n], plan[..n]);
      var oks := Answers(false, unread, ops).0;
      assert oks[..n] == Answers(false, unread, ops[..n]).0;
      assert !oks[n];
    }
  }

  // ---------------------------------------------------------------------
  // Aggregation and the summary

  function Plus(a: WorkerResult, b: WorkerResult): WorkerResult
  {
    WorkerResult(a.count + b.count, a.duration + b.duration)
  }

  /** The totals over all workers' results. */
  function Sum(results: seq<WorkerResult>): WorkerResult
  {
    if results == [] then WorkerResult(0, 0)
    else Plus(Sum(results[..|results| - 1]), results[|results| - 1])
  }

  /** The fold over the results as they arrive. */
  method Aggregate(results: seq<WorkerResult>) returns (total: WorkerResult)
    ensures total == Sum(results)
  {
    var totalCount: nat, totalDuration: nat := 0, 0;
    for i := 0 to |results|
      invariant WorkerResult(totalCount, totalDuration) == Sum(results[..i])
    {
      assert results[..i + 1][..i] == results[..i];
      totalCount := totalCount + results[i].count;
      totalDuration := totalDuration + results[i].duration;
    }
    assert results[..|results|] == results;
    total := WorkerResult(totalCount, totalDuration);
  }

  lemma {:induction false} SumAppend(a: seq<WorkerResult>, b: seq<WorkerResult>)
    ensures Sum(a + b) == Plus(Sum(a), Sum(b))
  {
    if b != [] {
      var n := |b| - 1;
      assert (a + b)[..|a + b| - 1] == a + b[..n];
      SumAppend(a, b[..n]);
    } else {
      assert a + b == a;
    }
  }

  /** The totals do not depend on the order in which results arrive. */
  lemma {:induction false} SumOrderIndependent(a: seq<WorkerResult>, b: seq<WorkerResult>)
    requires multiset(a) == multiset(b)
    ensures Sum(a) == Sum(b)
    decreases |a|
  {
    if a != [] {
      var n := |a| - 1;
      var x := a[n];
      assert x in multiset(b);
      var j :| 0 <= j < |b| && b[j] == x;
      var rest := RemoveAt(b, j);
      assert a == a[..n] + [x];
      assert multiset(a[..n]) == multiset(a) - multiset{x};
      SumOrderIndependent(a[..n], rest);
      SumRemoveAt(b, j);
    }
  }

  function RemoveAt(b: seq<WorkerResult>, j: nat): (r: seq<WorkerResult>)
    requires j < |b|
    ensures multiset(r) == multiset(b) - multiset{b[j]}
  {
    assert b == b[..j] + [b[j]] + b[j + 1..];
    b[..j] + b[j + 1..]
  }

  /** Taking one result out takes its counts out of the totals. */
  lemma SumRemoveAt(b: seq<WorkerResult>, j: nat)
    requires j < |b|
    ensures Sum(b) == Plus(Sum(b[..j] + b[j + 1..]), b[j])
  {
    var front, back := b[..j], b[j + 1..];
    SplitAround(b, j, b[j]);
    SumSnoc(front, b[j]);
    SumAppend(front + [b[j]], back);
    SumAppend(front, back);
  }

  lemma SumSnoc(s: seq<WorkerResult>, x: WorkerResult)
    ensures Sum(s + [x]) == Plus(Sum(s), x)
  {
    assert (s + [x])[..|s|] == s;
  }

  /** The address assignment, stated index by index. */
  lemma AssignedByIndex(addrs: seq<string>, workers: int, targets: seq<string>)
    requires workers > 0 ==> |addrs| > 0
    requires workers <= 0 ==> targets == []
    requires workers > 0 ==>
      (|targets| == workers &&
       forall i :: 0 <= i < workers ==> targets[i] == addrs[RoundRobin(workers, |addrs|)[i]])
    ensures |targets| == (if workers > 0 then workers else 0)
    ensures forall i :: 0 <= i < |targets| ==> targets[i] == addrs[i % |addrs|]
  {
    if workers > 0 {
      RoundRobinMod(workers, |addrs|);
    }
  }

  /** What one worker counts on a connection that is writable or not and
      on which the server sends `incoming`. */
  function WorkerTally(w: Workload, numKeys: int, plan: seq<Step>, writable: bool, incoming: string)
    : WorkerResult
    requires ValidPlan(plan, numKeys)
  {
    Tally(Answers(writable, incoming, Ops(w, plan, numKeys)).0, plan)
  }

  /** The whole benchmark: assign each worker its address, run each worker on
      its own fresh connection, fold the results and summarise them. Worker
      `i` follows `plans[i]` on a connection described by `links[i]`. */
  method Run(cfg: Config, plans: seq<seq<Step>>, links: seq<(bool, string)>)
    returns (targets: seq<string>, results: seq<WorkerResult>, summary: Summary)
    requires cfg.workers >= 0
    requires cfg.workers > 0 ==> |cfg.addrs| > 0
    requires |plans| == |links| == cfg.workers
    requires forall i :: 0 <= i < |plans| ==> ValidPlan(plans[i], cfg.numKeys)
    ensures |targets| == |results| == |plans|
    ensures forall i :: 0 <= i < |plans| ==> targets[i] == cfg.addrs[i % |cfg.addrs|]
    ensures forall i :: 0 <= i < |plans| ==>
      results[i] == WorkerTally(cfg.workload, cfg.numKeys, plans[i], links[i].0, links[i].1)
    ensures summary == Summarize(Sum(results))
  {
    targets := AssignAddresses(cfg.addrs, cfg.workers);
    AssignedByIndex(cfg.addrs, cfg.workers, targets);
    results := RunWorkers(cfg.workload, cfg.numKeys, plans, links);
    var total := Aggregate(results);
    summary := Summarize(total);
  }

  /** Runs each worker on its own fresh connection and collects the results. */
  method RunWorkers(w: Workload, numKeys: int, plans: seq<seq<Step>>, links: seq<(bool, string)>)
    returns (results: seq<WorkerResult>)
    requires |plans| == |links|
    requires forall i :: 0 <= i < |plans| ==> ValidPlan(plans[i], numKeys)
    ensures |results| == |plans|
    ensures forall i :: 0 <= i < |plans| ==>
      results[i] == WorkerTally(w, numKeys, plans[i], links[i].0, links[i].1)
  {
    results := [];
    for i := 0 to |plans|
      invariant |results| == i
      invariant forall j :: 0 <= j < i ==>
        results[j] == WorkerTally(w, numKeys, plans[j], links[j].0, links[j].1)
    {
      var r := Worker(w, numKeys, plans[i], links[i].0, links[i].1);
      results := results + [r];
    }
  }

  /** One worker's life: a connection of its own, then the worker loop on it. */
  method Worker(w: Workload, numKeys: int, plan: seq<Step>, writable: bool, incoming: string)
    returns (res: WorkerResult)
    requires ValidPlan(plan, numKeys)
    ensures res == WorkerTally(w, numKeys, plan, writable, incoming)
  {
    var client := new Client(writable, incoming);
    res := RunWorker(client, w, numKeys, plan);
  }

  /** What the run reports. */
  datatype Summary = Summary(totalOps: nat, throughput: real, avgLatencyMs: real)

  /** Go's `Duration.Milliseconds` of a non-negative duration: whole
      milliseconds, rounded down. */
  function Milliseconds(d: nat): (ms: nat)
    ensures ms * NanosPerMilli <= d < (ms + 1) * NanosPerMilli
  {
    d / NanosPerMilli
  }

  /** Throughput over the fixed experiment duration, and the mean latency in
      milliseconds, which is 0 when nothing succeeded. */
  function Summarize(total: WorkerResult): (s: Summary)
    ensures s.totalOps == total.count
    ensures s.throughput * (ExperimentSeconds as real) == total.count as real
    ensures total.count == 0 ==> s.avgLatencyMs == 0.0
    ensures total.count > 0 ==>
      s.avgLatencyMs * (total.count as real) == Milliseconds(total.duration) as real
    ensures s.throughput >= 0.0 && s.avgLatencyMs >= 0.0
  {
    var throughput := (total.count as real) / (ExperimentSeconds as real);
    var avg := if total.count > 0
      then (Milliseconds(total.duration) as real) / (total.count as real)
      else 0.0;
    Summary(total.count, throughput, avg)
  }
}
