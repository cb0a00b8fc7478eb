/**
 * The benchmark client against the reference server: what the server
 * answers to the requests the client writes, and how the client reads those
 * answers back.
 */
module RoundTrip {
  import opened Text
  import opened Workloads
  import opened Protocol
  import opened TcpClient
  import opened TestServer
  import opened Benchmark

  /** A key survives the trip when it is one non-empty word; the empty key
      can be written but not read back (EmptyKeyStored, EmptyKeyUnreadable). */
  predicate KeyOk(key: string)
  {
    key != [] && NoSpace(key)
  }

  /** A value survives the trip when it is non-empty, holds no newline and
      does not end in white space (leading and inner spaces survive). */
  predicate ValueOk(value: string)
  {
    value != [] && '\n' !in value && !IsSpace(value[|value| - 1])
  }

  /** A write request is one line that the server reads as a write of that
      key and value. */
  lemma SetHandled(key: string, value: string, store: Store)
    requires KeyOk(key) && ValueOk(value)
    ensures IsLine(EncodeSet(key, value))
    ensures Handle(EncodeSet(key, value), store) == (Ok, store[key := value])
  {
    var core := "SET " + key + " " + value;
    assert EncodeSet(key, value) == core + "\n";
    assert core[0] == 'S' && core[|core| - 1] == value[|value| - 1];
    assert '\n' !in key by { assert IsSpace('\n'); }
    assert '\n' !in core by {
      assert core == "SET " + (key + (" " + value));
    }
    assert EncodeSet(key, value)[..|core|] == core;
    TrimLine(core);
    assert ' ' !in key by { assert IsSpace(' '); }
    HandleSet(EncodeSet(key, value), store, key, value);
  }

  /** A read request is one line that the server reads as a read of that key. */
  lemma GetHandled(key: string, store: Store)
    requires KeyOk(key)
    ensures IsLine(EncodeGet(key))
    ensures Handle(EncodeGet(key), store)
            == (if key in store then Hit(store[key]) else Err, store)
  {
    var core := "GET " + key;
    assert EncodeGet(key) == core + "\n";
    assert core[0] == 'G' && core[|core| - 1] == key[|key| - 1];
    assert !IsSpace(key[|key| - 1]);
    assert '\n' !in key by { assert IsSpace('\n'); }
    assert '\n' !in core;
    assert EncodeGet(key)[..|core|] == core;
    TrimLine(core);
    assert ' ' !in key by { assert IsSpace(' '); }
    assert "GET " + key + [] == "GET " + key;
    HandleGet(EncodeGet(key), store, key, []);
  }

  /** The server accepts a write under the empty key: the request cuts into
      "SET", the empty key and the value. */
  lemma EmptyKeyStored(value: string, store: Store)
    requires ValueOk(value)
    ensures Handle(EncodeSet("", value), store) == (Ok, store["" := value])
  {
    var core := "SET " + "" + " " + value;
    assert EncodeSet("", value) == core + "\n";
    assert core[0] == 'S' && core[|core| - 1] == value[|value| - 1];
    TrimLine(core);
    HandleSet(EncodeSet("", value), store, "", value);
  }

  /** A read of the empty key is refused whatever the store holds, since the
      trim leaves a bare "GET": a value written under the empty key cannot be
      read back. */
  lemma EmptyKeyUnreadable(store: Store)
    ensures Handle(EncodeGet(""), store) == (Err, store)
  {
    TrimSpaceOf([], "GET", " \n");
    assert [] + "GET" + " \n" == EncodeGet("");
    HandleGetTooShort(EncodeGet(""), store);
  }

  /** The server's answer to a stream that starts with a whole line is its
      answer to that line followed by its answer to the rest. */
  lemma ServeLine(line: string, rest: string, store: Store)
    requires IsLine(line)
    ensures var (reply, next) := Handle(line, store);
      Serve(line + rest, store) == (reply + Serve(rest, next).0, Serve(rest, next).1)
  {
    ReadStringLine(line, rest);
  }

  /** A stream of whole lines is answered line by line, whatever follows. */
  lemma {:induction false} ServeAppend(a: string, b: string, store: Store)
    requires a == [] || a[|a| - 1] == '\n'
    ensures Serve(a + b, store)
            == (Serve(a, store).0 + Serve(b, Serve(a, store).1).0, Serve(b, Serve(a, store).1).1)
    decreases |a|
  {
    if a == [] {
      assert a + b == b;
      assert Serve(a, store) == ("", store);
      assert "" + Serve(b, store).0 == Serve(b, store).0;
    } else {
      var r := FirstLine(a);
      ServeAppend(r.rest, b, Handle(r.line, store).1);
      ServeAppendStep(r.line, r.rest, b, store);
    }
  }

  /** A non-empty stream of whole lines starts with a line, and what follows
      it is again whole lines. */
  lemma FirstLine(a: string) returns (r: Read)
    requires a != [] && a[|a| - 1] == '\n'
    ensures r == ReadString(a) && r.Line? && IsLine(r.line) && r.line + r.rest == a
    ensures r.rest == [] || r.rest[|r.rest| - 1] == '\n'
  {
    assert a[|a| - 1] in a;
    r := ReadString(a);
    assert r.rest == [] || r.rest[|r.rest| - 1] == a[|a| - 1];
  }

  /** One line of the induction above: the first line's reply comes first. */
  lemma ServeAppendStep(line: string, rest: string, b: string, store: Store)
    requires IsLine(line)
    requires var next := Handle(line, store).1;
      Serve(rest + b, next)
      == (Serve(rest, next).0 + Serve(b, Serve(rest, next).1).0, Serve(b, Serve(rest, next).1).1)
    ensures var a := line + rest;
      Serve(a + b, store)
      == (Serve(a, store).0 + Serve(b, Serve(a, store).1).0, Serve(b, Serve(a, store).1).1)
  {
    var h := Handle(line, store);
    var mid := Serve(rest, h.1);
    var tail := Serve(b, mid.1);
    ServeLine(line, rest, store);
    AppendAssoc(line, rest, b);
    ServeLine(line, rest + b, store);
    AppendAssoc(h.0, mid.0, tail.0);
  }

  /** The client reads the answer to its request as one whole line. */
  lemma ExchangeLine(line: string, rest: string)
    requires IsLine(line)
    ensures Exchange(true, line + rest) == (Some(line), rest)
  {
    ReadStringLine(line, rest);
  }

  /** A write followed by a read of the same key: the server acknowledges the
      write and answers the read with the value written, and the client
      reads the acknowledgement as a success and the answer as that value. */
  lemma PutThenGet(key: string, value: string, store: Store)
    requires KeyOk(key) && ValueOk(value)
    ensures Serve(EncodeSet(key, value) + EncodeGet(key), store)
            == (Ok + Hit(value), store[key := value])
    ensures var (first, rest) := Exchange(true, Ok + Hit(value));
      var (second, left) := Exchange(true, rest);
      && PutSucceeded(first)
      && GetOutcome(second) == (value, true)
      && left == []
  {
    var next := store[key := value];
    assert Serve(EncodeGet(key), next) == (Hit(value), next) by {
      GetHandled(key, next);
      AppendEmpty(EncodeGet(key));
      ServeLine(EncodeGet(key), [], next);
      assert Serve([], next) == ("", next);
      AppendEmpty(Hit(value));
    }
    assert Serve(EncodeSet(key, value) + EncodeGet(key), store) == (Ok + Hit(value), next) by {
      SetHandled(key, value, store);
      ServeLine(EncodeSet(key, value), EncodeGet(key), store);
    }
    ReplyLines(value);
    assert PutSucceeded(Exchange(true, Ok + Hit(value)).0) by {
      ExchangeLine(Ok, Hit(value));
      DecodePutAck();
    }
    assert Exchange(true, Ok + Hit(value)).1 == Hit(value) by {
      ExchangeLine(Ok, Hit(value));
    }
    assert Exchange(true, Hit(value)) == (Some(Hit(value)), []) by {
      ExchangeLine(Hit(value), []);
      AppendEmpty(Hit(value));
    }
    DecodeGetHit(value);
  }

  /** The acknowledgement and the error are each exactly one line. */
  lemma FixedReplyLines()
    ensures IsLine(Ok) && IsLine(Err)
  {
    assert Ok[..|Ok| - 1] == "OK" && Err[..|Err| - 1] == "ERR";
  }

  /** Every reply the server writes, a hit included, is a whole line. */
  lemma ReplyLines(value: string)
    requires ValueOk(value)
    ensures IsLine(Ok) && IsLine(Err) && IsLine(Hit(value))
  {
    FixedReplyLines();
    var core := "OK " + value;
    assert Hit(value) == core + "\n";
    assert Hit(value)[..|core|] == core;
  }

  /** A read of a key the server does not hold is answered with ERR, which
      the client reads as a miss. */
  lemma GetMissing(key: string, store: Store)
    requires KeyOk(key) && key !in store
    ensures Serve(EncodeGet(key), store) == (Err, store)
    ensures GetOutcome(Exchange(true, Err).0) == ("", false)
  {
    GetServed(key, store);
    assert Exchange(true, Err) == (Some(Err), []) by {
      FixedReplyLines();
      ExchangeLine(Err, []);
      AppendEmpty(Err);
    }
    DecodeGetMisses();
  }

  /** The keys and values a worker generates survive the trip. */
  lemma GeneratedOpOk(w: Workload, step: Step, numKeys: int)
    requires ValidStep(step, numKeys)
    ensures KeyOk(ChooseOp(w, step).key)
    ensures ChooseOp(w, step).Put? ==> ValueOk(ChooseOp(w, step).value)
  {
    KeyNameFacts(step.keyDraw, step.keyDraw);
    ValueHasNoSpace(step.valueDraws);
    var v := ValueFrom(step.valueDraws);
    assert IsSpace('\n');
    assert v != [] && !IsSpace(v[|v| - 1]);
  }

  /** Every key of the key space is bound to a value that survives the trip. */
  predicate Preloaded(store: Store, numKeys: int)
  {
    forall i :: 0 <= i < numKeys ==> KeyName(i) in store && ValueOk(store[KeyName(i)])
  }

  /** A stream of exactly one line is answered by the answer to that line. */
  lemma ServeOneLine(line: string, store: Store)
    requires IsLine(line)
    ensures Serve(line, store) == Handle(line, store)
  {
    AppendEmpty(line);
    ServeLine(line, [], store);
    var next := Handle(line, store).1;
    assert Serve([], next) == ("", next);
    AppendEmpty(Handle(line, store).0);
  }

  /** A write on a preloaded store is acknowledged and keeps it preloaded. */
  lemma PutOnPreloaded(key: string, value: string, store: Store, numKeys: int)
    requires KeyOk(key) && ValueOk(value) && Preloaded(store, numKeys)
    ensures Serve(EncodeSet(key, value), store) == (Ok, store[key := value])
    ensures Preloaded(store[key := value], numKeys)
    ensures IsLine(Ok) && PutSucceeded(Some(Ok))
  {
    SetHandled(key, value, store);
    ServeOneLine(EncodeSet(key, value), store);
    ReplyLines(value);
    DecodePutAck();
    var next := store[key := value];
    forall i | 0 <= i < numKeys
      ensures KeyName(i) in next && ValueOk(next[KeyName(i)])
    {
      assert KeyName(i) in store;
    }
  }

  /** A read of a preloaded key is answered with its value, which the client
      reads as a hit. */
  lemma GetOnPreloaded(key: string, store: Store)
    requires KeyOk(key) && key in store && ValueOk(store[key])
    ensures Serve(EncodeGet(key), store) == (Hit(store[key]), store)
    ensures IsLine(Hit(store[key])) && GetOutcome(Some(Hit(store[key]))) == (store[key], true)
  {
    GetServed(key, store);
    HitDecodes(store[key]);
  }

  /** The whole answer to a read request. */
  lemma GetServed(key: string, store: Store)
    requires KeyOk(key)
    ensures Serve(EncodeGet(key), store)
            == (if key in store then Hit(store[key]) else Err, store)
  {
    GetHandled(key, store);
    ServeOneLine(EncodeGet(key), store);
  }

  /** A hit is one line, and the client reads the value back from it. */
  lemma HitDecodes(value: string)
    requires ValueOk(value)
    ensures IsLine(Hit(value)) && GetOutcome(Some(Hit(value))) == (value, true)
  {
    ReplyLines(value);
    DecodeGetHit(value);
  }

  /** The server's answer to one generated operation on a preloaded store:
      one reply line that the client counts as a success, and a store that
      is still preloaded. */
  lemma ServeOp(w: Workload, step: Step, numKeys: int, store: Store)
    requires ValidStep(step, numKeys) && Preloaded(store, numKeys)
    ensures var op := ChooseOp(w, step);
      var (reply, next) := Serve(Encode(op), store);
      && IsLine(Encode(op))
      && Preloaded(next, numKeys)
      && IsLine(reply)
      && Succeeded(op, Some(reply))
  {
    var op := ChooseOp(w, step);
    GeneratedOpOk(w, step, numKeys);
    assert KeyName(step.keyDraw) in store;
    if op.Put? {
      SetHandled(op.key, op.value, store);
      PutOnPreloaded(op.key, op.value, store, numKeys);
    } else {
      GetHandled(op.key, store);
      GetOnPreloaded(op.key, store);
    }
  }

  /** Against the reference server with every key preloaded, every operation
      a worker issues succeeds: the client reads exactly one answer per
      request, each a success, whatever the server sends after them. */
  lemma {:induction false} EveryOpSucceeds(w: Workload, plan: seq<Step>, numKeys: int,
                                           store: Store, tail: string)
    requires ValidPlan(plan, numKeys) && Preloaded(store, numKeys)
    ensures var ops := Ops(w, plan, numKeys);
      var (out, next) := Serve(Requests(ops), store);
      && Preloaded(next, numKeys)
      && Answers(true, out + tail, ops) == (seq(|plan|, _ => true), tail)
  {
    var ops := Ops(w, plan, numKeys);
    if plan == [] {
      assert Requests(ops) == [];
      assert Serve([], store) == ("", store);
      AppendEmpty(tail);
      assert seq(0, _ => true) == [];
    } else {
      var n := |plan| - 1;
      var front := plan[..n];
      assert ValidPlan(front, numKeys);
      var prev := Ops(w, front, numKeys);
      var op := ChooseOp(w, plan[n]);
      assert ops[..n] == prev && ops[n] == op;
      var (out1, mid) := Serve(Requests(prev), store);
      var (reply, next) := Serve(Encode(op), mid);
      EveryOpSucceeds(w, front, numKeys, store, reply + tail);
      ServeOp(w, plan[n], numKeys, mid);
      assert Serve(Requests(ops), store) == (out1 + reply, next) by {
        assert Requests(ops) == Requests(prev) + Encode(op);
        RequestsEndInLine(prev);
        ServeAppend(Requests(prev), Encode(op), store);
      }
      AppendAssoc(out1, reply, tail);
      assert Exchange(true, reply + tail) == (Some(reply), tail) by {
        ExchangeLine(reply, tail);
      }
      AllTrueSnoc(n);
    }
  }

  lemma AllTrueSnoc(n: nat)
    ensures seq(n, _ => true) + [true] == seq(n + 1, _ => true)
  {
  }

  /** The requests a worker writes are whole lines. */
  lemma RequestsEndInLine(ops: seq<Op>)
    ensures Requests(ops) == [] || Requests(ops)[|Requests(ops)| - 1] == '\n'
  {
    if ops != [] {
      var e := Encode(ops[|ops| - 1]);
      assert e[|e| - 1] == '\n';
    }
  }

  /** Hence a worker run against a preloaded reference server counts every
      turn of its plan as a success. */
  method LoadedRun(w: Workload, plan: seq<Step>, numKeys: int, store: Store)
    returns (res: WorkerResult)
    requires ValidPlan(plan, numKeys) && Preloaded(store, numKeys)
    ensures res.count == |plan|
  {
    ghost var ops := Ops(w, plan, numKeys);
    var replies := Serve(Requests(Ops(w, plan, numKeys)), store).0;
    var client := new Client(true, replies);
    res := RunWorker(client, w, numKeys, plan);
    EveryOpSucceeds(w, plan, numKeys, store, []);
    assert replies + [] == replies;
    TallyCountsSuccesses(seq(|plan|, _ => true), plan, 0);
    AllSucceed(|plan|);
  }

  lemma {:induction false} AllSucceed(n: nat)
    ensures Successes(seq(n, _ => true)) == n
  {
    if n > 0 {
      assert seq(n, _ => true)[..n - 1] == seq(n - 1, _ => true);
      AllSucceed(n - 1);
    }
  }
}
