/**
 * The reference key-value server the benchmark is run against: an in-memory
 * map, and a connection handler that reads request lines and answers each
 * with one reply line.
 */
module TestServer {
  import opened Text

  type Store = map<string, string>

  /** The replies the server writes. */
  const Ok: string := "OK\n"
  const Err: string := "ERR\n"

  /** The reply to a read of a bound key. */
  function Hit(value: string): string
  {
    "OK " + value + "\n"
  }

  class KVStore {
    var data: Store

    constructor ()
      ensures data == map[]
    {
      data := map[];
    }

    /** Binds `key` to `value`, replacing any earlier binding. */
    method Set(key: string, value: string)
      modifies this
      ensures data == old(data)[key := value]
    {
      data := data[key := value];
    }

    /** The value bound to `key`, or ("", false) when there is none. */
    method Get(key: string) returns (value: string, ok: bool)
      ensures ok <==> key in data
      ensures ok ==> value == data[key]
      ensures !ok ==> value == ""
    {
      if key in data {
        return data[key], true;
      }
      return "", false;
    }
  }

  /** The handling of one request line: trim it, cut it at its first two
      spaces, and dispatch on the first part. */
  function Handle(line: string, store: Store): (string, Store)
  {
    var parts := SplitN(TrimSpace(line), ' ', 3);
    if parts[0] == "SET" then
      if |parts| < 3 then (Err, store) else (Ok, store[parts[1] := parts[2]])
    else if parts[0] == "GET" then
      if |parts| < 2 then (Err, store)
      else if parts[1] in store then (Hit(store[parts[1]]), store)
      else (Err, store)
    else (Err, store)
  }

  /** A connection's whole exchange: each complete line of `input` is
      handled in order; a last line without its newline is dropped. */
  function Serve(input: string, store: Store): (r: (string, Store))
    decreases |input|
  {
    match ReadString(input)
    case Eof => ("", store)
    case Line(line, rest) =>
      var (reply, next) := Handle(line, store);
      var (more, last) := Serve(rest, next);
      (reply + more, last)
  }

  /** One turn of the handler loop: answers one request line, updating the
      store through its Set and Get. */
  method HandleLine(rawLine: string, store: KVStore) returns (reply: string)
    modifies store
    ensures (reply, store.data) == Handle(rawLine, old(store.data))
  {
    var line := TrimSpace(rawLine);
    var parts := SplitN(line, ' ', 3);
    if parts[0] == "SET" {
      if |parts| < 3 {
        reply := Err;
      } else {
        store.Set(parts[1], parts[2]);
        reply := Ok;
      }
    } else if parts[0] == "GET" {
      if |parts| < 2 {
        reply := Err;
      } else {
        var v, ok := store.Get(parts[1]);
        if ok {
          reply := Hit(v);
        } else {
          reply := Err;
        }
      }
    } else {
      reply := Err;
    }
  }

  /** The handler loop: reads lines until the stream ends and writes one
      reply per complete line. */
  method HandleConn(input: string, store: KVStore) returns (output: string)
    modifies store
    ensures (output, store.data) == Serve(input, old(store.data))
  {
    var unread := input;
    output := "";
    assert output + Serve(unread, store.data).0 == Serve(unread, store.data).0;
    while true
      invariant Serve(input, old(store.data))
                == (output + Serve(unread, store.data).0, Serve(unread, store.data).1)
      decreases |unread|
    {
      var r := ReadString(unread);
      if r.Eof? {
        assert Serve(unread, store.data) == ("", store.data);
        assert output + "" == output;
        return;
      }
      ghost var before := store.data;
      var reply := HandleLine(r.line, store);
      assert output + Serve(unread, before).0
             == (output + reply) + Serve(r.rest, store.data).0;
      output := output + reply;
      unread := r.rest;
    }
  }

  /** Every reply is the write acknowledgement, ERR, or a stored value; the
      store changes only when a write is acknowledged, and then at one key,
      losing none. */
  lemma HandleReplies(line: string, store: Store)
    ensures var (reply, next) := Handle(line, store);
      && (reply == Ok || reply == Err
          || exists k :: k in store && reply == Hit(store[k]))
      && (next != store ==> reply == Ok)
      && (next == store || exists k :: k in next && next == store[k := next[k]])
  {
  }

  /** A write stores everything after the second space, spaces included,
      and is acknowledged. */
  lemma HandleSet(line: string, store: Store, key: string, value: string)
    requires TrimSpace(line) == "SET " + key + " " + value
    requires ' ' !in key
    ensures Handle(line, store) == (Ok, store[key := value])
  {
    var parts := ["SET", key, value];
    assert SplitShape(parts, ' ', 3);
    SplitNJoin(parts, ' ', 3);
    JoinThree("SET", key, value, ' ');
    assert "SET" + [' '] == "SET " && [' '] == " ";
    assert SplitN(TrimSpace(line), ' ', 3) == parts;
  }

  /** A write with no value, or with neither key nor value, is refused and
      changes nothing. */
  lemma HandleSetTooShort(line: string, store: Store, key: string)
    requires TrimSpace(line) == "SET" || TrimSpace(line) == "SET " + key
    requires ' ' !in key
    ensures Handle(line, store) == (Err, store)
  {
    if TrimSpace(line) == "SET" {
      SplitNJoin(["SET"], ' ', 3);
    } else {
      SplitNJoin(["SET", key], ' ', 3);
      JoinTwo("SET", key, ' ');
      assert "SET" + [' '] == "SET ";
    }
  }

  /** A read of a key answers with its value, or ERR when it is unbound;
      the store is unchanged either way. Anything after a further space is
      ignored. */
  lemma HandleGet(line: string, store: Store, key: string, rest: string)
    requires TrimSpace(line) == "GET " + key + rest
    requires ' ' !in key && (rest == [] || rest[0] == ' ')
    ensures Handle(line, store)
            == (if key in store then Hit(store[key]) else Err, store)
  {
    if rest == [] {
      assert "GET " + key + rest == "GET " + key;
      SplitNJoin(["GET", key], ' ', 3);
      JoinTwo("GET", key, ' ');
      assert "GET" + [' '] == "GET ";
    } else {
      var more := rest[1..];
      assert "GET " + key + rest == "GET" + [' '] + key + [' '] + more;
      SplitNJoin(["GET", key, more], ' ', 3);
      JoinThree("GET", key, more, ' ');
    }
  }

  /** A read with extra words is answered from its key alone. */
  lemma HandleGetExtra(store: Store)
    ensures Handle("GET k extra\n", store)
            == (if "k" in store then Hit(store["k"]) else Err, store)
  {
    TrimLine("GET k extra");
    assert "GET k extra" + "\n" == "GET k extra\n";
    assert "GET k extra" == "GET " + "k" + " extra";
    HandleGet("GET k extra\n", store, "k", " extra");
  }

  /** A read with no key is refused. */
  lemma HandleGetTooShort(line: string, store: Store)
    requires TrimSpace(line) == "GET"
    ensures Handle(line, store) == (Err, store)
  {
    SplitNJoin(["GET"], ' ', 3);
  }

  /** A request whose first word is neither SET nor GET, the empty line
      included, is refused and changes nothing. */
  lemma HandleUnknown(line: string, store: Store, command: string, rest: string)
    requires TrimSpace(line) == command + rest
    requires ' ' !in command && (rest == [] || rest[0] == ' ')
    requires command != "SET" && command != "GET"
    ensures Handle(line, store) == (Err, store)
  {
    var t := TrimSpace(line);
    if rest == [] {
      assert t == command;
      assert SplitN(t, ' ', 3)[0] == command;
    } else {
      assert t[|command|] == ' ' && t[..|command|] == command;
      assert IndexOf(t, ' ') == Some(|command|);
      assert SplitN(t, ' ', 3)[0] == command;
    }
  }

  /** The empty line is refused. */
  lemma HandleEmptyLine(store: Store)
    ensures Handle("\n", store) == (Err, store)
  {
    TrimLine([]);
    assert [] + "\n" == "\n";
    HandleUnknown("\n", store, [], []);
  }

  /** A write whose value is only white space loses it to the trim and is
      refused. */
  lemma HandleBlankValue(store: Store)
    ensures Handle("SET k \n", store) == (Err, store)
  {
    TrimSpaceOf([], "SET k", " \n");
    assert [] + "SET k" + " \n" == "SET k \n";
    HandleSetTooShort("SET k \n", store, "k");
  }

  /** The stored value is everything after the second space. */
  lemma HandleValueWithSpace(store: Store)
    ensures Handle("SET k a b\n", store) == (Ok, store["k" := "a b"])
  {
    TrimLine("SET k a b");
    assert "SET k a b" + "\n" == "SET k a b\n";
    assert "SET k a b" == "SET " + "k" + " " + "a b";
    HandleSet("SET k a b\n", store, "k", "a b");
  }

  /** A read with no key is refused. */
  lemma HandleBareGet(store: Store)
    ensures Handle("GET\n", store) == (Err, store)
  {
    TrimLine("GET");
    assert "GET" + "\n" == "GET\n";
    HandleGetTooShort("GET\n", store);
  }
}
