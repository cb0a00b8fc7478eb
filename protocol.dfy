/**
 * The client side of the line protocol: how a request is written and how the
 * one response line that answers it is classified.
 *
 *   SET <key> <value>\n   answered by   OK\n
 *   GET <key>\n           answered by   OK <value>\n  or  ERR\n
 */
module Protocol {
  import opened Text

  /** The request line of a write. */
  function EncodeSet(key: string, value: string): string
  {
    "SET " + key + " " + value + "\n"
  }

  /** The request line of a read. */
  function EncodeGet(key: string): string
  {
    "GET " + key + "\n"
  }

  /** A write succeeded iff its response line, trimmed, is exactly "OK". */
  predicate DecodePut(line: string)
  {
    TrimSpace(line) == "OK"
  }

  /** A read succeeded iff its response line, trimmed, starts with "OK"; the
      value is that trimmed line without one leading "OK ", or the whole
      trimmed line when it does not start with "OK ". */
  function DecodeGet(line: string): (r: (string, bool))
    ensures r.1 <==> HasPrefix(TrimSpace(line), "OK")
    ensures r.1 && HasPrefix(TrimSpace(line), "OK ") ==> "OK " + r.0 == TrimSpace(line)
    ensures r.1 && !HasPrefix(TrimSpace(line), "OK ") ==> r.0 == TrimSpace(line)
    ensures !r.1 ==> r.0 == ""
  {
    var t := TrimSpace(line);
    if HasPrefix(t, "OK") then (TrimPrefix(t, "OK "), true) else ("", false)
  }

  /** The write acknowledgement is accepted, whatever white space surrounds it,
      and nothing else is. */
  lemma DecodePutExactly(line: string)
    ensures DecodePut(line) <==>
      exists pre: string, post: string ::
        line == pre + "OK" + post && AllSpace(pre) && AllSpace(post)
  {
    if DecodePut(line) {
      var i := TrimSpaceSlice(line);
      assert line == line[..i] + "OK" + line[i + 2..];
    }
    if exists pre: string, post: string ::
         line == pre + "OK" + post && AllSpace(pre) && AllSpace(post) {
      var pre: string, post: string :|
        line == pre + "OK" + post && AllSpace(pre) && AllSpace(post);
      TrimSpaceOf(pre, "OK", post);
    }
  }

  /** A response line without surrounding white space acknowledges a write
      iff it is exactly "OK". */
  lemma DecodePutLine(core: string)
    requires NoEdgeSpace(core)
    ensures DecodePut(core + "\n") <==> core == "OK"
  {
    TrimLine(core);
  }

  /** The write acknowledgement the test server sends is accepted. */
  lemma DecodePutAck()
    ensures DecodePut("OK\n")
  {
    DecodePutLine("OK");
    assert "OK" + "\n" == "OK\n";
  }

  /** An error, a read hit and an empty line do not acknowledge a write. */
  lemma DecodePutRejects()
    ensures !DecodePut("ERR\n")
    ensures !DecodePut("OK v\n")
    ensures !DecodePut("")
  {
    DecodePutLine("ERR");
    assert "ERR" + "\n" == "ERR\n";
    DecodePutLine("OK v");
    assert "OK v" + "\n" == "OK v\n";
    assert TrimSpace("") == "";
  }

  /** A read hit `OK <value>` yields exactly the value when the value does
      not end in white space. */
  lemma DecodeGetHit(value: string)
    requires value != [] && !IsSpace(value[|value| - 1])
    ensures DecodeGet("OK " + value + "\n") == (value, true)
  {
    var core := "OK " + value;
    assert "OK " + value + "\n" == core + "\n";
    TrimLine(core);
    assert "OK " <= core;
  }

  /** A read hit as the test server writes it yields its value. */
  lemma DecodeGetHitExample()
    ensures DecodeGet("OK hello\n") == ("hello", true)
  {
    DecodeGetHit("hello");
    assert "OK " + "hello" + "\n" == "OK hello\n";
  }

  /** The read rule is looser than the grammar: a line that merely starts
      with "OK" is a hit, and when "OK " is not there to remove, the value is
      the whole trimmed line; so a bare "OK" is a hit whose value is "OK". */
  lemma DecodeGetBareOk()
    ensures DecodeGet("OK\n") == ("OK", true)
  {
    TrimLine("OK");
    assert "OK" + "\n" == "OK\n";
    assert |"OK"| < |"OK "|;
  }

  /** Any line that starts with "OK" is a hit, a longer word included. */
  lemma DecodeGetOkay()
    ensures DecodeGet("OKAY\n") == ("OKAY", true)
  {
    TrimLine("OKAY");
    assert "OKAY" + "\n" == "OKAY\n";
    assert "OKAY"[2] != "OK "[2];
  }

  /** White space around the reply is trimmed before the value is taken. */
  lemma DecodeGetPadded()
    ensures DecodeGet(" OK x \r\n") == ("x", true)
  {
    TrimSpaceOf(" ", "OK x", " \r\n");
    assert " " + "OK x" + " \r\n" == " OK x \r\n";
    assert "OK " + "x" == "OK x";
  }

  /** A hit with an empty value loses its space to the trim, so its value is
      "OK" and not the empty string. */
  lemma DecodeGetEmptyValue()
    ensures DecodeGet("OK \n") == ("OK", true)
  {
    TrimSpaceOf([], "OK", " \n");
    assert [] + "OK" + " \n" == "OK \n";
    assert |"OK"| < |"OK "|;
  }

  /** An error line and an empty line are misses. */
  lemma DecodeGetMisses()
    ensures DecodeGet("ERR\n") == ("", false)
    ensures DecodeGet("") == ("", false)
  {
    TrimLine("ERR");
    assert TrimSpace("") == "";
  }
}
