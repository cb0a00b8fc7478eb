/**
 * The pieces of Go's `strings`, `bufio` and `fmt` packages that the client, the
 * benchmark and the test server use: `strings.TrimSpace`, `HasPrefix`,
 * `TrimPrefix`, `SplitN` with a one-character separator, and the `%d` verb.
 * Strings are sequences of characters; UTF-8 encoding is not modelled.
 */
module Text {

  datatype Option<T> = None | Some(value: T)

  /** Go's `unicode.IsSpace`: the ASCII and Latin-1 spaces and the other
      characters Unicode gives the White_Space property. */
  predicate IsSpace(c: char)
  {
    c == ' ' || c == '\t' || c == '\n' || c == '\r' || c == '\U{000B}' || c == '\U{000C}'
    || c == '\U{0085}' || c == '\U{00A0}' || c == '\U{1680}'
    || ('\U{2000}' <= c <= '\U{200A}')
    || c == '\U{2028}' || c == '\U{2029}' || c == '\U{202F}' || c == '\U{205F}' || c == '\U{3000}'
  }

  predicate AllSpace(s: string)
  {
    forall i :: 0 <= i < |s| ==> IsSpace(s[i])
  }

  predicate NoSpace(s: string)
  {
    forall i :: 0 <= i < |s| ==> !IsSpace(s[i])
  }

  /** Neither the first nor the last character of `s` is white space. */
  predicate NoEdgeSpace(s: string)
  {
    s == [] || (!IsSpace(s[0]) && !IsSpace(s[|s| - 1]))
  }

  /** Drops the leading white space. */
  function TrimLeft(s: string): (r: string)
    ensures r == [] || !IsSpace(r[0])
  {
    if |s| > 0 && IsSpace(s[0]) then TrimLeft(s[1..]) else s
  }

  /** Drops the trailing white space. */
  function TrimRight(s: string): (r: string)
    ensures r == [] || !IsSpace(r[|r| - 1])
  {
    if |s| > 0 && IsSpace(s[|s| - 1]) then TrimRight(s[..|s| - 1]) else s
  }

  /** TrimLeft keeps a suffix and drops only white space. */
  lemma {:induction false} TrimLeftSuffix(s: string)
    ensures |TrimLeft(s)| <= |s| && TrimLeft(s) == s[|s| - |TrimLeft(s)|..]
    ensures AllSpace(s[..|s| - |TrimLeft(s)|])
  {
    if |s| > 0 && IsSpace(s[0]) {
      TrimLeftSuffix(s[1..]);
      var r := TrimLeft(s[1..]);
      assert s[1..][..|s| - 1 - |r|] == s[1..|s| - |r|];
    }
  }

  /** TrimRight keeps a prefix and drops only white space. */
  lemma {:induction false} TrimRightPrefix(s: string)
    ensures |TrimRight(s)| <= |s| && TrimRight(s) == s[..|TrimRight(s)|]
    ensures AllSpace(s[|TrimRight(s)|..])
  {
    if |s| > 0 && IsSpace(s[|s| - 1]) {
      TrimRightPrefix(s[..|s| - 1]);
      var r := TrimRight(s[..|s| - 1]);
      assert s[..|s| - 1][|r|..] + [s[|s| - 1]] == s[|r|..];
    }
  }

  /** Go's `strings.TrimSpace`: `s` without its leading and trailing white space. */
  function TrimSpace(s: string): (r: string)
    ensures NoEdgeSpace(r)
  {
    TrimRightPrefix(TrimLeft(s));
    TrimRight(TrimLeft(s))
  }

  /** TrimSpace removes white space only, and only at the two ends. */
  lemma TrimSpaceSlice(s: string) returns (i: nat)
    ensures i + |TrimSpace(s)| <= |s|
    ensures TrimSpace(s) == s[i..i + |TrimSpace(s)|]
    ensures AllSpace(s[..i]) && AllSpace(s[i + |TrimSpace(s)|..])
  {
    var l := TrimLeft(s);
    var r := TrimRight(l);
    TrimLeftSuffix(s);
    TrimRightPrefix(l);
    i := |s| - |l|;
    assert r == s[i..i + |r|];
    assert s[i + |r|..] == l[|r|..];
  }

  /** A line with no white space at its edges, trimmed after its newline. */
  lemma TrimLine(core: string)
    requires NoEdgeSpace(core)
    ensures TrimSpace(core + "\n") == core
  {
    assert core + "\n" == [] + core + "\n";
    TrimSpaceOf([], core, "\n");
  }

  lemma {:induction false} TrimLeftOf(pre: string, rest: string)
    requires AllSpace(pre)
    requires rest == [] || !IsSpace(rest[0])
    ensures TrimLeft(pre + rest) == rest
  {
    if pre != [] {
      assert (pre + rest)[1..] == pre[1..] + rest;
      TrimLeftOf(pre[1..], rest);
    } else {
      assert pre + rest == rest;
    }
  }

  lemma {:induction false} TrimRightOf(core: string, post: string)
    requires AllSpace(post)
    requires core == [] || !IsSpace(core[|core| - 1])
    ensures TrimRight(core + post) == core
  {
    if post != [] {
      var s := core + post;
      assert s[..|s| - 1] == core + post[..|post| - 1];
      TrimRightOf(core, post[..|post| - 1]);
    } else {
      assert core + post == core;
    }
  }

  /** Surrounding a string that has no white space at its edges with white
      space, and trimming it again, gives that string back. */
  lemma TrimSpaceOf(pre: string, core: string, post: string)
    requires AllSpace(pre) && AllSpace(post) && NoEdgeSpace(core)
    ensures TrimSpace(pre + core + post) == core
  {
    if core == [] {
      assert pre + core + post == pre + post;
      TrimLeftOf(pre + post, []);
      assert pre + post + [] == pre + post;
    } else {
      assert pre + core + post == pre + (core + post);
      TrimLeftOf(pre, core + post);
      TrimRightOf(core, post);
    }
  }

  /** Go's `strings.HasPrefix`. */
  predicate HasPrefix(s: string, prefix: string)
  {
    prefix <= s
  }

  /** Go's `strings.TrimPrefix`: `s` without `prefix` when it starts with it,
      `s` unchanged otherwise. */
  function TrimPrefix(s: string, prefix: string): (r: string)
    ensures HasPrefix(s, prefix) ==> prefix + r == s
    ensures !HasPrefix(s, prefix) ==> r == s
  {
    if HasPrefix(s, prefix) then s[|prefix|..] else s
  }

  /** The index of the first occurrence of `c` in `s`, as Go's `strings.Index`
      with a one-character separator. */
  function IndexOf(s: string, c: char): (r: Option<nat>)
    ensures r.None? <==> c !in s
    ensures r.Some? ==> r.value < |s| && s[r.value] == c && c !in s[..r.value]
  {
    if |s| == 0 then None
    else if s[0] == c then Some(0)
    else
      match IndexOf(s[1..], c)
      case None => None
      case Some(i) =>
        assert s[..i + 1] == [s[0]] + s[1..][..i];
        Some(i + 1)
  }

  /** Go's `strings.Join` with a one-character separator. */
  function Join(parts: seq<string>, sep: char): string
    requires |parts| >= 1
  {
    if |parts| == 1 then parts[0] else parts[0] + [sep] + Join(parts[1..], sep)
  }

  lemma JoinTwo(a: string, b: string, sep: char)
    ensures Join([a, b], sep) == a + [sep] + b
  {
    assert [a, b][1..] == [b];
  }

  lemma JoinThree(a: string, b: string, c: string, sep: char)
    ensures Join([a, b, c], sep) == a + [sep] + b + [sep] + c
  {
    assert [a, b, c][1..] == [b, c];
    JoinTwo(b, c, sep);
    assert a + [sep] + (b + [sep] + c) == a + [sep] + b + [sep] + c;
  }

  /** There are between 1 and `n` parts, no part but the last holds the
      separator, and the last holds it only when there are `n` parts. */
  predicate SplitShape(parts: seq<string>, sep: char, n: nat)
  {
    && 1 <= |parts| <= n
    && if |parts| == 1 then n > 1 ==> sep !in parts[0]
       else sep !in parts[0] && SplitShape(parts[1..], sep, n - 1)
  }

  /** Go's `strings.SplitN(s, sep, n)` for `n >= 1` and a one-character
      separator: cuts at the first `n - 1` separators; the last part keeps
      every separator after them. */
  function SplitN(s: string, sep: char, n: nat): (parts: seq<string>)
    requires n >= 1
    ensures 1 <= |parts| <= n
    decreases n
  {
    if n == 1 then [s]
    else
      match IndexOf(s, sep)
      case None => [s]
      case Some(i) => [s[..i]] + SplitN(s[i + 1..], sep, n - 1)
  }

  /** The parts SplitN cuts have the shape SplitShape describes. */
  lemma {:induction false} SplitNShape(s: string, sep: char, n: nat)
    requires n >= 1
    ensures SplitShape(SplitN(s, sep, n), sep, n)
    decreases n
  {
    var k := IndexOf(s, sep);
    if n > 1 && k.Some? {
      var i := k.value;
      var tail := SplitN(s[i + 1..], sep, n - 1);
      SplitNShape(s[i + 1..], sep, n - 1);
      var parts := [s[..i]] + tail;
      assert SplitN(s, sep, n) == parts;
      assert parts[1..] == tail;
    } else {
      assert SplitN(s, sep, n) == [s];
    }
  }

  /** Joining the parts that SplitN cuts gives back the input. */
  lemma {:induction false} JoinSplitN(s: string, sep: char, n: nat)
    requires n >= 1
    ensures Join(SplitN(s, sep, n), sep) == s
    decreases n
  {
    var k := IndexOf(s, sep);
    if n > 1 && k.Some? {
      var i := k.value;
      var tail := SplitN(s[i + 1..], sep, n - 1);
      JoinCons(s[..i], tail, sep);
      JoinSplitN(s[i + 1..], sep, n - 1);
      SplitAround(s, i, sep);
    } else {
      assert SplitN(s, sep, n) == [s];
    }
  }

  lemma JoinCons(head: string, tail: seq<string>, sep: char)
    requires |tail| >= 1
    ensures Join([head] + tail, sep) == head + [sep] + Join(tail, sep)
  {
    assert ([head] + tail)[1..] == tail;
  }

  lemma SplitAround<T>(s: seq<T>, i: nat, c: T)
    requires i < |s| && s[i] == c
    ensures s[..i] + [c] + s[i + 1..] == s
  {
  }

  /** A first part free of the separator is cut off whole. */
  lemma SplitNCons(head: string, rest: string, sep: char, n: nat)
    requires n > 1 && sep !in head
    ensures SplitN(head + [sep] + rest, sep, n) == [head] + SplitN(rest, sep, n - 1)
  {
    var s := head + [sep] + rest;
    var i := |head|;
    assert s[..i] == head && s[i] == sep;
    assert IndexOf(s, sep) == Some(i);
    assert s[i + 1..] == rest;
  }

  /** SplitN cuts a joined sequence back into its parts when only the last
      part may contain the separator, and only when there are `n` parts. */
  lemma {:induction false} SplitNJoin(parts: seq<string>, sep: char, n: nat)
    requires SplitShape(parts, sep, n)
    ensures SplitN(Join(parts, sep), sep, n) == parts
    decreases n
  {
    if |parts| == 1 {
      var s := parts[0];
      assert n > 1 ==> IndexOf(s, sep).None?;
      assert SplitN(s, sep, n) == [s];
    } else {
      var head, tail := parts[0], parts[1..];
      SplitNJoin(tail, sep, n - 1);
      SplitNCons(head, Join(tail, sep), sep, n);
      assert parts == [head] + tail;
    }
  }

  /** A decimal digit. */
  function DigitChar(d: nat): (c: char)
    requires d < 10
    ensures '0' <= c <= '9' && c as int - '0' as int == d
  {
    ('0' as int + d) as char
  }

  predicate IsDigit(c: char)
  {
    '0' <= c <= '9'
  }

  /** The decimal numeral of a natural number, without leading zeros. */
  function Digits(n: nat): (r: string)
    ensures |r| >= 1
    ensures forall i :: 0 <= i < |r| ==> IsDigit(r[i])
    ensures |r| > 1 ==> r[0] != '0'
  {
    if n < 10 then [DigitChar(n)] else Digits(n / 10) + [DigitChar(n % 10)]
  }

  /** Reads a string of digits as a natural number: the inverse of Digits. */
  function DigitsValue(s: string): nat
    requires forall i :: 0 <= i < |s| ==> IsDigit(s[i])
  {
    if s == [] then 0
    else
      var last := s[|s| - 1];
      assert IsDigit(last);
      DigitsValue(s[..|s| - 1]) * 10 + (last as int - '0' as int)
  }

  lemma {:induction false} DigitsRoundTrip(n: nat)
    ensures DigitsValue(Digits(n)) == n
  {
    var r := Digits(n);
    if n >= 10 {
      DigitsRoundTrip(n / 10);
      assert r[..|r| - 1] == Digits(n / 10);
    }
  }

  /** Distinct numbers have distinct numerals. */
  lemma DigitsInjective(m: nat, n: nat)
    requires Digits(m) == Digits(n)
    ensures m == n
  {
    DigitsRoundTrip(m);
    DigitsRoundTrip(n);
  }

  /** Go's `fmt` verb `%d` for an integer: an optional minus sign and the
      digits; it reads back as the integer. */
  function Decimal(n: int): (r: string)
    ensures |r| >= 1 && NoSpace(r)
    ensures IsNumeral(r) && NumeralValue(r) == n
    ensures (r[0] == '-') <==> n < 0
    ensures var d := if n < 0 then r[1..] else r; |d| > 1 ==> d[0] != '0'
  {
    if n >= 0 then
      DigitsRoundTrip(n);
      Digits(n)
    else
      var r := "-" + Digits(-n);
      assert r[1..] == Digits(-n);
      DigitsRoundTrip(-n);
      r
  }

  /** A string of digits, or a minus sign followed by one. */
  predicate IsNumeral(s: string)
  {
    || (s != [] && forall i :: 0 <= i < |s| ==> IsDigit(s[i]))
    || (|s| >= 2 && s[0] == '-' && forall i :: 1 <= i < |s| ==> IsDigit(s[i]))
  }

  /** The integer a numeral denotes. */
  function NumeralValue(s: string): int
    requires IsNumeral(s)
  {
    if s[0] == '-' then -(DigitsValue(s[1..]) as int) else DigitsValue(s)
  }

  /** What `bufio.Reader.ReadString('\n')` returns: one line with its newline
      and the bytes left after it, or the end of the stream before any
      newline (the bytes before it are consumed with the error). */
  datatype Read = Line(line: string, rest: string) | Eof

  function ReadString(buf: string): (r: Read)
    ensures r.Line? <==> '\n' in buf
    ensures r.Line? ==> r.line + r.rest == buf
    ensures r.Line? ==> r.line != [] && r.line[|r.line| - 1] == '\n'
                        && '\n' !in r.line[..|r.line| - 1]
  {
    match IndexOf(buf, '\n')
    case None => Eof
    case Some(i) =>
      assert buf[..i + 1][..i] == buf[..i];
      Line(buf[..i + 1], buf[i + 1..])
  }

  /** A line is a newline-terminated string with no earlier newline. */
  predicate IsLine(s: string)
  {
    s != [] && s[|s| - 1] == '\n' && '\n' !in s[..|s| - 1]
  }

  /** Reading from a stream that starts with a whole line yields exactly that
      line and leaves everything after it. */
  lemma ReadStringLine(line: string, rest: string)
    requires IsLine(line)
    ensures ReadString(line + rest) == Line(line, rest)
  {
    var buf := line + rest;
    assert buf[|line| - 1] == '\n';
    var r := ReadString(buf);
    assert r.line == buf[..|r.line|];
  }

  lemma AppendAssoc(a: string, b: string, c: string)
    ensures a + (b + c) == (a + b) + c
  {
  }

  lemma AppendEmpty(s: string)
    ensures s + [] == s && [] + s == s
  {
  }
}
