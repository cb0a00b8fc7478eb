/**
 * The YCSB workload selector of the benchmark: a workload is its write
 * percentage, chosen once from a configuration token.
 */
module Workloads {
  import opened Text

  /** A workload is an integer, the percentage of operations that are writes. */
  newtype Workload = int

  const WorkloadA: Workload := 50  // 50% writes
  const WorkloadB: Workload := 5   //  5% writes
  const WorkloadC: Workload := 0   //  read only

  /** The three workloads the benchmark names. */
  predicate IsNamed(w: Workload)
  {
    w == WorkloadA || w == WorkloadB || w == WorkloadC
  }

  /** The configuration tokens of the three workloads. */
  predicate IsToken(s: string)
  {
    s == "ycsb-a" || s == "ycsb-b" || s == "ycsb-c"
  }

  /** Reads a configuration token; every token other than "ycsb-b" and
      "ycsb-c", the empty one included, selects workload A. */
  function ParseWorkload(s: string): (w: Workload)
    ensures IsNamed(w)
    ensures w == WorkloadB <==> s == "ycsb-b"
    ensures w == WorkloadC <==> s == "ycsb-c"
    ensures w == WorkloadA <==> s != "ycsb-b" && s != "ycsb-c"
  {
    if s == "ycsb-b" then WorkloadB
    else if s == "ycsb-c" then WorkloadC
    else WorkloadA
  }

  /** The name of a workload: its token, or "unknown(<percentage>)" for a
      percentage that is none of the three. */
  function String(w: Workload): (s: string)
    ensures IsToken(s) <==> IsNamed(w)
    ensures !IsNamed(w) ==>
      (&& |s| > 9
       && s[..8] == "unknown("
       && s[|s| - 1] == ')'
       && IsNumeral(s[8..|s| - 1])
       && NumeralValue(s[8..|s| - 1]) == w as int
       && s[8..|s| - 1] == Decimal(w as int))
  {
    if w == WorkloadA then "ycsb-a"
    else if w == WorkloadB then "ycsb-b"
    else if w == WorkloadC then "ycsb-c"
    else
      var d := Decimal(w as int);
      var s := "unknown(" + d + ")";
      assert s[0] == 'u';
      assert s[..8] == "unknown(" && s[8..|s| - 1] == d;
      s
  }

  /** Naming a workload and reading the name back gives the same workload. */
  lemma ParseString(w: Workload)
    requires IsNamed(w)
    ensures ParseWorkload(String(w)) == w
  {
  }

  /** Reading a token and naming the workload gives the same token. */
  lemma StringParse(s: string)
    requires IsToken(s)
    ensures String(ParseWorkload(s)) == s
  {
  }

  /** A percentage that is none of the three is named so that reading the
      name back falls back to workload A. */
  lemma UnknownFallsBack(w: Workload)
    requires !IsNamed(w)
    ensures ParseWorkload(String(w)) == WorkloadA
  {
  }
}
