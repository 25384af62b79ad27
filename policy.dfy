/** The keep/skip decision of isec_vcf and the rule the usage text of `-n` describes. */
module Policy {

  /** `isec_op`: OP_PLUS (1), OP_MINUS (2) and OP_EQUAL (3). */
  datatype Op = Plus | Minus | Equal

  /** The decision at vcfisec.c:58-67 as C parses it: the first `else` belongs to the
      inner `if ( n!=files->nreaders )`, the second to the outer `if`. So the OP_PLUS test
      is reachable only when the operation is OP_EQUAL (and then never true), the count is
      compared with the number of readers and never with `isec_n`. */
  function Keep(op: Op, n: nat, nreaders: nat): (keep: bool)
    ensures op == Equal ==> (keep <==> n == nreaders)
    ensures op == Plus ==> keep
    ensures op == Minus ==> (keep <==> n <= nreaders)
  {
    if op == Equal then
      if n != nreaders then false
      else if op == Plus then !(n < nreaders)
      else true
    else if op == Minus then !(n > nreaders)
    else true
  }

  /** The rule of the `-n` usage text: exactly k files (=), k or more (+), k or fewer (-). */
  function UsageKeep(op: Op, k: int, n: nat): bool
  {
    match op
    case Equal => n == k
    case Plus => n >= k
    case Minus => n <= k
  }

  /** When the code's decision agrees with the usage text's rule at every possible
      count 1..N: only for `=N`, for `+k` with k <= 1 and for `-k` with k >= N. */
  predicate AgreesWithUsage(op: Op, k: int, nreaders: nat)
  {
    match op
    case Equal => k == nreaders
    case Plus => k <= 1
    case Minus => k >= nreaders
  }

  lemma KeepVersusUsage(op: Op, k: int, nreaders: nat)
    requires nreaders >= 1
    ensures (forall n: nat :: 1 <= n <= nreaders ==> Keep(op, n, nreaders) == UsageKeep(op, k, n))
            <==> AgreesWithUsage(op, k, nreaders)
  {
    if !AgreesWithUsage(op, k, nreaders) {
      var n: nat := match op case Equal => nreaders case Plus => 1 case Minus => nreaders;
      assert Keep(op, n, nreaders) != UsageKeep(op, k, n);
    }
  }
}
