/** What the step body of isec_vcf reads from the synchronized reader. */
module Records {
  import opened Wrappers
  import opened Bits

  /** A variant record `bcf1_t` as the step body uses it: the contig name (the reader's
      header entry for the record's `rid`), the 0-based position `pos`, and the alleles
      `d.allele[0..n_allele-1]`, REF first. */
  datatype Record = Record(contig: string, pos: int, alleles: seq<string>)

  /** One step of the synchronized reader: the bitmask `ret` that `next_line` returned and,
      per reader, its current record `readers[i].line`. */
  datatype Step = Step(mask: nat, lines: seq<Option<Record>>)

  /** `1<<i` stays inside a C `int` only for i <= 30, so at most 31 readers. */
  const MaxReaders: nat := 31

  /** What `next_line` guarantees of a step it returns (a zero mask ends the loop instead):
      some reader below nreaders contributes, no other bit is set, and every
      contributing reader holds a record. */
  predicate WellFormed(step: Step, nreaders: nat)
  {
    0 < step.mask < Pow2(nreaders) && |step.lines| == nreaders &&
    forall i :: 0 <= i < nreaders && Bit(step.mask, i) ==> step.lines[i].Some?
  }

  /** The reader whose record stands for the site (`reader`, `line` in isec_vcf):
      the contributing reader with the lowest index. */
  function Representative(step: Step, nreaders: nat): (rep: (nat, Record))
    requires WellFormed(step, nreaders)
    ensures rep.0 < nreaders && Bit(step.mask, rep.0) && step.lines[rep.0] == Some(rep.1)
    ensures forall j :: 0 <= j < rep.0 ==> !Bit(step.mask, j)
  {
    NonzeroHasBit(step.mask, nreaders);
    var i := FirstSet(step.mask, nreaders).value;
    (i, step.lines[i].value)
  }
}
