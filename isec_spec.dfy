/** What isec_vcf produces from a sequence of reader steps: the text of the sites stream
    and the records each per-reader sink receives, stated as functions of the steps. */
module IsecSpec {
  import opened Wrappers
  import opened Bits
  import opened Records
  import opened Policy
  import opened SiteLines
  import opened Text

  predicate AllWellFormed(steps: seq<Step>, nreaders: nat)
  {
    forall k :: 0 <= k < |steps| ==> WellFormed(steps[k], nreaders)
  }

  /** Every record of every step is free of the site line's separators. */
  predicate AllPlain(steps: seq<Step>)
  {
    forall k, i :: 0 <= k < |steps| && 0 <= i < |steps[k].lines| && steps[k].lines[i].Some? ==>
      PlainRecord(steps[k].lines[i].value)
  }

  /** The decision for one step: the count of contributing readers against the operation. */
  function Kept(op: Op, nreaders: nat, step: Step): bool
    requires WellFormed(step, nreaders)
  {
    Keep(op, CountBits(step.mask, nreaders), nreaders)
  }

  /** What one step writes to the sites stream: the representative's line, or nothing.
      The stream is kept as the sequence of chunks passed to `fwrite`; its text is their
      Flatten. */
  function StepOutput(op: Op, nreaders: nat, step: Step): seq<string>
    requires WellFormed(step, nreaders)
  {
    if Kept(op, nreaders, step) then [SiteLine(Representative(step, nreaders).1)] else []
  }

  /** The chunks written to the sites stream by the first k steps, in step order. */
  function SitesOutput(op: Op, nreaders: nat, steps: seq<Step>, k: nat): seq<string>
    requires AllWellFormed(steps, nreaders) && k <= |steps|
  {
    if k == 0 then [] else SitesOutput(op, nreaders, steps, k - 1) + StepOutput(op, nreaders, steps[k - 1])
  }

  /** vcfisec.c:85-87 for a kept step: each contributing reader's own record goes to its
      own sink; the others are untouched. */
  function Route(sinks: seq<seq<Record>>, step: Step): (r: seq<seq<Record>>)
    requires WellFormed(step, |sinks|)
    ensures |r| == |sinks|
  {
    seq(|sinks|, i requires 0 <= i < |sinks| =>
      if Bit(step.mask, i) then sinks[i] + [step.lines[i].value] else sinks[i])
  }

  /** What one step does to the sinks: a kept step is routed, a skipped one leaves them
      alone. */
  function StepSinks(sinks: seq<seq<Record>>, op: Op, step: Step): (r: seq<seq<Record>>)
    requires WellFormed(step, |sinks|)
    ensures |r| == |sinks|
  {
    if Kept(op, |sinks|, step) then Route(sinks, step) else sinks
  }

  /** The sinks after the first k steps, in step order. */
  function SinksAfter(sinks: seq<seq<Record>>, op: Op, steps: seq<Step>, k: nat): (r: seq<seq<Record>>)
    requires AllWellFormed(steps, |sinks|) && k <= |steps|
    ensures |r| == |sinks|
  {
    if k == 0 then sinks else StepSinks(SinksAfter(sinks, op, steps, k - 1), op, steps[k - 1])
  }

  /** Reference definitions, front to back: the number of kept steps, and the records that
      reader i contributed to kept steps. */
  function KeptCount(op: Op, nreaders: nat, steps: seq<Step>): nat
    requires AllWellFormed(steps, nreaders)
  {
    if steps == [] then 0
    else (if Kept(op, nreaders, steps[0]) then 1 else 0) + KeptCount(op, nreaders, steps[1..])
  }

  function Contributions(op: Op, nreaders: nat, steps: seq<Step>, i: nat): seq<Record>
    requires AllWellFormed(steps, nreaders) && i < nreaders
  {
    if steps == [] then []
    else
      (if Kept(op, nreaders, steps[0]) && Bit(steps[0].mask, i) then [steps[0].lines[i].value] else []) +
      Contributions(op, nreaders, steps[1..], i)
  }

  /** A skipped step writes nothing: neither to the sites stream nor to any sink. */
  lemma SkippedStepWritesNothing(sinks: seq<seq<Record>>, op: Op, steps: seq<Step>, k: nat)
    requires AllWellFormed(steps, |sinks|) && k < |steps|
    requires !Kept(op, |sinks|, steps[k])
    ensures SitesOutput(op, |sinks|, steps, k + 1) == SitesOutput(op, |sinks|, steps, k)
    ensures SinksAfter(sinks, op, steps, k + 1) == SinksAfter(sinks, op, steps, k)
  {
    assert StepOutput(op, |sinks|, steps[k]) == [];
  }

  lemma {:induction false} KeptCountSnoc(op: Op, nreaders: nat, steps: seq<Step>, s: Step)
    requires AllWellFormed(steps, nreaders) && WellFormed(s, nreaders)
    ensures KeptCount(op, nreaders, steps + [s]) == KeptCount(op, nreaders, steps) + (if Kept(op, nreaders, s) then 1 else 0)
  {
    if steps != [] {
      assert (steps + [s])[1..] == steps[1..] + [s];
      KeptCountSnoc(op, nreaders, steps[1..], s);
    } else {
      assert (steps + [s])[1..] == [];
    }
  }

  lemma {:induction false} ContributionsSnoc(op: Op, nreaders: nat, steps: seq<Step>, s: Step, i: nat)
    requires AllWellFormed(steps, nreaders) && WellFormed(s, nreaders) && i < nreaders
    ensures Contributions(op, nreaders, steps + [s], i) ==
      Contributions(op, nreaders, steps, i) + (if Kept(op, nreaders, s) && Bit(s.mask, i) then [s.lines[i].value] else [])
  {
    if steps != [] {
      assert (steps + [s])[1..] == steps[1..] + [s];
      ContributionsSnoc(op, nreaders, steps[1..], s, i);
    } else {
      assert (steps + [s])[1..] == [];
    }
  }

  /** KeptCount over a prefix grows by the step that extends it. */
  lemma KeptCountPrefix(op: Op, nreaders: nat, steps: seq<Step>, k: nat)
    requires AllWellFormed(steps, nreaders) && 0 < k <= |steps|
    ensures KeptCount(op, nreaders, steps[..k]) ==
      KeptCount(op, nreaders, steps[..k - 1]) + (if Kept(op, nreaders, steps[k - 1]) then 1 else 0)
  {
    assert steps[..k - 1] + [steps[k - 1]] == steps[..k];
    KeptCountSnoc(op, nreaders, steps[..k - 1], steps[k - 1]);
  }

  /** One step writes one newline-terminated chunk if it is kept and nothing otherwise. */
  lemma StepOutputLines(op: Op, nreaders: nat, step: Step, rest: seq<string>)
    requires WellFormed(step, nreaders)
    requires forall i :: 0 <= i < nreaders && step.lines[i].Some? ==> PlainRecord(step.lines[i].value)
    ensures |rest + StepOutput(op, nreaders, step)| == |rest| + (if Kept(op, nreaders, step) then 1 else 0)
    ensures CountChar(Flatten(rest + StepOutput(op, nreaders, step)), '\n') ==
      CountChar(Flatten(rest), '\n') + (if Kept(op, nreaders, step) then 1 else 0)
  {
    if Kept(op, nreaders, step) {
      var rr := Representative(step, nreaders);
      var line := SiteLine(rr.1);
      SiteLineFields(rr.1);
      FlattenSnoc(rest, line);
      CountCharAppend(Flatten(rest), line, '\n');
    } else {
      assert rest + [] == rest;
    }
  }

  /** One chunk per kept step among the first k. */
  lemma {:induction false} SitesChunkCount(op: Op, nreaders: nat, steps: seq<Step>, k: nat)
    requires AllWellFormed(steps, nreaders) && k <= |steps|
    ensures |SitesOutput(op, nreaders, steps, k)| == KeptCount(op, nreaders, steps[..k])
  {
    if k > 0 {
      SitesChunkCount(op, nreaders, steps, k - 1);
      KeptCountPrefix(op, nreaders, steps, k);
    } else {
      assert steps[..k] == [];
    }
  }

  /** Each chunk of the sites stream carries exactly one newline. */
  lemma {:induction false} SitesNewlines(op: Op, nreaders: nat, steps: seq<Step>, k: nat)
    requires AllWellFormed(steps, nreaders) && AllPlain(steps) && k <= |steps|
    ensures CountChar(Flatten(SitesOutput(op, nreaders, steps, k)), '\n') == |SitesOutput(op, nreaders, steps, k)|
  {
    if k > 0 {
      var prev := SitesOutput(op, nreaders, steps, k - 1);
      SitesNewlines(op, nreaders, steps, k - 1);
      StepOutputLines(op, nreaders, steps[k - 1], prev);
    }
  }

  /** The sites stream has exactly one line per kept step: one chunk per kept step, and
      its text holds as many newlines, so no site is dropped or doubled. */
  lemma SitesLineCount(op: Op, nreaders: nat, steps: seq<Step>, k: nat)
    requires AllWellFormed(steps, nreaders) && AllPlain(steps) && k <= |steps|
    ensures |SitesOutput(op, nreaders, steps, k)| == KeptCount(op, nreaders, steps[..k])
    ensures CountChar(Flatten(SitesOutput(op, nreaders, steps, k)), '\n') == KeptCount(op, nreaders, steps[..k])
  {
    SitesChunkCount(op, nreaders, steps, k);
    SitesNewlines(op, nreaders, steps, k);
  }

  /** Sink i ends up with what it held plus, in step order, reader i's own record of every
      kept step among the first k that reader i contributed to. */
  lemma {:induction false} SinkContents(sinks: seq<seq<Record>>, op: Op, steps: seq<Step>, k: nat, i: nat)
    requires AllWellFormed(steps, |sinks|) && k <= |steps| && i < |sinks|
    ensures SinksAfter(sinks, op, steps, k)[i] == sinks[i] + Contributions(op, |sinks|, steps[..k], i)
  {
    if k > 0 {
      var last := steps[k - 1];
      assert steps[..k - 1] + [last] == steps[..k];
      SinkContents(sinks, op, steps, k - 1, i);
      ContributionsSnoc(op, |sinks|, steps[..k - 1], last, i);
    } else {
      assert steps[..k] == [];
    }
  }

  /** The sinks init_data opens: one empty output per reader. */
  function EmptySinks(n: nat): (r: seq<seq<Record>>)
    ensures |r| == n && forall i :: 0 <= i < n ==> r[i] == []
  {
    seq(n, _ => [])
  }

  /** Starting from freshly opened sinks, each sink ends up holding exactly that reader's
      contributions over the whole run. */
  lemma FromEmptySinks(op: Op, nreaders: nat, steps: seq<Step>)
    requires AllWellFormed(steps, nreaders)
    ensures forall i :: 0 <= i < nreaders ==>
      SinksAfter(EmptySinks(nreaders), op, steps, |steps|)[i] == Contributions(op, nreaders, steps, i)
  {
    var start := EmptySinks(nreaders);
    assert steps[..|steps|] == steps;
    forall i | 0 <= i < nreaders
      ensures SinksAfter(start, op, steps, |steps|)[i] == Contributions(op, nreaders, steps, i)
    {
      SinkContents(start, op, steps, |steps|, i);
      assert start[i] == [];
    }
  }

  /** A sink receives only records of its own reader, from kept steps that reader took part
      in, and receives every such record. */
  lemma {:induction false} ContributionsAreOwnRecords(op: Op, nreaders: nat, steps: seq<Step>, i: nat)
    requires AllWellFormed(steps, nreaders) && i < nreaders
    ensures forall r :: r in Contributions(op, nreaders, steps, i) ==>
      exists k :: 0 <= k < |steps| && Kept(op, nreaders, steps[k]) && Bit(steps[k].mask, i) && steps[k].lines[i] == Some(r)
    ensures forall k :: 0 <= k < |steps| && Kept(op, nreaders, steps[k]) && Bit(steps[k].mask, i) ==>
      steps[k].lines[i].value in Contributions(op, nreaders, steps, i)
  {
    if steps != [] {
      var rest := steps[1..];
      ContributionsAreOwnRecords(op, nreaders, rest, i);
      forall r | r in Contributions(op, nreaders, steps, i)
        ensures exists k :: 0 <= k < |steps| && Kept(op, nreaders, steps[k]) && Bit(steps[k].mask, i) && steps[k].lines[i] == Some(r)
      {
        if r !in Contributions(op, nreaders, rest, i) {
          assert Kept(op, nreaders, steps[0]) && Bit(steps[0].mask, i) && steps[0].lines[i] == Some(r);
        } else {
          var k :| 0 <= k < |rest| && Kept(op, nreaders, rest[k]) && Bit(rest[k].mask, i) && rest[k].lines[i] == Some(r);
          assert steps[k + 1] == rest[k];
        }
      }
      forall k | 0 <= k < |steps| && Kept(op, nreaders, steps[k]) && Bit(steps[k].mask, i)
        ensures steps[k].lines[i].value in Contributions(op, nreaders, steps, i)
      {
        if k > 0 {
          assert rest[k - 1] == steps[k];
        }
      }
    }
  }

  /** `-n =N` (the only '=' the code honours): a step is kept iff every reader contributes. */
  lemma EqualKeepsIntersection(step: Step, nreaders: nat)
    requires WellFormed(step, nreaders)
    ensures Kept(Equal, nreaders, step) ==> forall i :: 0 <= i < nreaders ==> Bit(step.mask, i)
    ensures (forall i :: 0 <= i < nreaders ==> Bit(step.mask, i)) ==> Kept(Equal, nreaders, step)
  {
    CountFullIffAllBits(step.mask, nreaders);
  }

  /** `-n +k` and `-n -k` keep every step whatever k is: one line per step of the reader. */
  lemma {:induction false} PlusMinusKeepAll(op: Op, nreaders: nat, steps: seq<Step>)
    requires AllWellFormed(steps, nreaders) && op != Equal
    ensures KeptCount(op, nreaders, steps) == |steps|
  {
    if steps != [] {
      PlusMinusKeepAll(op, nreaders, steps[1..]);
    }
  }

  /** Two files: A has sites at 100, 200 and 300, B at 200, 300 and 400 (1-based). */
  function TwoFileSteps(a100: Record, a200: Record, a300: Record, b200: Record, b300: Record, b400: Record): (steps: seq<Step>)
    ensures AllWellFormed(steps, 2)
  {
    assert Bit(1, 0) && !Bit(1, 1) && Bit(3, 0) && Bit(3, 1) && !Bit(2, 0) && Bit(2, 1);
    assert Pow2(2) == 4;
    [Step(1, [Some(a100), None]), Step(3, [Some(a200), Some(b200)]),
     Step(3, [Some(a300), Some(b300)]), Step(2, [None, Some(b400)])]
  }

  /** With `=2` only the sites at 200 and 300 are kept and each sink gets its own records
      at those two sites. */
  lemma TwoFileIntersection(a100: Record, a200: Record, a300: Record, b200: Record, b300: Record, b400: Record)
    ensures var steps := TwoFileSteps(a100, a200, a300, b200, b300, b400);
      Contributions(Equal, 2, steps, 0) == [a200, a300] &&
      Contributions(Equal, 2, steps, 1) == [b200, b300]
  {
    var steps := TwoFileSteps(a100, a200, a300, b200, b300, b400);
    assert CountBits(1, 2) == 1 && CountBits(3, 2) == 2 && CountBits(2, 2) == 1;
    var s1 := steps[1..];
    var s2 := s1[1..];
    var s3 := s2[1..];
    assert s1[0] == steps[1] && s2[0] == steps[2] && s3[0] == steps[3] && s3[1..] == [];
    assert Bit(1, 0) && !Bit(1, 1) && Bit(3, 0) && Bit(3, 1) && !Bit(2, 0) && Bit(2, 1);
    assert Contributions(Equal, 2, s3[1..], 0) == [] && Contributions(Equal, 2, s3[1..], 1) == [];
    assert !Kept(Equal, 2, s3[0]);
    assert Contributions(Equal, 2, s3, 0) == [] && Contributions(Equal, 2, s3, 1) == [];
    assert Contributions(Equal, 2, s2, 0) == [a300] && Contributions(Equal, 2, s2, 1) == [b300];
    assert Contributions(Equal, 2, s1, 0) == [a200, a300] && Contributions(Equal, 2, s1, 1) == [b200, b300];
  }

  /** With `=2` the sites file has exactly two lines: those of the sites at 200 and 300,
      in that order, each formatted from A's record. */
  lemma TwoFileIntersectionLines(a100: Record, a200: Record, a300: Record, b200: Record, b300: Record, b400: Record)
    ensures KeptCount(Equal, 2, TwoFileSteps(a100, a200, a300, b200, b300, b400)) == 2
    ensures SitesOutput(Equal, 2, TwoFileSteps(a100, a200, a300, b200, b300, b400), 4) == [SiteLine(a200), SiteLine(a300)]
  {
    TwoFileIntersectionSites(a100, a200, a300, b200, b300, b400);
    var steps := TwoFileSteps(a100, a200, a300, b200, b300, b400);
    assert CountBits(1, 2) == 1 && CountBits(3, 2) == 2 && CountBits(2, 2) == 1;
    var s1 := steps[1..];
    var s2 := s1[1..];
    var s3 := s2[1..];
    assert s1[0] == steps[1] && s2[0] == steps[2] && s3[0] == steps[3] && s3[1..] == [];
    assert !Kept(Equal, 2, steps[0]) && Kept(Equal, 2, s1[0]) && Kept(Equal, 2, s2[0]) && !Kept(Equal, 2, s3[0]);
    assert KeptCount(Equal, 2, s3) == 0;
    assert KeptCount(Equal, 2, s2) == 1;
    assert KeptCount(Equal, 2, s1) == 2;
  }

  /** The sites stream of the `=2` run, step by step. */
  lemma TwoFileIntersectionSites(a100: Record, a200: Record, a300: Record, b200: Record, b300: Record, b400: Record)
    ensures SitesOutput(Equal, 2, TwoFileSteps(a100, a200, a300, b200, b300, b400), 4) == [SiteLine(a200), SiteLine(a300)]
  {
    var steps := TwoFileSteps(a100, a200, a300, b200, b300, b400);
    assert CountBits(1, 2) == 1 && CountBits(3, 2) == 2 && CountBits(2, 2) == 1;
    assert FirstSet(3, 2) == Some(0);
    assert Representative(steps[1], 2) == (0, a200) && Representative(steps[2], 2) == (0, a300);
    assert StepOutput(Equal, 2, steps[0]) == [] && StepOutput(Equal, 2, steps[3]) == [];
    assert SitesOutput(Equal, 2, steps, 1) == [];
    assert SitesOutput(Equal, 2, steps, 2) == [SiteLine(a200)];
    assert SitesOutput(Equal, 2, steps, 3) == [SiteLine(a200), SiteLine(a300)];
    assert SitesOutput(Equal, 2, steps, 4) == SitesOutput(Equal, 2, steps, 3) + [];
  }

  /** The sites stream of the `+1` run: every site once, in order, each formatted from its
      lowest-numbered reader's record (B's at 400). */
  lemma TwoFileUnionSites(a100: Record, a200: Record, a300: Record, b200: Record, b300: Record, b400: Record)
    ensures SitesOutput(Plus, 2, TwoFileSteps(a100, a200, a300, b200, b300, b400), 4) ==
      [SiteLine(a100), SiteLine(a200), SiteLine(a300), SiteLine(b400)]
  {
    var steps := TwoFileSteps(a100, a200, a300, b200, b300, b400);
    assert FirstSet(1, 2) == Some(0) && FirstSet(3, 2) == Some(0) && FirstSet(2, 2) == Some(1);
    assert Representative(steps[0], 2) == (0, a100) && Representative(steps[1], 2) == (0, a200);
    assert Representative(steps[2], 2) == (0, a300) && Representative(steps[3], 2) == (1, b400);
    assert SitesOutput(Plus, 2, steps, 1) == [SiteLine(a100)];
    assert SitesOutput(Plus, 2, steps, 2) == [SiteLine(a100), SiteLine(a200)];
    assert SitesOutput(Plus, 2, steps, 3) == [SiteLine(a100), SiteLine(a200), SiteLine(a300)];
  }

  /** With `+1` every site is kept, once each and in order (four lines), and each sink
      gets all of its own records. */
  lemma TwoFileUnion(a100: Record, a200: Record, a300: Record, b200: Record, b300: Record, b400: Record)
    ensures var steps := TwoFileSteps(a100, a200, a300, b200, b300, b400);
      Contributions(Plus, 2, steps, 0) == [a100, a200, a300] &&
      Contributions(Plus, 2, steps, 1) == [b200, b300, b400] &&
      KeptCount(Plus, 2, steps) == 4
  {
    PlusMinusKeepAll(Plus, 2, TwoFileSteps(a100, a200, a300, b200, b300, b400));
    var steps := TwoFileSteps(a100, a200, a300, b200, b300, b400);
    var s1 := steps[1..];
    var s2 := s1[1..];
    var s3 := s2[1..];
    assert s1[0] == steps[1] && s2[0] == steps[2] && s3[0] == steps[3] && s3[1..] == [];
    assert Bit(1, 0) && !Bit(1, 1) && Bit(3, 0) && Bit(3, 1) && !Bit(2, 0) && Bit(2, 1);
    assert Contributions(Plus, 2, s3[1..], 0) == [] && Contributions(Plus, 2, s3[1..], 1) == [];
    assert Kept(Plus, 2, s3[0]);
    assert Contributions(Plus, 2, s3, 0) == [] && Contributions(Plus, 2, s3, 1) == [b400];
    assert Contributions(Plus, 2, s2, 0) == [a300] && Contributions(Plus, 2, s2, 1) == [b300, b400];
    assert Contributions(Plus, 2, s1, 0) == [a200, a300] && Contributions(Plus, 2, s1, 1) == [b200, b300, b400];
  }
}
