/** The driver state `args_t` of vcfisec and the procedures that update it: option
    handling (vcfisec.c:192-220), init_data (vcfisec.c:111-144) and the step loop of
    isec_vcf (vcfisec.c:37-90). The files, the synchronized reader and `mkdir` are
    replaced by what the state records of them. */
module Isec {
  import opened Wrappers
  import opened Bits
  import opened Records
  import opened Policy
  import opened SiteLines
  import opened IsecSpec
  import opened Naming
  import opened Mkdir
  import opened Decimal
  import opened Options
  import opened Text

  /** Where `fh_sites` points. */
  datatype SitesTarget = NoTarget | Stdout | SitesFile(path: string)

  /** The count and the representative of one step (vcfisec.c:44-56): walk the readers in
      index order, count those whose bit is set in `ret`, and remember the first one. */
  method CountContributors(step: Step, nreaders: nat) returns (n: nat, reader: Option<nat>)
    ensures n == CountBits(step.mask, nreaders)
    ensures reader == FirstSet(step.mask, nreaders)
  {
    n := 0;
    reader := None;
    for i := 0 to nreaders
      invariant n == CountBits(step.mask, i)
      invariant reader == FirstSet(step.mask, i)
    {
      if !Bit(step.mask, i) {
        continue;
      }
      if reader.None? {
        reader := Some(i);
      }
      n := n + 1;
    }
  }

  /** The `-n` case (vcfisec.c:205-211): look at the first character through `p`, step
      over a sign, then read the integer with `%d`. */
  method ScanNfiles(arg: string) returns (r: Result<(Op, int), Failure>)
    ensures r == ParseNfiles(arg)
  {
    var op: Op;
    var p := 0;
    if |arg| > 0 && arg[0] == '-' {
      op := Minus;
      p := 1;
    } else if |arg| > 0 && arg[0] == '+' {
      op := Plus;
      p := 1;
    } else if |arg| > 0 && arg[0] == '=' {
      op := Equal;
      p := 1;
    } else if |arg| > 0 && IsDigit(arg[0]) {
      op := Equal;
    } else {
      return Err(CouldNotParseNfiles(arg));
    }
    var k := ScanInt(arg[p..]);              // sscanf(p, "%d", &args->isec_n)
    if k.None? {
      return Err(CouldNotParseNfiles(arg));
    }
    r := Ok((op, k.value));
  }

  class Args {
    /** `isec_op`, None while it is still 0, and `isec_n`. */
    var isecOp: Option<Op>
    var isecN: int
    /** `files.collapse`, `files.apply_filters`, `files.region` and `prefix`. */
    var collapse: set<CollapseFlag>
    var applyFilters: bool
    var region: Option<string>
    var prefix: Option<string>
    /** The input paths handed to `add_reader`, one reader each. */
    var inputs: seq<string>
    /** The paths passed to `mkdir`, in order. */
    var mkdirs: seq<string>
    /** `fnames`: the name of each subset file. */
    var outNames: seq<string>
    /** The path `fh_log` was opened on, if any. */
    var logPath: Option<string>
    /** `fh_sites`, and the chunks written to it; the file's text is their Flatten. */
    var sitesTarget: SitesTarget
    var sites: seq<string>
    /** Whether `fh_out` was allocated, and the records written to each `fh_out[i]`. */
    var hasSinks: bool
    var sinks: seq<seq<Record>>

    /** The option-controlled fields. */
    function Current(): Settings
      reads this`isecOp, this`isecN, this`collapse, this`applyFilters, this`region, this`prefix
    {
      Settings(isecOp, isecN, collapse, applyFilters, region, prefix)
    }

    /** `calloc(1, sizeof(args_t))`: everything zero. */
    constructor ()
      ensures Current() == Initial
      ensures inputs == [] && mkdirs == [] && outNames == [] && logPath == None
      ensures sitesTarget == NoTarget && sites == [] && !hasSinks && sinks == []
    {
      isecOp := None;
      isecN := 0;
      collapse := {};
      applyFilters := false;
      region := None;
      prefix := None;
      inputs := [];
      mkdirs := [];
      outNames := [];
      logPath := None;
      sitesTarget := NoTarget;
      sites := [];
      hasSinks := false;
      sinks := [];
    }

    /** One pass of the `switch` in the getopt loop. On success the option-controlled
        fields become what ApplyOpt gives; on failure the process would exit with the
        returned reason. */
    method HandleOption(o: Opt) returns (r: Result<(), Failure>)
      modifies this`isecOp, this`isecN, this`collapse, this`applyFilters, this`region, this`prefix
      ensures ApplyOpt(old(Current()), o).Ok? <==> r.Ok?
      ensures r.Ok? ==> Current() == ApplyOpt(old(Current()), o).value
      ensures r.Err? ==> r.error == ApplyOpt(old(Current()), o).error
    {
      match o {
        case Collapse(word) =>
          if word == "snps" {
            collapse := collapse + {Snps};
          } else if word == "indels" {
            collapse := collapse + {Indels};
          } else if word == "both" {
            collapse := collapse + {Snps, Indels};
          } else if word == "any" {
            collapse := collapse + {AnyVariant};
          }
          r := Ok(());
        case ApplyFilters =>
          applyFilters := true;
          r := Ok(());
        case Region(reg) =>
          region := Some(reg);
          r := Ok(());
        case Prefix(dir) =>
          prefix := Some(dir);
          r := Ok(());
        case Nfiles(arg) =>
          var parsed := ScanNfiles(arg);
          if parsed.Err? {
            return Err(parsed.error);
          }
          isecOp := Some(parsed.value.0);
          isecN := parsed.value.1;
          r := Ok(());
        case Help =>
          r := Err(UsageShown);
        case Other =>
          r := Err(UnknownArgument);
      }
    }

    /** The getopt loop: options in order until the first fatal one. */
    method HandleOptions(opts: seq<Opt>) returns (r: Result<(), Failure>)
      modifies this`isecOp, this`isecN, this`collapse, this`applyFilters, this`region, this`prefix
      ensures ApplyOpts(old(Current()), opts).Ok? <==> r.Ok?
      ensures r.Ok? ==> Current() == ApplyOpts(old(Current()), opts).value
      ensures r.Err? ==> r.error == ApplyOpts(old(Current()), opts).error
    {
      var i := 0;
      while i < |opts|
        invariant 0 <= i <= |opts|
        invariant ApplyOpts(old(Current()), opts) == ApplyOpts(Current(), opts[i..])
      {
        assert opts[i..][0] == opts[i] && opts[i..][1..] == opts[i + 1..];
        var one := HandleOption(opts[i]);
        if one.Err? {
          return Err(one.error);
        }
        i := i + 1;
      }
      assert opts[i..] == [];
      r := Ok(());
    }

    /** init_data: with a prefix, create the directory, name one subset file per reader
        and open a sink for it, and send the sites to `prefix/sites.txt`; without one,
        send the sites to standard output and open nothing. */
    method InitData()
      modifies this`mkdirs, this`logPath, this`outNames, this`sitesTarget, this`hasSinks, this`sinks
      requires prefix.Some? ==> |prefix.value| > 0 && '\0' !in prefix.value
      ensures prefix.None? ==>
        mkdirs == old(mkdirs) && logPath == old(logPath) && outNames == old(outNames) && sitesTarget == Stdout &&
        hasSinks == old(hasSinks) && sinks == old(sinks)
      ensures prefix.Some? ==>
        mkdirs == old(mkdirs) + MkdirCallsFixed(prefix.value) &&
        logPath == Some(ReadmeName(prefix.value)) &&
        |outNames| == |inputs| &&
        (forall i :: 0 <= i < |inputs| ==> outNames[i] == OutputName(prefix.value, i)) &&
        sitesTarget == SitesFile(SitesName(prefix.value)) &&
        hasSinks && sinks == EmptySinks(|inputs|)
    {
      if prefix.Some? {
        var dir := prefix.value;
        var calls := MkdirPFixed(dir);
        mkdirs := mkdirs + calls;
        logPath := Some(ReadmeName(dir));      // fopen(".../README.txt", "w")
        var names: seq<string> := [];
        var outs: seq<seq<Record>> := [];
        for i := 0 to |inputs|
          invariant |names| == i && |outs| == i
          invariant forall j :: 0 <= j < i ==> names[j] == OutputName(dir, j) && outs[j] == []
        {
          var tmp := OutputName(dir, i);       // snprintf(tmp, ntmp, "%s/%04d.bcf", ...)
          outs := outs + [[]];                 // hts_open, vcf_hdr_write
          names := names + [tmp];              // fnames[i] = strdup(tmp)
        }
        outNames := names;
        assert outs == EmptySinks(|inputs|);
        sinks := outs;
        hasSinks := true;
        sitesTarget := SitesFile(SitesName(dir));
      } else {
        sitesTarget := Stdout;
      }
    }

    /** vcfisec.c:85-87: every contributing reader's record goes to its own sink. */
    method WriteRecords(step: Step)
      modifies this`sinks
      requires WellFormed(step, |sinks|)
      ensures sinks == Route(old(sinks), step)
    {
      ghost var prev := sinks;
      var nreaders := |sinks|;
      for i := 0 to nreaders
        invariant |sinks| == |prev|
        invariant forall j :: 0 <= j < i ==> sinks[j] == Route(prev, step)[j]
        invariant forall j :: i <= j < |prev| ==> sinks[j] == prev[j]
      {
        if Bit(step.mask, i) {
          sinks := sinks[i := sinks[i] + [step.lines[i].value]];   // vcf_write1
        }
      }
    }

    /** The body of the `while` in isec_vcf for one step: count the contributing
        readers and pick the first, skip the step as the nested `if`s decide, or else
        write the representative's site line and route every contributing record. */
    method ProcessStep(step: Step)
      modifies this`sites, this`sinks
      requires isecOp.Some? && hasSinks && |sinks| == |inputs| <= MaxReaders
      requires WellFormed(step, |inputs|)
      ensures sites == old(sites) + StepOutput(isecOp.value, |inputs|, step)
      ensures sinks == StepSinks(old(sinks), isecOp.value, step)
    {
      var nreaders := |inputs|;
      var op := isecOp.value;
      var n, reader := CountContributors(step, nreaders);
      var skip := false;
      if op == Equal {
        if n != nreaders {
          skip := true;
        } else {
          if op == Plus {
            if n < nreaders {
              skip := true;
            }
          }
        }
      } else {
        if op == Minus {
          if n > nreaders {
            skip := true;
          }
        }
      }
      if !skip {
        NonzeroHasBit(step.mask, nreaders);
        var line := step.lines[reader.value].value;
        var str := FormatSite(line);
        sites := sites + [str];                 // fwrite(str.s, ..., fh_sites)
        WriteRecords(step);
      }
    }

    /** isec_vcf over the steps next_line returns, in order. The sites text and the
        sinks end up as the specification functions of the steps give. */
    method IsecVcf(steps: seq<Step>)
      modifies this`sites, this`sinks
      requires isecOp.Some? && hasSinks && |sinks| == |inputs| <= MaxReaders
      requires AllWellFormed(steps, |inputs|)
      ensures sites == old(sites) + SitesOutput(isecOp.value, |inputs|, steps, |steps|)
      ensures sinks == SinksAfter(old(sinks), isecOp.value, steps, |steps|)
    {
      var nreaders := |inputs|;
      var op := isecOp.value;
      ghost var sites0, sinks0 := sites, sinks;
      var k := 0;
      while k < |steps|
        invariant 0 <= k <= |steps|
        invariant |sinks| == nreaders
        invariant sites == sites0 + SitesOutput(op, nreaders, steps, k)
        invariant sinks == SinksAfter(sinks0, op, steps, k)
      {
        assert WellFormed(steps[k], nreaders);
        ghost var before := SitesOutput(op, nreaders, steps, k);
        ProcessStep(steps[k]);
        AppendAssoc(sites0, before, StepOutput(op, nreaders, steps[k]));
        k := k + 1;
      }
    }
  }

  /** The part of main_vcfisec (vcfisec.c:177-229) before isec_vcf: parse the options,
      check them, register the inputs and run init_data. On success the state is as the
      options give, with one empty sink per input and no site written yet. */
  method SetUp(opts: seq<Opt>, files: seq<string>) returns (r: Result<Args, Failure>)
    requires ApplyOpts(Initial, opts).Ok? && ApplyOpts(Initial, opts).value.prefix.Some? ==>
      |ApplyOpts(Initial, opts).value.prefix.value| > 0 && '\0' !in ApplyOpts(Initial, opts).value.prefix.value
    ensures r.Ok? <==> ApplyOpts(Initial, opts).Ok? && CheckArgs(ApplyOpts(Initial, opts).value, |files|).Ok?
    ensures ApplyOpts(Initial, opts).Err? ==> r.Err? && r.error == ApplyOpts(Initial, opts).error
    ensures ApplyOpts(Initial, opts).Ok? && r.Err? ==> r.error == CheckArgs(ApplyOpts(Initial, opts).value, |files|).error
    ensures r.Ok? ==>
      var a := r.value;
      fresh(a) && a.Current() == ApplyOpts(Initial, opts).value && a.inputs == files && a.sites == []
    ensures r.Ok? && ApplyOpts(Initial, opts).value.prefix.Some? ==>
      var d := ApplyOpts(Initial, opts).value.prefix.value;
      var a := r.value;
      a.mkdirs == MkdirCallsFixed(d) && a.logPath == Some(ReadmeName(d)) &&
      |a.outNames| == |files| && (forall i :: 0 <= i < |files| ==> a.outNames[i] == OutputName(d, i)) &&
      a.sitesTarget == SitesFile(SitesName(d)) && a.hasSinks && a.sinks == EmptySinks(|files|)
    ensures r.Ok? && ApplyOpts(Initial, opts).value.prefix.None? ==>
      var a := r.value;
      a.mkdirs == [] && a.logPath == None && a.outNames == [] &&
      a.sitesTarget == Stdout && !a.hasSinks && a.sinks == []
  {
    var args := new Args();
    var parsed := args.HandleOptions(opts);
    if parsed.Err? {
      return Err(parsed.error);
    }
    var checked := CheckArgs(args.Current(), |files|);
    if checked.Err? {
      return Err(checked.error);
    }
    args.inputs := files;                      // add_reader for each input
    args.InitData();
    r := Ok(args);
  }

  /** main_vcfisec (vcfisec.c:177-231) with a `-p` directory: parse the options, check
      them, register the inputs, then init_data and isec_vcf. The sites file holds one
      line per kept step and sink i holds exactly reader i's records of the kept steps. */
  method MainVcfisec(opts: seq<Opt>, files: seq<string>, steps: seq<Step>) returns (r: Result<Args, Failure>)
    requires |files| <= MaxReaders && AllWellFormed(steps, |files|)
    requires ApplyOpts(Initial, opts).Ok? ==>
      ApplyOpts(Initial, opts).value.prefix.Some? &&
      |ApplyOpts(Initial, opts).value.prefix.value| > 0 && '\0' !in ApplyOpts(Initial, opts).value.prefix.value
    ensures r.Ok? <==> ApplyOpts(Initial, opts).Ok? && CheckArgs(ApplyOpts(Initial, opts).value, |files|).Ok?
    ensures ApplyOpts(Initial, opts).Err? ==> r.Err? && r.error == ApplyOpts(Initial, opts).error
    ensures ApplyOpts(Initial, opts).Ok? && r.Err? ==> r.error == CheckArgs(ApplyOpts(Initial, opts).value, |files|).error
    ensures r.Ok? ==>
      var s := ApplyOpts(Initial, opts).value;
      var a := r.value;
      a.Current() == s && a.inputs == files &&
      a.mkdirs == MkdirCallsFixed(s.prefix.value) && a.logPath == Some(ReadmeName(s.prefix.value)) &&
      |a.outNames| == |files| && (forall i :: 0 <= i < |files| ==> a.outNames[i] == OutputName(s.prefix.value, i)) &&
      a.sitesTarget == SitesFile(SitesName(s.prefix.value)) &&
      a.sites == SitesOutput(s.op.value, |files|, steps, |steps|) &&
      |a.sinks| == |files| &&
      (forall i :: 0 <= i < |files| ==> a.sinks[i] == Contributions(s.op.value, |files|, steps, i))
  {
    r := SetUp(opts, files);
    if r.Err? {
      return;
    }
    var args := r.value;
    args.IsecVcf(steps);
    FromEmptySinks(args.isecOp.value, |files|, steps);
    r := Ok(args);
  }
}
