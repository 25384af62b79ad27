/** The options of main_vcfisec (vcfisec.c:192-220) once getopt_long has split them:
    what each option does to the settings, and the checks made after the loop. */
module Options {
  import opened Wrappers
  import opened Decimal
  import opened Policy

  /** The synced reader's collapse flags (COLLAPSE_SNPS, COLLAPSE_INDELS, COLLAPSE_ANY),
      kept abstract: a set of flags stands for their bitwise OR. */
  datatype CollapseFlag = Snps | Indels | AnyVariant

  /** One option as getopt_long returns it, with its argument. */
  datatype Opt =
    | Collapse(word: string)     // -c, --collapse
    | ApplyFilters               // -f, --apply-filters
    | Region(region: string)     // -r
    | Prefix(dir: string)        // -p, --prefix
    | Nfiles(arg: string)        // -n, --nfiles
    | Help                       // -h, --help, and '?' for an unrecognised option
    | Other                      // any other value getopt_long returns

  /** Why the process stops before reading any record. */
  datatype Failure =
    | UsageShown                 // usage(): exit(1)
    | CouldNotParseNfiles(arg: string)
    | UnknownArgument
    | MissingNfiles

  /** The fields of args_t (and of its readers_t) that the options set; `op` is None while
      `isec_op` is still the 0 that calloc left there. */
  datatype Settings = Settings(
    op: Option<Op>, n: int,
    collapse: set<CollapseFlag>, applyFilters: bool,
    region: Option<string>, prefix: Option<string>)

  /** The settings calloc gives. */
  const Initial := Settings(None, 0, {}, false, None, None)

  /** The flags `-c word` ORs into the collapse mask; an unknown word adds none. */
  function CollapseFlags(word: string): (flags: set<CollapseFlag>)
    ensures flags == {} <==> word !in {"snps", "indels", "both", "any"}
    ensures Snps in flags <==> word == "snps" || word == "both"
    ensures Indels in flags <==> word == "indels" || word == "both"
    ensures AnyVariant in flags <==> word == "any"
  {
    if word == "snps" then {Snps}
    else if word == "indels" then {Indels}
    else if word == "both" then {Snps, Indels}
    else if word == "any" then {AnyVariant}
    else {}
  }

  /** The operation a leading '-', '+' or '=' selects. */
  function SignOp(c: char): Option<Op>
  {
    if c == '-' then Some(Minus) else if c == '+' then Some(Plus) else if c == '=' then Some(Equal) else None
  }

  function SignChar(op: Op): char
  {
    match op case Minus => '-' case Plus => '+' case Equal => '='
  }

  /** `-n arg`: a leading '-', '+' or '=' picks the operation and is consumed, a leading
      digit picks '=' and is kept; the integer is then read with `%d`. Any other first
      character (an empty argument included), or no integer after the sign, is fatal. */
  function ParseNfiles(arg: string): (r: Result<(Op, int), Failure>)
    ensures r.Err? ==> r.error == CouldNotParseNfiles(arg)
    ensures |arg| == 0 || (SignOp(arg[0]).None? && !IsDigit(arg[0])) ==> r.Err?
    ensures |arg| > 0 && SignOp(arg[0]).Some? ==> (r.Ok? <==> ScanInt(arg[1..]).Some?)
    ensures |arg| > 0 && SignOp(arg[0]).Some? && r.Ok? ==> r.value == (SignOp(arg[0]).value, ScanInt(arg[1..]).value)
  {
    if |arg| == 0 then Err(CouldNotParseNfiles(arg))
    else if SignOp(arg[0]).Some? then WithCount(SignOp(arg[0]).value, arg[1..], arg)
    else if IsDigit(arg[0]) then WithCount(Equal, arg, arg)
    else Err(CouldNotParseNfiles(arg))
  }

  /** A string that starts with a digit always holds an integer for `%d`. */
  lemma ScanDigitFirst(s: string)
    requires |s| > 0 && IsDigit(s[0])
    ensures ScanInt(s).Some?
  {
    assert !IsSpace(s[0]);
    SkipNoSpace(s);
    assert DigitRun(s) != [];
    assert ScanDigits(s).Some?;
  }

  /** `sscanf(p, "%d", &args->isec_n)` once the operation is known. */
  function WithCount(op: Op, rest: string, arg: string): Result<(Op, int), Failure>
  {
    match ScanInt(rest)
    case Some(k) => Ok((op, k))
    case None => Err(CouldNotParseNfiles(arg))
  }

  /** A leading digit selects '=' and stays part of the number, which then always parses. */
  lemma ParseDigitFirst(arg: string)
    requires |arg| > 0 && IsDigit(arg[0])
    ensures ScanInt(arg).Some? && ParseNfiles(arg) == Ok((Equal, ScanInt(arg).value))
  {
    ScanDigitFirst(arg);
    assert SignOp(arg[0]).None?;
    assert ParseNfiles(arg) == WithCount(Equal, arg, arg);
  }

  /** A sign followed by the decimal text of k parses back to that operation and k. */
  lemma ParseSigned(op: Op, k: int)
    ensures ParseNfiles([SignChar(op)] + Dec(k)) == Ok((op, k))
  {
    var d := Dec(k);
    var arg := [SignChar(op)] + d;
    assert arg[0] == SignChar(op) && arg[1..] == d;
    assert SignOp(arg[0]) == Some(op);
    ScanDec(k, []);
    assert d + [] == d;
  }

  /** Bare digits mean '='. */
  lemma ParseBare(k: nat)
    ensures ParseNfiles(Dec(k)) == Ok((Equal, k))
  {
    var arg := Dec(k);
    assert arg == NatDigits(k) && arg[0] in arg;
    ParseDigitFirst(arg);
    ScanDec(k, []);
    assert arg + [] == arg;
  }

  /** What one option does to the settings (vcfisec.c:193-217). */
  function ApplyOpt(s: Settings, o: Opt): Result<Settings, Failure>
  {
    match o
    case Collapse(word) => Ok(s.(collapse := s.collapse + CollapseFlags(word)))
    case ApplyFilters => Ok(s.(applyFilters := true))
    case Region(r) => Ok(s.(region := Some(r)))
    case Prefix(d) => Ok(s.(prefix := Some(d)))
    case Nfiles(arg) =>
      (match ParseNfiles(arg)
       case Ok((op, k)) => Ok(s.(op := Some(op), n := k))
       case Err(e) => Err(e))
    case Help => Err(UsageShown)
    case Other => Err(UnknownArgument)
  }

  /** The getopt loop: options in order, stopping at the first fatal one. */
  function ApplyOpts(s: Settings, opts: seq<Opt>): Result<Settings, Failure>
    decreases |opts|
  {
    if opts == [] then Ok(s)
    else match ApplyOpt(s, opts[0])
      case Ok(s') => ApplyOpts(s', opts[1..])
      case Err(e) => Err(e)
  }

  /** Every flag the `-c` options name, in any order. */
  ghost function NamedFlags(opts: seq<Opt>): set<CollapseFlag>
  {
    set k, f | 0 <= k < |opts| && opts[k].Collapse? && f in CollapseFlags(opts[k].word) :: f
  }

  /** The collapse mask accumulates: it ends up as the starting flags together with every
      flag some `-c` option names, so repeating or reordering `-c` options changes nothing. */
  lemma {:induction false} CollapseAccumulates(s: Settings, opts: seq<Opt>)
    requires ApplyOpts(s, opts).Ok?
    ensures ApplyOpts(s, opts).value.collapse == s.collapse + NamedFlags(opts)
    decreases |opts|
  {
    if opts != [] {
      var s' := ApplyOpt(s, opts[0]).value;
      CollapseAccumulates(s', opts[1..]);
      var here := if opts[0].Collapse? then CollapseFlags(opts[0].word) else {};
      assert s'.collapse == s.collapse + here;
      assert NamedFlags(opts) == here + NamedFlags(opts[1..]) by {
        forall f | f in NamedFlags(opts) ensures f in here + NamedFlags(opts[1..]) {
          var k :| 0 <= k < |opts| && opts[k].Collapse? && f in CollapseFlags(opts[k].word);
          if k > 0 {
            assert opts[1..][k - 1] == opts[k];
          }
        }
        forall f | f in NamedFlags(opts[1..]) ensures f in NamedFlags(opts) {
          var k :| 0 <= k < |opts[1..]| && opts[1..][k].Collapse? && f in CollapseFlags(opts[1..][k].word);
          assert opts[k + 1] == opts[1..][k];
        }
      }
    } else {
      assert NamedFlags(opts) == {};
    }
  }

  /** After the loop: fewer than two input files shows the usage, and a run needs `-n`. */
  function CheckArgs(s: Settings, nfiles: nat): (r: Result<Op, Failure>)
    ensures r.Ok? <==> nfiles >= 2 && s.op.Some?
    ensures r.Ok? ==> r.value == s.op.value
    ensures nfiles < 2 ==> r == Err(UsageShown)
    ensures nfiles >= 2 && s.op.None? ==> r == Err(MissingNfiles)
  {
    if nfiles < 2 then Err(UsageShown)
    else if s.op.None? then Err(MissingNfiles)
    else Ok(s.op.value)
  }
}
