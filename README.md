# vcfisec in Dafny

A model of `vcfisec`, the htslib tool that intersects, unions and complements
VCF/BCF files. The synchronized reader walks the inputs in lockstep. At each site it
returns a bitmask of the readers that have a record there. `isec_vcf` then works on
that site in four stages:

1. It counts the contributing readers and picks the lowest-numbered one as the
   representative.
2. It decides from the `-n` operation whether to keep the site.
3. For a kept site, it writes one tab-separated line (contig, 1-based position, REF,
   ALT) to the sites stream.
4. It appends every contributing reader's own record to that reader's subset file.

Around that loop the model covers three more pieces:

- the `-n` and `-c` option handling of `main_vcfisec`;
- `init_data`, which creates the `-p` directory with `mkdir_p` and names the files
  under it;
- `mkdir_p` itself.

Modules, one per concern:

- `Bits`: the membership mask, its bit count and its first set bit.
- `Records`: the abstract record (contig, 0-based position, alleles) and the step the
  synchronized reader yields (mask plus one optional record per reader).
- `Policy`: the keep/skip decision, as C parses it, and the rule the usage text
  describes.
- `SiteLines`: the site line as a function, and the `kstring_t` builder as a method
  proved against it.
- `IsecSpec`: the sites stream and the sinks after any number of steps, as functions,
  with independent reference definitions (`KeptCount`, `Contributions`).
- `Naming`: `%04d` and the three file names under the prefix.
- `Mkdir`: `mkdir_p` on a `char` array, as written and corrected.
- `Decimal`: `kputw` and `sscanf("%d")`.
- `Options`: the `-n` parser, the `-c` accumulator and the getopt loop as functions.
- `Isec`: the `args_t` state as a class. Its methods update the fields the C code
  updates. Each is proved against the functions above.
- `Text`: joining, splitting, counting and flattening strings.
- `Wrappers`: `Option` and `Result`.

Outside effects are recorded, not performed:

- A call to `mkdir` is recorded as the path it receives.
- An `fwrite` to the sites stream is recorded as the chunk it writes. The file's text
  is the `Flatten` of the chunks.
- A `vcf_write1` to a subset file is recorded as its record, appended to that file's
  sink.

The synchronized reader's output is given as a sequence of steps.

## Keep/skip as the code parses it

The usage text at vcfisec.c:170 describes `-n` as "exactly", "at least" or "at most"
k files. The code at vcfisec.c:58-67 does something else because of a dangling
`else`:

- The first `else` belongs to the inner `if ( n!=files->nreaders )`.
- The second `else` belongs to the outer `if`.

As a result:

- `=k` keeps a site iff every reader has it.
- `+k` and `-k` keep every site.
- `isec_n` is parsed and never read.

The model follows the code. `Policy.Keep` is the decision as written. `Policy.UsageKeep`
is the documented rule. `Policy.KeepVersusUsage` proves that the two agree at every
count only for `=N`, `+k` with k <= 1, and `-k` with k >= N.

## Model

| member | source | states |
|---|---|---|
| Bits.CountBitsIsCardinality | vcfisec.c:47-55 | `n` is the size of the set of readers below `nreaders` whose bit is set in `ret` |
| Bits.FirstSet | vcfisec.c:47-54 | the first reader picked is contributing and no lower-numbered reader contributes; None iff no reader does |
| Bits.CountZeroIffNoBit | vcfisec.c:47-56 | the count is zero exactly when no representative is found |
| Bits.CountFullIffAllBits | vcfisec.c:58-59 | `n == nreaders` iff every reader contributes, in both directions |
| Bits.NonzeroHasBit | vcfisec.c:42-56 | a non-zero mask for `nreaders` readers always yields a representative |
| Records.Representative | vcfisec.c:50-54 | the representative is a contributing reader, its record is present, and every lower reader is absent |
| Isec.CountContributors | vcfisec.c:47-56 | the `for`/`continue` loop yields exactly the bit count and the first set reader |
| Policy.Keep | vcfisec.c:58-67 | `=` keeps iff n equals the number of readers; `+` always keeps; `-` keeps iff n <= nreaders, which always holds |
| Policy.KeepVersusUsage | vcfisec.c:58-67 | the decision matches the usage text of vcfisec.c:170 at every count iff the option is `=N`, `+k` with k <= 1 or `-k` with k >= N |
| IsecSpec.EqualKeepsIntersection | vcfisec.c:58-59 | with `=`, a step is kept iff all readers contribute |
| IsecSpec.PlusMinusKeepAll | vcfisec.c:60-67 | with `+` or `-`, every step is kept whatever the threshold |
| IsecSpec.SkippedStepWritesNothing | vcfisec.c:58-67 | a skipped step leaves the sites stream and every sink unchanged |
| SiteLines.FormatSite | vcfisec.c:69-82 | the method building `str` produces exactly the site line of the record |
| SiteLines.PutAlts | vcfisec.c:75-81 | the ALT part is `allele[1]` and then `,allele[i]` for each later allele, or `.` when there are fewer than two alleles |
| SiteLines.SiteLineFields | vcfisec.c:69-82 | the line ends in its only newline; split at tabs it gives contig, pos+1, REF (or `.`), ALT; split at commas the ALT gives alleles 1.. (or `.`) |
| Decimal.ScanDec | vcfisec.c:71 | `%d` reads back the integer `kputw` wrote, whatever non-digit text follows it |
| Isec.Args.WriteRecords | vcfisec.c:85-87 | sink i gets reader i's record appended iff bit i is set; the other sinks are unchanged |
| Isec.Args.ProcessStep | vcfisec.c:44-87 | one loop body adds the step's site line (or nothing) to the sites stream and routes the step's records (or nothing), as the `IsecSpec` functions give |
| Isec.Args.IsecVcf | vcfisec.c:37-90 | after all steps, the sites stream and the sinks are the `IsecSpec` functions of the step sequence |
| IsecSpec.SitesChunkCount | vcfisec.c:42-83 | the sites stream holds exactly one chunk per kept step, counted by an independent definition |
| IsecSpec.SitesNewlines | vcfisec.c:69-83 | every chunk written to the sites stream ends one line: the text holds as many newlines as chunks |
| IsecSpec.SitesLineCount | vcfisec.c:42-83 | the sites text has one chunk and one newline per kept step, counted by an independent definition |
| IsecSpec.SinkContents | vcfisec.c:85-87 | sink i ends as its old contents plus, in step order, reader i's record of each kept step it contributed to |
| IsecSpec.FromEmptySinks | vcfisec.c:85-87 | from freshly opened sinks, sink i holds exactly reader i's contributions |
| IsecSpec.ContributionsAreOwnRecords | vcfisec.c:85-87 | every record in sink i is reader i's own record at a kept step where its bit is set, and every such record is there |
| IsecSpec.TwoFileIntersection | vcfisec.c:58-87 | A at 100/200/300 and B at 200/300/400 with `=2`: each sink gets its records at 200 and 300 |
| IsecSpec.TwoFileIntersectionLines | vcfisec.c:58-83 | the same inputs with `=2` give exactly two site lines: those of A's records at 200 and 300, in that order |
| IsecSpec.TwoFileUnion | vcfisec.c:58-87 | the same inputs with `+1`: four site lines, and each sink gets all of its records |
| IsecSpec.TwoFileUnionSites | vcfisec.c:58-83 | the same inputs with `+1`: the site lines are those of a100, a200, a300 and b400, in that order |
| Mkdir.CutAt | vcfisec.c:99-103 | cutting at a '/' passes exactly the prefix to `mkdir` and restores the buffer to the path |
| Mkdir.SkipToSlash | vcfisec.c:97 | the inner scan stops at the next '/' or at the end and passes over no '/' |
| Mkdir.SlashPrefixesSpec | vcfisec.c:95-104 | the cut prefixes are proper prefixes ending before a '/', strictly increasing in length, and cover every '/' at index >= 1 |
| Mkdir.MkdirP | vcfisec.c:92-109 | the in-place walk over the `strdup` copy makes exactly the `mkdir` calls `MkdirCalls` gives |
| Mkdir.MkdirCallsSpec | vcfisec.c:92-109 | as written: the calls are the prefixes before each '/' at index >= 1, shortest first, and the whole path iff it has two or more characters and does not end in '/' |
| Mkdir.OneCharacterPathNotCreated | vcfisec.c:94-95 | a one-character directory name gets no `mkdir` call as written and gets one when corrected |
| Mkdir.MkdirPFixed | vcfisec.c:92-109 | the corrected walk makes exactly the `MkdirCallsFixed` calls |
| Mkdir.MkdirCallsFixedSpec | vcfisec.c:92-109 | corrected: the same prefixes, then the whole path iff it does not end in '/'; the same calls as written on paths of two or more characters |
| Naming.Pad4Width | vcfisec.c:130 | readers below 10000 get exactly four digits |
| Naming.Pad4Value | vcfisec.c:130 | the padded digits spell the reader number |
| Naming.OutputNameInjective | vcfisec.c:130 | distinct readers get distinct `%s/%04d.bcf` names |
| Naming.NamesDistinct | vcfisec.c:118-137 | no subset file name is `README.txt` or `sites.txt`, and those two differ |
| Options.ParseNfiles | vcfisec.c:205-211 | a leading `-`/`+`/`=` picks the operation and is consumed; a leading digit picks `=` and is kept; any other start, or no integer, is the fatal error |
| Options.ParseSigned | vcfisec.c:206-211 | a sign followed by the decimal text of k parses to that operation and k |
| Options.ParseBare | vcfisec.c:209-211 | bare digits parse to `=` and their value |
| Options.ParseDigitFirst | vcfisec.c:209-211 | an argument that starts with a digit always parses, as `=` |
| Isec.ScanNfiles | vcfisec.c:205-211 | the `-n` code that walks `p` along the argument computes exactly `ParseNfiles` |
| Options.CollapseFlags | vcfisec.c:195-198 | each known word sets exactly its own flags; an unknown word sets none |
| Options.CollapseAccumulates | vcfisec.c:194-199 | after the options, the collapse mask is the initial one plus every flag some `-c` names, in any order and with any repetition |
| Options.CheckArgs | vcfisec.c:219-220 | fewer than two inputs shows the usage; otherwise a missing `-n` gives `MissingNfiles`, distinct from the usage error; otherwise the operation is returned |
| Isec.Args.HandleOption | vcfisec.c:193-217 | one `switch` pass updates the option fields exactly as `ApplyOpt` says, or returns its error |
| Isec.Args.HandleOptions | vcfisec.c:192-218 | the getopt loop leaves the option fields as `ApplyOpts` gives, stopping at its first error |
| Isec.Args.constructor | vcfisec.c:180 | `calloc` gives the initial settings, no inputs, files or sinks |
| Isec.Args.InitData | vcfisec.c:111-144 | with a prefix: the `mkdir` calls of the corrected `mkdir_p`, `README.txt`, one `%04d.bcf` name and one empty sink per reader, and `sites.txt`; without one: standard output and nothing else |
| Isec.SetUp | vcfisec.c:177-226 | options, checks, readers and `init_data`: succeeds iff the options parse and the checks pass, carrying the first error otherwise; with `-p`, the corrected `mkdir_p` calls, the file names and one empty sink per reader; without `-p`, the sites go to standard output and nothing is created |
| Isec.MainVcfisec | vcfisec.c:177-231 | the whole run with `-p`: on success, the corrected `mkdir_p` calls and the file names are made, the sites stream holds the site lines of the kept steps and sink i holds exactly reader i's contributions |

## Left out

- `next_line` and the synchronized reader are not part of this model. This covers the
  merge, the collapse rules, `-f` filtering and `-r` regions, which are declared in
  `synced_bcf_reader.h`. Their output is an input sequence of steps. `-c`, `-f` and
  `-r` are modelled only as the settings they store.
- `add_reader` and its index loading (vcfisec.c:223), `destroy_data`, `destroy_readers`
  and `bcf_index_build` are foreign I/O and are left out.
- `hts_open`, `vcf_hdr_write`, `vcf_write1`, `fopen` and `fclose` are left out, and so
  are their failures (vcfisec.c:120, 133 and 139). Sinks start empty; the header write
  is not recorded.
- The text written to `README.txt` (vcfisec.c:121-131) is left out. Only its path is
  recorded.
- The real `mkdir` and its return code, which the source ignores, are left out.
- `Isec.Args.ProcessStep`, `Isec.Args.IsecVcf` and `Isec.MainVcfisec` require that the
  subset files exist, that is, a `-p` prefix. Without `-p`, `fh_out` is never allocated
  (vcfisec.c:143), yet line 87 writes through it on the first kept site.
- `Isec.MainVcfisec` also requires the prefix to be non-empty and free of NUL.
  `mkdir_p` reads past the terminator on an empty string. `Isec.SetUp` and
  `Isec.Args.InitData` make the same demand only when a prefix is given.
- `Isec.Args.ProcessStep`, `Isec.Args.IsecVcf` and `Isec.MainVcfisec` require at most
  31 readers (`MaxReaders`), because `1<<i` is an `int` shift.
- `Decimal.ScanInt`: `sscanf("%d")` is modelled as skipping white space, an optional
  sign and the longest digit run. Overflow beyond `int` is not modelled.
- `Decimal.Dec`: `kputw(line->pos+1)` does not model `int` overflow of `pos+1`.
- The contig name is taken as a string of the record. The header-dictionary lookup
  `id[BCF_DT_CTG][line->rid]` is not part of this model.
- `getopt_long` itself, the `-h`/`?` usage text and `main.c`'s command dispatcher are
  left out. The options arrive as an already-split sequence of `Opt` values.

## Findings

| source | as written | input that shows it | evidently intended | confidence | as-written member | corrected member |
|---|---|---|---|---|---|---|
| vcfisec.c:94-95 | `p` starts at `tmp+1` and the outer loop runs only while `*p`, so a one-character path never enters the loop and `mkdir` is never called | `-p d`: `mkdir_p("d")` creates nothing, so the `fopen` of `d/README.txt` at vcfisec.c:119 fails unless `d` already exists | every directory of the path is created, including a one-character one | not executed | Mkdir.OneCharacterPathNotCreated | Mkdir.MkdirPFixed |

`Mkdir.MkdirP` and `Mkdir.MkdirCalls` model the code as written. `Isec.Args.InitData`
uses the corrected `Mkdir.MkdirPFixed`. `Mkdir.MkdirCallsFixedSpec` proves that the
correction changes nothing on paths of two or more characters.
