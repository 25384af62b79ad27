/** The line isec_vcf writes to the sites stream for a kept site (vcfisec.c:69-83). */
module SiteLines {
  import opened Records
  import opened Decimal
  import opened Text

  /** REF: `allele[0]`, or "." when the record has no allele. */
  function RefField(alleles: seq<string>): string
  {
    if |alleles| > 0 then alleles[0] else "."
  }

  /** ALT: `allele[1],allele[2],...`, or "." when there are fewer than two alleles. */
  function AltField(alleles: seq<string>): string
  {
    if |alleles| > 1 then Join(alleles[1..], ',') else "."
  }

  /** contig TAB 1-based position TAB REF TAB ALT, then one newline. */
  function SiteLine(r: Record): string
  {
    Join([r.contig, Dec(r.pos + 1), RefField(r.alleles), AltField(r.alleles)], '\t') + "\n"
  }

  /** Builds the line in the `kstring_t` buffer one `kputs`/`kputc`/`kputw` at a time. */
  method FormatSite(r: Record) returns (str: string)
    ensures str == SiteLine(r)
  {
    var a := r.alleles;
    str := [];                                   // str.l = 0
    str := str + r.contig;
    str := str + "\t";
    str := str + Dec(r.pos + 1);
    str := str + "\t";
    if |a| > 0 { str := str + a[0]; } else { str := str + "."; }
    str := str + "\t";
    ghost var head := str;
    assert head == r.contig + "\t" + Dec(r.pos + 1) + "\t" + RefField(a) + "\t";
    str := PutAlts(str, a);
    str := str + "\n";
    SiteLineParts(r);
  }

  /** vcfisec.c:75-81: `allele[1]` (or '.') and then ",allele[i]" for each further
      allele, appended to the buffer. */
  method PutAlts(str0: string, a: seq<string>) returns (str: string)
    ensures str == str0 + AltField(a)
  {
    str := str0;
    if |a| > 1 { str := str + a[1]; } else { str := str + "."; }
    var i := 2;
    while i < |a|
      invariant 2 <= i <= if |a| < 2 then 2 else |a|
      invariant str == str0 + if |a| > 1 then Join(a[1..i], ',') else "."
    {
      str := str + ",";
      str := str + a[i];
      JoinSnoc(a[1..i], a[i], ',');
      SliceSnoc(a, 1, i);
      i := i + 1;
    }
    if |a| > 1 {
      SliceToEnd(a, 1, i);
    }
  }

  lemma SliceSnoc(a: seq<string>, lo: nat, hi: nat)
    requires lo <= hi < |a|
    ensures a[lo..hi + 1] == a[lo..hi] + [a[hi]]
  {
  }

  lemma SliceToEnd(a: seq<string>, lo: nat, hi: nat)
    requires lo <= hi == |a|
    ensures a[lo..hi] == a[lo..]
  {
  }

  /** The site line spelled out field by field. */
  lemma SiteLineParts(r: Record)
    ensures SiteLine(r) ==
      r.contig + "\t" + Dec(r.pos + 1) + "\t" + RefField(r.alleles) + "\t" + AltField(r.alleles) + "\n"
  {
    JoinFour(r.contig, Dec(r.pos + 1), RefField(r.alleles), AltField(r.alleles), '\t');
  }

  lemma JoinFour(w: string, x: string, y: string, z: string, c: char)
    ensures Join([w, x, y, z], c) == w + [c] + x + [c] + y + [c] + z
  {
    assert [w, x, y, z][1..] == [x, y, z];
    assert [x, y, z][1..] == [y, z];
    assert [y, z][1..] == [z];
    assert Join([z], c) == z;
    assert Join([y, z], c) == y + [c] + z;
    assert Join([x, y, z], c) == x + [c] + (y + [c] + z);
  }

  /** Text that may stand inside one field of a site line. */
  predicate FieldText(s: string)
  {
    '\t' !in s && '\n' !in s
  }

  /** The record texts the line is made of contain no separator. */
  predicate PlainRecord(r: Record)
  {
    FieldText(r.contig) &&
    forall i :: 0 <= i < |r.alleles| ==> FieldText(r.alleles[i]) && ',' !in r.alleles[i]
  }

  lemma AltFieldText(alleles: seq<string>)
    requires forall i :: 0 <= i < |alleles| ==> FieldText(alleles[i])
    ensures FieldText(AltField(alleles))
  {
    if |alleles| > 1 {
      JoinAvoids(alleles[1..], ',', '\t');
      JoinAvoids(alleles[1..], ',', '\n');
    }
  }

  /** The line ends in its only newline; cutting that off and splitting at the tabs gives
      back contig, 1-based position, REF and ALT, and splitting ALT at the commas gives
      back the alternate alleles (or "." when there is none). */
  lemma SiteLineFields(r: Record)
    requires PlainRecord(r)
    ensures var line := SiteLine(r);
      |line| >= 1 && line[|line| - 1] == '\n' && CountChar(line, '\n') == 1 &&
      Split(line[..|line| - 1], '\t') == [r.contig, Dec(r.pos + 1), RefField(r.alleles), AltField(r.alleles)] &&
      Split(AltField(r.alleles), ',') == if |r.alleles| > 1 then r.alleles[1..] else ["."]
  {
    var fields := [r.contig, Dec(r.pos + 1), RefField(r.alleles), AltField(r.alleles)];
    assert forall i :: 0 <= i < |fields| ==> FieldText(fields[i]) by {
      AltFieldText(r.alleles);
      DecChars(r.pos + 1);
      assert FieldText(Dec(r.pos + 1));
    }
    var body := Join(fields, '\t');
    var line := body + "\n";
    assert line == SiteLine(r);
    assert line[..|line| - 1] == body;
    assert Split(body, '\t') == fields by {
      SplitJoin(fields, '\t');
    }
    assert CountChar(line, '\n') == 1 by {
      JoinAvoids(fields, '\t', '\n');
      CountCharAppend(body, "\n", '\n');
      CountCharAbsent(body, '\n');
    }
    if |r.alleles| > 1 {
      SplitJoin(r.alleles[1..], ',');
    } else {
      SplitFree(".", ',');
    }
  }
}
