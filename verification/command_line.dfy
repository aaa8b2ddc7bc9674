/** The interpretation of the -d, -t and -f values in main (efs.c), and the
    `upper` helper it applies to them. The getopt loop that collects the
    values is not modelled: an absent option is `None`. */
module CommandLine {
  import opened EfsTypes

  /** toupper in the C locale: ASCII lower-case letters move to upper case,
      every other character is unchanged. */
  function ToUpperChar(c: char): (u: char)
    ensures !('a' <= u <= 'z')
    ensures u == c || ('a' <= c <= 'z' && u as int == c as int - 32)
  {
    if 'a' <= c <= 'z' then (c as int - 32) as char else c
  }

  /** upper: map every character through toupper, in place. */
  function Upper(s: string): (u: string)
    ensures |u| == |s|
    ensures forall i :: 0 <= i < |s| ==> u[i] == ToUpperChar(s[i])
  {
    if s == [] then [] else [ToUpperChar(s[0])] + Upper(s[1..])
  }

  /** Upper-casing twice changes nothing more. */
  lemma UpperIdempotent(s: string)
    ensures Upper(Upper(s)) == Upper(s)
  {
  }

  /** `v` spells `word` (a word of capital ASCII letters) in any mix of cases;
      stated without reference to toupper. */
  predicate SpellsIgnoringCase(v: string, word: string)
  {
    && |v| == |word|
    && forall i :: 0 <= i < |v| ==> v[i] == word[i] || v[i] as int == word[i] as int + 32
  }

  predicate AllCapitals(word: string)
  {
    forall i :: 0 <= i < |word| ==> 'A' <= word[i] <= 'Z'
  }

  /** Comparing the upper-cased value with a capitalised word is a
      case-insensitive comparison, in both directions. */
  lemma UpperMatchesIgnoringCase(v: string, word: string)
    requires AllCapitals(word)
    ensures Upper(v) == word <==> SpellsIgnoringCase(v, word)
  {
  }

  /** The disk name: -d's value, or "efs.img" when -d is absent. */
  function DiskName(d: Option<string>): (name: string)
    ensures d.None? ==> name == "efs.img"
    ensures d.Some? ==> name == d.value
  {
    match d
    case None => "efs.img"
    case Some(v) => v
  }

  /** The disk type selected by -t: its upper-cased value compared with "GPT",
      then "MBR"; anything else, or no -t at all, selects none. */
  function SelectDiskType(t: Option<string>): (k: DiskType)
    ensures t.None? ==> k == DiskNone
  {
    match t
    case None => DiskNone
    case Some(v) =>
      var u := Upper(v);
      if u == "GPT" then DiskGpt else if u == "MBR" then DiskMbr else DiskNone
  }

  /** -t selects GPT iff its value is "gpt" in any case, MBR iff it is "mbr" in
      any case, and none otherwise. */
  lemma DiskTypeIgnoresCase(v: string)
    ensures SelectDiskType(Some(v)) == DiskGpt <==> SpellsIgnoringCase(v, "GPT")
    ensures SelectDiskType(Some(v)) == DiskMbr <==> SpellsIgnoringCase(v, "MBR")
    ensures SelectDiskType(Some(v)) == DiskNone <==>
      !SpellsIgnoringCase(v, "GPT") && !SpellsIgnoringCase(v, "MBR")
  {
  }

  /** Whether -f asks for formatting: its upper-cased value must be "TRUE";
      an absent -f stands for "FALSE". */
  function FormatRequested(f: Option<string>): (format: bool)
    ensures f.None? ==> !format
  {
    var value := match f case None => "FALSE" case Some(v) => Upper(v);
    value == "TRUE"
  }

  /** Formatting is chosen iff -f is present and spells "true" in any case;
      every other value, and no value, means load. */
  lemma FormatFlagIgnoresCase(f: Option<string>)
    ensures FormatRequested(f) <==> f.Some? && SpellsIgnoringCase(f.value, "TRUE")
  {
  }
}
