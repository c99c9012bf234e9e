/**
 * AssemblyInfoUpdater: the rewrite engine. A file is a sequence of lines; every line that
 * begins with one of sixteen spellings of a catalog tag is replaced by the tag's freshly
 * produced line, every other line is copied, and the catalog tags no line mentioned are
 * appended in catalog order.
 *
 * The catalog (`tags`) and the format descriptor are parameters, so every result here
 * holds for any catalog and any descriptor; the version is the value snapshot of
 * VersionProperties and `year` is the clock's current year.
 */
module AssemblyInfoUpdater {
  import opened Wrappers
  import opened Text
  import opened FormatTraits
  import opened Version
  import opened AssemblyTags
  import opened TagHelper
  import opened TextFile

  /** The separators between the assembly keyword and the tag name, in table order. */
  const Separators: seq<string> := [":", " :", ": ", " : "]

  /** What may follow the tag name, in table order. */
  function Suffixes(traits: FormatTraits): seq<string>
  {
    [traits.closeAttributeText, "(", "Attribute" + traits.closeAttributeText, "Attribute("]
  }

  /** Open + Keyword + separator + name + suffix. */
  function Pattern(traits: FormatTraits, separator: string, tagName: string, suffix: string): string
  {
    traits.openAttributeText + traits.assemblyKeyword + separator + tagName + suffix
  }

  /**
   * The sixteen format strings of IsLineOfTag filled in: row by row (i / 4) the separator
   * varies, column by column (i % 4) the suffix, as in the source's literal table.
   */
  function SupportedFormats(tagName: string, traits: FormatTraits): seq<string>
  {
    seq(16, i requires 0 <= i < 16 => Pattern(traits, Separators[i / 4], tagName, Suffixes(traits)[i % 4]))
  }

  /**
   * With the C# descriptor the table runs from `[assembly:T]` through `[assembly: T(` (the
   * spelling every produced line uses) to `[assembly : TAttribute(`.
   */
  lemma SupportedFormatsExample(tagName: string)
    ensures var formats := SupportedFormats(tagName, CSharp());
            |formats| == 16 &&
            formats[0] == "[assembly:" + tagName + "]" &&
            formats[9] == "[assembly: " + tagName + "(" &&
            formats[15] == "[assembly : " + tagName + "Attribute("
  {
    var formats := SupportedFormats(tagName, CSharp());
    assert formats[0] == Pattern(CSharp(), ":", tagName, "]");
    assert formats[9] == Pattern(CSharp(), ": ", tagName, "(");
    assert formats[15] == Pattern(CSharp(), " : ", tagName, "Attribute(");
    assert "[" + "assembly" + ":" == "[assembly:";
    assert "[" + "assembly" + ": " == "[assembly: ";
    assert "[" + "assembly" + " : " == "[assembly : ";
  }

  /** `formats.Any(f => line.StartsWith(f, OrdinalIgnoreCase))`. */
  predicate StartsWithAny(line: string, formats: seq<string>)
  {
    formats != [] && (StartsWithIgnoreCase(line, formats[0]) || StartsWithAny(line, formats[1..]))
  }

  lemma {:induction false} StartsWithAnyIff(line: string, formats: seq<string>)
    ensures StartsWithAny(line, formats) <==> exists i :: 0 <= i < |formats| && StartsWithIgnoreCase(line, formats[i])
  {
    if formats != [] {
      StartsWithAnyIff(line, formats[1..]);
      if exists i :: 0 <= i < |formats| && StartsWithIgnoreCase(line, formats[i]) {
        var i :| 0 <= i < |formats| && StartsWithIgnoreCase(line, formats[i]);
        if i > 0 { assert formats[1..][i - 1] == formats[i]; }
      }
      if StartsWithAny(line, formats[1..]) {
        var i :| 0 <= i < |formats[1..]| && StartsWithIgnoreCase(line, formats[1..][i]);
        assert formats[i + 1] == formats[1..][i];
      }
    }
  }

  /** The line starts, ignoring case, with one of the sixteen formats. Leading space is not trimmed. */
  predicate IsLineOfTag(tagName: string, traits: FormatTraits, line: string)
    requires tagName != [] && line != []
  {
    StartsWithAny(line, SupportedFormats(tagName, traits))
  }

  /** IsLineOfTag accepts exactly the separator-times-suffix prefixes. */
  lemma IsLineOfTagIff(tagName: string, traits: FormatTraits, line: string)
    requires tagName != [] && line != []
    ensures IsLineOfTag(tagName, traits, line) <==>
            exists s, x :: s in Separators && x in Suffixes(traits) &&
                           StartsWithIgnoreCase(line, Pattern(traits, s, tagName, x))
  {
    var formats := SupportedFormats(tagName, traits);
    var suffixes := Suffixes(traits);
    StartsWithAnyIff(line, formats);
    if IsLineOfTag(tagName, traits, line) {
      var i :| 0 <= i < 16 && StartsWithIgnoreCase(line, formats[i]);
      assert Separators[i / 4] in Separators && suffixes[i % 4] in suffixes;
    }
    if exists s, x :: s in Separators && x in suffixes && StartsWithIgnoreCase(line, Pattern(traits, s, tagName, x)) {
      var s, x :| s in Separators && x in suffixes && StartsWithIgnoreCase(line, Pattern(traits, s, tagName, x));
      var a :| 0 <= a < 4 && Separators[a] == s;
      var b :| 0 <= b < 4 && suffixes[b] == x;
      var i := 4 * a + b;
      assert i / 4 == a && i % 4 == b;
      assert StartsWithIgnoreCase(line, formats[i]);
    }
  }

  /** Two strings that are both case-insensitive prefixes of one line agree, folded, wherever both are defined. */
  lemma PrefixesAgree(line: string, p: string, q: string)
    requires StartsWithIgnoreCase(line, p) && StartsWithIgnoreCase(line, q)
    ensures !FoldDiverge(p, q)
  {
    forall k | 0 <= k < |p| && k < |q| ensures Upper(p[k]) == Upper(q[k]) {
      assert line[..|p|][k] == line[k] == line[..|q|][k];
    }
  }

  lemma PatternCharAt(prefix: string, s: string, n: string, x: string, d: nat)
    requires d < |s| + |n|
    ensures (prefix + s + n + x)[|prefix| + d] == (s + n)[d]
  {
    assert prefix + s + n + x == prefix + (s + n) + x;
  }

  /**
   * Patterns with different separators, or the same separator and names that differ, differ
   * (folded) at a position both have, provided the names start with neither ' ' nor ':'.
   */
  lemma PatternsDiverge(prefix: string, s1: string, n1: string, x1: string, s2: string, n2: string, x2: string)
    requires s1 in Separators && s2 in Separators
    requires n1 != [] && Upper(n1[0]) != ' ' && Upper(n1[0]) != ':'
    requires n2 != [] && Upper(n2[0]) != ' ' && Upper(n2[0]) != ':'
    requires s1 != s2 || FoldDiverge(n1, n2)
    ensures FoldDiverge(prefix + s1 + n1 + x1, prefix + s2 + n2 + x2)
  {
    var p, q := prefix + s1 + n1 + x1, prefix + s2 + n2 + x2;
    var d: nat;
    if s1 == s2 {
      var k :| 0 <= k < |n1| && k < |n2| && Upper(n1[k]) != Upper(n2[k]);
      d := |s1| + k;
      assert (s1 + n1)[d] == n1[k] && (s2 + n2)[d] == n2[k];
    } else if s1[0] != s2[0] {
      d := 0;
    } else {
      // ":" against ": ", or " :" against " : ": one has a name character where the other has ' '
      d := if |s1| < |s2| then |s1| else |s2|;
      assert (s1 + n1)[d] == (if d < |s1| then s1[d] else n1[0]);
      assert (s2 + n2)[d] == (if d < |s2| then s2[d] else n2[0]);
    }
    PatternCharAt(prefix, s1, n1, x1, d);
    PatternCharAt(prefix, s2, n2, x2, d);
    assert Upper(p[|prefix| + d]) != Upper(q[|prefix| + d]);
  }

  /**
   * A line of a catalog entry: the entry's key is non-empty and the line starts, ignoring
   * case, with one separator-times-suffix spelling of it (IsLineOfTag, by IsLineOfTagIff).
   */
  predicate MatchesTag(e: Entry, traits: FormatTraits, line: string)
  {
    e.key != [] &&
    exists s, x :: s in Separators && x in Suffixes(traits) && StartsWithIgnoreCase(line, Pattern(traits, s, e.key, x))
  }

  /** MatchesTag is IsLineOfTag on the entry's key. */
  lemma MatchesTagIsLineOfTag(e: Entry, traits: FormatTraits, line: string)
    requires line != []
    ensures MatchesTag(e, traits, line) <==> e.key != [] && IsLineOfTag(e.key, traits, line)
  {
    if e.key != [] {
      IsLineOfTagIff(e.key, traits, line);
    }
  }

  /** A line of an entry's key matches one of its sixteen patterns. */
  lemma PatternOfLine(e: Entry, traits: FormatTraits, line: string) returns (s: string, x: string)
    requires MatchesTag(e, traits, line)
    ensures s in Separators && StartsWithIgnoreCase(line, Pattern(traits, s, e.key, x))
  {
    s, x :| s in Separators && x in Suffixes(traits) && StartsWithIgnoreCase(line, Pattern(traits, s, e.key, x));
  }

  /** In a well-formed catalog no line is a line of two different entries, whatever the descriptor. */
  lemma AtMostOneTagMatches(catalog: seq<Entry>, e: Entry, f: Entry, traits: FormatTraits, line: string)
    requires WellFormedCatalog(catalog) && e in catalog && f in catalog && line != []
    requires MatchesTag(e, traits, line) && MatchesTag(f, traits, line)
    ensures e == f
  {
    if e != f {
      var i :| 0 <= i < |catalog| && catalog[i] == e;
      var j :| 0 <= j < |catalog| && catalog[j] == f;
      var s1, x1 := PatternOfLine(e, traits, line);
      var s2, x2 := PatternOfLine(f, traits, line);
      var prefix := traits.openAttributeText + traits.assemblyKeyword;
      PatternsDiverge(prefix, s1, e.key, x1, s2, f.key, x2);
      PrefixesAgree(line, Pattern(traits, s1, e.key, x1), Pattern(traits, s2, f.key, x2));
    }
  }

  /** In a well-formed catalog an entry is identified by its key. */
  lemma KeysIdentifyEntries(catalog: seq<Entry>, e: Entry, f: Entry)
    requires WellFormedCatalog(catalog) && e in catalog && f in catalog && e.key == f.key
    ensures e == f
  {
  }

  /** The first catalog entry, in catalog order, whose key the line is a line of. */
  function FirstTagOfLine(catalog: seq<Entry>, traits: FormatTraits, line: string): (r: Option<Entry>)
    requires line != []
    ensures r.Some? ==> r.value in catalog
  {
    if catalog == [] then None
    else if MatchesTag(catalog[0], traits, line) then Some(catalog[0])
    else FirstTagOfLine(catalog[1..], traits, line)
  }

  /**
   * FirstTagOfLine finds nothing exactly when no entry matches, and otherwise an entry that
   * matches and that no earlier entry precedes as a match.
   */
  lemma {:induction false} FirstTagOfLineSpec(catalog: seq<Entry>, traits: FormatTraits, line: string)
    requires line != []
    ensures var r := FirstTagOfLine(catalog, traits, line);
            (r.None? <==> forall e :: e in catalog ==> !MatchesTag(e, traits, line)) &&
            (r.Some? ==> exists i :: 0 <= i < |catalog| && catalog[i] == r.value && MatchesTag(r.value, traits, line) &&
                           forall j :: 0 <= j < i ==> !MatchesTag(catalog[j], traits, line))
  {
    if catalog != [] && !MatchesTag(catalog[0], traits, line) {
      var tail := catalog[1..];
      FirstTagOfLineSpec(tail, traits, line);
      var r := FirstTagOfLine(tail, traits, line);
      assert forall e :: e in catalog ==> e == catalog[0] || e in tail;
      if r.Some? {
        var i :| 0 <= i < |tail| && tail[i] == r.value && MatchesTag(r.value, traits, line) &&
                 forall j :: 0 <= j < i ==> !MatchesTag(tail[j], traits, line);
        assert catalog[i + 1] == r.value;
        forall j | 0 <= j < i + 1 ensures !MatchesTag(catalog[j], traits, line) {
          if j > 0 { assert catalog[j] == tail[j - 1]; }
        }
      }
    } else if catalog != [] {
      assert catalog[0] in catalog;
    }
  }

  /**
   * GetTagFormatter: nothing for an empty line, otherwise the catalog's first entry whose
   * key the line is a line of.
   */
  function GetTagFormatter(catalog: seq<Entry>, traits: FormatTraits, line: string): (r: Option<Entry>)
    ensures line == [] ==> r == None
    ensures r.Some? ==> line != [] && r.value in catalog
  {
    if line == [] then None else FirstTagOfLine(catalog, traits, line)
  }

  /** The entry GetTagFormatter finds matches the line; when it finds none, no entry does. */
  lemma GetTagFormatterMatches(catalog: seq<Entry>, traits: FormatTraits, line: string)
    ensures var r := GetTagFormatter(catalog, traits, line);
            (r.Some? ==> line != [] && MatchesTag(r.value, traits, line)) &&
            (line != [] && r.None? ==> forall e :: e in catalog ==> !MatchesTag(e, traits, line))
  {
    if line != [] {
      FirstTagOfLineSpec(catalog, traits, line);
    }
  }

  /** Since at most one entry matches, the first match is the only one: catalog order does not matter. */
  lemma GetTagFormatterUnique(catalog: seq<Entry>, traits: FormatTraits, line: string, e: Entry)
    requires WellFormedCatalog(catalog) && e in catalog && line != [] && MatchesTag(e, traits, line)
    ensures GetTagFormatter(catalog, traits, line) == Some(e)
  {
    var r := GetTagFormatter(catalog, traits, line);
    GetTagFormatterMatches(catalog, traits, line);
    AtMostOneTagMatches(catalog, r.value, e, traits, line);
  }

  /**
   * The catalog's formatters, bound to the descriptor, the version and the clock: the
   * value of a catalog entry applied as `Value(formatTraits, version)`.
   */
  function Producer(traits: FormatTraits, v: VersionData, year: int): Tag -> string
  {
    t => ProduceTag(t, traits, v, year)
  }

  /** Every entry's produced line is a non-empty line of the entry's own key. */
  predicate ProducesOwnTags(catalog: seq<Entry>, traits: FormatTraits, produce: Tag -> string)
  {
    forall e :: e in catalog ==> produce(e.tag) != [] && MatchesTag(e, traits, produce(e.tag))
  }

  /**
   * The produced line of every tag is a line of that tag through the `": " + T + "("`
   * spelling, because every value starts with "(".
   */
  lemma ProducerProducesOwnTags(methods: seq<Tag>, traits: FormatTraits, v: VersionData, year: int)
    ensures ProducesOwnTags(Entries(methods), traits, Producer(traits, v, year))
  {
    var catalog := Entries(methods);
    forall e | e in catalog
      ensures Producer(traits, v, year)(e.tag) != [] && MatchesTag(e, traits, Producer(traits, v, year)(e.tag))
    {
      var i :| 0 <= i < |catalog| && catalog[i] == e;
      var line := ProduceTag(e.tag, traits, v, year);
      assert Producer(traits, v, year)(e.tag) == line;
      NameShape(e.tag);
      var head := Pattern(traits, ": ", e.key, "(");
      assert line[..|head|] == head;
      assert StartsWithIgnoreCase(line, head);
      assert ": " in Separators && "(" in Suffixes(traits);
    }
  }

  /** The line for one input line: the produced line of its entry, or the line itself. */
  function RewriteLine(catalog: seq<Entry>, traits: FormatTraits, produce: Tag -> string, line: string): string
  {
    match GetTagFormatter(catalog, traits, line)
    case Some(e) => produce(e.tag)
    case None => line
  }

  /** A produced line of a catalog entry is recognised as that entry, so rewriting keeps it. */
  lemma ProducedLineRecognised(catalog: seq<Entry>, traits: FormatTraits, produce: Tag -> string, e: Entry)
    requires WellFormedCatalog(catalog) && ProducesOwnTags(catalog, traits, produce) && e in catalog
    ensures GetTagFormatter(catalog, traits, produce(e.tag)) == Some(e)
    ensures RewriteLine(catalog, traits, produce, produce(e.tag)) == produce(e.tag)
  {
    GetTagFormatterUnique(catalog, traits, produce(e.tag), e);
  }

  /** Rewriting a line twice is rewriting it once. */
  lemma RewriteLineIdempotent(catalog: seq<Entry>, traits: FormatTraits, produce: Tag -> string, line: string)
    requires WellFormedCatalog(catalog) && ProducesOwnTags(catalog, traits, produce)
    ensures RewriteLine(catalog, traits, produce, RewriteLine(catalog, traits, produce, line))
            == RewriteLine(catalog, traits, produce, line)
  {
    var r := GetTagFormatter(catalog, traits, line);
    if r.Some? {
      ProducedLineRecognised(catalog, traits, produce, r.value);
    }
  }

  /** What UpdateExistingAttributes appends: one line per input line, in order. */
  function UpdatedLines(catalog: seq<Entry>, traits: FormatTraits, produce: Tag -> string, lines: seq<string>): (r: seq<string>)
    ensures |r| == |lines|
    ensures forall i :: 0 <= i < |lines| ==> r[i] == RewriteLine(catalog, traits, produce, lines[i])
  {
    if lines == [] then []
    else UpdatedLines(catalog, traits, produce, lines[..|lines| - 1]) + [RewriteLine(catalog, traits, produce, lines[|lines| - 1])]
  }

  /**
   * One output line per input line: a line of a catalog entry becomes that entry's produced
   * line (so repeated lines of one tag are each rewritten), any other line is copied verbatim.
   */
  lemma LineReplacement(catalog: seq<Entry>, traits: FormatTraits, produce: Tag -> string, lines: seq<string>, i: nat)
    requires WellFormedCatalog(catalog) && i < |lines|
    ensures (forall e :: e in catalog ==> lines[i] == [] || !MatchesTag(e, traits, lines[i])) ==>
              UpdatedLines(catalog, traits, produce, lines)[i] == lines[i]
    ensures forall e :: e in catalog && lines[i] != [] && MatchesTag(e, traits, lines[i]) ==>
              UpdatedLines(catalog, traits, produce, lines)[i] == produce(e.tag)
  {
    GetTagFormatterMatches(catalog, traits, lines[i]);
    forall e | e in catalog && lines[i] != [] && MatchesTag(e, traits, lines[i])
      ensures UpdatedLines(catalog, traits, produce, lines)[i] == produce(e.tag)
    {
      GetTagFormatterUnique(catalog, traits, lines[i], e);
    }
  }

  /** The keys UpdateExistingAttributes yields: one per matched line, in order. */
  function WrittenTags(catalog: seq<Entry>, traits: FormatTraits, lines: seq<string>): seq<string>
  {
    if lines == [] then []
    else
      var before := WrittenTags(catalog, traits, lines[..|lines| - 1]);
      match GetTagFormatter(catalog, traits, lines[|lines| - 1])
      case Some(e) => before + [e.key]
      case None => before
  }

  /** An entry's key is yielded exactly when some input line was recognised as that entry. */
  lemma {:induction false} WrittenTagsIff(catalog: seq<Entry>, traits: FormatTraits, lines: seq<string>, e: Entry)
    requires WellFormedCatalog(catalog) && e in catalog
    ensures e.key in WrittenTags(catalog, traits, lines) <==>
            exists i :: 0 <= i < |lines| && GetTagFormatter(catalog, traits, lines[i]) == Some(e)
  {
    if lines != [] {
      var front := lines[..|lines| - 1];
      var last := lines[|lines| - 1];
      WrittenTagsIff(catalog, traits, front, e);
      assert forall i :: 0 <= i < |front| ==> front[i] == lines[i];
      var r := GetTagFormatter(catalog, traits, last);
      if r.Some? && r.value.key == e.key {
        KeysIdentifyEntries(catalog, r.value, e);
      }
      if exists i :: 0 <= i < |lines| && GetTagFormatter(catalog, traits, lines[i]) == Some(e) {
        var i :| 0 <= i < |lines| && GetTagFormatter(catalog, traits, lines[i]) == Some(e);
        if i < |front| {
          assert GetTagFormatter(catalog, traits, front[i]) == Some(e);
        }
      }
    }
  }

  /** The catalog entries whose keys are not among `written`, in catalog order. */
  function MissingTags(catalog: seq<Entry>, written: seq<string>): (r: seq<Entry>)
    ensures |r| <= |catalog|
  {
    if catalog == [] then []
    else
      var last := catalog[|catalog| - 1];
      MissingTags(catalog[..|catalog| - 1], written) + (if last.key in written then [] else [last])
  }

  /** An entry is missing exactly when it is in the catalog and its key was not written. */
  lemma {:induction false} MissingTagsMembers(catalog: seq<Entry>, written: seq<string>, e: Entry)
    ensures e in MissingTags(catalog, written) <==> e in catalog && e.key !in written
  {
    if catalog != [] {
      var front := catalog[..|catalog| - 1];
      assert catalog == front + [catalog[|catalog| - 1]];
      MissingTagsMembers(front, written, e);
    }
  }

  /** The produced line of each entry, in order. */
  function ProducedLines(missing: seq<Entry>, produce: Tag -> string): (r: seq<string>)
    ensures |r| == |missing|
    ensures forall i :: 0 <= i < |missing| ==> r[i] == produce(missing[i].tag)
  {
    if missing == [] then []
    else ProducedLines(missing[..|missing| - 1], produce) + [produce(missing[|missing| - 1].tag)]
  }

  /** What OutputMissingAttributes appends. */
  function MissingLines(catalog: seq<Entry>, written: seq<string>, produce: Tag -> string): seq<string>
  {
    ProducedLines(MissingTags(catalog, written), produce)
  }

  /** MissingLines grows by at most the produced line of the next entry. */
  lemma MissingLinesStep(catalog: seq<Entry>, written: seq<string>, produce: Tag -> string, i: nat)
    requires i < |catalog|
    ensures MissingLines(catalog[..i + 1], written, produce) ==
            MissingLines(catalog[..i], written, produce) + (if catalog[i].key in written then [] else [produce(catalog[i].tag)])
  {
    assert catalog[..i + 1][..i] == catalog[..i];
    var m := MissingTags(catalog[..i], written);
    if catalog[i].key !in written {
      assert (m + [catalog[i]])[..|m|] == m;
    }
  }

  /** The whole rewrite of a file's lines. */
  function Rewrite(catalog: seq<Entry>, traits: FormatTraits, produce: Tag -> string, lines: seq<string>): seq<string>
  {
    UpdatedLines(catalog, traits, produce, lines) + MissingLines(catalog, WrittenTags(catalog, traits, lines), produce)
  }

  /**
   * Length accounting: the input lines keep their places, and the produced line of each
   * missing entry follows, in catalog order.
   */
  lemma RewriteShape(catalog: seq<Entry>, traits: FormatTraits, produce: Tag -> string, lines: seq<string>)
    ensures var r := Rewrite(catalog, traits, produce, lines);
            var missing := MissingTags(catalog, WrittenTags(catalog, traits, lines));
            |r| == |lines| + |missing| &&
            r[..|lines|] == UpdatedLines(catalog, traits, produce, lines) &&
            (forall k :: 0 <= k < |missing| ==> r[|lines| + k] == produce(missing[k].tag))
  {
    var u := UpdatedLines(catalog, traits, produce, lines);
    var m := MissingLines(catalog, WrittenTags(catalog, traits, lines), produce);
    assert (u + m)[..|lines|] == u;
  }

  /** A catalog entry is appended exactly when no input line was recognised as it. */
  lemma MissingIffUnrecognised(catalog: seq<Entry>, traits: FormatTraits, lines: seq<string>, e: Entry)
    requires WellFormedCatalog(catalog)
    ensures e in MissingTags(catalog, WrittenTags(catalog, traits, lines)) <==>
            e in catalog && forall i :: 0 <= i < |lines| ==> GetTagFormatter(catalog, traits, lines[i]) != Some(e)
  {
    MissingTagsMembers(catalog, WrittenTags(catalog, traits, lines), e);
    if e in catalog {
      WrittenTagsIff(catalog, traits, lines, e);
    }
  }

  /** Every catalog entry's produced line is in the output. */
  lemma EveryTagPresent(catalog: seq<Entry>, traits: FormatTraits, produce: Tag -> string, lines: seq<string>, e: Entry)
    requires WellFormedCatalog(catalog) && e in catalog
    ensures produce(e.tag) in Rewrite(catalog, traits, produce, lines)
  {
    var r := Rewrite(catalog, traits, produce, lines);
    var missing := MissingTags(catalog, WrittenTags(catalog, traits, lines));
    MissingIffUnrecognised(catalog, traits, lines, e);
    if e in missing {
      var k :| 0 <= k < |missing| && missing[k] == e;
      assert r[|lines| + k] == produce(e.tag) by {
        RewriteShape(catalog, traits, produce, lines);
      }
    } else {
      var i :| 0 <= i < |lines| && GetTagFormatter(catalog, traits, lines[i]) == Some(e);
      assert r[i] == produce(e.tag) by {
        RewriteShape(catalog, traits, produce, lines);
        assert r[i] == r[..|lines|][i];
      }
    }
  }

  /** With unchanged version data and year, a rewritten line sequence is rewritten to itself. */
  lemma RewriteIdempotent(catalog: seq<Entry>, traits: FormatTraits, produce: Tag -> string, lines: seq<string>)
    requires WellFormedCatalog(catalog) && ProducesOwnTags(catalog, traits, produce)
    ensures Rewrite(catalog, traits, produce, Rewrite(catalog, traits, produce, lines)) == Rewrite(catalog, traits, produce, lines)
  {
    var r := Rewrite(catalog, traits, produce, lines);
    RewriteShape(catalog, traits, produce, lines);
    var missing := MissingTags(catalog, WrittenTags(catalog, traits, lines));
    // every line of r is a fixed point of RewriteLine
    forall j | 0 <= j < |r| ensures RewriteLine(catalog, traits, produce, r[j]) == r[j] {
      if j < |lines| {
        assert r[j] == r[..|lines|][j] == RewriteLine(catalog, traits, produce, lines[j]);
        RewriteLineIdempotent(catalog, traits, produce, lines[j]);
      } else {
        assert r[j] == produce(missing[j - |lines|].tag);
        MissingTagsMembers(catalog, WrittenTags(catalog, traits, lines), missing[j - |lines|]);
        ProducedLineRecognised(catalog, traits, produce, missing[j - |lines|]);
      }
    }
    FixedLinesUnchanged(catalog, traits, produce, r);
    // and every catalog entry's produced line is in r, so nothing is missing
    forall e | e in catalog ensures produce(e.tag) in r {
      EveryTagPresent(catalog, traits, produce, lines, e);
    }
    NothingMissing(catalog, traits, produce, r);
    assert r + [] == r;
  }

  /** Lines that are all fixed points of RewriteLine are updated to themselves. */
  lemma FixedLinesUnchanged(catalog: seq<Entry>, traits: FormatTraits, produce: Tag -> string, r: seq<string>)
    requires forall j :: 0 <= j < |r| ==> RewriteLine(catalog, traits, produce, r[j]) == r[j]
    ensures UpdatedLines(catalog, traits, produce, r) == r
  {
  }

  /** Nothing is missing when every catalog key was written. */
  lemma {:induction false} NoneMissing(catalog: seq<Entry>, written: seq<string>)
    requires forall e :: e in catalog ==> e.key in written
    ensures MissingTags(catalog, written) == []
  {
    if catalog != [] {
      var front := catalog[..|catalog| - 1];
      assert forall e :: e in front ==> e in catalog;
      NoneMissing(front, written);
      assert catalog[|catalog| - 1] in catalog;
    }
  }

  /** When every entry's produced line is present, no entry is appended. */
  lemma NothingMissing(catalog: seq<Entry>, traits: FormatTraits, produce: Tag -> string, r: seq<string>)
    requires WellFormedCatalog(catalog) && ProducesOwnTags(catalog, traits, produce)
    requires forall e :: e in catalog ==> produce(e.tag) in r
    ensures MissingTags(catalog, WrittenTags(catalog, traits, r)) == []
  {
    var written := WrittenTags(catalog, traits, r);
    forall e | e in catalog ensures e.key in written {
      var j :| 0 <= j < |r| && r[j] == produce(e.tag);
      ProducedLineRecognised(catalog, traits, produce, e);
      WrittenTagsIff(catalog, traits, r, e);
    }
    NoneMissing(catalog, written);
  }

  /** The rewrite of a file's text: read into lines, rewrite, write back. */
  function FileRewrite(catalog: seq<Entry>, traits: FormatTraits, produce: Tag -> string, contents: string): string
  {
    JoinLines(Rewrite(catalog, traits, produce, SplitLines(contents)))
  }

  /**
   * A second pass over the written file leaves it unchanged when the rewritten lines hold no
   * line break and the last of them is not empty.
   */
  lemma FileRewriteIdempotent(catalog: seq<Entry>, traits: FormatTraits, produce: Tag -> string, contents: string)
    requires WellFormedCatalog(catalog) && ProducesOwnTags(catalog, traits, produce)
    requires var r := Rewrite(catalog, traits, produce, SplitLines(contents));
             (forall i :: 0 <= i < |r| ==> NoBreaks(r[i])) && (r == [] || r[|r| - 1] != "")
    ensures FileRewrite(catalog, traits, produce, FileRewrite(catalog, traits, produce, contents))
            == FileRewrite(catalog, traits, produce, contents)
  {
    var r := Rewrite(catalog, traits, produce, SplitLines(contents));
    ReadOfWrite(r);
    RewriteIdempotent(catalog, traits, produce, SplitLines(contents));
  }

  /** Appending an empty line to a rewritten sequence appends it to the rewrite. */
  lemma RewriteKeepsBlankLine(catalog: seq<Entry>, traits: FormatTraits, produce: Tag -> string, r: seq<string>)
    requires WellFormedCatalog(catalog)
    requires Rewrite(catalog, traits, produce, r) == r
    ensures Rewrite(catalog, traits, produce, r + [""]) == r + [""]
  {
    var withBlank := r + [""];
    assert withBlank[..|withBlank| - 1] == r;
    assert WrittenTags(catalog, traits, withBlank) == WrittenTags(catalog, traits, r);
    RewriteShape(catalog, traits, produce, r);
    var missing := MissingTags(catalog, WrittenTags(catalog, traits, r));
    assert |missing| == 0;
    assert UpdatedLines(catalog, traits, produce, r) == r;
    assert UpdatedLines(catalog, traits, produce, withBlank) == r + [RewriteLine(catalog, traits, produce, "")];
  }

  /**
   * The file-level rewrite is not idempotent byte for byte: when every catalog tag is already
   * present and the file ends with an empty line, each pass drops one trailing line break.
   */
  lemma FileRewriteDropsTrailingBreak(catalog: seq<Entry>, traits: FormatTraits, produce: Tag -> string, lines: seq<string>)
    requires WellFormedCatalog(catalog) && ProducesOwnTags(catalog, traits, produce)
    requires var r := Rewrite(catalog, traits, produce, lines);
             r != [] && (forall i :: 0 <= i < |r| ==> NoBreaks(r[i])) && r[|r| - 1] != ""
    ensures var r := Rewrite(catalog, traits, produce, lines);
            var contents := JoinLines(r) + NewLine + NewLine;
            FileRewrite(catalog, traits, produce, contents) == JoinLines(r) + NewLine &&
            FileRewrite(catalog, traits, produce, FileRewrite(catalog, traits, produce, contents)) == JoinLines(r) &&
            FileRewrite(catalog, traits, produce, FileRewrite(catalog, traits, produce, contents))
              != FileRewrite(catalog, traits, produce, contents)
  {
    var r := Rewrite(catalog, traits, produce, lines);
    var contents := JoinLines(r) + NewLine + NewLine;
    var withBlank := r + [""];
    assert forall i :: 0 <= i < |withBlank| ==> NoBreaks(withBlank[i]) by {
      assert forall i :: 0 <= i < |r| ==> withBlank[i] == r[i];
    }
    JoinAppend(r, "");
    assert JoinLines(withBlank) == JoinLines(r) + NewLine;
    assert contents == JoinLines(withBlank) + NewLine;
    TerminatedRead(withBlank);
    RewriteIdempotent(catalog, traits, produce, lines);
    RewriteKeepsBlankLine(catalog, traits, produce, r);
    var once := FileRewrite(catalog, traits, produce, contents);
    assert once == JoinLines(Rewrite(catalog, traits, produce, withBlank));
    assert once == JoinLines(r) + NewLine;
    TerminatedRead(r);
    assert FileRewrite(catalog, traits, produce, once) == JoinLines(Rewrite(catalog, traits, produce, r));
    assert |once| == |JoinLines(r)| + 2;
  }

  /**
   * A line that does not start with the descriptor's opening text (an indented line, a
   * comment) is never a line of a tag and is copied.
   */
  lemma OtherLineNotRecognised(catalog: seq<Entry>, traits: FormatTraits, line: string)
    requires line != [] && traits.openAttributeText != []
    requires Upper(line[0]) != Upper(traits.openAttributeText[0])
    ensures GetTagFormatter(catalog, traits, line) == None
  {
    FirstTagOfLineSpec(catalog, traits, line);
    forall e | e in catalog ensures !MatchesTag(e, traits, line) {
      if MatchesTag(e, traits, line) {
        var s, x := PatternOfLine(e, traits, line);
        DifferenceRulesOutPrefix(line, Pattern(traits, s, e.key, x), 0);
      }
    }
  }

  /**
   * An attribute line whose attribute name differs, ignoring case, from every key at a
   * position both have (Guid, SecurityTransparent, AssemblyTitle) is not a line of any tag.
   */
  lemma OtherAttributeNotRecognised(catalog: seq<Entry>, traits: FormatTraits, attribute: string)
    requires WellFormedCatalog(catalog)
    requires KeyShape(attribute)
    requires forall e :: e in catalog ==> FoldDiverge(e.key, attribute)
    ensures GetTagFormatter(catalog, traits, traits.openAttributeText + traits.assemblyKeyword + ": " + attribute) == None
  {
    var prefix := traits.openAttributeText + traits.assemblyKeyword;
    var line := prefix + ": " + attribute;
    FirstTagOfLineSpec(catalog, traits, line);
    forall e | e in catalog ensures !MatchesTag(e, traits, line) {
      if MatchesTag(e, traits, line) {
        var s, x := PatternOfLine(e, traits, line);
        assert ": " in Separators;
        PatternsDiverge(prefix, s, e.key, x, ": ", attribute, "");
        assert line + "" == line;
        assert StartsWithIgnoreCase(line, line) by {
          assert line[..|line|] == line;
        }
        PrefixesAgree(line, Pattern(traits, s, e.key, x), line);
      }
    }
  }

  /**
   * An attribute whose name starts, ignoring case, with none of 'A', 'C' and 'N' (the
   * initials of the tag names) is copied by the rewrite with any catalog of distinct tags.
   */
  lemma ForeignAttributePassesThrough(methods: seq<Tag>, traits: FormatTraits, produce: Tag -> string, attribute: string)
    requires KeysUnique(methods) && attribute != []
    requires Upper(attribute[0]) !in "ACN :"
    ensures var line := traits.openAttributeText + traits.assemblyKeyword + ": " + attribute;
            RewriteLine(Entries(methods), traits, produce, line) == line
  {
    var catalog := Entries(methods);
    EntriesWellFormed(methods);
    forall e | e in catalog ensures FoldDiverge(e.key, attribute) {
      var i :| 0 <= i < |catalog| && catalog[i] == e;
      NameShape(methods[i]);
      assert Upper(e.key[0]) != Upper(attribute[0]);
    }
    OtherAttributeNotRecognised(catalog, traits, attribute);
  }

  /** The C# descriptor writes an attribute line as `[assembly: ` followed by the attribute. */
  lemma CSharpAttributeLine(attribute: string)
    ensures CSharp().openAttributeText + CSharp().assemblyKeyword + ": " + attribute == "[assembly: " + attribute
  {
    assert CSharp().openAttributeText + CSharp().assemblyKeyword + ": " == "[assembly: ";
  }

  /** `[assembly: Guid("...")]`, whatever the GUID, passes through the C# rewrite unchanged. */
  lemma GuidAttributePassesThrough(methods: seq<Tag>, produce: Tag -> string, guid: string, line: string)
    requires KeysUnique(methods)
    requires line == "[assembly: " + ("Guid(\"" + guid + "\")]")
    ensures RewriteLine(Entries(methods), CSharp(), produce, line) == line
  {
    var attribute := "Guid(\"" + guid + "\")]";
    CSharpAttributeLine(attribute);
    assert attribute[0] == 'G';
    ForeignAttributePassesThrough(methods, CSharp(), produce, attribute);
  }

  /**
   * `[assembly: SecurityTransparent]`, and any other line that starts with
   * `[assembly: SecurityTransparent`, passes through the C# rewrite unchanged.
   */
  lemma SecurityTransparentPassesThrough(methods: seq<Tag>, produce: Tag -> string, rest: string, line: string)
    requires KeysUnique(methods)
    requires line == "[assembly: " + ("SecurityTransparent" + rest)
    ensures RewriteLine(Entries(methods), CSharp(), produce, line) == line
  {
    var attribute := "SecurityTransparent" + rest;
    CSharpAttributeLine(attribute);
    assert attribute[0] == 'S';
    ForeignAttributePassesThrough(methods, CSharp(), produce, attribute);
  }

  /**
   * UpdateExistingAttributes: appends one line per input line to `outputText` and yields
   * the key of each matched entry.
   */
  method UpdateExistingAttributes(catalog: seq<Entry>, fileContents: seq<string>, traits: FormatTraits,
                                  produce: Tag -> string, outputText: seq<string>)
    returns (output: seq<string>, written: seq<string>)
    ensures output == outputText + UpdatedLines(catalog, traits, produce, fileContents)
    ensures written == WrittenTags(catalog, traits, fileContents)
  {
    output, written := outputText, [];
    for i := 0 to |fileContents|
      invariant output == outputText + UpdatedLines(catalog, traits, produce, fileContents[..i])
      invariant written == WrittenTags(catalog, traits, fileContents[..i])
    {
      var current := fileContents[i];
      assert fileContents[..i + 1][..i] == fileContents[..i];
      var tagFormatter := GetTagFormatter(catalog, traits, current);
      if tagFormatter.Some? {
        output := output + [produce(tagFormatter.value.tag)];
        written := written + [tagFormatter.value.key];
      } else {
        output := output + [current];
      }
    }
    assert fileContents[..|fileContents|] == fileContents;
  }

  /** OutputMissingAttributes: appends the produced line of each catalog entry not already written. */
  method OutputMissingAttributes(catalog: seq<Entry>, produce: Tag -> string,
                                 outputText: seq<string>, alreadyWrittenTags: seq<string>)
    returns (output: seq<string>)
    ensures output == outputText + MissingLines(catalog, alreadyWrittenTags, produce)
  {
    output := outputText;
    for i := 0 to |catalog|
      invariant output == outputText + MissingLines(catalog[..i], alreadyWrittenTags, produce)
    {
      var current := catalog[i];
      MissingLinesStep(catalog, alreadyWrittenTags, produce, i);
      ghost var before := MissingLines(catalog[..i], alreadyWrittenTags, produce);
      if current.key !in alreadyWrittenTags {
        output := output + [produce(current.tag)];
        assert output == outputText + (before + [produce(current.tag)]);
      } else {
        assert before + [] == before;
      }
    }
    assert catalog[..|catalog|] == catalog;
  }

  /** The updater's configuration: the tag catalog and the file formats. */
  datatype Updater = Updater(tagsToModify: seq<Entry>, formatters: seq<FormatTraits>)

  datatype ConfigurationError = NoTagsDefined | NoFileFormats | DuplicateTag(key: string)

  /**
   * The constructor: the catalog (whose construction rejects a duplicate key), then the
   * checks that it and the format list are non-empty.
   */
  method NewUpdater(methods: seq<Tag>, types: seq<TypeInfo>) returns (r: Result<Updater, ConfigurationError>)
    ensures r.Success? <==> KeysUnique(methods) && methods != [] && FileFormats(types) != []
    ensures r.Success? ==> r.value == Updater(Entries(methods), FileFormats(types)) && WellFormedCatalog(r.value.tagsToModify)
    ensures !KeysUnique(methods) ==> r.Failure? && r.error.DuplicateTag?
    ensures KeysUnique(methods) && methods == [] ==> r == Failure(NoTagsDefined)
    ensures KeysUnique(methods) && methods != [] && FileFormats(types) == [] ==> r == Failure(NoFileFormats)
  {
    var catalog := TagsToModify(methods);
    if catalog.Failure? {
      return Failure(DuplicateTag(catalog.error.key));
    }
    var tagsToModify := catalog.value;
    if tagsToModify == [] {
      return Failure(NoTagsDefined);
    }
    var formatters := FileFormats(types);
    if formatters == [] {
      return Failure(NoFileFormats);
    }
    EntriesWellFormed(methods);
    return Success(Updater(tagsToModify, formatters));
  }

  /** ProcessAssemblyInfoFile: read the lines, update, append the missing tags, write back. */
  method ProcessAssemblyInfoFile(u: Updater, contents: string, traits: FormatTraits, v: VersionData, year: int)
    returns (newContents: string)
    ensures newContents == FileRewrite(u.tagsToModify, traits, Producer(traits, v, year), contents)
  {
    var produce := Producer(traits, v, year);
    var fileContents := ReadFileContents(contents);
    var outputLines: seq<string> := [];
    var updated, updatedAttributes := UpdateExistingAttributes(u.tagsToModify, fileContents, traits, produce, outputLines);
    assert updated == UpdatedLines(u.tagsToModify, traits, produce, fileContents);
    outputLines := OutputMissingAttributes(u.tagsToModify, produce, updated, updatedAttributes);
    assert outputLines == Rewrite(u.tagsToModify, traits, produce, fileContents);
    newContents := WriteFileContents(outputLines);
  }

  /** A file of a directory: its name and its text. */
  datatype FileEntry = FileEntry(name: string, contents: string)

  /** GetFiles(fileSpecification) for a plain file name: the names equal to it, ignoring case. */
  predicate MatchesSpecification(file: FileEntry, traits: FormatTraits)
  {
    EqualsIgnoreCase(file.name, traits.fileSpecification)
  }

  /** The rewrite of one file by one format, when the format's specification names it. */
  function ProcessFile(u: Updater, traits: FormatTraits, v: VersionData, year: int, file: FileEntry): FileEntry
  {
    if MatchesSpecification(file, traits)
    then FileEntry(file.name, FileRewrite(u.tagsToModify, traits, Producer(traits, v, year), file.contents))
    else file
  }

  /** The directory after one format has processed its files. */
  function AfterFormat(u: Updater, traits: FormatTraits, v: VersionData, year: int, files: seq<FileEntry>): (r: seq<FileEntry>)
    ensures |r| == |files|
    ensures forall i :: 0 <= i < |files| ==> r[i] == ProcessFile(u, traits, v, year, files[i])
  {
    if files == [] then []
    else AfterFormat(u, traits, v, year, files[..|files| - 1]) + [ProcessFile(u, traits, v, year, files[|files| - 1])]
  }

  /** The directory after each format in turn has processed it. */
  function AfterFormats(u: Updater, formats: seq<FormatTraits>, v: VersionData, year: int, files: seq<FileEntry>): (r: seq<FileEntry>)
    ensures |r| == |files|
    ensures forall i :: 0 <= i < |files| ==> r[i].name == files[i].name
  {
    if formats == [] then files
    else AfterFormat(u, formats[|formats| - 1], v, year, AfterFormats(u, formats[..|formats| - 1], v, year, files))
  }

  /** Files that no format's specification names are left as they were. */
  lemma {:induction false} UnmatchedFilesUntouched(u: Updater, formats: seq<FormatTraits>, v: VersionData, year: int,
                                                   files: seq<FileEntry>, i: nat)
    requires i < |files|
    requires forall k :: 0 <= k < |formats| ==> !MatchesSpecification(files[i], formats[k])
    ensures AfterFormats(u, formats, v, year, files)[i] == files[i]
  {
    if formats != [] {
      var front := formats[..|formats| - 1];
      assert forall k :: 0 <= k < |front| ==> front[k] == formats[k];
      UnmatchedFilesUntouched(u, front, v, year, files, i);
      var before := AfterFormats(u, front, v, year, files);
      assert before[i] == files[i];
      assert !MatchesSpecification(before[i], formats[|formats| - 1]);
    }
  }

  /** The inner loop of ProcessFolderContents: every file the format's specification names is rewritten. */
  method ProcessFormatFiles(u: Updater, fileFormat: FormatTraits, files: seq<FileEntry>, v: VersionData, year: int)
    returns (result: seq<FileEntry>)
    ensures result == AfterFormat(u, fileFormat, v, year, files)
  {
    result := files;
    for i := 0 to |files|
      invariant |result| == |files|
      invariant forall k :: 0 <= k < i ==> result[k] == ProcessFile(u, fileFormat, v, year, files[k])
      invariant forall k :: i <= k < |files| ==> result[k] == files[k]
    {
      var file := result[i];
      if MatchesSpecification(file, fileFormat) {
        var newContents := ProcessAssemblyInfoFile(u, file.contents, fileFormat, v, year);
        result := result[i := FileEntry(file.name, newContents)];
      }
    }
    assert result == AfterFormat(u, fileFormat, v, year, files) by {
      var after := AfterFormat(u, fileFormat, v, year, files);
      assert forall k :: 0 <= k < |result| ==> result[k] == after[k];
    }
  }

  /**
   * ProcessFolderContents: for each format in turn, every file of the directory that the
   * format's file specification names is rewritten with that format.
   */
  method ProcessFolderContents(u: Updater, files: seq<FileEntry>, v: VersionData, year: int)
    returns (result: seq<FileEntry>)
    ensures result == AfterFormats(u, u.formatters, v, year, files)
  {
    result := files;
    for f := 0 to |u.formatters|
      invariant result == AfterFormats(u, u.formatters[..f], v, year, files)
    {
      assert u.formatters[..f + 1][..f] == u.formatters[..f];
      result := ProcessFormatFiles(u, u.formatters[f], result, v, year);
    }
    assert u.formatters[..|u.formatters|] == u.formatters;
  }
}
