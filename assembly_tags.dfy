/**
 * AssemblyTags and AttributeFormattingHelpers: one value formatter per attribute tag.
 * Each returns the parenthesised argument text that follows the tag name in the
 * generated line. The clock year that AssemblyCopyright reads is a parameter.
 */
module AssemblyTags {
  import opened Text
  import opened FormatTraits
  import opened Version

  /** `(` + text + `)`: every formatter's result is wrapped in parentheses. */
  function Parenthesised(text: string): (r: string)
    ensures |r| == |text| + 2 && r[0] == '(' && r[|r| - 1] == ')'
  {
    "(" + text + ")"
  }

  /** `"` + text + `"`: a quoted argument, with no escaping of the text. */
  function Quoted(text: string): (r: string)
    ensures |r| == |text| + 2 && r[0] == '"' && r[|r| - 1] == '"'
  {
    "\"" + text + "\""
  }

  /** Two components of a version number joined by a dot. */
  function Dotted(x: string, y: string): (r: string)
    ensures |r| == |x| + 1 + |y| && r[|x|] == '.'
  {
    x + "." + y
  }

  /** The four numbers of a version in invariant-culture decimal, dot-separated. */
  function VersionText(major: int, minor: int, revision: int, build: int): string
  {
    Dotted(Dotted(Dotted(IntToString(major), IntToString(minor)), IntToString(revision)), IntToString(build))
  }

  /** AttributeFormattingHelpers.FormatFullVersionNumber: `("Major.Minor.SubversionRevision.CurrentBuildNumber")`. */
  function FormatFullVersionNumber(v: VersionData): (r: string)
    ensures |r| >= 4 && r[0] == '(' && r[1] == '"' && r[|r| - 2] == '"' && r[|r| - 1] == ')'
  {
    var q := Quoted(VersionText(v.major, v.minor, v.subversionRevision, v.currentBuildNumber));
    var r := Parenthesised(q);
    assert r[1] == q[0] && r[|r| - 2] == q[|q| - 1];
    r
  }

  /** The full version number reads the four numeric fields and nothing else. */
  lemma FullVersionNumberReadsOnlyNumbers(v: VersionData, w: VersionData)
    requires v.major == w.major && v.minor == w.minor
    requires v.subversionRevision == w.subversionRevision && v.currentBuildNumber == w.currentBuildNumber
    ensures FormatFullVersionNumber(v) == FormatFullVersionNumber(w)
  {
  }

  /** A dot between two components adds exactly one dot and nothing else. */
  lemma DottedCount(x: string, y: string, ch: char)
    ensures CountChar(Dotted(x, y), ch) == CountChar(x, ch) + CountChar(y, ch) + (if ch == '.' then 1 else 0)
  {
    CountCharAppend(x + ".", y, ch);
    CountCharAppend(x, ".", ch);
    assert CountChar(".", ch) == (if ch == '.' then 1 else 0) by {
      assert "."[1..] == [];
    }
  }

  /** Parentheses and quotes around a text add no dot and no minus sign. */
  lemma WrappedCount(x: string, ch: char)
    requires ch == '.' || ch == '-'
    ensures CountChar(Parenthesised(Quoted(x)), ch) == CountChar(x, ch)
  {
    CountCharAppend("\"" + x, "\"", ch);
    CountCharAppend("\"", x, ch);
    CountCharAbsent("\"", ch);
    CountCharAppend("(" + Quoted(x), ")", ch);
    CountCharAppend("(", Quoted(x), ch);
    CountCharAbsent("(", ch);
    CountCharAbsent(")", ch);
  }

  /**
   * Under the object invariant the four numbers print as plain digits: no sign appears,
   * and the only dots are the three separators.
   */
  lemma FullVersionNumberShape(v: VersionData)
    requires Invariant(v)
    ensures CountChar(FormatFullVersionNumber(v), '.') == 3
    ensures CountChar(FormatFullVersionNumber(v), '-') == 0
  {
    var a, b, c, d := IntToString(v.major), IntToString(v.minor),
                      IntToString(v.subversionRevision), IntToString(v.currentBuildNumber);
    forall ch | ch == '.' || ch == '-'
      ensures CountChar(FormatFullVersionNumber(v), ch) == 3 * (if ch == '.' then 1 else 0)
    {
      CountCharAbsent(a, ch);
      CountCharAbsent(b, ch);
      CountCharAbsent(c, ch);
      CountCharAbsent(d, ch);
      DottedCount(a, b, ch);
      DottedCount(Dotted(a, b), c, ch);
      DottedCount(Dotted(Dotted(a, b), c), d, ch);
      WrappedCount(VersionText(v.major, v.minor, v.subversionRevision, v.currentBuildNumber), ch);
    }
  }

  /** String.Split('.'): the pieces between the dots, in order. */
  function SplitAtDots(s: string): (parts: seq<string>)
    ensures |parts| >= 1
    decreases |s|
  {
    var i := IndexOf(s, '.');
    if i < 0 then [s] else [s[..i]] + SplitAtDots(s[i + 1..])
  }

  /** A dot-free first component is split off whole. */
  lemma SplitDotted(x: string, y: string)
    requires '.' !in x
    ensures SplitAtDots(Dotted(x, y)) == [x] + SplitAtDots(y)
  {
    var s := Dotted(x, y);
    assert s[..|x|] == x && s[|x| + 1..] == y;
    assert '.' !in s[..|x|];
  }

  /** The pieces, split at the dots, of the text between the `("` and `")` of a formatted version. */
  function VersionFields(r: string): seq<string>
    requires |r| >= 4
  {
    SplitAtDots(r[2..|r| - 2])
  }

  /**
   * The full version number reads back: under the object invariant, the text between `("`
   * and `")` splits at its dots into exactly the four numbers' texts, in order.
   */
  lemma FullVersionNumberFields(v: VersionData)
    requires Invariant(v)
    ensures VersionFields(FormatFullVersionNumber(v)) ==
              [NatToString(v.major), NatToString(v.minor), NatToString(v.subversionRevision), NatToString(v.currentBuildNumber)]
  {
    var a, b, c, d := NatToString(v.major), NatToString(v.minor),
                      NatToString(v.subversionRevision), NatToString(v.currentBuildNumber);
    var text := VersionText(v.major, v.minor, v.subversionRevision, v.currentBuildNumber);
    assert text == Dotted(Dotted(Dotted(a, b), c), d);
    DottedRegroups(a, b, c, d);
    UnwrapParenthesisedQuoted(text);
    NoDotInDigits(a);
    NoDotInDigits(b);
    NoDotInDigits(c);
    NoDotInDigits(d);
    SplitFourFields(a, b, c, d);
  }

  /** The text inside `("` and `")` is the text that was wrapped. */
  lemma UnwrapParenthesisedQuoted(text: string)
    ensures var r := Parenthesised(Quoted(text)); r[2..|r| - 2] == text
  {
    var r := Parenthesised(Quoted(text));
    assert r == "(\"" + text + "\")";
  }

  /** Four dot-free components joined by dots split back into those components. */
  lemma SplitFourFields(a: string, b: string, c: string, d: string)
    requires '.' !in a && '.' !in b && '.' !in c && '.' !in d
    ensures SplitAtDots(Dotted(a, Dotted(b, Dotted(c, d)))) == [a, b, c, d]
  {
    assert [a] + [b, c, d] == [a, b, c, d];
    SplitThreeFields(b, c, d);
    SplitFirstField(a, Dotted(b, Dotted(c, d)), [b, c, d]);
  }

  lemma SplitThreeFields(b: string, c: string, d: string)
    requires '.' !in b && '.' !in c && '.' !in d
    ensures SplitAtDots(Dotted(b, Dotted(c, d))) == [b, c, d]
  {
    assert [b] + [c, d] == [b, c, d];
    SplitTwoFields(c, d);
    SplitFirstField(b, Dotted(c, d), [c, d]);
  }

  lemma SplitTwoFields(c: string, d: string)
    requires '.' !in c && '.' !in d
    ensures SplitAtDots(Dotted(c, d)) == [c, d]
  {
    assert [c] + [d] == [c, d];
    assert SplitAtDots(d) == [d];
    SplitFirstField(c, d, [d]);
  }

  /** A dot-free first component followed by text that splits into `tail` splits into both. */
  lemma SplitFirstField(x: string, y: string, tail: seq<string>)
    requires '.' !in x && SplitAtDots(y) == tail
    ensures SplitAtDots(Dotted(x, y)) == [x] + tail
  {
    SplitDotted(x, y);
  }

  /** Joining is associative: the left-nested version text groups to the right. */
  lemma DottedRegroups(a: string, b: string, c: string, d: string)
    ensures Dotted(Dotted(Dotted(a, b), c), d) == Dotted(a, Dotted(b, Dotted(c, d)))
  {
    assert Dotted(Dotted(Dotted(a, b), c), d) == a + "." + b + "." + c + "." + d;
  }

  /** Each of the four fields is a digit string whose value is the number it was formatted from. */
  lemma FullVersionNumberReadsBack(v: VersionData)
    requires Invariant(v)
    ensures var parts := VersionFields(FormatFullVersionNumber(v));
            |parts| == 4 && AllDigits(parts[0]) && AllDigits(parts[1]) && AllDigits(parts[2]) && AllDigits(parts[3]) &&
            DigitsValue(parts[0]) == v.major && DigitsValue(parts[1]) == v.minor &&
            DigitsValue(parts[2]) == v.subversionRevision && DigitsValue(parts[3]) == v.currentBuildNumber
  {
    FullVersionNumberFields(v);
    DigitsValueOfNatToString(v.major);
    DigitsValueOfNatToString(v.minor);
    DigitsValueOfNatToString(v.subversionRevision);
    DigitsValueOfNatToString(v.currentBuildNumber);
  }

  lemma NoDotInDigits(s: string)
    requires AllDigits(s)
    ensures '.' !in s
  {
  }

  /** The public static methods of AssemblyTags, in declaration order. */
  datatype Tag =
    | AssemblyCompany
    | AssemblyCopyright
    | AssemblyCulture
    | AssemblyFileVersion
    | AssemblyInformationalVersion
    | AssemblyProduct
    | AssemblyTrademark
    | AssemblyVersion
    | CLSCompliant
    | ComVisible
    | NeutralResourcesLanguage

  /** The method's exact name, which becomes the tag's key in the catalog. */
  function Name(t: Tag): (n: string)
  {
    match t
    case AssemblyCompany => "AssemblyCompany"
    case AssemblyCopyright => "AssemblyCopyright"
    case AssemblyCulture => "AssemblyCulture"
    case AssemblyFileVersion => "AssemblyFileVersion"
    case AssemblyInformationalVersion => "AssemblyInformationalVersion"
    case AssemblyProduct => "AssemblyProduct"
    case AssemblyTrademark => "AssemblyTrademark"
    case AssemblyVersion => "AssemblyVersion"
    case CLSCompliant => "CLSCompliant"
    case ComVisible => "ComVisible"
    case NeutralResourcesLanguage => "NeutralResourcesLanguage"
  }

  /** The text between the parentheses of each tag's attribute; `year` is DateTime.Now.Year. */
  function Argument(t: Tag, traits: FormatTraits, v: VersionData, year: int): string
  {
    match t
    case AssemblyCompany => Quoted(v.companyName)
    case AssemblyCopyright =>
      Quoted("Copyright © " + v.companyName + " " + IntToString(v.copyrightStartYear) + "-" + IntToString(year))
    case AssemblyCulture => Quoted("")
    case AssemblyFileVersion => Quoted(VersionText(v.major, v.minor, v.subversionRevision, v.currentBuildNumber))
    case AssemblyInformationalVersion =>
      Quoted(VersionText(v.major, v.minor, v.subversionRevision, v.currentBuildNumber))
    case AssemblyProduct => Quoted(v.productName)
    case AssemblyTrademark => Quoted(v.trademark)
    case AssemblyVersion => Quoted(VersionText(v.major, v.minor, 0, 0))
    case CLSCompliant => traits.trueKeyword
    case ComVisible => traits.falseKeyword
    case NeutralResourcesLanguage => Quoted("en") + ", UltimateResourceFallbackLocation.MainAssembly"
  }

  /** The value a tag's formatter returns: its argument text in parentheses. */
  function Format(t: Tag, traits: FormatTraits, v: VersionData, year: int): (r: string)
    ensures |r| >= 2 && r[0] == '(' && r[|r| - 1] == ')'
  {
    Parenthesised(Argument(t, traits, v, year))
  }

  /** AssemblyVersion zeroes the last two components: revision and build number have no effect. */
  lemma AssemblyVersionIgnoresRevisionAndBuild(traits: FormatTraits, v: VersionData, year: int, revision: int, build: int)
    ensures Format(AssemblyVersion, traits, v, year)
         == Format(AssemblyVersion, traits, v.(subversionRevision := revision, currentBuildNumber := build), year)
    ensures Format(AssemblyVersion, traits, v, year)
         == FormatFullVersionNumber(v.(subversionRevision := 0, currentBuildNumber := 0))
  {
  }

  /** AssemblyFileVersion and AssemblyInformationalVersion always carry the same text. */
  lemma FileAndInformationalVersionsAgree(traits: FormatTraits, v: VersionData, year: int)
    ensures Format(AssemblyFileVersion, traits, v, year) == Format(AssemblyInformationalVersion, traits, v, year)
    ensures Format(AssemblyFileVersion, traits, v, year) == FormatFullVersionNumber(v)
  {
  }

  /** The quoted texts the constant tags print. */
  lemma QuotedConstants()
    ensures Quoted("en") == "\"en\""
    ensures Quoted("") == "\"\""
  {
    assert Quoted("en")[1] == 'e' && Quoted("en")[2] == 'n';
  }

  /** AssemblyCulture is the empty culture, whatever the inputs. */
  lemma CultureIsEmpty(traits: FormatTraits, v: VersionData, year: int)
    ensures Format(AssemblyCulture, traits, v, year) == "(\"\")"
  {
    QuotedConstants();
  }

  /** NeutralResourcesLanguage is the same constant, whatever the inputs. */
  lemma NeutralLanguageConstant(t1: FormatTraits, v1: VersionData, y1: int, t2: FormatTraits, v2: VersionData, y2: int)
    ensures Format(NeutralResourcesLanguage, t1, v1, y1)
         == "(" + "\"en\"" + ", UltimateResourceFallbackLocation.MainAssembly" + ")"
    ensures Format(NeutralResourcesLanguage, t1, v1, y1) == Format(NeutralResourcesLanguage, t2, v2, y2)
  {
    QuotedConstants();
    var language := "\"en\"" + ", UltimateResourceFallbackLocation.MainAssembly";
    assert Argument(NeutralResourcesLanguage, t1, v1, y1) == language;
    assert Argument(NeutralResourcesLanguage, t2, v2, y2) == language;
  }

  /** Only CLSCompliant and ComVisible read the format descriptor. */
  lemma OnlyBooleanTagsReadTraits(t: Tag, t1: FormatTraits, t2: FormatTraits, v: VersionData, year: int)
    requires t != CLSCompliant && t != ComVisible
    ensures Format(t, t1, v, year) == Format(t, t2, v, year)
  {
  }

  /** Only AssemblyCopyright reads the clock. */
  lemma OnlyCopyrightReadsClock(t: Tag, traits: FormatTraits, v: VersionData, y1: int, y2: int)
    requires t != AssemblyCopyright
    ensures Format(t, traits, v, y1) == Format(t, traits, v, y2)
  {
  }

  /** The boolean tags print the descriptor's keywords bare, without quotes. */
  lemma BooleanTagsUseKeywords(traits: FormatTraits, v: VersionData, year: int)
    ensures Format(CLSCompliant, traits, v, year) == "(" + traits.trueKeyword + ")"
    ensures Format(ComVisible, traits, v, year) == "(" + traits.falseKeyword + ")"
  {
  }
}
