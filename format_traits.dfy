/**
 * The format descriptor (IAssemblyInfoFormatTraits): the textual conventions of one
 * attribute syntax, the postconditions every descriptor must meet (FormatTraitsContract)
 * and the one concrete descriptor, C#.
 */
module FormatTraits {
  import opened Text

  datatype FormatTraits = FormatTraits(
    assemblyKeyword: string,
    closeAttributeText: string,
    emptyConstructorShouldHaveParentheses: bool,
    falseKeyword: string,
    fileSpecification: string,
    openAttributeText: string,
    trueKeyword: string)

  /**
   * The contract class's getter postconditions: every string member is neither empty
   * nor white space; EmptyConstructorShouldHaveParentheses is unconstrained.
   */
  predicate MeetsContract(t: FormatTraits)
  {
    && !IsBlank(t.assemblyKeyword)
    && !IsBlank(t.closeAttributeText)
    && !IsBlank(t.falseKeyword)
    && !IsBlank(t.fileSpecification)
    && !IsBlank(t.openAttributeText)
    && !IsBlank(t.trueKeyword)
  }

  /** CSharpFormatTraits: `[assembly: Name(...)]` in files named AssemblyInfo.cs. */
  function CSharp(): (t: FormatTraits)
    ensures MeetsContract(t)
    ensures t.openAttributeText == "[" && t.assemblyKeyword == "assembly" && t.closeAttributeText == "]"
    ensures t.trueKeyword == "true" && t.falseKeyword == "false"
    ensures t.fileSpecification == "AssemblyInfo.cs" && !t.emptyConstructorShouldHaveParentheses
  {
    var t := FormatTraits(
      assemblyKeyword := "assembly",
      closeAttributeText := "]",
      emptyConstructorShouldHaveParentheses := false,
      falseKeyword := "false",
      fileSpecification := "AssemblyInfo.cs",
      openAttributeText := "[",
      trueKeyword := "true");
    assert !IsWhiteSpace(t.assemblyKeyword[0]) && !IsWhiteSpace(t.closeAttributeText[0]);
    assert !IsWhiteSpace(t.falseKeyword[0]) && !IsWhiteSpace(t.fileSpecification[0]);
    assert !IsWhiteSpace(t.openAttributeText[0]) && !IsWhiteSpace(t.trueKeyword[0]);
    t
  }

  /** A descriptor whose delimiters are blank breaks the contract, whatever its other members. */
  lemma BlankDelimiterBreaksContract(t: FormatTraits)
    requires IsBlank(t.openAttributeText) || IsBlank(t.closeAttributeText)
    ensures !MeetsContract(t)
  {
  }

  /** The contract puts no constraint on EmptyConstructorShouldHaveParentheses. */
  lemma ParenthesesFlagUnconstrained(t: FormatTraits, b: bool)
    ensures MeetsContract(t) <==> MeetsContract(t.(emptyConstructorShouldHaveParentheses := b))
  {
  }
}
