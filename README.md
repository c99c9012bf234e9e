# BuildUtilities in Dafny

A model of the two programs of the BuildUtilities repository.

**SetVersionInformation.** This command-line tool stamps version information into every `AssemblyInfo.cs` below a root folder. The model covers:

- the version record `VersionProperties` (a class with its object invariant and guarded setters);
- the `-Name:value` command line and the CruiseControl and TeamCity extraction of build numbers from the environment;
- the per-tag value formatters (`AssemblyTags`, `AttributeFormattingHelpers`) and the C# format descriptor with the contract every descriptor meets;
- the tag catalog and `ProduceTag`;
- the rewrite engine (`AssemblyInfoUpdater`): lines that begin with one of sixteen spellings of a known tag are regenerated, other lines are copied, and tags that no line mentions are appended in catalog order;
- the line reading and writing of `TextFileHelpers`;
- the post-order folder walk that skips `.svn` and `.git`;
- `Program`: the precedence of the root folder sources, the default values, the order in which the CI step and the command-line overrides are applied, and the exit code.

**BuildEnvironmentTests.** The model covers the decision rules of this test suite:

- the property-group setting rule with its inheritance from the unconditioned ("global") group, and the import-reference rule (`ProjectHelpers`);
- the comparison between the files a project compiles and the `.cs` files in its folder, with build output under `\debug\` and `\release\` ignored (`ProjectFiles`);
- the folder exclusions, the code-base URL conversion, the walk up to the solution root and the project lists (`FolderHelpers`).

The disk, the process environment, the clock, the command line and parsed project XML enter as parameters: a directory tree datatype, maps and sequences.

Each `.dfy` file holds one module and follows one source file or a small group of them:

- `wrappers`: Option and Result.
- `text`: .NET string primitives.
- `text_file`: TextFileHelpers.
- `version_properties`: VersionProperties.
- `command_line`: CommandLine.
- `ci_extraction`: the two extractors.
- `format_traits`: the descriptor and its contract.
- `assembly_tags`: AssemblyTags and AttributeFormattingHelpers.
- `tag_helper`: AssemblyInfoTagHelper.
- `updater`: AssemblyInfoUpdater.
- `folder_processor`: FolderProcessor.
- `program`: Program.
- `folder_helpers`, `project_files`, `project_helpers`: the BuildEnvironmentTests helpers.

## Model

| member | source | states |
|---|---|---|
| Text.FoldsAgree | SetVersionInformation/CommandLine.cs:111-112 | each case fold is idempotent and leaves no letter of the other case, and folding one way then the other equals folding the other way directly |
| Text.FoldMatchesLower | SetVersionInformation/FolderProcessor.cs:81-82 | against a character that is not an upper-case letter, equality after the upper fold is equality of the lower-cased character |
| Text.EqualsIgnoreCaseIffLower | SetVersionInformation/FolderProcessor.cs:81-82 | comparing ignoring case with a text free of upper-case letters is comparing the ToLowerInvariant form exactly |
| Text.LowerEqualsIgnoreCase | BuildEnvironmentTests/ProjectFiles.cs:217 | a lower-cased name equals the original under the case-insensitive comparison |
| Text.Lower | BuildEnvironmentTests/ProjectFiles.cs:217 | lower-casing a name keeps its length |
| Text.LowerChars | BuildEnvironmentTests/ProjectFiles.cs:217 | lower-casing a name folds each character on its own, position by position |
| Text.PrefixStartsWithIgnoreCase | SetVersionInformation/CommandLine.cs:51 | a string that literally begins with a prefix passes the case-insensitive StartsWith test |
| Text.DifferenceRulesOutPrefix | SetVersionInformation/CommandLine.cs:51 | one position where the case-folded characters differ fails the case-insensitive StartsWith test |
| Text.IndexOf | SetVersionInformation/ContinuousIntegrationSettings/CruiseControlVersionExtraction.cs:111 | IndexOf(char) is -1 exactly when the character is absent, and otherwise the index of its first occurrence |
| Text.TrimStartBlank | BuildEnvironmentTests/ProjectHelpers.cs:214 | TrimStart empties exactly a blank string and otherwise stops at a non-white character |
| Text.TrimEmptyIffBlank | BuildEnvironmentTests/ProjectHelpers.cs:214 | a Condition trims to "" exactly when it is all white space |
| Text.TrimEndKeepsNonBlank | BuildEnvironmentTests/ProjectHelpers.cs:214 | TrimEnd never empties a string that starts with a non-white character |
| Text.DigitChar | SetVersionInformation/AttributeFormattingHelpers.cs:42-48 | a digit below ten is rendered as the decimal digit character of that value |
| Text.NatToString | SetVersionInformation/AttributeFormattingHelpers.cs:42-48 | invariant-culture formatting of a non-negative number is a non-empty string of digits |
| Text.IntToString | SetVersionInformation/AttributeFormattingHelpers.cs:42-48 | invariant-culture formatting: digits only for non-negative values, a leading '-' for negative ones |
| Text.DigitValue | SetVersionInformation/Program.cs:137 | a digit character's value is below ten |
| Text.DigitsValueOfNatToString | SetVersionInformation/AttributeFormattingHelpers.cs:42-48 | the digits written for a number read back as that number |
| Text.ParseInt | SetVersionInformation/Program.cs:137 | int.TryParse succeeds only with a 32-bit value, and never on an empty string |
| Text.ParseIntOfIntToString | SetVersionInformation/Program.cs:137 | parsing the invariant-culture text of any 32-bit value gives that value back |
| Text.CountCharAppend | SetVersionInformation/TextFileHelpers.cs:71-82 | occurrences of a character in a concatenation add up |
| Text.CountCharAbsent | SetVersionInformation/TextFileHelpers.cs:71-82 | a string without the character has no occurrences of it |
| Text.UpperKeepsDistinct | SetVersionInformation/AssemblyInfoUpdater.cs:134-137 | characters whose codes differ by neither 0 nor 32 stay different under the case-insensitive comparison |
| Text.DivergeAt | SetVersionInformation/AssemblyInfoUpdater.cs:134-137 | such a position makes two strings differ under the case-insensitive comparison |
| Text.BracketedConcat | SetVersionInformation/AssemblyInfoUpdater.cs:134-137 | a value that starts with one bracket and ends with another can be concatenated without losing either bracket |
| TextFile.LineEnd | SetVersionInformation/TextFileHelpers.cs:49 | the line read stops at the first '\r' or '\n' and holds none |
| TextFile.ReadLine | SetVersionInformation/TextFileHelpers.cs:49 | ReadLine consumes at least one character and returns a prefix of the input that holds no line break |
| TextFile.SplitLines | SetVersionInformation/TextFileHelpers.cs:45-51 | no line yielded holds a line break |
| TextFile.WriteFileContents | SetVersionInformation/TextFileHelpers.cs:63-84 | the text written is the lines joined by "\r\n", with no terminator after the last line |
| TextFile.ReadFileContents | SetVersionInformation/TextFileHelpers.cs:39-52 | the lines yielded are the ReadLine splits of the whole text, in order |
| TextFile.EmptyListEmptyFile | SetVersionInformation/TextFileHelpers.cs:39-84 | no lines are written as an empty file, and an empty file yields no lines |
| TextFile.NewLineCount | SetVersionInformation/TextFileHelpers.cs:68-81 | n lines without breaks are written with exactly n - 1 line feeds |
| TextFile.ReadLineOfTerminated | SetVersionInformation/TextFileHelpers.cs:49 | a line followed by "\r\n" reads back as that line, consuming the terminator |
| TextFile.ReadLineOfLast | SetVersionInformation/TextFileHelpers.cs:49 | a non-empty unterminated last line reads back whole |
| TextFile.LineEndOfBreakFree | SetVersionInformation/TextFileHelpers.cs:49 | the break that follows a break-free line ends it |
| TextFile.ReadOfWrite | SetVersionInformation/TextFileHelpers.cs:39-84 | reading back what was written gives the same lines, when no line holds a break and the last one is not empty |
| TextFile.TrailingEmptyLineLost | SetVersionInformation/TextFileHelpers.cs:39-84 | a final empty line is lost on the round trip: its terminator ends no line |
| TextFile.JoinAppend | SetVersionInformation/TextFileHelpers.cs:68-81 | writing one more line adds a "\r\n" and then that line |
| TextFile.TerminatedRead | SetVersionInformation/TextFileHelpers.cs:39-52 | the joined lines plus one "\r\n" read back as exactly those lines |
| Version.Initial | SetVersionInformation/VersionProperties.cs:33-82 | the field initialisers: major 1, minor 0, copyright start 1990, empty trademark, no build date or time, and the object invariant holds |
| Version.VersionProperties.constructor | SetVersionInformation/VersionProperties.cs:25-82 | a new object holds the initial values and satisfies the invariant |
| Version.VersionProperties.SetCompanyName | SetVersionInformation/VersionProperties.cs:104-109 | the setter accepts only a non-empty name, changes that field alone and keeps the invariant |
| Version.VersionProperties.SetCopyrightStartYear | SetVersionInformation/VersionProperties.cs:127-132 | the setter accepts only years from 1990, changes that field alone and keeps the invariant |
| Version.VersionProperties.SetCurrentBuildDate | SetVersionInformation/VersionProperties.cs:151-156 | the setter accepts only a non-empty date and changes that field alone |
| Version.VersionProperties.SetCurrentBuildNumber | SetVersionInformation/VersionProperties.cs:174-179 | the setter accepts only non-negative numbers and changes that field alone |
| Version.VersionProperties.SetCurrentBuildTime | SetVersionInformation/VersionProperties.cs:198-203 | the setter accepts only a non-empty time and changes that field alone |
| Version.VersionProperties.SetMajor | SetVersionInformation/VersionProperties.cs:221-226 | the setter accepts only positive values and changes that field alone |
| Version.VersionProperties.SetMinor | SetVersionInformation/VersionProperties.cs:244-249 | the setter accepts only non-negative values and changes that field alone |
| Version.VersionProperties.SetProductName | SetVersionInformation/VersionProperties.cs:268-273 | the setter accepts only a non-empty name and changes that field alone |
| Version.VersionProperties.SetSubversionRevision | SetVersionInformation/VersionProperties.cs:292-297 | the setter accepts only non-negative values and changes that field alone |
| Version.VersionProperties.SetTrademark | SetVersionInformation/VersionProperties.cs:316-321 | the setter accepts any string and changes that field alone |
| Version.VersionProperties.CompanyName | SetVersionInformation/VersionProperties.cs:97-102 | the getter returns a non-empty name |
| Version.VersionProperties.CopyrightStartYear | SetVersionInformation/VersionProperties.cs:120-125 | the getter returns a year from 1990 on |
| Version.VersionProperties.CurrentBuildDate | SetVersionInformation/VersionProperties.cs:144-149 | once set, the build date is non-empty |
| Version.VersionProperties.CurrentBuildNumber | SetVersionInformation/VersionProperties.cs:167-172 | the getter returns a non-negative number |
| Version.VersionProperties.CurrentBuildTime | SetVersionInformation/VersionProperties.cs:191-196 | once set, the build time is non-empty |
| Version.VersionProperties.Major | SetVersionInformation/VersionProperties.cs:214-219 | the getter returns a positive value |
| Version.VersionProperties.Minor | SetVersionInformation/VersionProperties.cs:237-242 | the getter returns a non-negative value |
| Version.VersionProperties.ProductName | SetVersionInformation/VersionProperties.cs:261-266 | the getter returns a non-empty name |
| Version.VersionProperties.SubversionRevision | SetVersionInformation/VersionProperties.cs:285-290 | the getter returns a non-negative value |
| CommandLine.ValuePrefix | SetVersionInformation/CommandLine.cs:77-78 | the value prefix is exactly the name between a leading '-' and a trailing ':' |
| CommandLine.FirstWithPrefix | SetVersionInformation/CommandLine.cs:49-55 | the scan stops at the first argument that starts with the prefix, ignoring case, and no earlier argument does |
| CommandLine.GetValue | SetVersionInformation/CommandLine.cs:42-58 | the value is the rest of the first argument that starts with "-Name:", or "" when none does |
| CommandLine.ValueComesFromArgument | SetVersionInformation/CommandLine.cs:49-54 | a non-empty value is the rest of some argument that starts with "-Name:", ignoring case |
| CommandLine.HasParameter | SetVersionInformation/CommandLine.cs:72-113 | Any stops at the first argument that equals "-Name" or starts with "-Name:", ignoring case: the answer is true exactly when such an argument comes before any empty one, false exactly when no argument is empty and none defines the parameter, and otherwise ParameterDefined's non-empty requirement fails (None) |
| CommandLine.AnyDefinesTrue | SetVersionInformation/CommandLine.cs:80-82 | the scan from one argument on succeeds exactly when a defining argument comes before any empty one |
| CommandLine.AnyDefinesFalse | SetVersionInformation/CommandLine.cs:80-82 | the scan from one argument on answers false exactly when every later argument is non-empty and none defines the parameter |
| CommandLine.HasParameterWithoutEmpty | SetVersionInformation/CommandLine.cs:72-83 | without empty arguments HasParameter never fails and answers whether some argument defines the parameter |
| CommandLine.EmptyArgumentFails | SetVersionInformation/CommandLine.cs:107 | an empty argument reached before any defining one breaks ParameterDefined's requirement |
| CommandLine.ValueOfFirstMatch | SetVersionInformation/CommandLine.cs:49-54 | the first argument carrying the prefix decides the value; later ones are ignored |
| CommandLine.FirstIsFirst | SetVersionInformation/CommandLine.cs:49-55 | the scan finds exactly the first argument with the prefix |
| CommandLine.ValueOfNoMatch | SetVersionInformation/CommandLine.cs:57 | with no argument carrying the prefix the value is "" |
| CommandLine.ValueOfIgnoresCase | SetVersionInformation/CommandLine.cs:51 | the prefix matches in any letter case |
| CommandLine.ValueImpliesParameter | SetVersionInformation/CommandLine.cs:72-83 | a parameter with a non-empty value is never reported absent, and is reported present when no empty argument precedes the one carrying the value |
| CommandLine.BareFlag | SetVersionInformation/CommandLine.cs:104-113 | a bare "-Name" is present but has the empty value |
| CommandLine.EmptyValue | SetVersionInformation/CommandLine.cs:104-113 | "-Name:" with nothing after it is present and has the empty value |
| CommandLine.OtherArgumentsDoNotDefine | SetVersionInformation/CommandLine.cs:72-113 | arguments that neither equal "-Name" nor start with "-Name:" never make the parameter present, and leave it absent when none is empty |
| CiExtraction.IndexOfAfter | SetVersionInformation/ContinuousIntegrationSettings/CruiseControlVersionExtraction.cs:111 | in a label whose first part holds no dash, IndexOf finds the dash that follows it |
| CiExtraction.AfterDashOf | SetVersionInformation/ContinuousIntegrationSettings/CruiseControlVersionExtraction.cs:111-118 | for "a-rest", the text after the first '-' is rest and the text before it is a |
| CiExtraction.MajorCandidateOf | SetVersionInformation/ContinuousIntegrationSettings/CruiseControlVersionExtraction.cs:109-119 | for label "a-c-rest" the major number is read from c, the text between the first two dashes |
| CiExtraction.MajorCandidateOneDash | SetVersionInformation/ContinuousIntegrationSettings/CruiseControlVersionExtraction.cs:112-115 | a label with fewer than two dashes yields no major number |
| CiExtraction.MinorCandidateAfterSecondDash | SetVersionInformation/ContinuousIntegrationSettings/CruiseControlVersionExtraction.cs:141-148 | the minor number is read from the text after the second '-' (num1 + num2 + 2) |
| CiExtraction.MinorCandidateToDash | SetVersionInformation/ContinuousIntegrationSettings/CruiseControlVersionExtraction.cs:148-157 | for "a-b-c-rest" the minor number is read from c, up to the third dash |
| CiExtraction.MinorCandidateToDot | SetVersionInformation/ContinuousIntegrationSettings/CruiseControlVersionExtraction.cs:149-157 | with no third dash, the minor number is read up to the next '.' |
| CiExtraction.MinorCandidateNeither | SetVersionInformation/ContinuousIntegrationSettings/CruiseControlVersionExtraction.cs:154 | with neither a third dash nor a '.', no minor number is read |
| CiExtraction.CruiseControlResetsMajorMinor | SetVersionInformation/ContinuousIntegrationSettings/CruiseControlVersionExtraction.cs:119-163 | whatever the label says, a completed load leaves Major 1 and Minor 0 |
| CiExtraction.CruiseControlTouchesFiveFields | SetVersionInformation/ContinuousIntegrationSettings/CruiseControlVersionExtraction.cs:35-50 | a completed load keeps the invariant and changes only Major, Minor, build number, build date and build time |
| CiExtraction.CruiseControlNeedsDateAndTime | SetVersionInformation/ContinuousIntegrationSettings/CruiseControlVersionExtraction.cs:62-94 | an unset build date or time becomes "", which the setter rejects, so the load fails |
| CiExtraction.CruiseControlUnsetNumericLabel | SetVersionInformation/ContinuousIntegrationSettings/CruiseControlVersionExtraction.cs:79-80 | Convert.ToInt32 turns an unset numeric label into build number 0 |
| CiExtraction.CruiseControlRejectsNonNumericMajor | SetVersionInformation/ContinuousIntegrationSettings/CruiseControlVersionExtraction.cs:117-118 | a major field that is not a number makes int.Parse, and so the load, fail |
| CiExtraction.ExtractMajorVersion | SetVersionInformation/ContinuousIntegrationSettings/CruiseControlVersionExtraction.cs:105-124 | succeeds exactly when there is no major field or it parses to a positive number, then leaves Major 1; on failure nothing changes |
| CiExtraction.ExtractMinorVersion | SetVersionInformation/ContinuousIntegrationSettings/CruiseControlVersionExtraction.cs:135-164 | succeeds exactly when there is no minor field or it parses to a non-negative number, then leaves Minor 0; on failure nothing changes |
| CiExtraction.CruiseControlLoad | SetVersionInformation/ContinuousIntegrationSettings/CruiseControlVersionExtraction.cs:35-50 | the load succeeds exactly when every step's value is accepted, and then leaves the version CruiseControlUpdate describes; the invariant holds throughout |
| CiExtraction.TeamCityFallback | SetVersionInformation/ContinuousIntegrationSettings/TeamCityVersionExtraction.cs:55-61 | an unset or unparsable numeric label gives build number 1 |
| CiExtraction.TeamCityParsed | SetVersionInformation/ContinuousIntegrationSettings/TeamCityVersionExtraction.cs:58-63 | a parsed label is stored as it is, and a negative one makes the setter throw |
| CiExtraction.TeamCityLoad | SetVersionInformation/ContinuousIntegrationSettings/TeamCityVersionExtraction.cs:34-64 | only the build number changes, and it is the parsed label or 1; a negative label fails and changes nothing |
| FormatTraits.CSharp | SetVersionInformation/FileFormat/CSharpFormatTraits.cs:23-131 | the C# descriptor is "[", "assembly", "]", "true", "false", "AssemblyInfo.cs" with no parentheses on empty constructors, and it meets the descriptor contract |
| FormatTraits.BlankDelimiterBreaksContract | SetVersionInformation/ContractDefinition/FormatTraitsContract.cs:49-119 | a descriptor with a blank open or close text breaks the contract |
| FormatTraits.ParenthesesFlagUnconstrained | SetVersionInformation/ContractDefinition/FormatTraitsContract.cs:65-71 | the contract puts no constraint on EmptyConstructorShouldHaveParentheses |
| AssemblyTags.Parenthesised | SetVersionInformation/AssemblyTags.cs:242 | every formatter's text is wrapped in parentheses |
| AssemblyTags.Quoted | SetVersionInformation/AssemblyTags.cs:50 | quoted arguments are wrapped in double quotes |
| AssemblyTags.QuotedConstants | SetVersionInformation/AssemblyTags.cs:95-102 | the empty culture is quoted as a bare pair of quotes, and "en" as "en" in quotes |
| AssemblyTags.Dotted | SetVersionInformation/AttributeFormattingHelpers.cs:44 | version components are joined by a dot |
| AssemblyTags.FormatFullVersionNumber | SetVersionInformation/AttributeFormattingHelpers.cs:38-49 | the full version is a quoted string inside parentheses |
| AssemblyTags.FullVersionNumberReadsOnlyNumbers | SetVersionInformation/AttributeFormattingHelpers.cs:42-48 | the full version depends only on Major, Minor, SubversionRevision and CurrentBuildNumber |
| AssemblyTags.DottedCount | SetVersionInformation/AttributeFormattingHelpers.cs:44 | joining two components adds exactly one dot |
| AssemblyTags.WrappedCount | SetVersionInformation/AttributeFormattingHelpers.cs:44 | the parentheses and quotes add no dot and no minus sign |
| AssemblyTags.FullVersionNumberShape | SetVersionInformation/AttributeFormattingHelpers.cs:42-48 | under the object invariant the full version holds exactly three dots and no minus sign |
| AssemblyTags.SplitDotted | SetVersionInformation/AttributeFormattingHelpers.cs:42-48 | splitting at the dots splits off a dot-free first component whole |
| AssemblyTags.SplitFourFields | SetVersionInformation/AttributeFormattingHelpers.cs:42-48 | four dot-free components joined by dots split back into exactly those four |
| AssemblyTags.UnwrapParenthesisedQuoted | SetVersionInformation/AttributeFormattingHelpers.cs:42-48 | the text between the opening `("` and the closing `")` is the wrapped text |
| AssemblyTags.FullVersionNumberFields | SetVersionInformation/AttributeFormattingHelpers.cs:42-48 | under the object invariant the text inside `("` and `")` splits at its dots into exactly the texts of Major, Minor, SubversionRevision and CurrentBuildNumber, in that order |
| AssemblyTags.FullVersionNumberReadsBack | SetVersionInformation/AttributeFormattingHelpers.cs:42-48 | those four fields are digit strings whose values are Major, Minor, SubversionRevision and CurrentBuildNumber: the full version reads back |
| AssemblyTags.Format | SetVersionInformation/AssemblyTags.cs:44-290 | every tag's value is parenthesised text |
| AssemblyTags.AssemblyVersionIgnoresRevisionAndBuild | SetVersionInformation/AssemblyTags.cs:210-218 | AssemblyVersion is Major.Minor.0.0: revision and build number have no effect on it |
| AssemblyTags.FileAndInformationalVersionsAgree | SetVersionInformation/AssemblyTags.cs:118-148 | AssemblyFileVersion and AssemblyInformationalVersion are both the full version number |
| AssemblyTags.CultureIsEmpty | SetVersionInformation/AssemblyTags.cs:95-102 | AssemblyCulture is ("") whatever the descriptor, version and year |
| AssemblyTags.NeutralLanguageConstant | SetVersionInformation/AssemblyTags.cs:282-290 | NeutralResourcesLanguage is ("en", UltimateResourceFallbackLocation.MainAssembly) whatever the descriptor, version and year |
| AssemblyTags.OnlyBooleanTagsReadTraits | SetVersionInformation/AssemblyTags.cs:44-290 | no tag except CLSCompliant and ComVisible depends on the format descriptor |
| AssemblyTags.OnlyCopyrightReadsClock | SetVersionInformation/AssemblyTags.cs:67-79 | no tag except AssemblyCopyright depends on the current year |
| AssemblyTags.BooleanTagsUseKeywords | SetVersionInformation/AssemblyTags.cs:236-266 | CLSCompliant and ComVisible print the descriptor's true and false keywords bare |
| TagHelper.ProduceTag | SetVersionInformation/AssemblyInfoTagHelper.cs:149-168 | the attribute line starts with open text, keyword, ": ", the method name and "(", and ends with ")" and the close text |
| TagHelper.ProduceProductExample | SetVersionInformation/AssemblyInfoTagHelper.cs:160-167 | with the C# descriptor, AssemblyProduct for product P is [assembly: AssemblyProduct("P")] |
| TagHelper.Entries | SetVersionInformation/AssemblyInfoTagHelper.cs:66-71 | one catalog entry per method, in order, keyed by the method's name |
| TagHelper.TagsToModify | SetVersionInformation/AssemblyInfoTagHelper.cs:56-75 | building the catalog succeeds exactly when the method names are distinct, and then holds every method under its name; a repeated name makes Dictionary.Add throw |
| TagHelper.EntriesWellFormed | SetVersionInformation/AssemblyInfoTagHelper.cs:64-71 | the catalog of distinct names has well-shaped keys, none a case-insensitive prefix of another |
| TagHelper.NameKeyShape | SetVersionInformation/AssemblyInfoTagHelper.cs:70 | every tag name is a well-shaped key |
| TagHelper.DistinctMethodsDiverge | SetVersionInformation/AssemblyInfoTagHelper.cs:64-71 | two methods at different positions have names that differ beyond letter case |
| TagHelper.NamesInjective | SetVersionInformation/AssemblyInfoTagHelper.cs:70 | distinct tags have distinct keys |
| TagHelper.ClassifyName | SetVersionInformation/AssemblyInfoTagHelper.cs:70 | every tag name can be read back as its own tag |
| TagHelper.ClassifyFolded | SetVersionInformation/AssemblyInfoTagHelper.cs:70 | names that agree after case folding are read back as the same tag |
| TagHelper.NamesDiverge | SetVersionInformation/AssemblyInfoTagHelper.cs:70 | two distinct tag names differ after case folding at a position both have |
| TagHelper.NameShape | SetVersionInformation/AssemblyInfoTagHelper.cs:70 | every tag name has at least ten characters and starts with 'A', 'C' or 'N' |
| TagHelper.CatalogComplete | SetVersionInformation/AssemblyInfoTagHelper.cs:64 | the catalog from AssemblyTags holds all eleven tags, each once |
| TagHelper.FileFormatTypes | SetVersionInformation/AssemblyInfoTagHelper.cs:84-109 | a type is selected exactly when it is one of the assembly's types, is not abstract and implements the descriptor interface |
| TagHelper.MatchingInterfaces | SetVersionInformation/AssemblyInfoTagHelper.cs:99-106 | the type is yielded as many times as the interface list holds the descriptor interface, and nothing else is yielded |
| TagHelper.SelectsFifthOfSix | SetVersionInformation/AssemblyInfoTagHelper.cs:92-107 | when only the fourth and fifth of six types implement the interface and the fourth is abstract, the fifth alone is selected |
| TagHelper.OnlyCSharpFormat | SetVersionInformation/AssemblyInfoTagHelper.cs:39-46 | the abstract contract class is skipped, so C# is the only format |
| AssemblyInfoUpdater.SupportedFormatsExample | SetVersionInformation/AssemblyInfoUpdater.cs:123-129 | with the C# descriptor the table runs from [assembly:T] through [assembly: T( to [assembly : TAttribute( |
| AssemblyInfoUpdater.StartsWithAnyIff | SetVersionInformation/AssemblyInfoUpdater.cs:131-142 | Any over the formats holds exactly when the line starts, ignoring case, with one of them |
| AssemblyInfoUpdater.IsLineOfTagIff | SetVersionInformation/AssemblyInfoUpdater.cs:116-143 | a line is a line of a tag exactly when it starts, ignoring case, with open text, keyword, one of the four separators, the tag name and one of the four suffixes |
| AssemblyInfoUpdater.PrefixesAgree | SetVersionInformation/AssemblyInfoUpdater.cs:134-142 | two case-insensitive prefixes of one line agree, case folded, wherever both are defined |
| AssemblyInfoUpdater.PatternCharAt | SetVersionInformation/AssemblyInfoUpdater.cs:125-128 | a filled-in format holds the separator and the tag name right after the open text and keyword |
| AssemblyInfoUpdater.PatternsDiverge | SetVersionInformation/AssemblyInfoUpdater.cs:125-128 | formats with different separators, or with tag names that differ after folding, differ at a position both have |
| AssemblyInfoUpdater.MatchesTagIsLineOfTag | SetVersionInformation/AssemblyInfoUpdater.cs:170 | matching a catalog entry is IsLineOfTag on the entry's key |
| AssemblyInfoUpdater.PatternOfLine | SetVersionInformation/AssemblyInfoUpdater.cs:131-142 | a line of a tag starts with one particular filled-in format |
| AssemblyInfoUpdater.AtMostOneTagMatches | SetVersionInformation/AssemblyInfoUpdater.cs:168-174 | in a well-formed catalog no line is a line of two different tags, whatever the descriptor |
| AssemblyInfoUpdater.KeysIdentifyEntries | SetVersionInformation/AssemblyInfoUpdater.cs:42-43 | in a well-formed catalog a key identifies its entry |
| AssemblyInfoUpdater.FirstTagOfLine | SetVersionInformation/AssemblyInfoUpdater.cs:168-176 | the entry found is in the catalog |
| AssemblyInfoUpdater.FirstTagOfLineSpec | SetVersionInformation/AssemblyInfoUpdater.cs:168-176 | nothing is found exactly when no entry matches; otherwise the found entry matches and no earlier entry does |
| AssemblyInfoUpdater.GetTagFormatter | SetVersionInformation/AssemblyInfoUpdater.cs:158-177 | an empty line has no formatter; a found formatter is a catalog entry |
| AssemblyInfoUpdater.GetTagFormatterMatches | SetVersionInformation/AssemblyInfoUpdater.cs:158-177 | the formatter found matches the line, and when none is found no entry matches |
| AssemblyInfoUpdater.GetTagFormatterUnique | SetVersionInformation/AssemblyInfoUpdater.cs:168-174 | the entry a line matches is the one found, so dictionary order does not matter |
| AssemblyInfoUpdater.ProducerProducesOwnTags | SetVersionInformation/AssemblyInfoUpdater.cs:273 | every tag's produced line is a non-empty line of that same tag |
| AssemblyInfoUpdater.ProducedLineRecognised | SetVersionInformation/AssemblyInfoUpdater.cs:267-275 | a produced line is recognised as its own tag, so rewriting keeps it |
| AssemblyInfoUpdater.RewriteLineIdempotent | SetVersionInformation/AssemblyInfoUpdater.cs:265-281 | rewriting a line twice is the same as rewriting it once |
| AssemblyInfoUpdater.UpdatedLines | SetVersionInformation/AssemblyInfoUpdater.cs:265-281 | one output line per input line, each the rewrite of that line |
| AssemblyInfoUpdater.LineReplacement | SetVersionInformation/AssemblyInfoUpdater.cs:267-280 | a line of a tag becomes that tag's produced line, every time it occurs; any other line is copied verbatim |
| AssemblyInfoUpdater.WrittenTagsIff | SetVersionInformation/AssemblyInfoUpdater.cs:275 | a key is yielded exactly when some input line was recognised as its entry |
| AssemblyInfoUpdater.MissingTags | SetVersionInformation/AssemblyInfoUpdater.cs:197-205 | no more tags are added than the catalog holds |
| AssemblyInfoUpdater.MissingTagsMembers | SetVersionInformation/AssemblyInfoUpdater.cs:199 | a tag is added exactly when it is in the catalog and its key was not written |
| AssemblyInfoUpdater.ProducedLines | SetVersionInformation/AssemblyInfoUpdater.cs:202-203 | one produced line per added tag, in order |
| AssemblyInfoUpdater.MissingLinesStep | SetVersionInformation/AssemblyInfoUpdater.cs:197-205 | each catalog entry adds its produced line exactly when its key was not written |
| AssemblyInfoUpdater.RewriteShape | SetVersionInformation/AssemblyInfoUpdater.cs:220-239 | the output is the input lines in place, followed by the produced line of each missing tag in catalog order |
| AssemblyInfoUpdater.MissingIffUnrecognised | SetVersionInformation/AssemblyInfoUpdater.cs:234-236 | a catalog tag is appended exactly when no input line was recognised as it |
| AssemblyInfoUpdater.EveryTagPresent | SetVersionInformation/AssemblyInfoUpdater.cs:220-239 | every catalog tag's produced line is in the output |
| AssemblyInfoUpdater.RewriteIdempotent | SetVersionInformation/AssemblyInfoUpdater.cs:220-239 | with the same version and year, rewriting the rewritten lines changes nothing |
| AssemblyInfoUpdater.FixedLinesUnchanged | SetVersionInformation/AssemblyInfoUpdater.cs:265-281 | lines that are all fixed points of the line rewrite are copied as they are |
| AssemblyInfoUpdater.NoneMissing | SetVersionInformation/AssemblyInfoUpdater.cs:197-205 | nothing is added when every catalog key was written |
| AssemblyInfoUpdater.NothingMissing | SetVersionInformation/AssemblyInfoUpdater.cs:197-205 | nothing is added when every tag's produced line is already present |
| AssemblyInfoUpdater.FileRewriteIdempotent | SetVersionInformation/AssemblyInfoUpdater.cs:220-239 | a second pass over the written file leaves it unchanged when no rewritten line holds a break and the last one is not empty |
| AssemblyInfoUpdater.RewriteKeepsBlankLine | SetVersionInformation/AssemblyInfoUpdater.cs:265-281 | a trailing empty line of an already rewritten sequence is kept |
| AssemblyInfoUpdater.FileRewriteDropsTrailingBreak | SetVersionInformation/AssemblyInfoUpdater.cs:220-239 | a complete file ending in an empty line loses one trailing line break per pass, so the file rewrite is not idempotent byte for byte |
| AssemblyInfoUpdater.OtherLineNotRecognised | SetVersionInformation/AssemblyInfoUpdater.cs:131-142 | a line that does not start with the open text (an indented line, a comment) is copied |
| AssemblyInfoUpdater.OtherAttributeNotRecognised | SetVersionInformation/AssemblyInfoUpdater.cs:131-142 | an attribute whose name differs from every key after folding is copied |
| AssemblyInfoUpdater.ForeignAttributePassesThrough | SetVersionInformation/AssemblyInfoUpdater.cs:131-142 | an attribute whose name starts with none of 'A', 'C', 'N' is copied by any catalog of distinct tags |
| AssemblyInfoUpdater.CSharpAttributeLine | SetVersionInformation/AssemblyInfoUpdater.cs:123-129 | the C# descriptor writes an attribute line as [assembly: followed by the attribute |
| AssemblyInfoUpdater.GuidAttributePassesThrough | SetVersionInformation/AssemblyInfoUpdater.cs:131-142 | [assembly: Guid("...")] passes through the C# rewrite unchanged |
| AssemblyInfoUpdater.SecurityTransparentPassesThrough | SetVersionInformation/AssemblyInfoUpdater.cs:131-142 | [assembly: SecurityTransparent] passes through the C# rewrite unchanged |
| AssemblyInfoUpdater.UpdateExistingAttributes | SetVersionInformation/AssemblyInfoUpdater.cs:252-282 | appends one rewritten line per input line and yields the key of every recognised line, in order |
| AssemblyInfoUpdater.OutputMissingAttributes | SetVersionInformation/AssemblyInfoUpdater.cs:186-206 | appends, in catalog order, the produced line of each tag whose key was not written |
| AssemblyInfoUpdater.NewUpdater | SetVersionInformation/AssemblyInfoUpdater.cs:54-67 | construction succeeds exactly when the method names are distinct, there is a tag and there is a file format; each failure is reported as the source throws it |
| AssemblyInfoUpdater.ProcessAssemblyInfoFile | SetVersionInformation/AssemblyInfoUpdater.cs:220-239 | the new file text is the read, rewritten and written-back text |
| AssemblyInfoUpdater.AfterFormat | SetVersionInformation/AssemblyInfoUpdater.cs:89-93 | one format rewrites exactly the files its specification names and keeps the rest |
| AssemblyInfoUpdater.AfterFormats | SetVersionInformation/AssemblyInfoUpdater.cs:87-94 | processing keeps the directory's files and their names |
| AssemblyInfoUpdater.UnmatchedFilesUntouched | SetVersionInformation/AssemblyInfoUpdater.cs:87-94 | a file no format's specification names is left as it was |
| AssemblyInfoUpdater.ProcessFormatFiles | SetVersionInformation/AssemblyInfoUpdater.cs:89-93 | every file the format names is rewritten with that format |
| AssemblyInfoUpdater.ProcessFolderContents | SetVersionInformation/AssemblyInfoUpdater.cs:82-95 | each format in turn rewrites the files it names |
| FolderProcessor.ExcludedFolderExamples | SetVersionInformation/FolderProcessor.cs:77-83 | ".git", ".GIT" and ".Svn" are excluded; "git", ".github" and "Precompiled" are not |
| FolderProcessor.MissingRootNoCallbacks | SetVersionInformation/FolderProcessor.cs:43-47 | a folder that does not exist gets no callback |
| FolderProcessor.RootLast | SetVersionInformation/FolderProcessor.cs:61 | the root folder's callback comes last |
| FolderProcessor.ExcludedRootStillProcessed | SetVersionInformation/FolderProcessor.cs:50-61 | the root is never tested for exclusion: a root named ".git" is still processed |
| FolderProcessor.WalkPostOrder | SetVersionInformation/FolderProcessor.cs:50-61 | post-order: every callback before the last is strictly below the folder, the last is the folder itself, and no callback passes through an excluded name |
| FolderProcessor.ExcludedIffLowerName | SetVersionInformation/FolderProcessor.cs:77-83 | a name is excluded exactly when its invariant lower-case form is ".svn" or ".git" |
| FolderProcessor.ProcessedExactlyReachable | SetVersionInformation/FolderProcessor.cs:43-61 | an existing root's walk calls back exactly the directories reachable from it without entering an excluded subdirectory |
| FolderProcessor.WalkReachesExactly | SetVersionInformation/FolderProcessor.cs:50-61 | a directory is called back exactly when it is the folder or is reachable through a non-excluded subdirectory |
| FolderProcessor.WalkChildrenReachExactly | SetVersionInformation/FolderProcessor.cs:51-59 | the subdirectories' callbacks are exactly the directories reachable from a non-excluded subdirectory |
| FolderProcessor.WalkGloballyPostOrder | SetVersionInformation/FolderProcessor.cs:50-61 | with distinct sibling names, no callback is for a directory below one called back earlier: every directory comes after all of its descendants |
| FolderProcessor.WalkChildrenPostOrder | SetVersionInformation/FolderProcessor.cs:51-59 | the same order holds across the callbacks of all subdirectories |
| FolderProcessor.ConcatPostOrder | SetVersionInformation/FolderProcessor.cs:51-59 | callbacks through one name followed by callbacks through other names are in post-order when each part is |
| FolderProcessor.BelowThrough | SetVersionInformation/FolderProcessor.cs:58 | a subfolder's path lies below its parent's, through the subfolder's name |
| FolderProcessor.ChildWalkBelow | SetVersionInformation/FolderProcessor.cs:51-59 | the walk of a non-excluded subfolder stays below the parent, through that subfolder, and is pruned |
| FolderProcessor.WalkChildrenBelow | SetVersionInformation/FolderProcessor.cs:51-59 | the subfolders' callbacks all lie below the parent and skip excluded subtrees |
| FolderProcessor.WalkCount | SetVersionInformation/FolderProcessor.cs:50-61 | one callback per folder the walk reaches |
| FolderProcessor.WalkChildrenCount | SetVersionInformation/FolderProcessor.cs:51-59 | the subfolders give one callback per reached folder |
| FolderProcessor.WalkOnce | SetVersionInformation/FolderProcessor.cs:50-61 | when sibling names are distinct, no folder is called back twice |
| FolderProcessor.WalkChildrenOnce | SetVersionInformation/FolderProcessor.cs:51-59 | the callbacks for distinct siblings are pairwise distinct, each through its own sibling's name |
| FolderProcessor.ConcatDisjoint | SetVersionInformation/FolderProcessor.cs:51-59 | callbacks through one name followed by callbacks through other names repeat nothing if neither part does |
| FolderProcessor.NamesOf | SetVersionInformation/FolderProcessor.cs:50 | the set of names is exactly the names of the listed folders |
| FolderProcessor.NamesOfTail | SetVersionInformation/FolderProcessor.cs:51 | with distinct names, the first folder's name is not among the others' |
| Program.GetRootFolder | SetVersionInformation/Program.cs:42-61 | the root folder is never empty and is the -RootFolder: value, the CCNetWorkingDirectory variable or the current directory |
| Program.RootFolderArgumentWins | SetVersionInformation/Program.cs:48-52 | a non-empty -RootFolder: value wins over the environment |
| Program.WorkingDirectoryBeforeCurrent | SetVersionInformation/Program.cs:54-58 | without that argument, a set working-directory variable wins over the current directory |
| Program.CurrentDirectoryLast | SetVersionInformation/Program.cs:60 | with neither, the current directory is used |
| Program.Defaults | SetVersionInformation/Program.cs:70-88 | the defaults are version 1.0.0.1 of Twaddle Software's Build Utilities, copyright from 1997, with the clock's date and time, and they satisfy the invariant |
| Program.DefaultsOverrideInitialisers | SetVersionInformation/Program.cs:77-84 | the defaults differ from a fresh object's initialisers in build number (1) and copyright start year (1997) |
| Program.LoadDefaultVersionProperties | SetVersionInformation/Program.cs:70-88 | a new valid object holding the defaults |
| Program.OverrideCompany | SetVersionInformation/Program.cs:117-120 | -CompanyName changes only the company name and keeps the invariant |
| Program.OverrideProduct | SetVersionInformation/Program.cs:122-125 | -ProductName changes only the product name and keeps the invariant |
| Program.OverrideTrademark | SetVersionInformation/Program.cs:127-130 | -Trademark changes only the trademark and keeps the invariant |
| Program.OverrideStartYear | SetVersionInformation/Program.cs:132-141 | -CopyrightStartYear changes only the start year and keeps the invariant |
| Program.LoadedVersionValid | SetVersionInformation/Program.cs:100-144 | a loaded version satisfies the object invariant |
| Program.NoArgumentsGiveDefaults | SetVersionInformation/Program.cs:106-143 | with no arguments the defaults are used as they are |
| Program.CruiseControlBeforeTeamCity | SetVersionInformation/Program.cs:108-115 | once -UseCruiseControl is found the CI step is the CruiseControl load, whatever the -UseTeamCity search would give |
| Program.CompanyOverrideWins | SetVersionInformation/Program.cs:117-120 | a company override is applied after the CI step, so the loaded version holds it |
| Program.UnparsableStartYearIgnored | SetVersionInformation/Program.cs:137-140 | a start year that does not parse leaves the default year |
| Program.BareCompanyFlagFails | SetVersionInformation/Program.cs:117-120 | a bare -CompanyName flag passes "" to the setter, which ends the run |
| Program.OnlyArgumentDefinesNothingElse | SetVersionInformation/CommandLine.cs:72-113 | a lone argument whose second character differs from the name's first, ignoring case, leaves the parameter absent |
| Program.LeadingEmptyArgumentFails | SetVersionInformation/Program.cs:108 | an empty first argument makes the first HasParameter call throw, so loading fails |
| Program.TrailingEmptyArgumentIgnored | SetVersionInformation/Program.cs:106-143 | an empty argument after every argument Program looks for is never reached: with a valid CruiseControl environment the run loads all four overrides |
| Program.EveryOverrideLoads | SetVersionInformation/Program.cs:106-143 | when -UseCruiseControl and all four overrides are found with acceptable values, the loaded version is the CruiseControl values with the overrides on top |
| Program.OverrideAt | SetVersionInformation/CommandLine.cs:42-113 | an argument "-Name:value" preceded only by non-empty arguments without that prefix makes the parameter present with that value |
| Program.YearTwoThousand | SetVersionInformation/Program.cs:137 | "2000" parses as 2000 |
| Program.LoadVersionInformation | SetVersionInformation/Program.cs:100-144 | succeeds exactly when the loaded version exists, and then the object holds it |
| Program.LoadFromBuildServer | SetVersionInformation/Program.cs:108-115 | the CI step: CruiseControl if asked for, else TeamCity, else nothing |
| Program.LoadOverrides | SetVersionInformation/Program.cs:117-141 | the overrides are applied in source order and succeed exactly when each setter accepts its value |
| Program.LoadCompanyName | SetVersionInformation/Program.cs:117-120 | the object afterwards holds exactly the company override |
| Program.LoadProductName | SetVersionInformation/Program.cs:122-125 | the object afterwards holds exactly the product override |
| Program.LoadTrademark | SetVersionInformation/Program.cs:127-130 | the object afterwards holds exactly the trademark override, and the step fails exactly when the -Trademark search does |
| Program.LoadStartYear | SetVersionInformation/Program.cs:132-141 | the object afterwards holds exactly the start-year override |
| Program.AfterWalk | SetVersionInformation/Program.cs:174-175 | the walk changes the files of the directories it visits and adds or removes no directory |
| Program.UnvisitedUnchanged | SetVersionInformation/Program.cs:174-175 | a directory the walk does not reach keeps its files |
| Program.VisitedOnceProcessed | SetVersionInformation/Program.cs:174-175 | a directory reached once has its files processed once |
| Program.ProcessWalk | SetVersionInformation/Program.cs:174-175 | the callback runs on each walked directory in turn |
| Program.Run | SetVersionInformation/Program.cs:155-187 | exit code 0 after a successful walk, 1 when loading the version throws, and then no file is touched |
| FolderHelpers.ExclusionWidensStamperRule | BuildEnvironmentTests/FolderHelpers.cs:152-159 | the tests skip a folder exactly when the version stamper does (".svn", ".git") or the name is "Precompiled", ignoring case |
| FolderHelpers.PrecompiledOnlyExcludedHere | BuildEnvironmentTests/FolderHelpers.cs:156-158 | "Precompiled", in any case, is skipped by the tests and walked by the stamper |
| FolderHelpers.ReplaceChar | BuildEnvironmentTests/FolderHelpers.cs:197 | String.Replace on characters keeps the length and changes exactly the occurrences of the old character |
| FolderHelpers.CodeBaseUrlAsFileName | BuildEnvironmentTests/FolderHelpers.cs:183-201 | a code base starting with "file:///" (ignoring case) loses the prefix, keeps every character other than '/' in place and has each '/' replaced by '\' at the same position; any other code base is returned unchanged |
| FolderHelpers.CodeBaseOfFileUrl | BuildEnvironmentTests/FolderHelpers.cs:194-198 | a file name without '/' comes back unchanged from its file URL |
| FolderHelpers.CodeBaseConversionIdempotent | BuildEnvironmentTests/FolderHelpers.cs:194-200 | converting an already converted name changes nothing |
| FolderHelpers.NearestRoot | BuildEnvironmentTests/FolderHelpers.cs:122-126 | the directory the upward walk stops at is a marked ancestor-or-self of the start, and no directory below it on the way up is marked; None means no ancestor is marked |
| FolderHelpers.NoRootAboveParent | BuildEnvironmentTests/FolderHelpers.cs:123-126 | one more unmarked step keeps "no marker seen so far" |
| FolderHelpers.OwnDirectoryFirst | BuildEnvironmentTests/FolderHelpers.cs:123 | a marker in the assembly's own directory wins over every ancestor |
| FolderHelpers.MarkedAncestorFound | BuildEnvironmentTests/FolderHelpers.cs:123-131 | whenever some ancestor holds the marker the walk finds one, at that ancestor or nearer |
| FolderHelpers.RootPath | BuildEnvironmentTests/FolderHelpers.cs:106-137 | no directory fails, no marked ancestor fails, and otherwise the result is the nearest marked ancestor-or-self |
| FolderHelpers.FilesMatching | BuildEnvironmentTests/FolderHelpers.cs:55 | the matching files are a subsequence of the listing holding exactly the files with the extension |
| FolderHelpers.AllFilesMatchingExactly | BuildEnvironmentTests/FolderHelpers.cs:49-57 | a recursive search lists exactly the files anywhere in the tree with the extension |
| FolderHelpers.AllFilesMatchingInExactly | BuildEnvironmentTests/FolderHelpers.cs:86-94 | the search over a list of subfolders lists exactly the matching files within one of them |
| FolderHelpers.AllCodeProjects | BuildEnvironmentTests/FolderHelpers.cs:66-77 | the code projects are the C# projects followed by the Visual Basic projects |
| FolderHelpers.CodeProjectsExactly | BuildEnvironmentTests/FolderHelpers.cs:66-77 | a file is a code project exactly when it is in the tree and ends with ".csproj" or ".vbproj"; excluded folders are searched too |
| ProjectFiles.LowerIsLower | BuildEnvironmentTests/ProjectFiles.cs:217 | ToLowerInvariant leaves no upper-case letter |
| ProjectFiles.LowerOfLower | BuildEnvironmentTests/ProjectFiles.cs:100 | lower-casing an already lower-case name changes nothing |
| ProjectFiles.Unlisted | BuildEnvironmentTests/ProjectFiles.cs:99-101 | each reported candidate is a non-empty candidate whose lower-cased form is not listed and which is not build output |
| ProjectFiles.UnlistedComplete | BuildEnvironmentTests/ProjectFiles.cs:99-101 | every candidate that is not listed and not ignored is reported |
| ProjectFiles.FileList.constructor | BuildEnvironmentTests/ProjectFiles.cs:48 | the error list starts empty |
| ProjectFiles.FileList.Add | BuildEnvironmentTests/ProjectFiles.cs:105 | List.Add appends the file at the end and changes nothing else |
| ProjectFiles.ReportUnlisted | BuildEnvironmentTests/ProjectFiles.cs:97-113 | the loop appends exactly the unlisted, unignored candidates in order and returns true exactly when it appended one |
| ProjectFiles.CheckForAdditionalFiles | BuildEnvironmentTests/ProjectFiles.cs:90-114 | appends the folder files the project does not compile; returns true exactly when there were any |
| ProjectFiles.CheckForMissingFiles | BuildEnvironmentTests/ProjectFiles.cs:131-154 | appends the compiled files the folder listing lacks; returns true exactly when there were any |
| ProjectFiles.NoExtraFilesIffListed | BuildEnvironmentTests/ProjectFiles.cs:99-101 | over a lower-cased listing, the extra-files check is silent exactly when every folder file is compiled or is build output |
| ProjectFiles.IgnoredNeverReported | BuildEnvironmentTests/ProjectFiles.cs:235-241 | a path through "\debug\" or "\release\" is never reported by either check |
| ProjectFiles.IgnoreIsCaseSensitive | BuildEnvironmentTests/ProjectFiles.cs:240 | the ignore test is case-sensitive: "\Debug\" is not ignored |
| ProjectFiles.ErrorMessage | BuildEnvironmentTests/ProjectFiles.cs:169-187 | the message is the heading, a colon, then NewLine and each file in order; it is longer than the heading and starts with the heading and the colon |
| ProjectFiles.MessageIsJoinedLines | BuildEnvironmentTests/ProjectFiles.cs:175-186 | the message is the heading line and the files joined with NewLine |
| ProjectFiles.MessageReadsBack | BuildEnvironmentTests/ProjectFiles.cs:175-186 | split at line breaks, the message gives back the heading line and the file names |
| ProjectFiles.LowerAll | BuildEnvironmentTests/ProjectFiles.cs:217 | lower-cases each name in place, keeping the count and the order |
| ProjectFiles.MaskMatches | BuildEnvironmentTests/ProjectFiles.cs:214-217 | each file the masks select is a non-empty lower-case name |
| ProjectFiles.MaskMatchesComplete | BuildEnvironmentTests/ProjectFiles.cs:214-217 | every file matching one of the masks is selected, lower-cased |
| ProjectFiles.GetFilesInProjectFolder | BuildEnvironmentTests/ProjectFiles.cs:202-224 | an excluded folder gives nothing; every listed name is non-empty and lower-case |
| ProjectFiles.FilesInSubfolders | BuildEnvironmentTests/ProjectFiles.cs:219-221 | the subfolders' listings hold only non-empty lower-case names |
| ProjectFiles.ReachedFilesListed | BuildEnvironmentTests/ProjectFiles.cs:202-224 | every matching file reached without passing through an excluded folder is listed, lower-cased |
| ProjectFiles.ListedInSubfolder | BuildEnvironmentTests/ProjectFiles.cs:219-221 | a file listed for one subfolder is in the combined listing |
| ProjectFiles.CompiledFilesNamed | BuildEnvironmentTests/ProjectFiles.cs:284-289 | each Compile include gives one non-empty lower-case full name |
| ProjectFiles.FolderCodeFiles | BuildEnvironmentTests/ProjectFiles.cs:295-296 | the folder's "*.cs" listing holds only non-empty lower-case names |
| ProjectFiles.ProcessCSharpProject | BuildEnvironmentTests/ProjectFiles.cs:261-302 | appends exactly the chosen check's report for the project and returns true exactly when it reported nothing |
| ProjectFiles.ProjectsNamed | BuildEnvironmentTests/ProjectFiles.cs:342 | every "*.csproj" file of a folder has a non-empty name |
| ProjectFiles.ProcessOwnProjects | BuildEnvironmentTests/ProjectFiles.cs:340-345 | appends the reports of the folder's own projects, only when C# processing is on, and is true exactly when they are empty |
| ProjectFiles.ProcessFolder | BuildEnvironmentTests/ProjectFiles.cs:322-349 | an excluded folder passes and reports nothing; otherwise the projects and then every subfolder are processed, even after a failure, and the result is true exactly when nothing was reported |
| ProjectFiles.ProcessProjects | BuildEnvironmentTests/ProjectFiles.cs:342-344 | the fold over the projects appends each project's report in order and is true exactly when all were empty |
| ProjectFiles.ProcessSubfolders | BuildEnvironmentTests/ProjectFiles.cs:347-348 | the fold over the subfolders appends each subfolder's report in order and is true exactly when all were empty |
| ProjectFiles.NoProjectsNoReports | BuildEnvironmentTests/ProjectFiles.cs:340-348 | without C# processing the walk reports nothing |
| ProjectFiles.NoSubfolderReports | BuildEnvironmentTests/ProjectFiles.cs:347-348 | without C# processing no subfolder reports anything |
| ProjectFiles.ReportableAppend | BuildEnvironmentTests/ProjectFiles.cs:105 | appending reports of reportable names stays reportable |
| ProjectFiles.ProjectReportReportable | BuildEnvironmentTests/ProjectFiles.cs:298 | every file a project's check reports is a non-empty lower-case name that is not build output |
| ProjectFiles.ProjectsReportReportable | BuildEnvironmentTests/ProjectFiles.cs:342-344 | the same holds for all the projects of a folder |
| ProjectFiles.FolderReportReportable | BuildEnvironmentTests/ProjectFiles.cs:322-349 | the same holds for the whole walk |
| ProjectFiles.SubfoldersReportReportable | BuildEnvironmentTests/ProjectFiles.cs:347-348 | the same holds for the subfolders of a folder |
| ProjectFiles.Heading | BuildEnvironmentTests/ProjectFiles.cs:42-69 | each check's assertion heading is non-empty, as ErrorMessage requires |
| ProjectFiles.RunFilesTest | BuildEnvironmentTests/ProjectFiles.cs:42-69 | the test passes exactly when the walk from the root reports nothing, and its message lists the reported files under the check's heading |
| ProjectHelpers.FindGlobalSettingsPropertyGroup | BuildEnvironmentTests/ProjectHelpers.cs:204-217 | the global group, when found, is one of the project's groups |
| ProjectHelpers.GlobalGroupIsFirstUnconditioned | BuildEnvironmentTests/ProjectHelpers.cs:213-216 | the global group is the first whose trimmed Condition is empty; when there is none, every trimmed Condition is non-empty |
| ProjectHelpers.GlobalGroupIsUnconditioned | BuildEnvironmentTests/ProjectHelpers.cs:214-215 | the global group's Condition is blank (empty or white space) |
| ProjectHelpers.BoolText | BuildEnvironmentTests/ProjectHelpers.cs:133 | bool.ToString is four characters for true and five for false |
| ProjectHelpers.OnlyBooleanTextMatches | BuildEnvironmentTests/ProjectHelpers.cs:132-133 | only "True" or "False", in any letter case, can match the expected value, and no text matches both values |
| ProjectHelpers.MatchExamples | BuildEnvironmentTests/ProjectHelpers.cs:151-152 | "1" and "yes" never match; "TRUE" matches true and "false" matches false |
| ProjectHelpers.SkippedIffUnconditioned | BuildEnvironmentTests/ProjectHelpers.cs:139-145 | with a global group, a group is skipped exactly when its Condition is blank, so every blank-Condition group is skipped and not only the first; without a global group none is |
| ProjectHelpers.DefaultInherited | BuildEnvironmentTests/ProjectHelpers.cs:125-135 | a group without the element inherits the global group's "True" even when the fallback default is false |
| ProjectHelpers.FailingGroupsCounts | BuildEnvironmentTests/ProjectHelpers.cs:137-169 | each group adds at most one failure, and a project adds none exactly when no checked group fails |
| ProjectHelpers.ProjectConformsIff | BuildEnvironmentTests/ProjectHelpers.cs:119-176 | a project adds no failures exactly when it has a property-group list and none of its checked groups fails |
| ProjectHelpers.NoFailuresIffAllConform | BuildEnvironmentTests/ProjectHelpers.cs:110-177 | the failure count is 0 exactly when every project conforms |
| ProjectHelpers.HasPropertyGroupSetting | BuildEnvironmentTests/ProjectHelpers.cs:102-185 | the count is the total of the projects' failures, and the test passes exactly when every project conforms |
| ProjectHelpers.CountProjectFailures | BuildEnvironmentTests/ProjectHelpers.cs:119-176 | one failure for a project without a group list, else its failing groups against the global default |
| ProjectHelpers.CountFailingGroups | BuildEnvironmentTests/ProjectHelpers.cs:137-169 | the loop counts exactly the checked groups whose setting is not the expected value |
| ProjectHelpers.HasProjectReference | BuildEnvironmentTests/ProjectHelpers.cs:234-252 | true exactly when some reference is the Project attribute of one of the imports |
| ProjectHelpers.FileNameIsLastComponent | BuildEnvironmentTests/ProjectHelpers.cs:72 | Path.GetFileName is the separator-free suffix of the path, preceded by a separator or by nothing |
| ProjectHelpers.FileNameOfJoin | BuildEnvironmentTests/ProjectHelpers.cs:72 | the file name of a directory joined with a separator-free name is that name |
| ProjectHelpers.ExtensionDropped | BuildEnvironmentTests/ProjectHelpers.cs:72 | a name without '.' is kept; otherwise the result is the part before the last '.' |
| ProjectHelpers.ProjectBaseName | BuildEnvironmentTests/ProjectHelpers.cs:72 | the base name of a project file "dir\name.csproj" is "name" |
| ProjectHelpers.NoLackingIffAllImportOrExempt | BuildEnvironmentTests/ProjectHelpers.cs:59-87 | the import test passes exactly when every project imports a reference or is exempted |
| ProjectHelpers.ExemptionMonotone | BuildEnvironmentTests/ProjectHelpers.cs:72-81 | exempting more projects never adds failures |
| ProjectHelpers.HasProjectImportReferece | BuildEnvironmentTests/ProjectHelpers.cs:47-88 | the count is the number of C# projects that import no reference and are not exempted, and the test passes exactly when there is none |

## Left out

- Console output is not modelled. This covers every `Console.WriteLine`, the "Version Number" banner, the messages of the exceptions and the stack trace Main prints.
- Streams, `DirectoryInfo` and `FileInfo` are not modelled.
  - File contents are strings or line sequences.
  - A directory is a tree datatype, and the files of each directory are a map entry.
  - I/O failures while rewriting files are not modelled, so the exit code 1 covers only failures while loading the version information.
- Reflection becomes fixed tables.
  - The tag catalog is the AssemblyTags methods in declaration order.
  - The format list holds the C# descriptor only.
  - The company and product names of the executing assembly are the constants "Twaddle Software" and "Build Utilities".
  - The code base of the test assembly is a parameter.
- The clock is a parameter. The default build date and time are the texts the clock supplies; the `DateTime` format strings that produce them are not modelled.
- Environment variables are a map; a variable that is not set is a missing key.
- The current directory is a parameter.
- Case-insensitive comparison (`OrdinalIgnoreCase`, `InvariantCultureIgnoreCase`) and `ToLowerInvariant` fold ASCII letters only.
- `int.Parse`, `int.TryParse` and `Convert.ToInt32` accept an optional sign and decimal digits within the 32-bit range. Culture-specific forms and surrounding white space are not modelled, and the current culture is treated as the invariant one.
- Text.Trim: white space is the ASCII white-space characters, not the full Unicode set.
- TextFile: `Environment.NewLine` is "\r\n", as on Windows.
- AssemblyInfoUpdater.FileRewriteDropsTrailingBreak: a second run over the same file is a no-op only when the written file does not end in an empty line. A file ending in a line break loses one trailing line break per run, because `ReadFileContents` yields no line after the final terminator and `WriteFileContents` writes none. The model follows the code; `FileRewriteIdempotent` states the conditions under which the byte-for-byte no-op holds.
- `ParameterDefined` requires a non-empty argument. `HasParameter`'s `Any` stops at the first argument that defines the parameter, so an empty argument breaks that requirement only when the scan reaches it. The model treats that breach as a failure, `None`, that ends the run with exit code 1; an empty argument after the match is never looked at.
- Version.VersionProperties.Trademark: the getter's non-null guarantee holds by the type of its result, so the getter has no other contract.
- The extraction steps that break a setter's contract are failure outcomes, as the run ends there. These are: an empty build date or time, a non-numeric label, and a negative TeamCity build number.
- FolderProcessor.WalkGloballyPostOrder: requires distinct names among siblings. A directory listing never holds two subdirectories of the same name, and with a repeated name a path can name two directories, so "below" would relate callbacks for unrelated folders.
- The folder walk of SetVersionInformation records the directories the callback runs on, in order. The callback's effect is applied afterwards, directory by directory (`Program.AfterWalk`).
- FolderHelpers.FilesMatching: a wildcard mask "*.ext" matches a name that ends with ".ext", ignoring case. The 8.3 short-name quirks of `Directory.GetFiles` are not modelled.
- FolderHelpers.AllFilesMatchingExactly: `Directory.GetFiles(..., AllDirectories)` lists a folder's own files before those of its subfolders, in pre-order. The .NET documentation does not fix this order, so the lemmas about it speak of membership, and the order is the model's choice.
- FolderHelpers.RootPath: a directory is the sequence of names from its drive root, and `Parent` drops the last name. The marker file `Settings.FxCop` is the set of directories that hold it.
- ProjectHelpers.HasProjectImportReferece: the exception checker (a `Func<string, bool>`) is the set of base names it accepts.
- ProjectHelpers.HasPropertyGroupSetting and HasProjectImportReferece take the loaded project documents, in the order `FolderHelpers.AllCodeProjects` (or `AllCSharpProjects`) lists them, rather than loading them.
- XML is given already parsed. The `Condition` attribute is its text, or "" when absent. A setting is the inner text of the matching child element. An Import is its `Project` attribute.
- ProjectFiles.ProcessCSharpProject: a project's Compile items are a map from project file to its `Include` values. A project file the map does not hold compiles nothing.
- ProjectFiles: `FileInfo.FullName` of a compiled file is taken as the project folder, a backslash and the include, with no normalisation of ".." or of repeated separators.
- ProjectFiles.CheckForAdditionalFiles and CheckForMissingFiles require that every name is non-empty, as the `IsIgnoreExtraFile` they call requires of its argument.
- ProjectHelpers.FileNameIsLastComponent: `Path.GetFileName` treats '\' and '/' as separators; volume separators (':') are not modelled.
- `Jetbrains.Annotations`, the NUnit fixtures that pass constant settings to ProjectHelpers, `ProjectReferences` (regular expressions and `File.Exists`) and the two `Properties/AssemblyInfo.cs` data files are not part of this model.
