/**
 * AssemblyInfoTagHelper: the tag catalog (one entry per AssemblyTags method, keyed by
 * the method's name), the list of file formats, and ProduceTag, which turns a tag's
 * value into the whole attribute line.
 */
module TagHelper {
  import opened Wrappers
  import opened Text
  import opened FormatTraits
  import opened Version
  import opened AssemblyTags

  /**
   * ProduceTag: Open + Keyword + ": " + TagName + value + Close. The catalog's functions
   * return this whole line, not only the value.
   */
  function ProduceTag(t: Tag, traits: FormatTraits, v: VersionData, year: int): (line: string)
    ensures var head := traits.openAttributeText + traits.assemblyKeyword + ": " + Name(t) + "(";
            |head| <= |line| && line[..|head|] == head
    ensures var tail := ")" + traits.closeAttributeText;
            |tail| <= |line| && line[|line| - |tail|..] == tail
  {
    var value := Format(t, traits, v, year);
    var head := traits.openAttributeText + traits.assemblyKeyword + ": " + Name(t);
    BracketedConcat(head, value, traits.closeAttributeText, '(', ')');
    assert head + "(" == head + ['('];
    head + value + traits.closeAttributeText
  }

  /** With the C# descriptor, AssemblyProduct for product P is `[assembly: AssemblyProduct("P")]`. */
  lemma ProduceProductExample(v: VersionData, year: int)
    ensures ProduceTag(AssemblyProduct, CSharp(), v, year)
         == "[assembly: " + "AssemblyProduct" + "(\"" + v.productName + "\")" + "]"
  {
    var traits := CSharp();
    assert Name(AssemblyProduct) == "AssemblyProduct";
    assert traits.openAttributeText + traits.assemblyKeyword + ": " == "[assembly: " by {
      assert traits.openAttributeText + traits.assemblyKeyword + ": " == "[" + "assembly" + ": ";
    }
    assert Format(AssemblyProduct, traits, v, year) == "(\"" + v.productName + "\")" by {
      assert Format(AssemblyProduct, traits, v, year) == "(" + ("\"" + v.productName + "\"") + ")";
    }
  }

  /** The public static methods of AssemblyTags as GetMethods lists them, in declaration order. */
  const AssemblyTagsMethods: seq<Tag> := [
    AssemblyCompany, AssemblyCopyright, AssemblyCulture, AssemblyFileVersion,
    AssemblyInformationalVersion, AssemblyProduct, AssemblyTrademark, AssemblyVersion,
    CLSCompliant, ComVisible, NeutralResourcesLanguage]

  /** No two methods share a name. */
  predicate KeysUnique(methods: seq<Tag>)
  {
    forall i, j :: 0 <= i < j < |methods| ==> Name(methods[i]) != Name(methods[j])
  }

  /** A catalog entry: the method's name as the key, and the method whose value ProduceTag wraps. */
  datatype Entry = Entry(key: string, tag: Tag)

  /** The entry of each method, in order. */
  function Entries(methods: seq<Tag>): (r: seq<Entry>)
    ensures |r| == |methods|
    ensures forall i :: 0 <= i < |methods| ==> r[i].tag == methods[i] && r[i].key == Name(methods[i])
  {
    if methods == [] then []
    else Entries(methods[..|methods| - 1]) + [Entry(Name(methods[|methods| - 1]), methods[|methods| - 1])]
  }

  datatype CatalogError = DuplicateKey(key: string)

  /**
   * TagsToModify: add one entry per method, keyed by its name; Dictionary.Add throws on a
   * key already present.
   */
  method TagsToModify(methods: seq<Tag>) returns (r: Result<seq<Entry>, CatalogError>)
    ensures r.Success? <==> KeysUnique(methods)
    ensures r.Success? ==> r.value == Entries(methods)
    ensures r.Failure? ==> exists i, j :: 0 <= i < j < |methods| && Name(methods[i]) == Name(methods[j]) == r.error.key
  {
    var dictionary: seq<Entry> := [];
    var keys: set<string> := {};
    var i := 0;
    while i < |methods|
      invariant 0 <= i <= |methods|
      invariant dictionary == Entries(methods[..i])
      invariant keys == set k | 0 <= k < i :: Name(methods[k])
      invariant KeysUnique(methods[..i])
    {
      var key := Name(methods[i]);
      if key in keys {
        var k :| 0 <= k < i && Name(methods[k]) == key;
        assert !KeysUnique(methods) by {
          assert Name(methods[k]) == Name(methods[i]);
        }
        return Failure(DuplicateKey(key));
      }
      assert methods[..i + 1][..i] == methods[..i];
      dictionary := dictionary + [Entry(key, methods[i])];
      keys := keys + {key};
      i := i + 1;
    }
    assert methods[..i] == methods;
    return Success(dictionary);
  }

  /** A key the sixteen spellings can be told apart by: non-empty, starting with neither ' ' nor ':'. */
  predicate KeyShape(key: string)
  {
    key != [] && Upper(key[0]) != ' ' && Upper(key[0]) != ':'
  }

  /**
   * What the rewrite engine needs of a catalog: well-shaped keys, and no key a
   * case-insensitive prefix of another.
   */
  predicate WellFormedCatalog(catalog: seq<Entry>)
  {
    (forall e :: e in catalog ==> KeyShape(e.key)) &&
    (forall i, j :: 0 <= i < |catalog| && 0 <= j < |catalog| && i != j ==> FoldDiverge(catalog[i].key, catalog[j].key))
  }

  /** The catalog of methods with distinct names is well formed. */
  lemma EntriesWellFormed(methods: seq<Tag>)
    requires KeysUnique(methods)
    ensures WellFormedCatalog(Entries(methods))
  {
    var catalog := Entries(methods);
    forall e | e in catalog ensures KeyShape(e.key) {
      var i :| 0 <= i < |catalog| && catalog[i] == e;
      NameKeyShape(methods[i]);
    }
    forall i, j | 0 <= i < |catalog| && 0 <= j < |catalog| && i != j
      ensures FoldDiverge(catalog[i].key, catalog[j].key)
    {
      DistinctMethodsDiverge(methods, i, j);
    }
  }

  lemma NameKeyShape(t: Tag)
    ensures KeyShape(Name(t))
  {
    NameShape(t);
  }

  /** Two different positions of a list of distinct names hold names that differ beyond case. */
  lemma DistinctMethodsDiverge(methods: seq<Tag>, i: nat, j: nat)
    requires KeysUnique(methods)
    requires i < |methods| && j < |methods| && i != j
    ensures FoldDiverge(Name(methods[i]), Name(methods[j]))
  {
    if i < j {
      assert Name(methods[i]) != Name(methods[j]);
    } else {
      assert Name(methods[j]) != Name(methods[i]);
    }
    NamesDiverge(methods[i], methods[j]);
  }

  /** Distinct tags have distinct keys. */
  lemma NamesInjective(t: Tag, u: Tag)
    requires t != u
    ensures Name(t) != Name(u)
  {
    NamesDiverge(t, u);
  }

  /**
   * Reads a tag back from a name, looking only at the case-folded characters at positions
   * 0 and 1 and, for the Assembly names, 8 to 10.
   */
  function Classify(s: string): Option<Tag>
  {
    if |s| < 2 then None
    else if Upper(s[0]) == 'N' then Some(NeutralResourcesLanguage)
    else if Upper(s[0]) == 'C' then
      if Upper(s[1]) == 'L' then Some(CLSCompliant)
      else if Upper(s[1]) == 'O' then Some(ComVisible)
      else None
    else if Upper(s[0]) == 'A' && |s| >= 11 then
      var c8, c9, c10 := Upper(s[8]), Upper(s[9]), Upper(s[10]);
      if c8 == 'F' then Some(AssemblyFileVersion)
      else if c8 == 'I' then Some(AssemblyInformationalVersion)
      else if c8 == 'P' then Some(AssemblyProduct)
      else if c8 == 'T' then Some(AssemblyTrademark)
      else if c8 == 'V' then Some(AssemblyVersion)
      else if c8 == 'C' && c9 == 'U' then Some(AssemblyCulture)
      else if c8 == 'C' && c9 == 'O' && c10 == 'M' then Some(AssemblyCompany)
      else if c8 == 'C' && c9 == 'O' && c10 == 'P' then Some(AssemblyCopyright)
      else None
    else None
  }

  /** Each name is read back as its own tag. */
  lemma ClassifyName(t: Tag)
    ensures Classify(Name(t)) == Some(t)
  {
  }

  /** Strings that agree, case folded, at every position both have are read back alike. */
  lemma ClassifyFolded(a: string, b: string)
    requires !FoldDiverge(a, b)
    requires |a| >= 10 && |b| >= 10
    requires Upper(a[0]) == 'A' ==> |a| >= 11 && |b| >= 11
    ensures Classify(a) == Classify(b)
  {
  }

  /**
   * Two distinct tag names differ, case folded, at a position both have: neither is a
   * case-insensitive prefix of the other.
   */
  lemma NamesDiverge(t: Tag, u: Tag)
    requires t != u
    ensures FoldDiverge(Name(t), Name(u))
  {
    if !FoldDiverge(Name(t), Name(u)) {
      NameShape(t);
      NameShape(u);
      ClassifyName(t);
      ClassifyName(u);
      ClassifyFolded(Name(t), Name(u));
    }
  }

  /**
   * Every tag name has at least ten characters and starts with 'A' (then it has more than
   * ten), 'C' or 'N'.
   */
  lemma NameShape(t: Tag)
    ensures |Name(t)| >= 10 && (Name(t)[0] == 'A' || Name(t)[0] == 'C' || Name(t)[0] == 'N')
    ensures Name(t)[0] == 'A' ==> |Name(t)| >= 11
  {
  }

  /** The catalog built from AssemblyTags: all eleven tags, each once. */
  lemma CatalogComplete()
    ensures |AssemblyTagsMethods| == 11 && KeysUnique(AssemblyTagsMethods)
    ensures forall t: Tag :: t in AssemblyTagsMethods
  {
    forall t: Tag ensures t in AssemblyTagsMethods {
      var i := match t
        case AssemblyCompany => 0 case AssemblyCopyright => 1 case AssemblyCulture => 2
        case AssemblyFileVersion => 3 case AssemblyInformationalVersion => 4 case AssemblyProduct => 5
        case AssemblyTrademark => 6 case AssemblyVersion => 7 case CLSCompliant => 8
        case ComVisible => 9 case NeutralResourcesLanguage => 10;
      assert AssemblyTagsMethods[i] == t;
    }
    forall i, j | 0 <= i < j < |AssemblyTagsMethods|
      ensures Name(AssemblyTagsMethods[i]) != Name(AssemblyTagsMethods[j])
    {
      NamesInjective(AssemblyTagsMethods[i], AssemblyTagsMethods[j]);
    }
  }

  /** A type of the executing assembly, as GetTypes reports it. */
  datatype TypeInfo = TypeInfo(name: string, isAbstract: bool, interfaces: seq<string>, instance: Option<FormatTraits>)

  const TraitsInterface: string := "IAssemblyInfoFormatTraits"

  /**
   * FileFormatTypes: each non-abstract type, once per time it lists the traits interface; a
   * type is selected exactly when it is non-abstract and implements the interface.
   */
  function FileFormatTypes(types: seq<TypeInfo>): (r: seq<TypeInfo>)
    ensures forall x :: x in r <==> x in types && !x.isAbstract && TraitsInterface in x.interfaces
  {
    if types == [] then []
    else
      var t := types[0];
      var rest := FileFormatTypes(types[1..]);
      var own := if t.isAbstract then [] else MatchingInterfaces(t, t.interfaces);
      assert forall x :: x in types <==> x == t || x in types[1..];
      assert !t.isAbstract && TraitsInterface in t.interfaces ==> t in own by {
        if !t.isAbstract && TraitsInterface in t.interfaces {
          assert TraitsInterface in multiset(t.interfaces);
          assert |own| > 0 && own[0] in own;
        }
      }
      own + rest
  }

  /** The type once for each occurrence of the traits interface among `interfaces`. */
  function MatchingInterfaces(t: TypeInfo, interfaces: seq<string>): (r: seq<TypeInfo>)
    requires forall k :: 0 <= k < |interfaces| ==> interfaces[k] in t.interfaces
    ensures |r| == multiset(interfaces)[TraitsInterface]
    ensures forall x :: x in r ==> x == t
    ensures r == [] || TraitsInterface in t.interfaces
  {
    if interfaces == [] then []
    else
      assert interfaces == [interfaces[0]] + interfaces[1..];
      assert interfaces[0] in t.interfaces;
      (if interfaces[0] == TraitsInterface then [t] else []) + MatchingInterfaces(t, interfaces[1..])
  }

  /** FileFormats: an instance of each selected type (OfType drops what is not a descriptor). */
  function FileFormats(types: seq<TypeInfo>): seq<FormatTraits>
  {
    Instances(FileFormatTypes(types))
  }

  function Instances(types: seq<TypeInfo>): seq<FormatTraits>
  {
    if types == [] then []
    else (if types[0].instance.Some? then [types[0].instance.value] else []) + Instances(types[1..])
  }

  /** The types of the executing assembly that bear on the selection. */
  function ExecutingAssemblyTypes(): seq<TypeInfo>
  {
    [ TypeInfo("AssemblyInfoUpdater", false, [], None),
      TypeInfo("AssemblyTags", true, [], None),
      TypeInfo("IAssemblyInfoFormatTraits", true, [], None),
      TypeInfo("FormatTraitsContract", true, [TraitsInterface], None),
      TypeInfo("CSharpFormatTraits", false, [TraitsInterface], Some(CSharp())),
      TypeInfo("VersionProperties", false, [], None) ]
  }

  /**
   * Of six types, where only the fourth and fifth implement the descriptor interface and
   * the fourth is abstract, the fifth alone is selected.
   */
  lemma SelectsFifthOfSix(types: seq<TypeInfo>)
    requires |types| == 6
    requires types[0].interfaces == [] && types[1].interfaces == [] && types[2].interfaces == []
    requires types[3].isAbstract && !types[4].isAbstract && types[4].interfaces == [TraitsInterface]
    requires types[5].interfaces == []
    ensures FileFormatTypes(types) == [types[4]]
  {
    assert types[5..][1..] == [];
    assert FileFormatTypes(types[5..]) == [];
    assert MatchingInterfaces(types[4], [TraitsInterface]) == [types[4]] by {
      assert [TraitsInterface][1..] == [];
    }
    assert types[4..][1..] == types[5..];
    assert FileFormatTypes(types[4..]) == [types[4]];
    assert types[3..][1..] == types[4..];
    assert FileFormatTypes(types[3..]) == [types[4]];
    assert types[2..][1..] == types[3..];
    assert FileFormatTypes(types[2..]) == [types[4]];
    assert types[1..][1..] == types[2..];
    assert FileFormatTypes(types[1..]) == [types[4]];
  }

  /** The abstract contract class is skipped: the only format is C#. */
  lemma OnlyCSharpFormat()
    ensures FileFormats(ExecutingAssemblyTypes()) == [CSharp()]
  {
    var types := ExecutingAssemblyTypes();
    SelectsFifthOfSix(types);
    InstanceOfOne(types[4]);
  }

  lemma InstanceOfOne(t: TypeInfo)
    requires t.instance.Some?
    ensures Instances([t]) == [t.instance.value]
  {
    assert [t][1..] == [];
  }
}
