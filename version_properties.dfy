/**
 * VersionProperties: the mutable version record. Every property setter demands exactly
 * its field's clause of the object invariant, so the invariant survives every update.
 * CurrentBuildDate and CurrentBuildTime start out unset (null in the source) and are
 * outside the invariant.
 */
module Version {
  import opened Wrappers

  /** Fallbacks of CurrentAssemblyCompanyName / CurrentAssemblyProductName. */
  const DefaultCompanyName: string := "Twaddle Software"
  const DefaultProductName: string := "Build Utilities"

  /** The value of all ten backing fields at one moment. */
  datatype VersionData = VersionData(
    companyName: string,
    copyrightStartYear: int,
    currentBuildDate: Option<string>,
    currentBuildNumber: int,
    currentBuildTime: Option<string>,
    major: int,
    minor: int,
    productName: string,
    subversionRevision: int,
    trademark: string)

  /** ObjectInvariant. `trademark != null` holds of every Dafny string. */
  predicate Invariant(v: VersionData)
  {
    && v.copyrightStartYear >= 1990
    && v.major > 0
    && v.minor >= 0
    && v.subversionRevision >= 0
    && v.currentBuildNumber >= 0
    && v.companyName != ""
    && v.productName != ""
  }

  /** The field initialisers of a freshly constructed object. */
  function Initial(): (v: VersionData)
    ensures Invariant(v)
    ensures v.major == 1 && v.minor == 0 && v.subversionRevision == 0 && v.currentBuildNumber == 0
    ensures v.copyrightStartYear == 1990 && v.trademark == ""
    ensures v.currentBuildDate == None && v.currentBuildTime == None
  {
    VersionData(
      companyName := DefaultCompanyName,
      copyrightStartYear := 1990,
      currentBuildDate := None,
      currentBuildNumber := 0,
      currentBuildTime := None,
      major := 1,
      minor := 0,
      productName := DefaultProductName,
      subversionRevision := 0,
      trademark := "")
  }

  class VersionProperties {
    var companyName: string
    var copyrightStartYear: int
    var currentBuildDate: Option<string>
    var currentBuildNumber: int
    var currentBuildTime: Option<string>
    var major: int
    var minor: int
    var productName: string
    var subversionRevision: int
    var trademark: string

    function Snapshot(): VersionData
      reads this
    {
      VersionData(companyName, copyrightStartYear, currentBuildDate, currentBuildNumber, currentBuildTime,
                  major, minor, productName, subversionRevision, trademark)
    }

    /** The object invariant. */
    predicate Valid()
      reads this
    {
      Invariant(Snapshot())
    }

    /** Build date and time, once set, are non-empty: their setters accept nothing else. */
    predicate StampsWellFormed()
      reads this
    {
      && (currentBuildDate.Some? ==> currentBuildDate.value != "")
      && (currentBuildTime.Some? ==> currentBuildTime.value != "")
    }

    constructor ()
      ensures Valid() && StampsWellFormed()
      ensures Snapshot() == Initial()
    {
      companyName := DefaultCompanyName;
      copyrightStartYear := 1990;
      currentBuildDate := None;
      currentBuildNumber := 0;
      currentBuildTime := None;
      major := 1;
      minor := 0;
      productName := DefaultProductName;
      subversionRevision := 0;
      trademark := "";
    }

    method SetCompanyName(value: string)
      requires Valid() && value != ""
      modifies this
      ensures Valid() && (old(StampsWellFormed()) ==> StampsWellFormed())
      ensures Snapshot() == old(Snapshot()).(companyName := value)
    {
      companyName := value;
    }

    method SetCopyrightStartYear(value: int)
      requires Valid() && value >= 1990
      modifies this
      ensures Valid() && (old(StampsWellFormed()) ==> StampsWellFormed())
      ensures Snapshot() == old(Snapshot()).(copyrightStartYear := value)
    {
      copyrightStartYear := value;
    }

    method SetCurrentBuildDate(value: string)
      requires Valid() && value != ""
      modifies this
      ensures Valid() && (old(StampsWellFormed()) ==> StampsWellFormed())
      ensures Snapshot() == old(Snapshot()).(currentBuildDate := Some(value))
    {
      currentBuildDate := Some(value);
    }

    method SetCurrentBuildNumber(value: int)
      requires Valid() && value >= 0
      modifies this
      ensures Valid() && (old(StampsWellFormed()) ==> StampsWellFormed())
      ensures Snapshot() == old(Snapshot()).(currentBuildNumber := value)
    {
      currentBuildNumber := value;
    }

    method SetCurrentBuildTime(value: string)
      requires Valid() && value != ""
      modifies this
      ensures Valid() && (old(StampsWellFormed()) ==> StampsWellFormed())
      ensures Snapshot() == old(Snapshot()).(currentBuildTime := Some(value))
    {
      currentBuildTime := Some(value);
    }

    method SetMajor(value: int)
      requires Valid() && value > 0
      modifies this
      ensures Valid() && (old(StampsWellFormed()) ==> StampsWellFormed())
      ensures Snapshot() == old(Snapshot()).(major := value)
    {
      major := value;
    }

    method SetMinor(value: int)
      requires Valid() && value >= 0
      modifies this
      ensures Valid() && (old(StampsWellFormed()) ==> StampsWellFormed())
      ensures Snapshot() == old(Snapshot()).(minor := value)
    {
      minor := value;
    }

    method SetProductName(value: string)
      requires Valid() && value != ""
      modifies this
      ensures Valid() && (old(StampsWellFormed()) ==> StampsWellFormed())
      ensures Snapshot() == old(Snapshot()).(productName := value)
    {
      productName := value;
    }

    method SetSubversionRevision(value: int)
      requires Valid() && value >= 0
      modifies this
      ensures Valid() && (old(StampsWellFormed()) ==> StampsWellFormed())
      ensures Snapshot() == old(Snapshot()).(subversionRevision := value)
    {
      subversionRevision := value;
    }

    /** The source demands only `value != null`, which every Dafny string meets. */
    method SetTrademark(value: string)
      requires Valid()
      modifies this
      ensures Valid() && (old(StampsWellFormed()) ==> StampsWellFormed())
      ensures Snapshot() == old(Snapshot()).(trademark := value)
    {
      trademark := value;
    }

    function CompanyName(): (r: string)
      reads this
      requires Valid()
      ensures r != ""
    {
      companyName
    }

    function CopyrightStartYear(): (r: int)
      reads this
      requires Valid()
      ensures r >= 1990
    {
      copyrightStartYear
    }

    /** The non-empty postcondition can only be met once the setter has run. */
    function CurrentBuildDate(): (r: string)
      reads this
      requires StampsWellFormed() && currentBuildDate.Some?
      ensures r != ""
    {
      currentBuildDate.value
    }

    function CurrentBuildNumber(): (r: int)
      reads this
      requires Valid()
      ensures r >= 0
    {
      currentBuildNumber
    }

    function CurrentBuildTime(): (r: string)
      reads this
      requires StampsWellFormed() && currentBuildTime.Some?
      ensures r != ""
    {
      currentBuildTime.value
    }

    function Major(): (r: int)
      reads this
      requires Valid()
      ensures r > 0
    {
      major
    }

    function Minor(): (r: int)
      reads this
      requires Valid()
      ensures r >= 0
    {
      minor
    }

    function ProductName(): (r: string)
      reads this
      requires Valid()
      ensures r != ""
    {
      productName
    }

    function SubversionRevision(): (r: int)
      reads this
      requires Valid()
      ensures r >= 0
    {
      subversionRevision
    }

    function Trademark(): (r: string)
      reads this
    {
      trademark
    }
  }
}
