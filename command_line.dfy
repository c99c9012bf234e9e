/**
 * CommandLine: `-Name:value` arguments. A parameter's value is the rest of the first
 * argument that starts, ignoring case, with "-Name:"; a parameter is present when an
 * argument is "-Name" or starts with "-Name:".
 */
module CommandLine {
  import opened Text
  import opened Wrappers

  /** The prefix of an argument that carries the parameter's value. */
  function ValuePrefix(name: string): (p: string)
    ensures |p| == |name| + 2 && p[0] == '-' && p[|p| - 1] == ':'
    ensures p[1..|p| - 1] == name
  {
    "-" + name + ":"
  }

  /** The first argument from `i` on that starts with the value prefix, or |args|. */
  function FirstWithPrefix(args: seq<string>, name: string, i: nat): (j: nat)
    requires i <= |args|
    ensures i <= j <= |args|
    ensures j < |args| ==> StartsWithIgnoreCase(args[j], ValuePrefix(name))
    ensures forall k :: i <= k < j ==> !StartsWithIgnoreCase(args[k], ValuePrefix(name))
    decreases |args| - i
  {
    if i == |args| || StartsWithIgnoreCase(args[i], ValuePrefix(name)) then i
    else FirstWithPrefix(args, name, i + 1)
  }

  /** What GetValue returns: the text after the prefix in the first matching argument, else "". */
  function ValueOf(args: seq<string>, name: string): string
  {
    var j := FirstWithPrefix(args, name, 0);
    if j < |args| then args[j][|ValuePrefix(name)|..] else ""
  }

  /** A non-empty value is the rest of some argument that starts with the prefix. */
  lemma ValueComesFromArgument(args: seq<string>, name: string)
    ensures ValueOf(args, name) != "" ==>
              exists j :: 0 <= j < |args| && StartsWithIgnoreCase(args[j], ValuePrefix(name)) &&
                          args[j][|ValuePrefix(name)|..] == ValueOf(args, name)
  {
    var j := FirstWithPrefix(args, name, 0);
    if j < |args| {
      assert args[j][|ValuePrefix(name)|..] == ValueOf(args, name);
    }
  }

  /** GetValue: scan the arguments and return at the first that carries the prefix. */
  method GetValue(args: seq<string>, name: string) returns (value: string)
    requires name != ""
    ensures value == ValueOf(args, name)
  {
    var fullParameterName := "-" + name + ":";
    var i := 0;
    while i < |args|
      invariant 0 <= i <= |args|
      invariant FirstWithPrefix(args, name, i) == FirstWithPrefix(args, name, 0)
    {
      if StartsWithIgnoreCase(args[i], fullParameterName) {
        return args[i][|fullParameterName|..];
      }
      i := i + 1;
    }
    return "";
  }

  /** ParameterDefined: the bare flag, ignoring case, or the flag with a value. */
  predicate ParameterDefined(argument: string, fullParameterName: string, fullParameterNameWithValue: string)
    requires argument != "" && fullParameterName != "" && fullParameterNameWithValue != ""
  {
    EqualsIgnoreCase(argument, fullParameterName) || StartsWithIgnoreCase(argument, fullParameterNameWithValue)
  }

  /** No argument is empty (ParameterDefined demands it of each argument it is given). */
  predicate NoEmptyArgument(args: seq<string>)
  {
    forall k :: 0 <= k < |args| ==> args[k] != ""
  }

  /** The argument defines the parameter: it is non-empty and ParameterDefined holds of it. */
  predicate Defines(argument: string, name: string)
    requires name != ""
  {
    argument != "" && ParameterDefined(argument, "-" + name, ValuePrefix(name))
  }

  /**
   * HasParameter's Any from argument `i` on, which stops at the first argument that defines
   * the parameter: Some(true) there, Some(false) past the end, and None when an empty argument
   * is reached first (ParameterDefined's precondition fails and the call throws).
   */
  function AnyDefines(args: seq<string>, name: string, i: nat): Option<bool>
    requires name != "" && i <= |args|
    decreases |args| - i
  {
    if i == |args| then Some(false)
    else if args[i] == "" then None
    else if ParameterDefined(args[i], "-" + name, ValuePrefix(name)) then Some(true)
    else AnyDefines(args, name, i + 1)
  }

  lemma {:induction false} AnyDefinesTrue(args: seq<string>, name: string, i: nat)
    requires name != "" && i <= |args|
    ensures AnyDefines(args, name, i) == Some(true) <==>
              exists k :: i <= k < |args| && Defines(args[k], name) && forall j :: i <= j < k ==> args[j] != ""
    decreases |args| - i
  {
    if i < |args| {
      AnyDefinesTrue(args, name, i + 1);
      if AnyDefines(args, name, i) == Some(true) && !Defines(args[i], name) {
        var k :| i + 1 <= k < |args| && Defines(args[k], name) && forall j :: i + 1 <= j < k ==> args[j] != "";
        assert forall j :: i <= j < k ==> args[j] != "";
      }
      if exists k :: i <= k < |args| && Defines(args[k], name) && forall j :: i <= j < k ==> args[j] != "" {
        var k :| i <= k < |args| && Defines(args[k], name) && forall j :: i <= j < k ==> args[j] != "";
        if k > i && !Defines(args[i], name) {
          assert args[i] != "";
          assert forall j :: i + 1 <= j < k ==> args[j] != "";
        }
      }
    }
  }

  lemma {:induction false} AnyDefinesFalse(args: seq<string>, name: string, i: nat)
    requires name != "" && i <= |args|
    ensures AnyDefines(args, name, i) == Some(false) <==>
              forall k :: i <= k < |args| ==> args[k] != "" && !Defines(args[k], name)
    decreases |args| - i
  {
    if i < |args| {
      AnyDefinesFalse(args, name, i + 1);
    }
  }

  /**
   * HasParameter: Some(b) when the scan finishes, b telling whether an argument defines the
   * parameter, and None when an empty argument comes before any that defines it.
   */
  function HasParameter(args: seq<string>, name: string): (r: Option<bool>)
    requires name != ""
    ensures r == Some(true) <==>
              exists k :: 0 <= k < |args| && Defines(args[k], name) && forall j :: 0 <= j < k ==> args[j] != ""
    ensures r == Some(false) <==> forall k :: 0 <= k < |args| ==> args[k] != "" && !Defines(args[k], name)
  {
    AnyDefinesTrue(args, name, 0);
    AnyDefinesFalse(args, name, 0);
    AnyDefines(args, name, 0)
  }

  /** Without empty arguments, HasParameter answers whether some argument defines the parameter. */
  lemma HasParameterWithoutEmpty(args: seq<string>, name: string)
    requires name != "" && NoEmptyArgument(args)
    ensures HasParameter(args, name) == Some(exists k :: 0 <= k < |args| && Defines(args[k], name))
  {
    if exists k :: 0 <= k < |args| && Defines(args[k], name) {
      var k :| 0 <= k < |args| && Defines(args[k], name);
      assert forall j :: 0 <= j < k ==> args[j] != "";
    }
  }

  lemma BooleanOutcomes(r: Option<bool>)
    ensures r == None || r == Some(true) || r == Some(false)
  {
    if r.Some? {
      var b := r.value;
      assert r == Some(b);
    }
  }

  /** An empty argument before any that defines the parameter makes HasParameter fail. */
  lemma EmptyArgumentFails(args: seq<string>, name: string, e: nat)
    requires name != "" && e < |args| && args[e] == ""
    requires forall j :: 0 <= j < e ==> !Defines(args[j], name)
    ensures HasParameter(args, name) == None
  {
    forall k | 0 <= k < |args| && Defines(args[k], name)
      ensures exists j :: 0 <= j < k && args[j] == ""
    {
      assert e < k;
    }
    var r := HasParameter(args, name);
    BooleanOutcomes(r);
    assert r != Some(true);
    assert r != Some(false);
  }

  /** GetValue returns the value of the first argument with the prefix; later ones are ignored. */
  lemma ValueOfFirstMatch(args: seq<string>, name: string, i: nat, value: string)
    requires i < |args| && args[i] == ValuePrefix(name) + value
    requires forall k :: 0 <= k < i ==> !StartsWithIgnoreCase(args[k], ValuePrefix(name))
    ensures ValueOf(args, name) == value
  {
    PrefixStartsWithIgnoreCase(ValuePrefix(name), value);
    FirstIsFirst(args, name, 0, i);
    assert args[i][|ValuePrefix(name)|..] == value;
  }

  lemma {:induction false} FirstIsFirst(args: seq<string>, name: string, from: nat, i: nat)
    requires from <= i < |args| && StartsWithIgnoreCase(args[i], ValuePrefix(name))
    requires forall k :: from <= k < i ==> !StartsWithIgnoreCase(args[k], ValuePrefix(name))
    ensures FirstWithPrefix(args, name, from) == i
    decreases i - from
  {
    if from < i {
      FirstIsFirst(args, name, from + 1, i);
    }
  }

  /** GetValue returns "" when no argument carries the prefix. */
  lemma ValueOfNoMatch(args: seq<string>, name: string)
    requires forall k :: 0 <= k < |args| ==> !StartsWithIgnoreCase(args[k], ValuePrefix(name))
    ensures ValueOf(args, name) == ""
  {
  }

  /** The prefix is compared ignoring case: "-NAME:v" gives v for parameter "name". */
  lemma ValueOfIgnoresCase(args: seq<string>, name: string, spelled: string, value: string)
    requires |args| == 1 && args[0] == spelled + value
    requires EqualsIgnoreCase(spelled, ValuePrefix(name))
    ensures ValueOf(args, name) == value
  {
    assert args[0][..|spelled|] == spelled;
    assert StartsWithIgnoreCase(args[0], ValuePrefix(name));
    assert FirstWithPrefix(args, name, 0) == 0;
    assert args[0][|ValuePrefix(name)|..] == value;
  }

  /**
   * A non-empty value implies that the parameter is present, unless HasParameter fails on an
   * empty argument before the one that carries the value.
   */
  lemma ValueImpliesParameter(args: seq<string>, name: string)
    requires name != "" && ValueOf(args, name) != ""
    ensures HasParameter(args, name) != Some(false)
    ensures (forall k :: 0 <= k < FirstWithPrefix(args, name, 0) ==> args[k] != "") ==>
              HasParameter(args, name) == Some(true)
  {
    var j := FirstWithPrefix(args, name, 0);
    assert Defines(args[j], name);
  }

  /** A bare "-Name" flag is present but carries no value. */
  lemma BareFlag(name: string)
    requires name != ""
    ensures HasParameter(["-" + name], name) == Some(true)
    ensures ValueOf(["-" + name], name) == ""
  {
    var flag := "-" + name;
    assert Defines([flag][0], name);
    assert !StartsWithIgnoreCase(flag, ValuePrefix(name));
  }

  /** "-Name:" with nothing after the colon is present and has the empty value. */
  lemma EmptyValue(name: string)
    requires name != ""
    ensures HasParameter([ValuePrefix(name)], name) == Some(true)
    ensures ValueOf([ValuePrefix(name)], name) == ""
  {
    var arg := ValuePrefix(name);
    PrefixStartsWithIgnoreCase(arg, "");
    assert arg + "" == arg;
    assert Defines([arg][0], name);
    ValueOfFirstMatch([arg], name, 0, "");
  }

  /** An argument that neither equals "-Name" nor starts with "-Name:" does not define it. */
  lemma OtherArgumentsDoNotDefine(args: seq<string>, name: string)
    requires name != ""
    requires forall k :: 0 <= k < |args| ==>
               !EqualsIgnoreCase(args[k], "-" + name) && !StartsWithIgnoreCase(args[k], ValuePrefix(name))
    ensures HasParameter(args, name) != Some(true)
    ensures NoEmptyArgument(args) ==> HasParameter(args, name) == Some(false)
  {
  }
}
