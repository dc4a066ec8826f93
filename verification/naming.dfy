/**
 The per-device output file naming convention: the device-type string in
 parentheses, followed by the input file name as given on the command line.
 */
module Naming {
  import opened Wrappers

  /** The name under which a device's filtered image is saved. */
  function OutputName(typeName: string, inputName: string): (name: string)
    ensures |name| == |typeName| + |inputName| + 2
    ensures name[0] == '(' && name[|typeName| + 1] == ')'
    ensures name[1..|typeName| + 1] == typeName
    ensures name[|typeName| + 2..] == inputName
  {
    "(" + typeName + ")" + inputName
  }

  /** The inverse of `OutputName` for a known input name: the type string a
      file name was built from, or `None` when it does not have that shape. */
  function TypeTag(name: string, inputName: string): (tag: Option<string>)
    ensures tag.Some? ==> |tag.value| + |inputName| + 2 == |name|
  {
    var close := |name| - |inputName| - 1;
    if |name| >= |inputName| + 2 && name[0] == '(' && name[close] == ')'
       && name[close + 1..] == inputName
    then Some(name[1..close])
    else None
  }

  /** Recovering the tag from an output name gives back the type string. */
  lemma TypeTagOfOutputName(typeName: string, inputName: string)
    ensures TypeTag(OutputName(typeName, inputName), inputName) == Some(typeName)
  {
    var name := OutputName(typeName, inputName);
    assert |name| - |inputName| - 1 == |typeName| + 1;
  }

  /** A name with a tag is the output name of that tag: together with
      `TypeTagOfOutputName`, a name is an output name for `inputName` exactly
      when `TypeTag` finds a tag in it. */
  lemma OutputNameOfTypeTag(name: string, inputName: string)
    requires TypeTag(name, inputName).Some?
    ensures OutputName(TypeTag(name, inputName).value, inputName) == name
  {
    var close := |name| - |inputName| - 1;
    assert name == name[..1] + name[1..close] + name[close..close + 1] + name[close + 1..];
  }

  /** For one input file, different device types get different file names. */
  lemma OutputNameInjective(s: string, t: string, inputName: string)
    ensures OutputName(s, inputName) == OutputName(t, inputName) <==> s == t
  {
    if OutputName(s, inputName) == OutputName(t, inputName) {
      TypeTagOfOutputName(s, inputName);
      TypeTagOfOutputName(t, inputName);
    }
  }

  /** The convention does not separate type string and input name: a type
      string with a closing parenthesis can collide with another input name. */
  lemma OutputNameAmbiguous()
    ensures OutputName("A", ")x") == OutputName("A)", "x")
  {
  }
}
