/** `EnvironmentConfigError` and its `errorDescription`. */
module ConfigErrors {
  import opened Wrappers
  import opened Text

  /** The one error a load can raise: no attempted name gave a value of the
      wanted type, and the field had no value to fall back on. */
  datatype ConfigError = UnparsableOrMissingValue(variableNames: seq<string>, typeName: string)

  const DescriptionHead := "Missing or unparsable environment variable. Attempted names: ["
  const TypeHead := "]. Wanted type: "

  /** `errorDescription`: the attempted names joined by `,` in brackets, then
      the wanted type. */
  function ErrorDescription(e: ConfigError): string {
    DescriptionHead + Join(e.variableNames, ",") + TypeHead + e.typeName + "."
  }

  /** Reads an error back from its description. */
  function DecodeDescription(text: string): Option<ConfigError> {
    if |text| < |DescriptionHead| + 1 || text[..|DescriptionHead|] != DescriptionHead
       || text[|text| - 1] != '.'
    then None
    else
      var body := text[|DescriptionHead|..|text| - 1];
      var i := FirstIndex(body, ']');
      if |body| - i < |TypeHead| || body[i..i + |TypeHead|] != TypeHead then None
      else Some(UnparsableOrMissingValue(Split(body[..i], ','), body[i + |TypeHead|..]))
  }

  /** The description loses nothing: when there are names and none contains
      `,` or `]`, the names and the type can be read back from it. */
  lemma DescriptionRoundTrip(e: ConfigError)
    requires |e.variableNames| > 0
    requires forall i :: 0 <= i < |e.variableNames| ==> !Contains(e.variableNames[i], ',')
    requires forall i :: 0 <= i < |e.variableNames| ==> !Contains(e.variableNames[i], ']')
    ensures DecodeDescription(ErrorDescription(e)) == Some(e)
  {
    var joined := Join(e.variableNames, ",");
    var text := ErrorDescription(e);
    var body := joined + TypeHead + e.typeName;
    assert text == DescriptionHead + body + ".";
    assert text[..|DescriptionHead|] == DescriptionHead;
    assert text[|DescriptionHead|..|text| - 1] == body;
    JoinAvoids(e.variableNames, ",", ']');
    assert body[|joined|] == ']';
    var i := FirstIndex(body, ']');
    assert i == |joined|;
    assert body[i..i + |TypeHead|] == TypeHead;
    assert body[..i] == joined;
    assert body[i + |TypeHead|..] == e.typeName;
    SplitJoin(e.variableNames, ',');
  }

  /** Hence two such errors with the same description are the same error. */
  lemma DescriptionInjective(a: ConfigError, b: ConfigError)
    requires |a.variableNames| > 0 && |b.variableNames| > 0
    requires forall i :: 0 <= i < |a.variableNames| ==>
               !Contains(a.variableNames[i], ',') && !Contains(a.variableNames[i], ']')
    requires forall i :: 0 <= i < |b.variableNames| ==>
               !Contains(b.variableNames[i], ',') && !Contains(b.variableNames[i], ']')
    requires ErrorDescription(a) == ErrorDescription(b)
    ensures a == b
  {
    DescriptionRoundTrip(a);
    DescriptionRoundTrip(b);
  }

  /** The error for the prefix test's field: one key, a String wanted. */
  lemma DescriptionExample()
    ensures ErrorDescription(UnparsableOrMissingValue(["string"], "String"))
         == "Missing or unparsable environment variable. Attempted names: [string]. Wanted type: String."
  {
    assert Join(["string"], ",") == "string";
    assert ErrorDescription(UnparsableOrMissingValue(["string"], "String"))
        == DescriptionHead + "string" + TypeHead + "String" + ".";
  }
}
