/**
 * The request validation that gin runs on `binding:"..."` struct tags
 * (go-playground/validator): the rules used by this program, the first
 * broken rule of a field, and the error text the handlers send back.
 */
module Binding {
  import opened Wrappers
  import opened Text

  datatype Rule = Required | Email | Min(n: nat) | OneOf(options: seq<string>)

  /** The tag name the validator reports for a broken rule. */
  function Tag(r: Rule): string
  {
    match r
    case Required => "required"
    case Email => "email"
    case Min(_) => "min"
    case OneOf(_) => "oneof"
  }

  predicate IsSpace(c: char) { c == ' ' || c == '\t' || c == '\r' || c == '\n' }

  /** A host name: at least two dot-separated labels, none empty. */
  predicate IsDomain(d: string)
  {
    var labels := Split(d, '.');
    |labels| >= 2 && forall i :: 0 <= i < |labels| ==> labels[i] != ""
  }

  /**
   * The `email` rule, approximated: one '@' with a non-empty local part
   * before it, a host name after it, and no white space.
   */
  predicate IsEmail(s: string)
  {
    var parts := Split(s, '@');
    |parts| == 2 && parts[0] != "" && IsDomain(parts[1])
    && forall i :: 0 <= i < |s| ==> !IsSpace(s[i])
  }

  /** Whether a string field value keeps a rule; `min` counts characters. */
  predicate Satisfies(v: string, r: Rule)
  {
    match r
    case Required => v != ""
    case Email => IsEmail(v)
    case Min(n) => |v| >= n
    case OneOf(options) => v in options
  }

  /** A string field and its tag: `omitEmpty` skips every rule for an empty value. */
  datatype Field = Field(name: string, value: string, omitEmpty: bool, rules: seq<Rule>)

  /** The value keeps every rule of the list. */
  predicate AllSatisfied(v: string, rules: seq<Rule>)
    decreases |rules|
  {
    rules == [] || (Satisfies(v, rules[0]) && AllSatisfied(v, rules[1..]))
  }

  predicate FieldOk(f: Field)
  {
    (f.omitEmpty && f.value == "") || AllSatisfied(f.value, f.rules)
  }

  /** The first rule of the tag that the value breaks; the validator stops there. */
  function FirstBroken(v: string, rules: seq<Rule>): (r: Option<Rule>)
    ensures r.None? <==> AllSatisfied(v, rules)
    ensures r.Some? ==> exists k :: 0 <= k < |rules| && rules[k] == r.value
                                    && !Satisfies(v, rules[k]) && AllSatisfied(v, rules[..k])
    decreases |rules|
  {
    if rules == [] then None
    else if !Satisfies(v, rules[0]) then
      assert rules[..0] == [];
      Some(rules[0])
    else
      var r := FirstBroken(v, rules[1..]);
      if r.Some? then
        var k :| 0 <= k < |rules[1..]| && rules[1..][k] == r.value
                 && !Satisfies(v, rules[1..][k]) && AllSatisfied(v, rules[1..][..k]);
        assert rules[..k + 1][1..] == rules[1..][..k];
        assert rules[k + 1] == r.value;
        r
      else r
  }

  /** One entry of validator.ValidationErrors. */
  datatype FieldError = FieldError(namespace: string, field: string, tag: string)

  /**
   * A field's error: it is named `Struct.Field` and `Field`, and carries the
   * tag of the first rule of the field's list that the value breaks.
   */
  function FieldCheck(structName: string, f: Field): (r: Option<FieldError>)
    ensures r.None? <==> FieldOk(f)
    ensures r.Some? ==> r.value.namespace == structName + "." + f.name && r.value.field == f.name
    ensures r.Some? ==> exists k :: 0 <= k < |f.rules| && r.value.tag == Tag(f.rules[k])
                                    && !Satisfies(f.value, f.rules[k]) && AllSatisfied(f.value, f.rules[..k])
  {
    if f.omitEmpty && f.value == "" then None
    else
      match FirstBroken(f.value, f.rules)
      case None => None
      case Some(rule) => Some(FieldError(structName + "." + f.name, f.name, Tag(rule)))
  }

  /** The errors of a struct, one per failing field, in field order. */
  function Validate(structName: string, fields: seq<Field>): (errs: seq<FieldError>)
    ensures errs == [] <==> forall i :: 0 <= i < |fields| ==> FieldOk(fields[i])
    ensures |errs| <= |fields|
    ensures forall e :: e in errs <==> exists i :: 0 <= i < |fields| && FieldCheck(structName, fields[i]) == Some(e)
    decreases |fields|
  {
    if fields == [] then []
    else
      var rest := Validate(structName, fields[1..]);
      assert forall i :: 1 <= i < |fields| ==> fields[i] == fields[1..][i - 1];
      match FieldCheck(structName, fields[0])
      case None => rest
      case Some(e) => [e] + rest
  }

  /** Validation is field by field: the errors of two field lists follow each other. */
  lemma {:induction false} ValidateConcat(structName: string, a: seq<Field>, b: seq<Field>)
    ensures Validate(structName, a + b) == Validate(structName, a) + Validate(structName, b)
    decreases |a|
  {
    if a == [] {
      assert a + b == b;
    } else {
      assert (a + b)[1..] == a[1..] + b;
      ValidateConcat(structName, a[1..], b);
    }
  }

  /** A single field gives its own error, if any. */
  lemma ValidateOne(structName: string, f: Field)
    ensures Validate(structName, [f]) == if FieldOk(f) then [] else [FieldCheck(structName, f).value]
  {
    assert [f][1..] == [];
  }

  /** FieldError.Error(). */
  function FieldErrorText(e: FieldError): string
  {
    "Key: '" + e.namespace + "' Error:Field validation for '" + e.field + "' failed on the '" + e.tag + "' tag"
  }

  /** ValidationErrors.Error(): the entries' texts, one per line. */
  function ErrorText(errs: seq<FieldError>): string
    decreases |errs|
  {
    if errs == [] then ""
    else if |errs| == 1 then FieldErrorText(errs[0])
    else FieldErrorText(errs[0]) + "\n" + ErrorText(errs[1..])
  }
}
