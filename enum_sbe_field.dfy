/** An SBE enumeration field: an immutable value with a name and a map from
    enumeration names to their integer values. */
module EnumSbeFields {
  import opened Results

  /** The Beam field types the SBE fields of this model turn into. The
      enumeration logical type is kept opaque: it is identified by the
      values it was created from. */
  datatype FieldType = EnumerationLogicalType(values: map<string, int>)

  /** A Beam schema field: a name and a field type. */
  datatype BeamField = BeamField(name: string, fieldType: FieldType)

  datatype EnumSbeField = EnumSbeField(name: string, values: map<string, int>)

  /** An enumeration field is always required, whatever its values. */
  function IsRequired(field: EnumSbeField): (required: bool)
    ensures required
  {
    true
  }

  /** The Beam field for an enumeration: its name, and an enumeration type
      created from exactly its values. */
  function AsBeamField(field: EnumSbeField): (r: BeamField)
    ensures r.name == field.name
    ensures r.fieldType.EnumerationLogicalType? && r.fieldType.values == field.values
  {
    BeamField(field.name, EnumerationLogicalType(field.values))
  }

  /** The AutoValue builder: each property is unset until its setter runs. */
  datatype Builder = Builder(name: Option<string>, values: Option<map<string, int>>)

  function NewBuilder(): Builder {
    Builder(None, None)
  }

  function SetName(b: Builder, name: string): Builder {
    b.(name := Some(name))
  }

  function SetValues(b: Builder, values: map<string, int>): Builder {
    b.(values := Some(values))
  }

  /** `build()`: the AutoValue check for unset properties, then the check
      that there is at least one enumeration option. */
  function Build(b: Builder): (r: Result<EnumSbeField>)
    ensures r.Ok? <==> b.name.Some? && b.values.Some? && |b.values.value| > 0
    ensures r.Ok? ==> r.value.name == b.name.value && r.value.values == b.values.value
    ensures r.Throws? ==> r.exception.IllegalState?
  {
    if b.name.None? then Throws(IllegalState("Missing required properties: name"))
    else if b.values.None? then Throws(IllegalState("Missing required properties: values"))
    else if |b.values.value| == 0 then Throws(IllegalState("Must have at least one enum option"))
    else Ok(EnumSbeField(b.name.value, b.values.value))
  }

  /** Setting a name and non-empty values and building gives a field whose
      Beam form has that name and an enumeration of exactly those values;
      empty values are refused with an illegal-state exception. */
  lemma BuildThenAsBeamField(name: string, values: map<string, int>)
    ensures var r := Build(SetValues(SetName(NewBuilder(), name), values));
      && (values == map[] <==> r == Throws(IllegalState("Must have at least one enum option")))
      && (values != map[] ==> r.Ok? && AsBeamField(r.value) == BeamField(name, EnumerationLogicalType(values)))
  {
    if values != map[] {
      assert values.Keys != {};
      var k :| k in values.Keys;
      assert |values| > 0;
    }
  }
}
