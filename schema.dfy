/** `sqlalchemy_to_pydantic` of src/server/storage/utils.py: which fields a request or response
    schema generated from a mapped class has, and which of them are required. What reflection
    reports about the class (`inspect(model_cls).attrs`, the `Mapped[...]` annotations, the
    column defaults and nullability) is an input. */
module Schema {
  import opened Common

  /** A field type: a named type, or `Optional[...]` of one. */
  datatype Ty = Named(name: string) | Opt(inner: Ty)

  /** A pydantic field default: `...` (required), `None`, or any other given value. */
  datatype FieldDefault = Required | NoneDefault | Given(value: Value)

  datatype FieldSpec = FieldSpec(ty: Ty, default: FieldDefault)

  /** One entry of `inspect(model_cls).attrs`: a column property, with the type inside its
      `Mapped[...]` annotation, whether the column has a default and whether it is nullable; or
      any other property (a relationship). */
  datatype Attr =
    | ColumnAttr(key: string, ty: Ty, hasDefault: bool, nullable: bool)
    | OtherAttr(key: string)

  /** The generated model: its name and its fields. */
  datatype PydanticModel = PydanticModel(name: string, fields: map<string, FieldSpec>)

  /** The mapper's attributes have distinct names. */
  predicate KeysDistinct(attrs: seq<Attr>) {
    forall i, j | 0 <= i < j < |attrs| :: attrs[i].key != attrs[j].key
  }

  /** `col_type.__name__ == "Optional"`. */
  predicate IsOptional(t: Ty) {
    t.Opt?
  }

  /** The field a column attribute produces. Every field is `(Optional[T], None)` when all fields
      are optional; otherwise a column without a default that is not nullable is required, and any
      other column defaults to None, its type made optional when defaults count as optional. */
  function ColumnField(a: Attr, treatDefaultAsOptional: bool, allFieldsOptional: bool): (f: FieldSpec)
    requires a.ColumnAttr?
  {
    if allFieldsOptional then FieldSpec(if IsOptional(a.ty) then a.ty else Opt(a.ty), NoneDefault)
    else if !a.hasDefault && !a.nullable then FieldSpec(a.ty, Required)
    else FieldSpec(if treatDefaultAsOptional && !IsOptional(a.ty) then Opt(a.ty) else a.ty, NoneDefault)
  }

  /** The fields the loop over `insp.attrs` collects: one per column attribute named in `keep`. */
  function ColumnFields(attrs: seq<Attr>, keep: set<string>, treatDefaultAsOptional: bool, allFieldsOptional: bool): map<string, FieldSpec>
  {
    if |attrs| == 0 then map[]
    else
      var fields := ColumnFields(attrs[..|attrs| - 1], keep, treatDefaultAsOptional, allFieldsOptional);
      var a := attrs[|attrs| - 1];
      if a.key in keep && a.ColumnAttr? then fields[a.key := ColumnField(a, treatDefaultAsOptional, allFieldsOptional)]
      else fields
  }

  /** The names of all attributes (the default of `include_fields`). */
  function Keys(attrs: seq<Attr>): (ks: set<string>)
    ensures forall k :: k in ks <==> exists i | 0 <= i < |attrs| :: attrs[i].key == k
  {
    if |attrs| == 0 then {}
    else
      var ks := Keys(attrs[..|attrs| - 1]);
      assert forall i | 0 <= i < |attrs| - 1 :: attrs[..|attrs| - 1][i] == attrs[i];
      ks + {attrs[|attrs| - 1].key}
  }

  /** `sqlalchemy_to_pydantic(model_cls, include_fields, exclude_fields,
      treat_default_as_optional, all_fields_optional, additional_attributes, name)`. */
  method SqlalchemyToPydantic(
    modelName: string, attrs: seq<Attr>,
    includeFields: Option<set<string>>, excludeFields: Option<set<string>>,
    treatDefaultAsOptional: bool, allFieldsOptional: bool,
    additionalAttributes: Option<map<string, FieldSpec>>, name: Option<string>
  ) returns (r: PydanticModel)
    ensures var included := if includeFields.Some? then includeFields.value else Keys(attrs);
      var excluded := if excludeFields.Some? then excludeFields.value else {};
      r.fields == ColumnFields(attrs, included - excluded, treatDefaultAsOptional, allFieldsOptional)
                  + additionalAttributes.GetOr(map[])
    ensures r.name == if name.Some? then name.value else modelName
  {
    var included: set<string>;
    if includeFields.None? {
      included := AttrKeys(attrs);
    } else {
      included := includeFields.value;
    }
    var excluded := if excludeFields.None? then {} else excludeFields.value;
    var additional := if additionalAttributes.None? then map[] else additionalAttributes.value;
    var fields := KeptColumnFields(attrs, included - excluded, treatDefaultAsOptional, allFieldsOptional);
    fields := fields + additional;
    r := PydanticModel(if name.None? then modelName else name.value, fields);
  }

  /** `[attr.key for attr in insp.attrs]`, as a set. */
  method AttrKeys(attrs: seq<Attr>) returns (ks: set<string>)
    ensures ks == Keys(attrs)
  {
    ks := {};
    var i := 0;
    while i < |attrs|
      invariant 0 <= i <= |attrs|
      invariant ks == Keys(attrs[..i])
    {
      assert attrs[..i + 1][..i] == attrs[..i];
      ks := ks + {attrs[i].key};
      i := i + 1;
    }
    assert attrs[..|attrs|] == attrs;
  }

  /** The loop over `insp.attrs` that adds a field for each kept column attribute. */
  method KeptColumnFields(attrs: seq<Attr>, keep: set<string>, treatDefaultAsOptional: bool, allFieldsOptional: bool)
    returns (fields: map<string, FieldSpec>)
    ensures fields == ColumnFields(attrs, keep, treatDefaultAsOptional, allFieldsOptional)
  {
    fields := map[];
    var i := 0;
    while i < |attrs|
      invariant 0 <= i <= |attrs|
      invariant fields == ColumnFields(attrs[..i], keep, treatDefaultAsOptional, allFieldsOptional)
    {
      assert attrs[..i + 1][..i] == attrs[..i];
      var a := attrs[i];
      if a.key in keep && a.ColumnAttr? {
        fields := fields[a.key := ColumnField(a, treatDefaultAsOptional, allFieldsOptional)];
      }
      i := i + 1;
    }
    assert attrs[..|attrs|] == attrs;
  }

  // ---------------------------------------------------------------- properties

  /** Exactly the column attributes named in `keep` produce fields: relationships never do. */
  lemma {:induction false} FieldsAreKeptColumns(attrs: seq<Attr>, keep: set<string>, treat: bool, allOpt: bool, k: string)
    ensures k in ColumnFields(attrs, keep, treat, allOpt) <==>
      k in keep && exists i | 0 <= i < |attrs| :: attrs[i].ColumnAttr? && attrs[i].key == k
  {
    if |attrs| > 0 {
      var init := attrs[..|attrs| - 1];
      FieldsAreKeptColumns(init, keep, treat, allOpt, k);
      assert forall i | 0 <= i < |init| :: init[i] == attrs[i];
      if k in keep && exists i | 0 <= i < |attrs| :: attrs[i].ColumnAttr? && attrs[i].key == k {
        var i :| 0 <= i < |attrs| && attrs[i].ColumnAttr? && attrs[i].key == k;
        if i < |init| {
          assert init[i].ColumnAttr? && init[i].key == k;
        }
      }
    }
  }

  /** The field of column attribute `attrs[i]`, when kept, is the one `ColumnField` describes. */
  lemma {:induction false} FieldOfColumn(attrs: seq<Attr>, keep: set<string>, treat: bool, allOpt: bool, i: int)
    requires KeysDistinct(attrs)
    requires 0 <= i < |attrs| && attrs[i].ColumnAttr? && attrs[i].key in keep
    ensures attrs[i].key in ColumnFields(attrs, keep, treat, allOpt)
    ensures ColumnFields(attrs, keep, treat, allOpt)[attrs[i].key] == ColumnField(attrs[i], treat, allOpt)
  {
    var init := attrs[..|attrs| - 1];
    if i < |attrs| - 1 {
      assert init[i] == attrs[i];
      FieldOfColumn(init, keep, treat, allOpt, i);
      assert attrs[|attrs| - 1].key != attrs[i].key;
    }
  }

  /** Unless every field is optional, the field of a column is required exactly when the column
      has no default and is not nullable. */
  lemma RequiredIffNoDefault(attrs: seq<Attr>, keep: set<string>, treat: bool, i: int)
    requires KeysDistinct(attrs)
    requires 0 <= i < |attrs| && attrs[i].ColumnAttr? && attrs[i].key in keep
    ensures var fields := ColumnFields(attrs, keep, treat, false);
      attrs[i].key in fields &&
      (fields[attrs[i].key].default == Required <==> !attrs[i].hasDefault && !attrs[i].nullable)
  {
    FieldOfColumn(attrs, keep, treat, false, i);
  }

  /** With `all_fields_optional` every column field is optional and defaults to None. */
  lemma {:induction false} AllOptional(attrs: seq<Attr>, keep: set<string>, treat: bool)
    ensures forall k | k in ColumnFields(attrs, keep, treat, true) ::
      IsOptional(ColumnFields(attrs, keep, treat, true)[k].ty) && ColumnFields(attrs, keep, treat, true)[k].default == NoneDefault
  {
    if |attrs| > 0 {
      AllOptional(attrs[..|attrs| - 1], keep, treat);
    }
  }

  /** With `treat_default_as_optional`, every field that is not required has an optional type. */
  lemma {:induction false} DefaultsOptional(attrs: seq<Attr>, keep: set<string>)
    ensures forall k | k in ColumnFields(attrs, keep, true, false) && ColumnFields(attrs, keep, true, false)[k].default != Required ::
      IsOptional(ColumnFields(attrs, keep, true, false)[k].ty)
  {
    if |attrs| > 0 {
      DefaultsOptional(attrs[..|attrs| - 1], keep);
    }
  }

  /** The generated fields are the kept columns and the additional attributes, and the
      additional attributes win on a clash. */
  lemma SchemaFields(attrs: seq<Attr>, included: set<string>, excluded: set<string>, treat: bool, allOpt: bool,
                     additional: map<string, FieldSpec>, k: string)
    ensures var fields := ColumnFields(attrs, included - excluded, treat, allOpt) + additional;
      && (k in fields <==> k in additional || (k in included && k !in excluded && exists i | 0 <= i < |attrs| :: attrs[i].ColumnAttr? && attrs[i].key == k))
      && (k in additional ==> fields[k] == additional[k])
  {
    FieldsAreKeptColumns(attrs, included - excluded, treat, allOpt, k);
  }
}
