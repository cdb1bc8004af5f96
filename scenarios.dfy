/**
  Concrete shapes of records: the worked examples of the projection, and the
  inputs on which the flatten type assertion panics.
*/
module Scenarios {
  import opened Reflect
  import opened Tags
  import opened FieldAccess
  import opened Structs
  import opened StructsProperties

  // ---------------------------------------------------------------------------
  // Examples
  // ---------------------------------------------------------------------------

  /** The directives of a tag "name,opt" with comma-free name and option. */
  lemma OneOption(d: FieldDecl, tagName: string, name: string, opt: string)
    requires ',' !in name && ',' !in opt && TagGet(d.tag, tagName) == name + "," + opt
    ensures Directives(d, tagName) == Tag(name, [opt])
    ensures KeyOf(d, tagName) == if name == "" then d.name else name
    ensures HasOpt(d, tagName, "omitempty") <==> opt == "omitempty"
    ensures HasOpt(d, tagName, "omitnested") <==> opt == "omitnested"
    ensures HasOpt(d, tagName, "flatten") <==> opt == "flatten"
    ensures HasOpt(d, tagName, "string") <==> opt == "string"
  {
    var tag := name + "," + opt;
    assert tag[..|name|] == name && tag[|name| + 1..] == opt;
    ParseTagFirstComma(tag, |name|);
    SplitNoComma(opt);
  }

  /** The directives of `json:",flatten"`. */
  lemma FlattenTag(d: FieldDecl)
    requires d.tag == map["json" := ",flatten"]
    ensures Directives(d, DefaultTagName) == Tag("", ["flatten"]) && KeyOf(d, DefaultTagName) == d.name
    ensures HasOpt(d, DefaultTagName, "flatten") && !HasOpt(d, DefaultTagName, "omitempty")
    ensures !HasOpt(d, DefaultTagName, "string") && !HasOpt(d, DefaultTagName, "omitnested")
  {
    assert TagGet(d.tag, DefaultTagName) == ",flatten";
    assert ",flatten" == "" + "," + "flatten";
    OneOption(d, DefaultTagName, "", "flatten");
  }

  /** A record of three fields, the first stored under key as g, the second skipped
      and the third excluded, maps to {key: g} and has the values [g]. */
  lemma StoredSkippedExcluded(sv: Value, tagName: string, str: Stringer, key: string, g: Generic)
    requires sv.StructV? && |sv.fields| == 3
    requires Keeps(sv.fields[0].field, tagName, true) && Contribute(sv.fields[0], tagName, str) == Store(key, g)
    requires FieldValues(sv.fields[0], tagName, str) == [g]
    requires Contribute(sv.fields[1], tagName, str) == Skip && FieldValues(sv.fields[1], tagName, str) == []
    requires !Keeps(sv.fields[2].field, tagName, true)
    ensures MapOf(sv, tagName, str) == map[key := g]
    ensures ValuesOf(sv, tagName, str) == [g]
  {
    assert FillUpTo(map[], sv, 0, tagName, str) == map[];
    assert ValuesUpTo(sv, 0, tagName, str) == [];
    assert FillUpTo(map[], sv, 2, tagName, str) == map[key := g];
    assert ValuesUpTo(sv, 2, tagName, str) == [g];
  }

  /** {Name string; Age int `json:"age,omitempty"`; Secret string `json:"-"`} with
      Age zero maps to {"Name": Name} and has the values [Name]. */
  lemma OmitAndExcludeExample(sv: Value, name: FieldDecl, age: FieldDecl, secret: FieldDecl, str: Stringer)
    requires name.name == "Name" && name.pkgPath == "" && name.tag == map[]
    requires age.pkgPath == "" && age.tag == map["json" := "age,omitempty"]
    requires secret.tag == map["json" := "-"]
    requires sv.StructV? && |sv.fields| == 3
    requires sv.fields[0].field == name && sv.fields[0].val.BasicV?
    requires sv.fields[1].field == age && IsZeroValue(sv.fields[1].val)
    requires sv.fields[2].field == secret
    ensures MapOf(sv, DefaultTagName, str) == map["Name" := Raw(sv.fields[0].val)]
    ensures ValuesOf(sv, DefaultTagName, str) == [Raw(sv.fields[0].val)]
  {
    var f0 := sv.fields[0];
    var f1 := sv.fields[1];
    assert Keeps(name, DefaultTagName, true) &&
           Contribute(f0, DefaultTagName, str) == Store("Name", Raw(f0.val)) &&
           FieldValues(f0, DefaultTagName, str) == [Raw(f0.val)] by {
      assert TagGet(name.tag, DefaultTagName) == "";
      PlainContribution(f0, DefaultTagName, str);
    }
    assert Contribute(f1, DefaultTagName, str) == Skip && FieldValues(f1, DefaultTagName, str) == [] by {
      assert TagGet(age.tag, DefaultTagName) == "age,omitempty";
      assert "age,omitempty" == "age" + "," + "omitempty";
      OneOption(age, DefaultTagName, "age", "omitempty");
      OmittedAddsNothing(f1, DefaultTagName, str);
    }
    assert !Keeps(secret, DefaultTagName, true) by {
      assert TagGet(secret.tag, DefaultTagName) == "-";
    }
    StoredSkippedExcluded(sv, DefaultTagName, str, "Name", Raw(f0.val));
  }

  /** A struct with one plain exported field maps to that field under its name
      and has that field's value as its only value. */
  lemma OnePlainField(sv: Value, tagName: string, str: Stringer)
    requires sv.StructV? && |sv.fields| == 1 && sv.fields[0].field.pkgPath == ""
    requires sv.fields[0].val.BasicV? && TagGet(sv.fields[0].field.tag, tagName) == ""
    ensures MapOf(sv, tagName, str) == map[sv.fields[0].field.name := Raw(sv.fields[0].val)]
    ensures ValuesOf(sv, tagName, str) == [Raw(sv.fields[0].val)]
  {
    PlainContribution(sv.fields[0], tagName, str);
    assert Keeps(sv.fields[0].field, tagName, true);
    assert FillUpTo(map[], sv, 0, tagName, str) == map[];
    assert ValuesUpTo(sv, 0, tagName, str) == [];
  }

  /** The map of a record with one kept field is what that field contributes. */
  lemma OneKeptField(sv: Value, tagName: string, str: Stringer)
    requires sv.StructV? && |sv.fields| == 1 && Keeps(sv.fields[0].field, tagName, true)
    ensures MapOf(sv, tagName, str) == Apply(map[], Contribute(sv.fields[0], tagName, str))
  {
    assert FillUpTo(map[], sv, 0, tagName, str) == map[];
  }

  /** {Inner struct{X int} `json:",flatten"`} maps to {"X": X}. */
  lemma FlattenExample(sv: Value, inner: FieldDecl, x: FieldDecl, str: Stringer)
    requires inner.pkgPath == "" && inner.tag == map["json" := ",flatten"]
    requires x.pkgPath == "" && x.tag == map[]
    requires sv.StructV? && |sv.fields| == 1 && sv.fields[0].field == inner
    requires sv.fields[0].val.StructV? && |sv.fields[0].val.fields| == 1
    requires sv.fields[0].val.fields[0].field == x && sv.fields[0].val.fields[0].val.BasicV?
    ensures MapOf(sv, DefaultTagName, str) == map[x.name := Raw(sv.fields[0].val.fields[0].val)]
  {
    var iv := sv.fields[0].val;
    assert TagGet(x.tag, DefaultTagName) == "";
    OnePlainField(iv, DefaultTagName, str);
    FlattenTag(inner);
    assert Indirect1(iv) == Some(iv);
    FlattenMergesStruct(map[], sv.fields[0], DefaultTagName, str);
    assert TagGet(inner.tag, DefaultTagName) == ",flatten";
    OneKeptField(sv, DefaultTagName, str);
  }

  /** Map reads a nested struct under the parent's tag name, Values under
      DefaultTagName: with tag name "yaml" and an inner field tagged `yaml:"-"`, the
      inner field is missing from the map but present among the values. */
  lemma ValuesUseDefaultTag(sv: Value, inner: FieldDecl, x: FieldDecl, str: Stringer)
    requires inner.pkgPath == "" && inner.tag == map[]
    requires x.pkgPath == "" && x.tag == map["yaml" := "-"]
    requires sv.StructV? && |sv.fields| == 1 && sv.fields[0].field == inner
    requires sv.fields[0].val.StructV? && |sv.fields[0].val.fields| == 1
    requires sv.fields[0].val.fields[0].field == x && sv.fields[0].val.fields[0].val.BasicV?
    ensures ValuesOf(sv, "yaml", str) == [Raw(sv.fields[0].val.fields[0].val)]
    ensures MapOf(sv, "yaml", str) == map[inner.name := Raw(sv.fields[0].val)]
  {
    var f0 := sv.fields[0];
    var iv := f0.val;
    assert TagGet(x.tag, "yaml") == "-" && !Keeps(x, "yaml", true);
    assert FillUpTo(map[], iv, 0, "yaml", str) == map[];
    assert MapOf(iv, "yaml", str) == map[];
    assert TagGet(x.tag, DefaultTagName) == "";
    OnePlainField(iv, DefaultTagName, str);
    EmptyStructStaysRaw(iv, "yaml", str);
    assert TagGet(inner.tag, "yaml") == "";
    ParseTagNoComma("");
    assert Keeps(inner, "yaml", true);
    assert IsStruct(iv);
    assert Contribute(f0, "yaml", str) == Store(inner.name, Raw(iv));
    assert FieldValues(f0, "yaml", str) == ValuesOf(iv, DefaultTagName, str);
    assert FillUpTo(map[], sv, 0, "yaml", str) == map[];
    assert ValuesUpTo(sv, 0, "yaml", str) == [];
  }

  /** `type inner struct{X int}; type Outer struct{inner}` behind a pointer: the
      handle of the unexported embedded `inner` cannot be read, but the handle of X
      that its Fields() gives can be read and set. */
  lemma ExportedUnderEmbedded(s: View)
    requires Resolves(s) && s.addressable && !ReadOnly(s) && Get(s).StructV? && |Get(s).fields| == 1
    requires var d := Get(s).fields[0].field; d.pkgPath != "" && d.anonymous && d.tag == map[]
    requires var v := Get(s).fields[0].val; v.StructV? && |v.fields| == 1
    requires var x := Get(s).fields[0].val.fields[0].field; x.pkgPath == "" && x.tag == map[]
    ensures var hs := Handles(s, Get(s).fields, DefaultTagName);
            |hs| == 1 && FieldAccess.Valid(hs[0]) && FieldAccess.Value(hs[0]) == Fail(UnexportedValue) &&
            Get(hs[0].value).StructV? &&
            var gs := Handles(hs[0].value, Get(hs[0].value).fields, "");
            |gs| == 1 && FieldAccess.Valid(gs[0]) &&
            FieldAccess.Value(gs[0]) == Ok(Get(s).fields[0].val.fields[0].val) && CanSet(gs[0].value)
  {
    var fs := Get(s).fields;
    assert Selected(fs, |fs|, DefaultTagName, false) == [0];
    HandlesView(s, DefaultTagName);
    var h := Handles(s, fs, DefaultTagName)[0];
    var gfs := Get(h.value).fields;
    assert Selected(gfs, |gfs|, "", false) == [0];
    HandlesView(h.value, "");
    HandlesReadable(h.value, "");
  }

  /** `struct { _ int; _ string }`: FieldByName("_") finds the first blank field, so
      the second handle getFields returns shows the declaration `_ string` but the int
      value of the first field, and its kind is the int's. */
  lemma RepeatedBlankFields(s: View, a: FieldDecl, b: FieldDecl, x: Value, y: Value)
    requires Resolves(s) && Get(s).StructV? && Get(s).fields == [FieldVal(a, x), FieldVal(b, y)]
    requires a.name == "_" && b.name == "_" && a.tag == map[] && b.tag == map[]
    requires x == BasicV(IntLit(0)) && y == BasicV(StringLit(""))
    ensures var hs := Handles(s, Get(s).fields, "");
            |hs| == 2 && hs[1].field == b && FieldAccess.Valid(hs[1]) && Current(hs[1]) == x && FieldAccess.Kind(hs[1]) == IntKind
  {
    var fs := Get(s).fields;
    assert TagGet(a.tag, "") == "" && TagGet(b.tag, "") == "";
    assert Selected(fs, |fs|, "", false) == [0, 1];
    assert Slot(fs, 1) == 0;
    HandlesView(s, "");
  }

  // ---------------------------------------------------------------------------
  // The flatten assertion
  // ---------------------------------------------------------------------------

  /** A struct whose kept fields are all omitted projects to the empty map. */
  lemma {:induction false} AllOmittedEmpty(sv: Value, n: nat, tagName: string, str: Stringer)
    requires sv.StructV? && n <= |sv.fields|
    requires forall k :: 0 <= k < n && Keeps(sv.fields[k].field, tagName, true) ==> Omitted(sv.fields[k], tagName)
    ensures FillUpTo(map[], sv, n, tagName, str) == map[]
    decreases n
  {
    if n > 0 {
      AllOmittedEmpty(sv, n - 1, tagName, str);
    }
  }

  /** A struct whose one field is omitted projects to the empty map. */
  lemma OneOmittedField(sv: Value, tagName: string, str: Stringer)
    requires sv.StructV? && |sv.fields| == 1 && Omitted(sv.fields[0], tagName)
    ensures MapOf(sv, tagName, str) == map[]
  {
    AllOmittedEmpty(sv, 1, tagName, str);
  }

  /** A flatten field holding a struct with an empty projection: as written, the
      type assertion on the struct panics; the corrected iteration stores the
      struct under the field's name. */
  lemma FlattenEmptyProjectionPanics(fv: FieldVal, str: Stringer)
    requires fv.field.tag == map["json" := ",flatten"]
    requires fv.val.StructV? && |MapOf(fv.val, DefaultTagName, str)| == 0
    ensures ContributeAsWritten(fv, DefaultTagName, str).None?
    ensures Contribute(fv, DefaultTagName, str) == Store(fv.field.name, Raw(fv.val))
  {
    FlattenTag(fv.field);
    EmptyStructStaysRaw(fv.val, DefaultTagName, str);
    FlattenFallsBack(map[], fv, DefaultTagName, str);
  }

  /** A flatten field of a map type whose elements are not expanded and are not
      interface{} (map[string]int or map[string]error, say): as written the type
      assertion panics; the
      corrected iteration stores the map under the field's name. */
  lemma FlattenScalarMapPanics(fv: FieldVal, str: Stringer)
    requires fv.field.tag == map["json" := ",flatten"]
    requires fv.val.MapV? && !ExpandsInMap(fv.val.elem) && fv.val.elem != InterfaceT(true)
    ensures ContributeAsWritten(fv, DefaultTagName, str).None?
    ensures Contribute(fv, DefaultTagName, str) == Store(fv.field.name, Raw(fv.val))
  {
    FlattenTag(fv.field);
    ScalarMapStaysRaw(fv.val, DefaultTagName, str);
    FlattenFallsBack(map[], fv, DefaultTagName, str);
  }

  /** `struct{X int `json:"x,omitempty"`}` with X zero projects to the empty map. */
  lemma OmittedInnerEmpty(inner: Value, str: Stringer)
    requires inner.StructV? && |inner.fields| == 1
    requires inner.fields[0].field.tag == map["json" := "x,omitempty"] && IsZeroValue(inner.fields[0].val)
    ensures MapOf(inner, DefaultTagName, str) == map[]
  {
    var x := inner.fields[0];
    assert Omitted(x, DefaultTagName) by {
      assert "x,omitempty" == "x" + "," + "omitempty";
      OneOption(x.field, DefaultTagName, "x", "omitempty");
    }
    OneOmittedField(inner, DefaultTagName, str);
  }

  /** The input that shows it: `Inner struct{X int `json:"x,omitempty"`}` tagged
      `json:",flatten"`, with X zero. */
  lemma FlattenPanicWitness(str: Stringer)
    ensures var inner := StructV("", [
              FieldVal(FieldDecl("X", BasicT(Int), "", false, map["json" := "x,omitempty"]), BasicV(IntLit(0)))]);
            var fv := FieldVal(FieldDecl("Inner", TypeOf(inner), "", false, map["json" := ",flatten"]), inner);
            ContributeAsWritten(fv, DefaultTagName, str).None? &&
            Contribute(fv, DefaultTagName, str) == Store("Inner", Raw(inner))
  {
    var inner := StructV("", [
      FieldVal(FieldDecl("X", BasicT(Int), "", false, map["json" := "x,omitempty"]), BasicV(IntLit(0)))]);
    var fv := FieldVal(FieldDecl("Inner", TypeOf(inner), "", false, map["json" := ",flatten"]), inner);
    OmittedInnerEmpty(inner, str);
    FlattenEmptyProjectionPanics(fv, str);
  }

  /** A field tagged `json:",string"` holding a record whose one kept field panics:
      as written the panic escapes, since nested runs before the string check;
      the corrected iteration stores the Stringer text or skips the field. */
  lemma StringOverPanickingRecord(fv: FieldVal, str: Stringer)
    requires fv.field.tag == map["json" := ",string"]
    requires fv.val.StructV? && |fv.val.fields| == 1
    requires Keeps(fv.val.fields[0].field, DefaultTagName, true)
    requires ContributeAsWritten(fv.val.fields[0], DefaultTagName, str).None?
    ensures ContributeAsWritten(fv, DefaultTagName, str).None?
    ensures Contribute(fv, DefaultTagName, str) ==
              if str(fv.val).Some? then Store(fv.field.name, Text(str(fv.val).value)) else Skip
  {
    assert TagGet(fv.field.tag, DefaultTagName) == ",string";
    assert ",string" == "" + "," + "string";
    OneOption(fv.field, DefaultTagName, "", "string");
    assert Indirect1(fv.val) == Some(fv.val);
    NestedPanicPropagates(fv, 0, DefaultTagName, str);
  }

  /** The input that shows it: a record `Mid` tagged `json:",string"` whose one
      field is the flatten field of FlattenPanicWitness. */
  lemma NestedPanicUnderString(str: Stringer)
    ensures var inner := StructV("", [
              FieldVal(FieldDecl("X", BasicT(Int), "", false, map["json" := "x,omitempty"]), BasicV(IntLit(0)))]);
            var mid := StructV("", [
              FieldVal(FieldDecl("Inner", TypeOf(inner), "", false, map["json" := ",flatten"]), inner)]);
            var fv := FieldVal(FieldDecl("Mid", TypeOf(mid), "", false, map["json" := ",string"]), mid);
            ContributeAsWritten(fv, DefaultTagName, str).None? &&
            Contribute(fv, DefaultTagName, str) ==
              if str(mid).Some? then Store("Mid", Text(str(mid).value)) else Skip
  {
    var inner := StructV("", [
      FieldVal(FieldDecl("X", BasicT(Int), "", false, map["json" := "x,omitempty"]), BasicV(IntLit(0)))]);
    var fvInner := FieldVal(FieldDecl("Inner", TypeOf(inner), "", false, map["json" := ",flatten"]), inner);
    var mid := StructV("", [fvInner]);
    var fv := FieldVal(FieldDecl("Mid", TypeOf(mid), "", false, map["json" := ",string"]), mid);
    FlattenPanicWitness(str);
    assert TagGet(fvInner.field.tag, DefaultTagName) == ",flatten";
    StringOverPanickingRecord(fv, str);
  }
}
