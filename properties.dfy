/**
  What the projections promise: directive interplay, the map never losing keys,
  excluded fields having no effect, the round trip for plain records, the zero
  tests as quantified statements, and the flatten assertion.
*/
module StructsProperties {
  import opened Reflect
  import opened Tags
  import opened FieldAccess
  import opened Structs

  // ---------------------------------------------------------------------------
  // FillMap
  // ---------------------------------------------------------------------------

  /** FillMap only inserts or overwrites: every key already in out survives. */
  lemma {:induction false} FillNeverRemoves(out: map<string, Generic>, sv: Value, n: nat,
                                            tagName: string, str: Stringer)
    requires sv.StructV? && n <= |sv.fields|
    ensures out.Keys <= FillUpTo(out, sv, n, tagName, str).Keys
    decreases n
  {
    if n > 0 {
      FillNeverRemoves(out, sv, n - 1, tagName, str);
    }
  }

  /** A kept field under omitempty whose value is the zero of its type adds no key. */
  lemma OmitEmptyAddsNothing(out: map<string, Generic>, fv: FieldVal, tagName: string, str: Stringer)
    requires Omitted(fv, tagName)
    ensures Apply(out, Contribute(fv, tagName, str)) == out
  {
  }

  /** An omitted field contributes nothing to Values either. */
  lemma OmittedAddsNothing(fv: FieldVal, tagName: string, str: Stringer)
    requires Omitted(fv, tagName)
    ensures Contribute(fv, tagName, str) == Skip
    ensures FieldValues(fv, tagName, str) == []
  {
  }

  /** Under string the key holds the String() text, or is left alone when the value
      has no String method, whatever flatten and omitnested say. */
  lemma StringWins(out: map<string, Generic>, fv: FieldVal, tagName: string, str: Stringer)
    requires !Omitted(fv, tagName) && HasOpt(fv.field, tagName, "string")
    ensures str(fv.val).None? ==> Apply(out, Contribute(fv, tagName, str)) == out
    ensures str(fv.val).Some? ==>
              Apply(out, Contribute(fv, tagName, str)) ==
              out[KeyOf(fv.field, tagName) := Text(str(fv.val).value)]
  {
  }

  /** Under omitnested (without string) the field is stored under its key as it is,
      even when flatten is set. */
  lemma OmitNestedStoresRaw(out: map<string, Generic>, fv: FieldVal, tagName: string, str: Stringer)
    requires !Omitted(fv, tagName) && !HasOpt(fv.field, tagName, "string")
    requires HasOpt(fv.field, tagName, "omitnested")
    ensures Apply(out, Contribute(fv, tagName, str)) == out[KeyOf(fv.field, tagName) := Raw(fv.val)]
  {
  }

  /** Under flatten, a sub-struct whose projection is a non-empty map has that map's
      entries copied into out, later entries winning, and no key of its own. */
  lemma FlattenMergesStruct(out: map<string, Generic>, fv: FieldVal, tagName: string, str: Stringer)
    requires !Omitted(fv, tagName) && !HasOpt(fv.field, tagName, "string")
    requires !HasOpt(fv.field, tagName, "omitnested") && HasOpt(fv.field, tagName, "flatten")
    requires IsStruct(fv.val) && |MapOf(Indirect1(fv.val).value, tagName, str)| > 0
    ensures Apply(out, Contribute(fv, tagName, str)) == out + MapOf(Indirect1(fv.val).value, tagName, str)
  {
    NestedStruct(fv.val, tagName, str);
    ContributeProjected(fv, tagName, str, Nested(fv.val, tagName, str), true);
  }

  /** flatten applies only to a struct or a map (after one pointer): anything else
      is stored under its key as nested projects it. */
  lemma FlattenNeedsSubStruct(out: map<string, Generic>, fv: FieldVal, tagName: string, str: Stringer)
    requires !Omitted(fv, tagName) && !HasOpt(fv.field, tagName, "string")
    requires !HasOpt(fv.field, tagName, "omitnested") && !IsSubStruct(fv.val)
    ensures Apply(out, Contribute(fv, tagName, str)) ==
            out[KeyOf(fv.field, tagName) := Nested(fv.val, tagName, str)]
  {
  }

  /** The corrected flatten: a sub-struct or map whose projection is not a
      map[string]interface{} is stored under its key, as it is. */
  lemma FlattenFallsBack(out: map<string, Generic>, fv: FieldVal, tagName: string, str: Stringer)
    requires !Omitted(fv, tagName) && !HasOpt(fv.field, tagName, "string")
    requires !HasOpt(fv.field, tagName, "omitnested") && HasOpt(fv.field, tagName, "flatten")
    requires IsSubStruct(fv.val) && AsObject(Nested(fv.val, tagName, str)).None?
    ensures Contribute(fv, tagName, str) == Store(KeyOf(fv.field, tagName), Raw(fv.val))
    ensures Apply(out, Contribute(fv, tagName, str)) == out[KeyOf(fv.field, tagName) := Raw(fv.val)]
  {
  }

  /** A struct whose own projection is empty passes through nested as it is, and
      is not a map[string]interface{} that flatten could merge. */
  lemma EmptyStructStaysRaw(v: Value, tagName: string, str: Stringer)
    requires v.StructV? && |MapOf(v, tagName, str)| == 0
    ensures IsSubStruct(v) && Nested(v, tagName, str) == Raw(v) && AsObject(Raw(v)).None?
  {
    assert Indirect1(v) == Some(v);
    NestedStruct(v, tagName, str);
  }

  /** A map whose elements are neither expanded nor interface{} passes through
      nested as it is, and is not a map[string]interface{}. */
  lemma ScalarMapStaysRaw(v: Value, tagName: string, str: Stringer)
    requires v.MapV? && !ExpandsInMap(v.elem) && v.elem != InterfaceT(true)
    ensures IsSubStruct(v) && Nested(v, tagName, str) == Raw(v) && AsObject(Raw(v)).None?
  {
    assert Indirect1(v) == Some(v);
    NestedOther(v, tagName, str);
  }

  /** The key of a field whose tag has no comma is the tag itself, or the declared
      name when the tag is empty. */
  lemma KeyOfNoComma(d: FieldDecl, tagName: string)
    requires ',' !in TagGet(d.tag, tagName)
    ensures KeyOf(d, tagName) == if TagGet(d.tag, tagName) == "" then d.name else TagGet(d.tag, tagName)
  {
    ParseTagNoComma(TagGet(d.tag, tagName));
  }

  /** The key of a field whose tag has its first comma at c is the text before it,
      or the declared name when that text is empty. */
  lemma KeyOfFirstComma(d: FieldDecl, tagName: string, c: nat)
    requires var tag := TagGet(d.tag, tagName); c < |tag| && tag[c] == ',' && ',' !in tag[..c]
    ensures var tag := TagGet(d.tag, tagName);
            KeyOf(d, tagName) == if c == 0 then d.name else tag[..c]
  {
    ParseTagFirstComma(TagGet(d.tag, tagName), c);
  }

  // ---------------------------------------------------------------------------
  // The projection as written
  // ---------------------------------------------------------------------------

  /** nested runs before the string check, so as written a panic in the map fill
      of a sub-struct's kept field reaches the enclosing field whatever its string
      and flatten directives say; only omitempty (on a zero value) and omitnested
      keep it from running. */
  lemma NestedPanicPropagates(fv: FieldVal, k: nat, tagName: string, str: Stringer)
    requires !Omitted(fv, tagName) && !HasOpt(fv.field, tagName, "omitnested") && IsStruct(fv.val)
    requires var sv := Indirect1(fv.val).value;
             k < |sv.fields| && Keeps(sv.fields[k].field, tagName, true) &&
             ContributeAsWritten(sv.fields[k], tagName, str).None?
    ensures ContributeAsWritten(fv, tagName, str).None?
  {
    var sv := Indirect1(fv.val).value;
    FillPanicsIff(map[], sv, |sv.fields|, tagName, str);
    NestedStructPanics(fv.val, tagName, str);
    ContributePanics(fv, tagName, str);
  }

  /** Where FillMap as written does not panic, it leaves the map the corrected
      fold leaves; and it does not panic when no kept field panics. */
  lemma {:induction false} FillAsWrittenAgrees(out: map<string, Generic>, sv: Value, n: nat,
                                               tagName: string, str: Stringer)
    requires sv.StructV? && n <= |sv.fields|
    requires forall k :: 0 <= k < n && Keeps(sv.fields[k].field, tagName, true) ==>
               ContributeAsWritten(sv.fields[k], tagName, str).Some?
    ensures FillUpToAsWritten(out, sv, n, tagName, str) == Some(FillUpTo(out, sv, n, tagName, str))
  {
    if n > 0 {
      FillAsWrittenAgrees(out, sv, n - 1, tagName, str);
    }
  }

  // ---------------------------------------------------------------------------
  // Values
  // ---------------------------------------------------------------------------

  /** What one field adds to Values, directive by directive: nothing when omitted;
      under string the Stringer text or nothing; a struct (after one pointer) not
      marked omitnested is replaced by its own values read under the default tag;
      anything else is added as it is. */
  lemma FieldValuesRules(fv: FieldVal, tagName: string, str: Stringer)
    ensures Omitted(fv, tagName) ==> FieldValues(fv, tagName, str) == []
    ensures !Omitted(fv, tagName) && HasOpt(fv.field, tagName, "string") ==>
              FieldValues(fv, tagName, str) == if str(fv.val).Some? then [Text(str(fv.val).value)] else []
    ensures !Omitted(fv, tagName) && !HasOpt(fv.field, tagName, "string") &&
            IsStruct(fv.val) && !HasOpt(fv.field, tagName, "omitnested") ==>
              FieldValues(fv, tagName, str) == ValuesOf(Indirect1(fv.val).value, DefaultTagName, str)
    ensures !Omitted(fv, tagName) && !HasOpt(fv.field, tagName, "string") &&
            (!IsStruct(fv.val) || HasOpt(fv.field, tagName, "omitnested")) ==>
              FieldValues(fv, tagName, str) == [Raw(fv.val)]
  {
  }

  /** Values and Map agree field by field: a field Map skips adds no value, a
      Stringer text Map stores is the one value Values adds, and an omitnested
      field Map stores as it is is the one value Values adds. */
  lemma ValuesFollowContribute(fv: FieldVal, tagName: string, str: Stringer)
    ensures Contribute(fv, tagName, str).Skip? ==> FieldValues(fv, tagName, str) == []
    ensures Contribute(fv, tagName, str).Store? && Contribute(fv, tagName, str).g.Text? ==>
              FieldValues(fv, tagName, str) == [Contribute(fv, tagName, str).g]
    ensures !Omitted(fv, tagName) && !HasOpt(fv.field, tagName, "string") &&
            HasOpt(fv.field, tagName, "omitnested") ==>
              Contribute(fv, tagName, str) == Store(KeyOf(fv.field, tagName), Raw(fv.val)) &&
              FieldValues(fv, tagName, str) == [Raw(fv.val)]
  {
    FieldValuesRules(fv, tagName, str);
  }

  /** A kept field that Map skips leaves the values so far unchanged. */
  lemma SkippedAddsNoValue(sv: Value, n: nat, tagName: string, str: Stringer)
    requires sv.StructV? && 0 < n <= |sv.fields|
    ensures Contribute(sv.fields[n - 1], tagName, str).Skip? ==>
              ValuesUpTo(sv, n, tagName, str) == ValuesUpTo(sv, n - 1, tagName, str)
  {
    ValuesFollowContribute(sv.fields[n - 1], tagName, str);
  }

  // ---------------------------------------------------------------------------
  // Excluded fields
  // ---------------------------------------------------------------------------

  /** sv with the value of field j replaced by x. */
  function WithField(sv: Value, j: nat, x: Value): (w: Value)
    requires sv.StructV? && j < |sv.fields|
    ensures w.StructV? && |w.fields| == |sv.fields|
    ensures forall k :: 0 <= k < |sv.fields| && k != j ==> w.fields[k] == sv.fields[k]
    ensures w.fields[j] == FieldVal(sv.fields[j].field, x)
  {
    StructV(sv.name, sv.fields[j := FieldVal(sv.fields[j].field, x)])
  }

  lemma {:induction false} FillExcluded(out: map<string, Generic>, sv: Value, j: nat, x: Value, n: nat,
                                        tagName: string, str: Stringer)
    requires sv.StructV? && j < |sv.fields| && n <= |sv.fields|
    requires !Keeps(sv.fields[j].field, tagName, true)
    ensures FillUpTo(out, WithField(sv, j, x), n, tagName, str) == FillUpTo(out, sv, n, tagName, str)
    decreases n
  {
    if n > 0 {
      FillExcluded(out, sv, j, x, n - 1, tagName, str);
    }
  }

  lemma {:induction false} ValuesExcluded(sv: Value, j: nat, x: Value, n: nat, tagName: string, str: Stringer)
    requires sv.StructV? && j < |sv.fields| && n <= |sv.fields|
    requires !Keeps(sv.fields[j].field, tagName, true)
    ensures ValuesUpTo(WithField(sv, j, x), n, tagName, str) == ValuesUpTo(sv, n, tagName, str)
    decreases n
  {
    if n > 0 {
      ValuesExcluded(sv, j, x, n - 1, tagName, str);
    }
  }

  lemma {:induction false} ZeroScansExcluded(sv: Value, j: nat, x: Value, i: nat, tagName: string)
    requires sv.StructV? && j < |sv.fields| && i <= |sv.fields|
    requires !Keeps(sv.fields[j].field, tagName, true)
    ensures IsZeroFrom(WithField(sv, j, x), i, tagName) == IsZeroFrom(sv, i, tagName)
    ensures HasZeroFrom(WithField(sv, j, x), i, tagName) == HasZeroFrom(sv, i, tagName)
    decreases |sv.fields| - i
  {
    if i < |sv.fields| {
      ZeroScansExcluded(sv, j, x, i + 1, tagName);
    }
  }

  /** A field tagged "-" (or unexported) has no effect: whatever value it holds,
      Map, Values, IsZero and HasZero give the same results. */
  lemma ExcludedFieldIrrelevant(sv: Value, j: nat, x: Value, tagName: string, str: Stringer)
    requires sv.StructV? && j < |sv.fields|
    requires !Keeps(sv.fields[j].field, tagName, true)
    ensures MapOf(WithField(sv, j, x), tagName, str) == MapOf(sv, tagName, str)
    ensures ValuesOf(WithField(sv, j, x), tagName, str) == ValuesOf(sv, tagName, str)
    ensures IsZeroFrom(WithField(sv, j, x), 0, tagName) == IsZeroFrom(sv, 0, tagName)
    ensures HasZeroFrom(WithField(sv, j, x), 0, tagName) == HasZeroFrom(sv, 0, tagName)
  {
    FillExcluded(map[], sv, j, x, |sv.fields|, tagName, str);
    ValuesExcluded(sv, j, x, |sv.fields|, tagName, str);
    ZeroScansExcluded(sv, j, x, 0, tagName);
  }

  // ---------------------------------------------------------------------------
  // Plain records
  // ---------------------------------------------------------------------------

  /** Every field structFields keeps is a scalar and carries no tag under tagName;
      the other fields, which Map and Values never read, may be anything. */
  predicate Plain(sv: Value, tagName: string)
    requires sv.StructV?
  {
    forall k :: 0 <= k < |sv.fields| && Keeps(sv.fields[k].field, tagName, true) ==>
      sv.fields[k].val.BasicV? && TagGet(sv.fields[k].field.tag, tagName) == ""
  }

  /** No two fields structFields keeps share a name. */
  predicate DistinctNames(fs: seq<FieldVal>, tagName: string)
  {
    forall i, j :: 0 <= i < j < |fs| && Keeps(fs[i].field, tagName, true) && Keeps(fs[j].field, tagName, true) ==>
      fs[i].field.name != fs[j].field.name
  }

  /** A plain field that is kept is stored under its declared name, as it is. */
  lemma PlainContribution(fv: FieldVal, tagName: string, str: Stringer)
    requires fv.val.BasicV? && TagGet(fv.field.tag, tagName) == ""
    ensures Contribute(fv, tagName, str) == Store(fv.field.name, Raw(fv.val))
    ensures FieldValues(fv, tagName, str) == [Raw(fv.val)]
  {
    ParseTagNoComma("");
  }

  lemma {:induction false} PlainFill(sv: Value, n: nat, tagName: string, str: Stringer)
    requires sv.StructV? && n <= |sv.fields| && Plain(sv, tagName) && DistinctNames(sv.fields, tagName)
    ensures var fs := sv.fields;
            var m := FillUpTo(map[], sv, n, tagName, str);
            (forall k :: 0 <= k < n && Keeps(fs[k].field, tagName, true) ==>
               fs[k].field.name in m && m[fs[k].field.name] == Raw(fs[k].val)) &&
            (forall key :: key in m ==>
               exists k :: 0 <= k < n && Keeps(fs[k].field, tagName, true) && fs[k].field.name == key)
    decreases n
  {
    PlainFillKeys(sv, n, tagName, str);
    if n > 0 {
      PlainFill(sv, n - 1, tagName, str);
      var fs := sv.fields;
      var pre := FillUpTo(map[], sv, n - 1, tagName, str);
      var m := FillUpTo(map[], sv, n, tagName, str);
      var last := fs[n - 1];
      if Keeps(last.field, tagName, true) {
        PlainContribution(last, tagName, str);
        assert m == pre[last.field.name := Raw(last.val)];
        forall k | 0 <= k < n && Keeps(fs[k].field, tagName, true)
          ensures fs[k].field.name in m && m[fs[k].field.name] == Raw(fs[k].val)
        {
          if k < n - 1 {
            assert fs[k].field.name != last.field.name;
          }
        }
      } else {
        assert m == pre;
      }
    }
  }

  /** The keys of a plain record's map are names of fields structFields keeps. */
  lemma {:induction false} PlainFillKeys(sv: Value, n: nat, tagName: string, str: Stringer)
    requires sv.StructV? && n <= |sv.fields| && Plain(sv, tagName)
    ensures var fs := sv.fields;
            forall key :: key in FillUpTo(map[], sv, n, tagName, str) ==>
              exists k :: 0 <= k < n && Keeps(fs[k].field, tagName, true) && fs[k].field.name == key
    decreases n
  {
    if n > 0 {
      PlainFillKeys(sv, n - 1, tagName, str);
      var fs := sv.fields;
      var pre := FillUpTo(map[], sv, n - 1, tagName, str);
      var m := FillUpTo(map[], sv, n, tagName, str);
      var last := fs[n - 1];
      assert forall key :: key in pre ==>
               exists k :: 0 <= k < n - 1 && Keeps(fs[k].field, tagName, true) && fs[k].field.name == key;
      if Keeps(last.field, tagName, true) {
        PlainContribution(last, tagName, str);
        assert m == pre[last.field.name := Raw(last.val)];
      } else {
        assert m == pre;
      }
      forall key | key in m
        ensures exists k :: 0 <= k < n && Keeps(fs[k].field, tagName, true) && fs[k].field.name == key
      {
        if key in pre {
          var k :| 0 <= k < n - 1 && Keeps(fs[k].field, tagName, true) && fs[k].field.name == key;
        } else {
          assert Keeps(fs[n - 1].field, tagName, true) && fs[n - 1].field.name == key;
        }
      }
    }
  }

  /** A record whose kept fields are untagged scalars with distinct names maps to one
      entry per kept field, under its declared name, holding the field's value; there
      are no other entries. */
  lemma PlainRoundTrip(sv: Value, tagName: string, str: Stringer)
    requires sv.StructV? && Plain(sv, tagName) && DistinctNames(sv.fields, tagName)
    ensures var fs := sv.fields;
            var m := MapOf(sv, tagName, str);
            (forall k :: 0 <= k < |fs| && Keeps(fs[k].field, tagName, true) ==>
               fs[k].field.name in m && m[fs[k].field.name] == Raw(fs[k].val)) &&
            (forall key :: key in m ==>
               exists k :: 0 <= k < |fs| && Keeps(fs[k].field, tagName, true) && fs[k].field.name == key)
  {
    var fs := sv.fields;
    var m := MapOf(sv, tagName, str);
    PlainFill(sv, |fs|, tagName, str);
    forall key | key in m
      ensures exists k :: 0 <= k < |fs| && Keeps(fs[k].field, tagName, true) && fs[k].field.name == key
    {
      var k :| 0 <= k < |fs| && Keeps(fs[k].field, tagName, true) && fs[k].field.name == key;
    }
  }

  lemma {:induction false} PlainValuesUpTo(sv: Value, n: nat, tagName: string, str: Stringer)
    requires sv.StructV? && n <= |sv.fields| && Plain(sv, tagName)
    ensures var idx := Selected(sv.fields, n, tagName, true);
            var vs := ValuesUpTo(sv, n, tagName, str);
            |vs| == |idx| && forall k :: 0 <= k < |vs| ==> idx[k] < n && vs[k] == Raw(sv.fields[idx[k]].val)
    decreases n
  {
    if n > 0 {
      PlainValuesUpTo(sv, n - 1, tagName, str);
      if Keeps(sv.fields[n - 1].field, tagName, true) {
        PlainContribution(sv.fields[n - 1], tagName, str);
      }
    }
  }

  /** Values of a record whose kept fields are untagged scalars: the value of each
      field structFields keeps, in declaration order. */
  lemma PlainValues(sv: Value, tagName: string, str: Stringer)
    requires sv.StructV? && Plain(sv, tagName)
    ensures var idx := Selected(sv.fields, |sv.fields|, tagName, true);
            var vs := ValuesOf(sv, tagName, str);
            |vs| == |idx| && forall k :: 0 <= k < |vs| ==> vs[k] == Raw(sv.fields[idx[k]].val)
  {
    PlainValuesUpTo(sv, |sv.fields|, tagName, str);
  }

  // ---------------------------------------------------------------------------
  // IsZero and HasZero
  // ---------------------------------------------------------------------------

  /** With no field kept, IsZero holds and HasZero does not. */
  lemma NoFieldsZero(sv: Value, tagName: string)
    requires sv.StructV?
    requires forall k :: 0 <= k < |sv.fields| ==> !Keeps(sv.fields[k].field, tagName, true)
    ensures IsZeroFrom(sv, 0, tagName) && !HasZeroFrom(sv, 0, tagName)
  {
    IsZeroFromAll(sv, 0, tagName);
    HasZeroFromAny(sv, 0, tagName);
  }

  /** A record equal to the zero value of its type passes IsZero, under any tag
      name: nested structs are zero records themselves. */
  lemma {:induction false} ZeroValueIsZero(sv: Value, tagName: string)
    requires sv.StructV? && IsZeroValue(sv)
    ensures IsZeroFrom(sv, 0, tagName)
    decreases sv
  {
    var fs := sv.fields;
    var decls := Decls(fs);
    assert sv == ZeroOf(StructT(sv.name, decls));
    forall k | 0 <= k < |fs|
      ensures FieldIsZero(fs[k], tagName)
    {
      assert fs[k] == FieldVal(decls[k], ZeroOf(decls[k].typ));
      var v := fs[k].val;
      assert IsZeroValue(v);
      if IsStruct(v) {
        assert v.StructV?;
        ZeroValueIsZero(v, DefaultTagName);
      }
    }
    IsZeroFromAll(sv, 0, tagName);
  }

  /** A record whose only field is an empty struct is the zero value and passes
      IsZero, yet HasZero fails: the nested struct has no field to be zero. */
  lemma EmptyNestedRecord(sv: Value, d: FieldDecl)
    requires d.typ.StructT? && d.typ.decls == [] && d.pkgPath == "" && d.tag == map[]
    requires sv.StructV? && sv.fields == [FieldVal(d, ZeroOf(d.typ))]
    ensures IsZeroValue(sv) && IsZeroFrom(sv, 0, DefaultTagName) && !HasZeroFrom(sv, 0, DefaultTagName)
  {
    var inner := ZeroOf(d.typ);
    assert inner == StructV(d.typ.name, []);
    assert Decls(sv.fields) == [d];
    assert ZeroOf(TypeOf(sv)) == sv;
    ParseTagNoComma("");
    assert IsStruct(inner);
    NoFieldsZero(inner, DefaultTagName);
  }
}
