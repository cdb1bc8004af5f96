/**
  The record accessor: a struct held in a cell, the tag name it reads directives
  under, and the projections it computes — a map keyed by field name or tag name,
  a flat list of values, and the zero tests.
*/
module Structs {
  import opened Reflect
  import opened Tags
  import opened FieldAccess

  /** interface{} as the projections produce it: a value passed through, the text
      of a String() call, a map[string]interface{}, or a []interface{}. */
  datatype Generic =
    | Raw(v: Value)
    | Text(s: string)
    | Object(m: map<string, Generic>)
    | List(items: seq<Generic>)

  /** fmt.Stringer: the text a value's String method gives, when it has one. */
  type Stringer = Value -> Option<string>

  /** The map FillMap writes into; a null reference is the nil map. */
  class OutMap {
    var entries: map<string, Generic>

    constructor ()
      ensures entries == map[]
    {
      entries := map[];
    }
  }

  /** The Struct accessor: the caller's storage, the tag name, and the String
      methods of the caller's types. */
  datatype Struct = Struct(cell: Cell, tagName: string, stringer: Stringer)

  predicate Valid(s: Struct)
    reads s.cell
  {
    StructValue(s.cell.value).Ok?
  }

  /** s.value: the struct strctVal reached. */
  function Target(s: Struct): Value
    reads s.cell
    requires Valid(s)
  {
    StructValue(s.cell.value).value
  }

  /** The view s.value is: the struct behind every pointer, addressable exactly
      when at least one pointer was followed. */
  function RootView(s: Struct): View
    reads s.cell
  {
    View(s.cell, DerefPath(Derefs(s.cell.value)), Derefs(s.cell.value) > 0, false, false)
  }

  lemma RootViewTarget(s: Struct)
    requires Valid(s)
    ensures Resolves(RootView(s)) && Get(RootView(s)) == Target(s)
    ensures StructView(RootView(s)) == Some(RootView(s))
  {
    AtDerefs(s.cell.value);
    StructValueDepth(s.cell.value);
  }

  /** New: follows every pointer and panics unless a struct remains; the tag name
      starts as DefaultTagName. */
  function New(cell: Cell, stringer: Stringer): (r: Result<Struct>)
    reads cell
    ensures r.Ok? <==> StripAll(cell.value).StructV?
    ensures r.Fail? ==> r.panic == NotStruct
    ensures r.Ok? ==>
              r.value.cell == cell && r.value.tagName == DefaultTagName &&
              Valid(r.value) && Target(r.value) == StripAll(cell.value)
  {
    StructValueDepth(cell.value);
    if StructValue(cell.value).Ok? then Ok(Struct(cell, DefaultTagName, stringer)) else Fail(NotStruct)
  }

  /** Struct.Name: the declared name of the struct type. */
  function Name(s: Struct): string
    reads s.cell
    requires Valid(s)
  {
    Target(s).name
  }

  /** IsStruct: after at most one pointer, a struct. */
  predicate IsStruct(v: Value)
  {
    Indirect1(v).Some? && Indirect1(v).value.StructV?
  }

  /** What IsStruct accepts: a struct, or a non-nil pointer to one; never nil.
      Whatever it accepts, New accepts too, and reaches the same struct. */
  lemma IsStructAccepts(v: Value)
    ensures Dynamic(v).None? ==> !IsStruct(v)
    ensures Dynamic(v).Some? && Dynamic(v).value.StructV? ==> IsStruct(v)
    ensures Dynamic(v).Some? && Dynamic(v).value.PtrV? ==>
              (IsStruct(v) <==> Dynamic(v).value.target.Some? && Dynamic(v).value.target.value.StructV?)
    ensures IsStruct(v) ==> Dynamic(v).Some? && StructValue(Dynamic(v).value) == Ok(Indirect1(v).value)
  {
  }

  /** IsStruct looks through one pointer only, while New looks through all. */
  lemma IsStructOneLevel()
    ensures var s := StructV("T", []);
            var p := PtrV(TypeOf(s), Some(s));
            var pp := PtrV(PtrT(TypeOf(s)), Some(p));
            IsStruct(p) && !IsStruct(pp) && StructValue(pp) == Ok(s)
  {
  }

  // ---------------------------------------------------------------------------
  // Field enumeration
  // ---------------------------------------------------------------------------

  /** structFields: the exported fields not tagged "-" under the tag name, in
      declaration order. */
  method StructFields(s: Struct) returns (decls: seq<FieldDecl>)
    requires Valid(s)
    ensures var fs := Target(s).fields;
            var idx := Selected(fs, |fs|, s.tagName, true);
            |decls| == |idx| && forall k :: 0 <= k < |decls| ==> decls[k] == fs[idx[k]].field
  {
    var fs := Target(s).fields;
    decls := [];
    var i := 0;
    while i < |fs|
      invariant 0 <= i <= |fs|
      invariant var idx := Selected(fs, i, s.tagName, true);
                |decls| == |idx| && forall k :: 0 <= k < |decls| ==> decls[k] == fs[idx[k]].field
    {
      ghost var idx := Selected(fs, i, s.tagName, true);
      var field := fs[i].field;
      if field.pkgPath != "" {
        assert Selected(fs, i + 1, s.tagName, true) == idx;
        i := i + 1;
        continue;
      }
      if TagGet(field.tag, s.tagName) == "-" {
        assert Selected(fs, i + 1, s.tagName, true) == idx;
        i := i + 1;
        continue;
      }
      assert Selected(fs, i + 1, s.tagName, true) == idx + [i];
      decls := decls + [field];
      i := i + 1;
    }
  }

  /** Struct.Fields: getFields on s.value under the accessor's tag name. */
  method Fields(s: Struct) returns (fields: seq<Field>)
    requires Valid(s)
    ensures fields == Handles(RootView(s), Target(s).fields, s.tagName)
  {
    RootViewTarget(s);
    var r := GetFields(RootView(s), s.tagName);
    fields := r.value;
  }

  /** Names: one name per field Fields returns, in the same order. */
  method Names(s: Struct) returns (names: seq<string>)
    requires Valid(s)
    ensures var fs := Target(s).fields;
            var idx := Selected(fs, |fs|, s.tagName, false);
            |names| == |idx| && forall k :: 0 <= k < |names| ==> names[k] == fs[idx[k]].field.name
  {
    var fields := Fields(s);
    RootViewTarget(s);
    HandlesView(RootView(s), s.tagName);
    var a := new string[|fields|];
    for i := 0 to |fields|
      invariant forall k :: 0 <= k < i ==> a[k] == FieldAccess.Name(fields[k])
    {
      a[i] := FieldAccess.Name(fields[i]);
    }
    names := a[..];
  }

  /** Struct.FieldOk: the first direct field with that name, as a handle that
      carries the accessor's tag name; settable exactly when New was given a
      pointer and the field is exported. */
  function FieldOk(s: Struct, name: string): (r: Option<Field>)
    reads s.cell
    requires Valid(s)
    ensures r.None? <==> forall k :: 0 <= k < |Target(s).fields| ==> Target(s).fields[k].field.name != name
    ensures r.Some? ==>
              var g := r.value;
              var j := FirstIndex(Target(s).fields, name).value;
              FieldAccess.Valid(g) && g.value.cell == s.cell && g.defaultTag == s.tagName &&
              g.field == Target(s).fields[j].field && FieldAccess.Current(g) == Target(s).fields[j].val &&
              (CanSet(g.value) <==> Derefs(s.cell.value) > 0 && g.field.pkgPath == "")
  {
    var fs := Target(s).fields;
    var root := RootView(s);
    match FirstIndex(fs, name)
    case None => None
    case Some(j) =>
      RootViewTarget(s);
      AtAppend(s.cell.value, root.path, [Enter(j)]);
      Some(Field(Child(root, j, fs[j].field), fs[j].field, s.tagName))
  }

  /** Struct.Field: FieldOk, panicking when no field has that name. */
  function FieldNamed(s: Struct, name: string): (r: Result<Field>)
    reads s.cell
    requires Valid(s)
    ensures r.Fail? <==> forall k :: 0 <= k < |Target(s).fields| ==> Target(s).fields[k].field.name != name
    ensures r.Fail? ==> r.panic == FieldNotFound
    ensures r.Ok? ==> FieldOk(s, name) == Some(r.value)
  {
    match FieldOk(s, name)
    case None => Fail(FieldNotFound)
    case Some(g) => Ok(g)
  }

  // ---------------------------------------------------------------------------
  // Directives
  // ---------------------------------------------------------------------------

  function Directives(d: FieldDecl, tagName: string): Tag
  {
    ParseTag(TagGet(d.tag, tagName))
  }

  /** The key a field is stored under: its tag name when that is not empty. */
  function KeyOf(d: FieldDecl, tagName: string): string
  {
    var t := Directives(d, tagName);
    if t.name != "" then t.name else d.name
  }

  predicate HasOpt(d: FieldDecl, tagName: string, opt: string)
  {
    Has(Directives(d, tagName).options, opt)
  }

  /** omitempty on a field equal to the zero value of its type. */
  predicate Omitted(fv: FieldVal, tagName: string)
  {
    HasOpt(fv.field, tagName, "omitempty") && IsZeroValue(fv.val)
  }

  /** isSubStruct: after one pointer, a struct or a map. */
  predicate IsSubStruct(v: Value)
  {
    Indirect1(v).Some? && (Indirect1(v).value.StructV? || Indirect1(v).value.MapV?)
  }

  // ---------------------------------------------------------------------------
  // nested and the map projection
  // ---------------------------------------------------------------------------

  /** The elements of a slice or array; a nil slice has none. */
  function Items(v: Value): (r: seq<Value>)
    requires v.SliceV? || v.ArrayV?
    ensures forall i :: 0 <= i < |r| ==> r[i] < v
  {
    if v.ArrayV? then v.elems
    else if v.backing.NilSlice? then []
    else v.backing.items
  }

  /** The entries of a map; a nil map has none. */
  function Entries(v: Value): (r: map<string, Value>)
    requires v.MapV?
    ensures forall k :: k in r ==> r[k] < v
  {
    if v.table.NilMap? then map[] else v.table.entries
  }

  /** A map is expanded when its element type, after one pointer, is a struct or a
      slice of structs. */
  predicate ExpandsInMap(elem: Type)
  {
    var e := if elem.PtrT? then elem.elem else elem;
    e.StructT? || (e.SliceT? && e.elem.StructT?)
  }

  /** A slice or array is expanded when its element type is a struct or a pointer
      to a struct. */
  predicate ExpandsInList(elem: Type)
  {
    elem.StructT? || (elem.PtrT? && elem.elem.StructT?)
  }

  function ElemOf(v: Value): Type
    requires v.SliceV? || v.ArrayV?
  {
    v.elem
  }

  /** nested: a struct (through one pointer) becomes its own map under the same tag
      name, or stays as it is when that map is empty; a map or slice/array of
      structs is projected entry by entry; everything else passes through. */
  function Nested(val: Value, tagName: string, str: Stringer): (r: Generic)
    ensures !r.Text?
    ensures r.Raw? ==> r.v == val
    ensures r.Object? ==> IsSubStruct(val)
    ensures r.List? ==> (val.SliceV? || val.ArrayV?) && ExpandsInList(ElemOf(val)) && |r.items| == |Items(val)|
    decreases val, 3
  {
    match Indirect1(val)
    case None => Raw(val)
    case Some(v) =>
      if v.StructV? then
        var m := MapOf(v, tagName, str);
        if |m| == 0 then Raw(val) else Object(m)
      else if v.MapV? then
        if val.MapV? && ExpandsInMap(val.elem) then
          var e := Entries(val);
          Object(map k | k in e :: Nested(e[k], tagName, str))
        else Raw(val)
      else if (val.SliceV? || val.ArrayV?) && ExpandsInList(ElemOf(val)) then
        var items := Items(val);
        List(seq(|items|, i requires 0 <= i < |items| => Nested(items[i], tagName, str)))
      else Raw(val)
  }

  /** A struct (through one pointer) becomes its own map under the same tag name,
      or stays as it is when that map is empty. */
  lemma NestedStruct(val: Value, tagName: string, str: Stringer)
    requires IsStruct(val)
    ensures var m := MapOf(Indirect1(val).value, tagName, str);
            Nested(val, tagName, str) == if |m| == 0 then Raw(val) else Object(m)
  {
  }

  /** A map whose elements are structs or slices of structs becomes a map with the
      same keys, each entry projected by nested; a nil map becomes an empty one. */
  lemma NestedMap(val: Value, tagName: string, str: Stringer)
    requires val.MapV? && ExpandsInMap(val.elem)
    ensures var r := Nested(val, tagName, str);
            r.Object? && r.m.Keys == Entries(val).Keys &&
            forall k :: k in r.m ==> r.m[k] == Nested(Entries(val)[k], tagName, str)
  {
  }

  /** A slice or array of structs or of pointers to structs becomes a list of the
      same length, element by element. */
  lemma NestedList(val: Value, tagName: string, str: Stringer)
    requires (val.SliceV? || val.ArrayV?) && ExpandsInList(ElemOf(val))
    ensures var r := Nested(val, tagName, str);
            r.List? && |r.items| == |Items(val)| &&
            forall i :: 0 <= i < |r.items| ==> r.items[i] == Nested(Items(val)[i], tagName, str)
  {
  }

  /** Anything else passes through as it is. */
  lemma NestedOther(val: Value, tagName: string, str: Stringer)
    requires !IsStruct(val) && !(val.MapV? && ExpandsInMap(val.elem))
    requires !((val.SliceV? || val.ArrayV?) && ExpandsInList(ElemOf(val)))
    ensures Nested(val, tagName, str) == Raw(val)
  {
  }

  /** What one field adds to the output map. */
  datatype Contribution =
    | Skip
    | Store(key: string, g: Generic)
    | Merge(entries: map<string, Generic>)

  function Apply(out: map<string, Generic>, c: Contribution): map<string, Generic>
  {
    match c
    case Skip => out
    case Store(k, g) => out[k := g]
    case Merge(m) => out + m
  }

  /** The entries of a projection flatten can merge: a map built by nested, or a
      map[string]interface{} passed through as it is. */
  function AsObject(g: Generic): (r: Option<map<string, Generic>>)
    ensures g.Object? ==> r == Some(g.m)
    ensures g.Text? || g.List? ==> r.None?
  {
    match g
    case Object(m) => Some(m)
    case Raw(v) =>
      (match Dynamic(v)
       case Some(MapV(InterfaceT(true), t)) =>
         var entries := if t.NilMap? then map[] else t.entries;
         Some(map k | k in entries :: Raw(entries[k]))
       case _ => None)
    case _ => None
  }

  /** One iteration of FillMap's loop for a kept field, with flatten merging only a
      projection that is a map[string]interface{}. A field is skipped only when it
      is an empty omitempty field or a string field without a String method; it
      is merged only under flatten without omitnested or string; otherwise it is
      stored under its key. */
  function Contribute(fv: FieldVal, tagName: string, str: Stringer): (r: Contribution)
    ensures r.Skip? <==>
              Omitted(fv, tagName) || (HasOpt(fv.field, tagName, "string") && str(fv.val).None?)
    ensures r.Store? ==> r.key == KeyOf(fv.field, tagName)
    ensures r.Merge? ==>
              HasOpt(fv.field, tagName, "flatten") && !HasOpt(fv.field, tagName, "omitnested") &&
              !HasOpt(fv.field, tagName, "string") && IsSubStruct(fv.val)
    decreases fv.val, 4
  {
    var t := Directives(fv.field, tagName);
    var key := KeyOf(fv.field, tagName);
    if Has(t.options, "omitempty") && IsZeroValue(fv.val) then Skip
    else if Has(t.options, "string") then
      match str(fv.val)
      case Some(text) => Store(key, Text(text))
      case None => Skip
    else if Has(t.options, "omitnested") then Store(key, Raw(fv.val))
    else
      var fin := Nested(fv.val, tagName, str);
      if Has(t.options, "flatten") && IsSubStruct(fv.val) && AsObject(fin).Some? then
        Merge(AsObject(fin).value)
      else Store(key, fin)
  }

  /** The map FillMap leaves after the first n fields, starting from out. */
  function FillUpTo(out: map<string, Generic>, sv: Value, n: nat, tagName: string, str: Stringer)
    : map<string, Generic>
    requires sv.StructV? && n <= |sv.fields|
    decreases sv, 1, n
  {
    if n == 0 then out
    else
      var pre := FillUpTo(out, sv, n - 1, tagName, str);
      var fv := sv.fields[n - 1];
      if Keeps(fv.field, tagName, true) then Apply(pre, Contribute(fv, tagName, str)) else pre
  }

  /** Map: FillMap into a fresh map. */
  function MapOf(sv: Value, tagName: string, str: Stringer): map<string, Generic>
    requires sv.StructV?
    decreases sv, 2
  {
    FillUpTo(map[], sv, |sv.fields|, tagName, str)
  }

  // ---------------------------------------------------------------------------
  // The projection as written: the flatten type assertion panics
  // ---------------------------------------------------------------------------

  /** nested as written: a panic (None) in the map fill of a sub-struct, or of any
      struct inside a map or list it expands, propagates; wherever nothing panics
      the projection is the one Nested gives. */
  function NestedAsWritten(val: Value, tagName: string, str: Stringer): (r: Option<Generic>)
    ensures r.Some? ==> r.value == Nested(val, tagName, str)
    decreases val, 3
  {
    match Indirect1(val)
    case None => Some(Raw(val))
    case Some(v) =>
      if v.StructV? then
        match MapOfAsWritten(v, tagName, str)
        case None => None
        case Some(m) => if |m| == 0 then Some(Raw(val)) else Some(Object(m))
      else if v.MapV? then
        if val.MapV? && ExpandsInMap(val.elem) then
          var e := Entries(val);
          if forall k :: k in e ==> NestedAsWritten(e[k], tagName, str).Some? then
            var m := map k | k in e :: NestedAsWritten(e[k], tagName, str).value;
            assert m == map k | k in e :: Nested(e[k], tagName, str);
            Some(Object(m))
          else None
        else Some(Raw(val))
      else if (val.SliceV? || val.ArrayV?) && ExpandsInList(ElemOf(val)) then
        var items := Items(val);
        if forall i :: 0 <= i < |items| ==> NestedAsWritten(items[i], tagName, str).Some? then
          var l := seq(|items|, i requires 0 <= i < |items| => NestedAsWritten(items[i], tagName, str).value);
          assert l == seq(|items|, i requires 0 <= i < |items| => Nested(items[i], tagName, str));
          Some(List(l))
        else None
      else Some(Raw(val))
  }

  /** One iteration of FillMap's loop as written: nested runs first (unless
      omitnested), so a panic inside it is raised even under string; under
      flatten, a sub-struct or map projection is asserted to be a
      map[string]interface{}, and the assertion panics when it is not. Wherever it
      does not panic it agrees with Contribute. */
  function ContributeAsWritten(fv: FieldVal, tagName: string, str: Stringer): (r: Option<Contribution>)
    ensures r.Some? ==> r.value == Contribute(fv, tagName, str)
    decreases fv.val, 4
  {
    var t := Directives(fv.field, tagName);
    var key := KeyOf(fv.field, tagName);
    if Has(t.options, "omitempty") && IsZeroValue(fv.val) then Some(Skip)
    else if Has(t.options, "omitnested") then
      if Has(t.options, "string") then
        match str(fv.val)
        case Some(text) => Some(Store(key, Text(text)))
        case None => Some(Skip)
      else Some(Store(key, Raw(fv.val)))
    else match NestedAsWritten(fv.val, tagName, str)
      case None => None
      case Some(fin) =>
        if Has(t.options, "string") then
          match str(fv.val)
          case Some(text) => Some(Store(key, Text(text)))
          case None => Some(Skip)
        else if IsSubStruct(fv.val) && Has(t.options, "flatten") then
          match AsObject(fin)
          case Some(m) => Some(Merge(m))
          case None => None
        else Some(Store(key, fin))
  }

  /** A struct field's projection panics exactly when its map fill does. */
  lemma NestedStructPanics(val: Value, tagName: string, str: Stringer)
    requires IsStruct(val)
    ensures NestedAsWritten(val, tagName, str).None? <==>
              MapOfAsWritten(Indirect1(val).value, tagName, str).None?
  {
  }

  /** One iteration as written panics exactly when nested runs (the field is
      neither omitted nor omitnested) and either panics itself, or the field is a
      flatten sub-struct without string whose projection is not a map. */
  lemma ContributePanics(fv: FieldVal, tagName: string, str: Stringer)
    ensures ContributeAsWritten(fv, tagName, str).None? <==>
              !Omitted(fv, tagName) && !HasOpt(fv.field, tagName, "omitnested") &&
              (NestedAsWritten(fv.val, tagName, str).None? ||
               (!HasOpt(fv.field, tagName, "string") && HasOpt(fv.field, tagName, "flatten") &&
                IsSubStruct(fv.val) && AsObject(Nested(fv.val, tagName, str)).None?))
  {
  }

  /** FillMap as written after the first n fields: it panics (None) exactly when
      some kept field among them panics, and otherwise leaves what FillUpTo gives. */
  function FillUpToAsWritten(out: map<string, Generic>, sv: Value, n: nat, tagName: string, str: Stringer)
    : (r: Option<map<string, Generic>>)
    requires sv.StructV? && n <= |sv.fields|
    ensures r.Some? ==> r.value == FillUpTo(out, sv, n, tagName, str)
    decreases sv, 1, n
  {
    if n == 0 then Some(out)
    else
      var fv := sv.fields[n - 1];
      match FillUpToAsWritten(out, sv, n - 1, tagName, str)
      case None => None
      case Some(pre) =>
        if Keeps(fv.field, tagName, true) then
          match ContributeAsWritten(fv, tagName, str)
          case None => None
          case Some(c) => Some(Apply(pre, c))
        else Some(pre)
  }

  /** FillMap as written panics exactly when some kept field among the first n
      panics. */
  lemma {:induction false} FillPanicsIff(out: map<string, Generic>, sv: Value, n: nat, tagName: string, str: Stringer)
    requires sv.StructV? && n <= |sv.fields|
    ensures FillUpToAsWritten(out, sv, n, tagName, str).None? <==>
              exists k :: 0 <= k < n && Keeps(sv.fields[k].field, tagName, true) &&
                          ContributeAsWritten(sv.fields[k], tagName, str).None?
  {
    if n > 0 {
      FillPanicsIff(out, sv, n - 1, tagName, str);
    }
  }

  /** Map as written. */
  function MapOfAsWritten(sv: Value, tagName: string, str: Stringer): (r: Option<map<string, Generic>>)
    requires sv.StructV?
    ensures r.Some? ==> r.value == MapOf(sv, tagName, str)
    decreases sv, 2
  {
    FillUpToAsWritten(map[], sv, |sv.fields|, tagName, str)
  }

  /** A value passed through as it is can be merged exactly when it holds a
      map[string]interface{}; a map of any other element type, map[string]error
      included, cannot. */
  lemma AsObjectRaw(v: Value)
    ensures AsObject(Raw(v)).Some? <==>
              Dynamic(v).Some? && Dynamic(v).value.MapV? && Dynamic(v).value.elem == InterfaceT(true)
  {
  }

  /** The flatten loop: copy every entry of m into out. */
  method MergeInto(out: OutMap, m: map<string, Generic>)
    modifies out
    ensures out.entries == old(out.entries) + m
  {
    var rest := m.Keys;
    while rest != {}
      invariant rest <= m.Keys
      invariant out.entries.Keys == old(out.entries).Keys + (m.Keys - rest)
      invariant forall k :: k in out.entries ==>
                  out.entries[k] == if k in m && k !in rest then m[k] else old(out.entries)[k]
      decreases rest
    {
      var k :| k in rest;
      out.entries := out.entries[k := m[k]];
      rest := rest - {k};
    }
    assert out.entries.Keys == (old(out.entries) + m).Keys;
  }

  /** What a field that is not omitted contributes under string. */
  lemma ContributeText(fv: FieldVal, tagName: string, str: Stringer)
    requires !Omitted(fv, tagName) && HasOpt(fv.field, tagName, "string")
    ensures Contribute(fv, tagName, str) ==
              if str(fv.val).Some? then Store(KeyOf(fv.field, tagName), Text(str(fv.val).value)) else Skip
  {
  }

  /** What a field that is neither omitted nor under string contributes, given its
      projection fin (nested's result unless omitnested). */
  lemma ContributeProjected(fv: FieldVal, tagName: string, str: Stringer, fin: Generic, sub: bool)
    requires !Omitted(fv, tagName) && !HasOpt(fv.field, tagName, "string")
    requires fin == if HasOpt(fv.field, tagName, "omitnested") then Raw(fv.val) else Nested(fv.val, tagName, str)
    requires sub <==> !HasOpt(fv.field, tagName, "omitnested") && IsSubStruct(fv.val)
    ensures Contribute(fv, tagName, str) ==
              if sub && HasOpt(fv.field, tagName, "flatten") && AsObject(fin).Some? then Merge(AsObject(fin).value)
              else Store(KeyOf(fv.field, tagName), fin)
  {
  }

  /** The projection of one field: nested's result unless omitnested, and whether
      the field holds a struct or a map after one pointer. */
  method Project(s: Struct, val: Value, tag: Tag) returns (finalVal: Generic, isSubStruct: bool)
    ensures finalVal == if Has(tag.options, "omitnested") then Raw(val) else Nested(val, s.tagName, s.stringer)
    ensures isSubStruct <==> !Has(tag.options, "omitnested") && IsSubStruct(val)
  {
    isSubStruct := false;
    if !Has(tag.options, "omitnested") {
      finalVal := Nested(val, s.tagName, s.stringer);
      var v := Indirect1(val);
      if v.Some? && (v.value.StructV? || v.value.MapV?) {
        isSubStruct := true;
      }
    } else {
      finalVal := Raw(val);
    }
  }

  /** The body of FillMap's loop for field fv, which structFields kept. */
  method FillField(s: Struct, out: OutMap, fv: FieldVal)
    modifies out
    ensures out.entries == Apply(old(out.entries), Contribute(fv, s.tagName, s.stringer))
  {
    var field := fv.field;
    var val := fv.val;
    var name := field.name;
    var tag := Directives(field, s.tagName);
    if tag.name != "" {
      name := tag.name;
    }
    if Has(tag.options, "omitempty") && IsZeroValue(val) {
      return;
    }
    var finalVal, isSubStruct := Project(s, val, tag);
    if Has(tag.options, "string") {
      ContributeText(fv, s.tagName, s.stringer);
      StoreText(out, name, s.stringer(val));
      return;
    }
    ContributeProjected(fv, s.tagName, s.stringer, finalVal, isSubStruct);
    StoreOrMerge(out, name, finalVal, isSubStruct && Has(tag.options, "flatten"));
  }

  /** The string branch: the String() text under name, if the value has one. */
  method StoreText(out: OutMap, name: string, text: Option<string>)
    modifies out
    ensures out.entries == if text.Some? then old(out.entries)[name := Text(text.value)] else old(out.entries)
  {
    if text.Some? {
      out.entries := out.entries[name := Text(text.value)];
    }
  }

  /** The last step: a flattened sub-struct's entries are copied into out, anything
      else is stored under name. */
  method StoreOrMerge(out: OutMap, name: string, finalVal: Generic, flatten: bool)
    modifies out
    ensures out.entries == if flatten && AsObject(finalVal).Some? then old(out.entries) + AsObject(finalVal).value
                           else old(out.entries)[name := finalVal]
  {
    var obj := AsObject(finalVal);
    if flatten && obj.Some? {
      MergeInto(out, obj.value);
    } else {
      out.entries := out.entries[name := finalVal];
    }
  }

  /** FillMap: a nil map is left alone; otherwise each field structFields keeps is
      written into out, in declaration order. */
  method FillMap(s: Struct, out: OutMap?)
    requires Valid(s)
    modifies out
    ensures out != null ==>
              out.entries == FillUpTo(old(out.entries), Target(s), |Target(s).fields|, s.tagName, s.stringer)
  {
    if out == null {
      return;
    }
    var sv := Target(s);
    var fs := sv.fields;
    var i := 0;
    while i < |fs|
      invariant 0 <= i <= |fs|
      invariant out.entries == FillUpTo(old(out.entries), sv, i, s.tagName, s.stringer)
    {
      var field := fs[i].field;
      if field.pkgPath != "" || TagGet(field.tag, s.tagName) == "-" {
        i := i + 1;
        continue;
      }
      FillField(s, out, fs[i]);
      i := i + 1;
    }
  }

  /** Map: the projection of the struct into a fresh map. */
  method Map(s: Struct) returns (m: map<string, Generic>)
    requires Valid(s)
    ensures m == MapOf(Target(s), s.tagName, s.stringer)
  {
    var out := new OutMap();
    FillMap(s, out);
    m := out.entries;
  }

  // ---------------------------------------------------------------------------
  // Values
  // ---------------------------------------------------------------------------

  /** What one kept field adds to Values: nothing when omitted, its text under
      string, the values of a nested struct (read under DefaultTagName), or the
      value itself. */
  function FieldValues(fv: FieldVal, tagName: string, str: Stringer): seq<Generic>
    decreases fv.val, 2
  {
    var t := Directives(fv.field, tagName);
    if Has(t.options, "omitempty") && IsZeroValue(fv.val) then []
    else if Has(t.options, "string") then
      match str(fv.val)
      case Some(text) => [Text(text)]
      case None => []
    else if IsStruct(fv.val) && !Has(t.options, "omitnested") then
      var inner := Indirect1(fv.val).value;
      ValuesUpTo(inner, |inner.fields|, DefaultTagName, str)
    else [Raw(fv.val)]
  }

  function ValuesUpTo(sv: Value, n: nat, tagName: string, str: Stringer): seq<Generic>
    requires sv.StructV? && n <= |sv.fields|
    decreases sv, 1, n
  {
    if n == 0 then []
    else
      var pre := ValuesUpTo(sv, n - 1, tagName, str);
      var fv := sv.fields[n - 1];
      if Keeps(fv.field, tagName, true) then pre + FieldValues(fv, tagName, str) else pre
  }

  function ValuesOf(sv: Value, tagName: string, str: Stringer): seq<Generic>
    requires sv.StructV?
  {
    ValuesUpTo(sv, |sv.fields|, tagName, str)
  }

  /** Values of the struct sv: the loop of Struct.Values, recursing through the
      package-level Values for nested structs. */
  method ValuesIn(sv: Value, tagName: string, str: Stringer) returns (t: seq<Generic>)
    requires sv.StructV?
    ensures t == ValuesOf(sv, tagName, str)
    decreases sv, 0
  {
    var fs := sv.fields;
    t := [];
    var i := 0;
    while i < |fs|
      invariant 0 <= i <= |fs|
      invariant t == ValuesUpTo(sv, i, tagName, str)
    {
      var field := fs[i].field;
      if field.pkgPath != "" || TagGet(field.tag, tagName) == "-" {
        i := i + 1;
        continue;
      }
      assert fs[i] in fs;
      var here := FieldValuesIn(fs[i], tagName, str);
      t := t + here;
      i := i + 1;
    }
  }

  /** The body of Values' loop for a field structFields kept. */
  method FieldValuesIn(fv: FieldVal, tagName: string, str: Stringer) returns (here: seq<Generic>)
    ensures here == FieldValues(fv, tagName, str)
    decreases fv.val, 1
  {
    var val := fv.val;
    var tag := ParseTag(TagGet(fv.field.tag, tagName));
    if Has(tag.options, "omitempty") && IsZeroValue(val) {
      return [];
    }
    if Has(tag.options, "string") {
      var text := str(val);
      if text.Some? {
        return [Text(text.value)];
      }
      return [];
    }
    if IsStruct(val) && !Has(tag.options, "omitnested") {
      var inner := Indirect1(val).value;
      here := ValuesIn(inner, DefaultTagName, str);
    } else {
      here := [Raw(val)];
    }
  }

  /** Struct.Values. */
  method Values(s: Struct) returns (t: seq<Generic>)
    requires Valid(s)
    ensures t == ValuesOf(Target(s), s.tagName, s.stringer)
  {
    t := ValuesIn(Target(s), s.tagName, s.stringer);
  }

  // ---------------------------------------------------------------------------
  // IsZero and HasZero
  // ---------------------------------------------------------------------------

  /** A kept field is zero: a nested struct (unless omitnested) by its own IsZero
      under DefaultTagName, anything else by equality with its zero value. */
  predicate FieldIsZero(fv: FieldVal, tagName: string)
    decreases fv.val, 2
  {
    if IsStruct(fv.val) && !HasOpt(fv.field, tagName, "omitnested") then
      var inner := Indirect1(fv.val).value;
      IsZeroFrom(inner, 0, DefaultTagName)
    else IsZeroValue(fv.val)
  }

  /** The scan of IsZero from field i on: false at the first kept non-zero field. */
  predicate IsZeroFrom(sv: Value, i: nat, tagName: string)
    requires sv.StructV? && i <= |sv.fields|
    decreases sv, 1, |sv.fields| - i
  {
    if i == |sv.fields| then true
    else if Keeps(sv.fields[i].field, tagName, true) && !FieldIsZero(sv.fields[i], tagName) then false
    else IsZeroFrom(sv, i + 1, tagName)
  }

  /** A kept field has a zero: a nested struct (unless omitnested) by its own
      HasZero under DefaultTagName, anything else by equality with its zero value. */
  predicate FieldHasZero(fv: FieldVal, tagName: string)
    decreases fv.val, 2
  {
    if IsStruct(fv.val) && !HasOpt(fv.field, tagName, "omitnested") then
      var inner := Indirect1(fv.val).value;
      HasZeroFrom(inner, 0, DefaultTagName)
    else IsZeroValue(fv.val)
  }

  /** The scan of HasZero from field i on: true at the first kept zero field. */
  predicate HasZeroFrom(sv: Value, i: nat, tagName: string)
    requires sv.StructV? && i <= |sv.fields|
    decreases sv, 1, |sv.fields| - i
  {
    if i == |sv.fields| then false
    else if Keeps(sv.fields[i].field, tagName, true) && FieldHasZero(sv.fields[i], tagName) then true
    else HasZeroFrom(sv, i + 1, tagName)
  }

  /** The IsZero scan from field i on holds exactly when every kept field from i
      on is zero. */
  lemma {:induction false} IsZeroFromAll(sv: Value, i: nat, tagName: string)
    requires sv.StructV? && i <= |sv.fields|
    ensures IsZeroFrom(sv, i, tagName) <==>
            forall k :: i <= k < |sv.fields| && Keeps(sv.fields[k].field, tagName, true) ==>
              FieldIsZero(sv.fields[k], tagName)
    decreases |sv.fields| - i
  {
    if i < |sv.fields| {
      IsZeroFromAll(sv, i + 1, tagName);
    }
  }

  /** The HasZero scan from field i on holds exactly when some kept field from i
      on has a zero. */
  lemma {:induction false} HasZeroFromAny(sv: Value, i: nat, tagName: string)
    requires sv.StructV? && i <= |sv.fields|
    ensures HasZeroFrom(sv, i, tagName) <==>
            exists k :: i <= k < |sv.fields| && Keeps(sv.fields[k].field, tagName, true) &&
              FieldHasZero(sv.fields[k], tagName)
    decreases |sv.fields| - i
  {
    if i < |sv.fields| {
      HasZeroFromAny(sv, i + 1, tagName);
    }
  }

  /** Struct.IsZero: every field structFields keeps is zero, a nested struct judged
      by its own IsZero. */
  function IsZero(s: Struct): (r: bool)
    reads s.cell
    requires Valid(s)
    ensures var fs := Target(s).fields;
            r <==> forall k :: 0 <= k < |fs| && Keeps(fs[k].field, s.tagName, true) ==>
                     FieldIsZero(fs[k], s.tagName)
  {
    IsZeroFromAll(Target(s), 0, s.tagName);
    IsZeroFrom(Target(s), 0, s.tagName)
  }

  /** Struct.HasZero: some field structFields keeps has a zero, a nested struct
      judged by its own HasZero. */
  function HasZero(s: Struct): (r: bool)
    reads s.cell
    requires Valid(s)
    ensures var fs := Target(s).fields;
            r <==> exists k :: 0 <= k < |fs| && Keeps(fs[k].field, s.tagName, true) &&
                     FieldHasZero(fs[k], s.tagName)
  {
    HasZeroFromAny(Target(s), 0, s.tagName);
    HasZeroFrom(Target(s), 0, s.tagName)
  }
}
