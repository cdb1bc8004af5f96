/**
  Field handles: a handle is a view onto one field of one struct held in a cell.
  Reads go through the view; Set and Zero write the field in place, in the cell.
*/
module FieldAccess {
  import opened Reflect
  import opened Tags

  /** The storage a view looks into: the value handed to New, pointees inline. */
  class Cell {
    var value: Value

    constructor (v: Value)
      ensures value == v
    {
      value := v;
    }
  }

  /** One step from a value to a part of it: through a pointer, or into a field. */
  datatype Step = Deref | Enter(index: nat)

  function At(v: Value, path: seq<Step>): Option<Value>
    decreases |path|
  {
    if path == [] then Some(v)
    else match path[0]
      case Deref =>
        if v.PtrV? && v.target.Some? then At(v.target.value, path[1..]) else None
      case Enter(i) =>
        if v.StructV? && i < |v.fields| then At(v.fields[i].val, path[1..]) else None
  }

  /** v with the part at path replaced by x. */
  function Put(v: Value, path: seq<Step>, x: Value): Value
    requires At(v, path).Some?
    decreases |path|
  {
    if path == [] then x
    else match path[0]
      case Deref => PtrV(v.elem, Some(Put(v.target.value, path[1..], x)))
      case Enter(i) =>
        StructV(v.name, v.fields[i := FieldVal(v.fields[i].field, Put(v.fields[i].val, path[1..], x))])
  }

  predicate Prefix(p: seq<Step>, q: seq<Step>)
  {
    |p| <= |q| && q[..|p|] == p
  }

  /** Neither path leads through the other: they name disjoint parts. */
  predicate Apart(p: seq<Step>, q: seq<Step>)
  {
    !Prefix(p, q) && !Prefix(q, p)
  }

  function DerefPath(n: nat): (p: seq<Step>)
    ensures |p| == n && forall k :: 0 <= k < n ==> p[k] == Deref
  {
    seq(n, _ => Deref)
  }

  /** Walking p then q is walking p + q. */
  lemma {:induction false} AtAppend(v: Value, p: seq<Step>, q: seq<Step>)
    ensures At(v, p + q) == if At(v, p).Some? then At(At(v, p).value, q) else None
    decreases |p|
  {
    if p != [] {
      assert (p + q)[0] == p[0] && (p + q)[1..] == p[1..] + q;
      match p[0]
      case Deref =>
        if v.PtrV? && v.target.Some? { AtAppend(v.target.value, p[1..], q); }
      case Enter(i) =>
        if v.StructV? && i < |v.fields| { AtAppend(v.fields[i].val, p[1..], q); }
    } else {
      assert p + q == q;
    }
  }

  /** Following every pointer is following Derefs(v) Deref steps. */
  lemma {:induction false} AtDerefs(v: Value)
    ensures At(v, DerefPath(Derefs(v))) == Some(StripAll(v))
  {
    match v
    case PtrV(_, Some(x)) =>
      AtDerefs(x);
      assert DerefPath(Derefs(v))[1..] == DerefPath(Derefs(x));
    case _ =>
  }

  /** After Put, the part at path is x. */
  lemma {:induction false} AtPut(v: Value, p: seq<Step>, x: Value)
    requires At(v, p).Some?
    ensures At(Put(v, p, x), p) == Some(x)
    decreases |p|
  {
    if p != [] {
      match p[0]
      case Deref => AtPut(v.target.value, p[1..], x);
      case Enter(i) => AtPut(v.fields[i].val, p[1..], x);
    }
  }

  /** Put changes nothing at a path apart from the one it writes. */
  lemma {:induction false} PutApart(v: Value, p: seq<Step>, q: seq<Step>, x: Value)
    requires At(v, p).Some? && Apart(p, q)
    ensures At(Put(v, p, x), q) == At(v, q)
    decreases |p|
  {
    assert Prefix([], q) && Prefix([], p);
    var w := Put(v, p, x);
    if p[0] == q[0] {
      assert Apart(p[1..], q[1..]);
      match p[0]
      case Deref => PutApart(v.target.value, p[1..], q[1..], x);
      case Enter(i) => PutApart(v.fields[i].val, p[1..], q[1..], x);
    } else {
      match p[0]
      case Deref =>
      case Enter(i) =>
        match q[0]
        case Deref =>
        case Enter(j) =>
          if j < |v.fields| { assert w.fields[j] == v.fields[j]; }
    }
  }

  /** Two different fields of the same struct are apart, so a Set through one
      handle leaves the other field as it was. */
  lemma SiblingsApart(p: seq<Step>, i: nat, j: nat)
    requires i != j
    ensures Apart(p + [Enter(i)], p + [Enter(j)])
  {
    assert (p + [Enter(i)])[|p|] == Enter(i);
    assert (p + [Enter(j)])[|p|] == Enter(j);
  }

  /** reflect.Value: a place in a cell, whether it is addressable, and reflect's two
      read-only flags: stickyRO, set on reaching a non-embedded unexported field and
      kept by every later step, and embedRO, set on reaching an unexported embedded
      field and dropped again by the next field step. */
  datatype View = View(cell: Cell, path: seq<Step>, addressable: bool, stickyRO: bool, embedRO: bool)

  /** reflect's flagRO: the value was obtained through an unexported field. */
  predicate ReadOnly(v: View)
  {
    v.stickyRO || v.embedRO
  }

  /** Value.Field(j) for the field declared d: the parent's stickyRO is kept, its
      embedRO is not, and the field's own export status sets one of the two. */
  function Child(v: View, j: nat, d: FieldDecl): View
  {
    View(v.cell, v.path + [Enter(j)], v.addressable,
         v.stickyRO || (d.pkgPath != "" && !d.anonymous), d.pkgPath != "" && d.anonymous)
  }

  predicate Resolves(v: View)
    reads v.cell
  {
    At(v.cell.value, v.path).Some?
  }

  /** The value a view reaches, read by the model; Interface is what Go code may
      read. */
  function Get(v: View): Value
    reads v.cell
    requires Resolves(v)
  {
    At(v.cell.value, v.path).value
  }

  /** Value.Interface(): it panics on a value reached through an unexported
      field. */
  function Interface(v: View): (r: Result<Value>)
    reads v.cell
    requires Resolves(v)
    ensures r.Fail? <==> ReadOnly(v)
    ensures r.Fail? ==> r.panic == UnexportedValue
    ensures r.Ok? ==> r.value == At(v.cell.value, v.path).value
  {
    if ReadOnly(v) then Fail(UnexportedValue) else Ok(Get(v))
  }

  /** Value.CanSet */
  predicate CanSet(v: View)
  {
    v.addressable && !ReadOnly(v)
  }

  /** The Field handle: the view of the field's value, its declaration, and the tag
      name that Fields() filters by. */
  datatype Field = Field(value: View, field: FieldDecl, defaultTag: string)

  predicate Valid(f: Field)
    reads f.value.cell
  {
    Resolves(f.value)
  }

  /** The value the field currently holds. */
  function Current(f: Field): Value
    reads f.value.cell
    requires Valid(f)
  {
    Get(f.value)
  }

  /** Value: the field's value as an interface{}; like Interface it panics when
      the field, or a field on the way to it, is unexported. */
  function Value(f: Field): (r: Result<Value>)
    reads f.value.cell
    requires Valid(f)
    ensures r.Fail? <==> ReadOnly(f.value)
    ensures r.Fail? ==> r.panic == UnexportedValue
    ensures r.Ok? ==> r.value == Current(f)
  {
    Interface(f.value)
  }

  function Tag(f: Field, key: string): string
  {
    TagGet(f.field.tag, key)
  }

  function Name(f: Field): string
  {
    f.field.name
  }

  /** IsEmbedded: the field is anonymous. */
  function IsEmbedded(f: Field): (r: bool)
    ensures r <==> f.field.anonymous
  {
    f.field.anonymous
  }

  /** IsExported: the field's package path is empty. */
  function IsExported(f: Field): (r: bool)
    ensures r <==> f.field.pkgPath == ""
  {
    f.field.pkgPath == ""
  }

  /** IsZero: the current value equals the zero value of its type; it reads the
      value through Value, so it panics on an unexported field. */
  function IsZero(f: Field): (r: Result<bool>)
    reads f.value.cell
    requires Valid(f)
    ensures r.Fail? <==> ReadOnly(f.value)
    ensures r.Fail? ==> r.panic == UnexportedValue
    ensures r.Ok? ==> (r.value <==> Current(f) == ZeroOf(TypeOf(Current(f))))
  {
    match Value(f)
    case Fail(p) => Fail(p)
    case Ok(cur) => Ok(IsZeroValue(cur))
  }

  /** Kind: the kind of the field's static type, never Invalid. */
  function Kind(f: Field): (k: Kind)
    reads f.value.cell
    requires Valid(f)
    ensures k != Invalid && k == KindOf(TypeOf(Current(f)))
  {
    KindOf(TypeOf(Current(f)))
  }

  datatype SetError = NotExported | NotSettable | WrongKind(got: Kind, want: Kind)

  /** The checks of Set, in their order: exported, then settable, then kind. */
  function SetCheck(f: Field, current: Value, val: Value): (r: Option<SetError>)
    ensures !IsExported(f) ==> r == Some(NotExported)
    ensures IsExported(f) && !CanSet(f.value) ==> r == Some(NotSettable)
    ensures IsExported(f) && CanSet(f.value) ==>
              if DynKind(val) == KindOf(TypeOf(current)) then r.None?
              else r == Some(WrongKind(DynKind(val), KindOf(TypeOf(current))))
  {
    if !IsExported(f) then Some(NotExported)
    else if !CanSet(f.value) then Some(NotSettable)
    else if DynKind(val) != KindOf(TypeOf(current)) then Some(WrongKind(DynKind(val), KindOf(TypeOf(current))))
    else None
  }

  /** reflect.Value.Set accepts only a value of the field's own type; types here are
      structural, so assignability is equality of types. */
  predicate Assignable(current: Value, val: Value)
  {
    Dynamic(val).Some? && TypeOf(Dynamic(val).value) == TypeOf(current)
  }

  /** Set: after the three checks, the field holds val (as reflect.ValueOf(val) gives it)
      and no part of the cell apart from the field changes; a failed check changes
      nothing, and a value of the field's kind but another type is reflect's panic. */
  method Set(f: Field, val: Value) returns (r: Result<Option<SetError>>)
    requires Valid(f)
    modifies f.value.cell
    ensures r.Fail? <==> SetCheck(f, old(Current(f)), val).None? && !Assignable(old(Current(f)), val)
    ensures r.Fail? ==> r.panic == NotAssignable
    ensures r.Ok? ==> r.value == SetCheck(f, old(Current(f)), val)
    ensures r != Ok(None) ==> f.value.cell.value == old(f.value.cell.value)
    ensures r == Ok(None) ==>
              Dynamic(val).Some? &&
              f.value.cell.value == Put(old(f.value.cell.value), f.value.path, Dynamic(val).value)
    ensures r == Ok(None) ==> Valid(f) && Current(f) == Dynamic(val).value
    ensures r == Ok(None) ==> TypeOf(Current(f)) == TypeOf(old(Current(f)))
    ensures forall q :: Apart(q, f.value.path) ==> At(f.value.cell.value, q) == At(old(f.value.cell.value), q)
  {
    if !IsExported(f) {
      return Ok(Some(NotExported));
    }
    if !CanSet(f.value) {
      return Ok(Some(NotSettable));
    }
    var given := Dynamic(val);
    var want := KindOf(TypeOf(Current(f)));
    var got := if given.None? then Invalid else KindOf(TypeOf(given.value));
    if got != want {
      return Ok(Some(WrongKind(got, want)));
    }
    if TypeOf(given.value) != TypeOf(Current(f)) {
      return Fail(NotAssignable);
    }
    ghost var before := f.value.cell.value;
    f.value.cell.value := Put(f.value.cell.value, f.value.path, given.value);
    AtPut(before, f.value.path, given.value);
    forall q | Apart(q, f.value.path)
      ensures At(f.value.cell.value, q) == At(before, q)
    {
      PutApart(before, f.value.path, q, given.value);
    }
    r := Ok(None);
  }

  /** Zero: Set with the zero value of the field's type; on success the field is zero. */
  method Zero(f: Field) returns (err: Option<SetError>)
    requires Valid(f)
    modifies f.value.cell
    ensures err == SetCheck(f, old(Current(f)), ZeroOf(TypeOf(old(Current(f)))))
    ensures err.Some? ==> f.value.cell.value == old(f.value.cell.value)
    ensures err.None? ==> Valid(f) && IsZero(f) == Ok(true)
    ensures err.None? ==>
              f.value.cell.value == Put(old(f.value.cell.value), f.value.path, ZeroOf(TypeOf(old(Current(f)))))
  {
    var zero := ZeroOf(TypeOf(Current(f)));
    var r := Set(f, zero);
    err := r.value;
  }

  /** A field is kept by getFields unless its tag under tagName is exactly "-";
      structFields (exportedOnly) also drops unexported fields. */
  predicate Keeps(d: FieldDecl, tagName: string, exportedOnly: bool)
  {
    TagGet(d.tag, tagName) != "-" && (exportedOnly ==> d.pkgPath == "")
  }

  /** The indices of the kept fields among the first n: increasing, and exactly
      the kept ones. */
  function Selected(fs: seq<FieldVal>, n: nat, tagName: string, exportedOnly: bool): (idx: seq<nat>)
    requires n <= |fs|
    ensures forall k :: 0 <= k < |idx| ==> idx[k] < n && Keeps(fs[idx[k]].field, tagName, exportedOnly)
    ensures forall k, l :: 0 <= k < l < |idx| ==> idx[k] < idx[l]
    decreases n
  {
    if n == 0 then []
    else
      var pre := Selected(fs, n - 1, tagName, exportedOnly);
      if Keeps(fs[n - 1].field, tagName, exportedOnly) then pre + [n - 1] else pre
  }

  /** Every kept field among the first n is selected. */
  lemma {:induction false} SelectedComplete(fs: seq<FieldVal>, n: nat, tagName: string, exportedOnly: bool, i: nat)
    requires i < n <= |fs| && Keeps(fs[i].field, tagName, exportedOnly)
    ensures i in Selected(fs, n, tagName, exportedOnly)
    decreases n
  {
    var pre := Selected(fs, n - 1, tagName, exportedOnly);
    if i < n - 1 {
      SelectedComplete(fs, n - 1, tagName, exportedOnly, i);
      if Keeps(fs[n - 1].field, tagName, exportedOnly) {
        var k :| 0 <= k < |pre| && pre[k] == i;
        assert (pre + [n - 1])[k] == i;
      }
    } else {
      assert (pre + [n - 1])[|pre|] == i;
    }
  }

  /** The field `FieldByName(fs[i].Name)` finds: the first one with that name. It is
      field i itself unless an earlier field shares its name, as repeated blank `_`
      fields do. */
  function Slot(fs: seq<FieldVal>, i: nat): (j: nat)
    requires i < |fs|
    ensures j <= i && fs[j].field.name == fs[i].field.name
    ensures forall k :: 0 <= k < j ==> fs[k].field.name != fs[i].field.name
  {
    FirstIndex(fs, fs[i].field.name).value
  }

  /** A field whose name no earlier field has is found by its name. */
  lemma SlotOfFreshName(fs: seq<FieldVal>, i: nat)
    requires i < |fs| && forall k :: 0 <= k < i ==> fs[k].field.name != fs[i].field.name
    ensures Slot(fs, i) == i
  {
  }

  /** The handle getFields makes for field i of the struct at view s: the declaration
      of field i, and the value FieldByName finds under its name. */
  function MakeHandle(s: View, fs: seq<FieldVal>, i: nat): Field
    requires i < |fs|
  {
    Field(Child(s, Slot(fs, i), fs[i].field), fs[i].field, "")
  }

  /** The handles getFields has made after looking at the first n fields. */
  function HandlesUpTo(s: View, fs: seq<FieldVal>, n: nat, tagName: string): seq<Field>
    requires n <= |fs|
    decreases n
  {
    if n == 0 then []
    else
      HandlesUpTo(s, fs, n - 1, tagName) +
      (if Keeps(fs[n - 1].field, tagName, false) then [MakeHandle(s, fs, n - 1)] else [])
  }

  function Handles(s: View, fs: seq<FieldVal>, tagName: string): seq<Field>
  {
    HandlesUpTo(s, fs, |fs|, tagName)
  }

  /** The handles made so far are one per selected field, in order. */
  lemma {:induction false} HandlesSelected(s: View, fs: seq<FieldVal>, n: nat, tagName: string)
    requires n <= |fs|
    ensures var idx := Selected(fs, n, tagName, false);
            var hs := HandlesUpTo(s, fs, n, tagName);
            |hs| == |idx| && forall k :: 0 <= k < |hs| ==> idx[k] < n && hs[k] == MakeHandle(s, fs, idx[k])
    decreases n
  {
    if n > 0 {
      HandlesSelected(s, fs, n - 1, tagName);
    }
  }

  /** `if v.Kind() == reflect.Ptr { v = v.Elem() }`, then the struct view, if any. */
  function StructView(v: View): (r: Option<View>)
    reads v.cell
    requires Resolves(v)
    ensures r.Some? ==> r.value.cell == v.cell && Resolves(r.value) && Get(r.value).StructV?
  {
    var cur := Get(v);
    if cur.PtrV? then
      if cur.target.Some? && cur.target.value.StructV? then
        AtAppend(v.cell.value, v.path, [Deref]);
        Some(View(v.cell, v.path + [Deref], true, v.stickyRO, v.embedRO))
      else None
    else if cur.StructV? then Some(v)
    else None
  }

  /** Every handle getFields returns shows the declaration of the field it was made
      for and the value of the first field with that name (the same field unless an
      earlier one shares the name); it resolves and has no default tag. It is
      read-only exactly when the field is unexported or the struct view was reached
      through a non-embedded unexported field, and settable exactly when it is not
      read-only and the struct view is addressable: an unexported embedded struct on
      the way does not stop its exported fields being read or set. */
  lemma HandlesView(s: View, tagName: string)
    requires Resolves(s) && Get(s).StructV?
    ensures var fs := Get(s).fields;
            var idx := Selected(fs, |fs|, tagName, false);
            var hs := Handles(s, fs, tagName);
            |hs| == |idx| &&
            forall k :: 0 <= k < |hs| ==>
              Valid(hs[k]) && hs[k].value.cell == s.cell &&
              hs[k].field == fs[idx[k]].field &&
              hs[k].value.path == s.path + [Enter(Slot(fs, idx[k]))] &&
              Current(hs[k]) == fs[Slot(fs, idx[k])].val &&
              hs[k].defaultTag == "" &&
              (ReadOnly(hs[k].value) <==> s.stickyRO || fs[idx[k]].field.pkgPath != "") &&
              (CanSet(hs[k].value) <==> s.addressable && !s.stickyRO && fs[idx[k]].field.pkgPath == "")
  {
    var fs := Get(s).fields;
    var idx := Selected(fs, |fs|, tagName, false);
    var hs := Handles(s, fs, tagName);
    HandlesSelected(s, fs, |fs|, tagName);
    assert fs[..|fs|] == fs;
    forall k | 0 <= k < |hs|
      ensures Valid(hs[k]) && Current(hs[k]) == fs[Slot(fs, idx[k])].val
    {
      AtAppend(s.cell.value, s.path, [Enter(Slot(fs, idx[k]))]);
    }
  }

  /** Two handles getFields returns whose fields have different names are
      independent: a write through one leaves what the other shows unchanged. Two
      whose fields share a name (repeated blank fields) view the same field. */
  lemma HandlesIndependent(s: View, tagName: string, a: nat, b: nat, x: Value)
    requires Resolves(s) && Get(s).StructV?
    requires var hs := Handles(s, Get(s).fields, tagName); a < |hs| && b < |hs|
    ensures var hs := Handles(s, Get(s).fields, tagName);
            At(s.cell.value, hs[a].value.path).Some? &&
            (hs[a].field.name != hs[b].field.name ==>
               At(Put(s.cell.value, hs[a].value.path, x), hs[b].value.path) == At(s.cell.value, hs[b].value.path)) &&
            (hs[a].field.name == hs[b].field.name ==> hs[a].value.path == hs[b].value.path)
  {
    var fs := Get(s).fields;
    var idx := Selected(fs, |fs|, tagName, false);
    var hs := Handles(s, fs, tagName);
    HandlesView(s, tagName);
    if hs[a].field.name != hs[b].field.name {
      SiblingsApart(s.path, Slot(fs, idx[a]), Slot(fs, idx[b]));
      PutApart(s.cell.value, hs[a].value.path, hs[b].value.path, x);
    }
  }

  /** On the handles of a struct not reached through a non-embedded unexported field
      (an unexported embedded one is allowed), Value and IsZero panic exactly on the
      unexported fields; on the others Value gives the field's value. */
  lemma HandlesReadable(s: View, tagName: string)
    requires Resolves(s) && Get(s).StructV? && !s.stickyRO
    ensures var fs := Get(s).fields;
            var idx := Selected(fs, |fs|, tagName, false);
            var hs := Handles(s, fs, tagName);
            |hs| == |idx| &&
            forall k :: 0 <= k < |hs| ==>
              Valid(hs[k]) &&
              hs[k].field == fs[idx[k]].field &&
              Value(hs[k]) == (if IsExported(hs[k]) then Ok(fs[Slot(fs, idx[k])].val) else Fail(UnexportedValue)) &&
              (IsZero(hs[k]).Fail? <==> !IsExported(hs[k]))
  {
    var fs := Get(s).fields;
    HandlesView(s, tagName);
    HandlesSelected(s, fs, |fs|, tagName);
    assert fs[..|fs|] == fs;
  }

  /** getFields: the fields of the struct v shows (through one pointer), minus those
      tagged "-" under tagName, in declaration order; a non-struct panics. */
  method GetFields(v: View, tagName: string) returns (r: Result<seq<Field>>)
    requires Resolves(v)
    ensures StructView(v).None? ==> r == Fail(NotStruct)
    ensures StructView(v).Some? ==>
              r == Ok(Handles(StructView(v).value, Get(StructView(v).value).fields, tagName))
  {
    var sview := StructView(v);
    if sview.None? {
      return Fail(NotStruct);
    }
    var s := sview.value;
    var fs := Get(s).fields;
    var fields: seq<Field> := [];
    var i := 0;
    while i < |fs|
      invariant 0 <= i <= |fs|
      invariant fields == HandlesUpTo(s, fs, i, tagName)
    {
      var field := fs[i];
      if TagGet(field.field.tag, tagName) == "-" {
        i := i + 1;
        continue;
      }
      fields := fields + [MakeHandle(s, fs, i)];
      i := i + 1;
    }
    r := Ok(fields);
  }

  /** Field.Fields: getFields on the field's value under the handle's defaultTag. */
  method Fields(f: Field) returns (r: Result<seq<Field>>)
    requires Valid(f)
    ensures StructView(f.value).None? ==> r == Fail(NotStruct)
    ensures StructView(f.value).Some? ==>
              r == Ok(Handles(StructView(f.value).value, Get(StructView(f.value).value).fields, f.defaultTag))
  {
    r := GetFields(f.value, f.defaultTag);
  }

  /** Type.FieldByName on the direct fields: the first field with that name. */
  function FirstIndex(fs: seq<FieldVal>, name: string): (r: Option<nat>)
    ensures r.Some? ==> r.value < |fs| && fs[r.value].field.name == name
    ensures r.Some? ==> forall k :: 0 <= k < r.value ==> fs[k].field.name != name
    ensures r.None? <==> forall k :: 0 <= k < |fs| ==> fs[k].field.name != name
    decreases |fs|
  {
    if fs == [] then None
    else if fs[0].field.name == name then Some(0)
    else match FirstIndex(fs[1..], name)
      case None => None
      case Some(j) => Some(j + 1)
  }

  /** Field.FieldOk: takes the field's address unless it is a pointer (panicking when
      it is unaddressable), reads it as an interface (panicking when either read-only
      flag is set), follows every pointer to a struct (panicking
      when none is there), and looks the name up; the found field is the first with
      that name, addressable, settable when exported, and has no default tag. */
  function FieldOk(f: Field, name: string): (r: Result<Option<Field>>)
    reads f.value.cell
    requires Valid(f)
    ensures r == Fail(Unaddressable) <==> Kind(f) != PtrKind && !f.value.addressable
    ensures r == Fail(UnexportedValue) <==> (Kind(f) == PtrKind || f.value.addressable) && ReadOnly(f.value)
    ensures r == Fail(NotStruct) <==>
              (Kind(f) == PtrKind || f.value.addressable) && !ReadOnly(f.value) && StructValue(Current(f)).Fail?
    ensures r.Ok? ==> StructValue(Current(f)).Ok?
    ensures r.Ok? ==>
              (r.value.None? <==> forall k :: 0 <= k < |StructValue(Current(f)).value.fields| ==>
                                     StructValue(Current(f)).value.fields[k].field.name != name)
    ensures r.Ok? && r.value.Some? ==>
              var g := r.value.value;
              Valid(g) && g.value.cell == f.value.cell && g.field.name == name && g.defaultTag == "" &&
              (CanSet(g.value) <==> g.field.pkgPath == "") &&
              FieldVal(g.field, Current(g)) in StructValue(Current(f)).value.fields
    ensures r.Ok? && r.value.Some? ==>
              var fs := StructValue(Current(f)).value.fields;
              FirstIndex(fs, name).Some? &&
              var j := FirstIndex(fs, name).value;
              r.value.value.value.path == f.value.path + DerefPath(Derefs(Current(f))) + [Enter(j)] &&
              r.value.value.field == fs[j].field && Current(r.value.value) == fs[j].val
  {
    var cur := Current(f);
    if Kind(f) != PtrKind && !f.value.addressable then Fail(Unaddressable)
    else if ReadOnly(f.value) then Fail(UnexportedValue)
    else match StructValue(cur)
      case Fail(p) => Fail(p)
      case Ok(sv) =>
        match FirstIndex(sv.fields, name)
        case None => Ok(None)
        case Some(j) =>
          var base := f.value.path + DerefPath(Derefs(cur));
          var g := Field(Child(View(f.value.cell, base, true, false, false), j, sv.fields[j].field),
                         sv.fields[j].field, "");
          StructValueDepth(cur);
          AtDerefs(cur);
          AtAppend(f.value.cell.value, f.value.path, DerefPath(Derefs(cur)));
          AtAppend(f.value.cell.value, base, [Enter(j)]);
          Ok(Some(g))
  }

  /** Field.Field: FieldOk, panicking when the name is not found. */
  function FieldNamed(f: Field, name: string): (r: Result<Field>)
    reads f.value.cell
    requires Valid(f)
    ensures FieldOk(f, name) == Ok(None) ==> r == Fail(FieldNotFound)
    ensures FieldOk(f, name).Fail? ==> r == Fail(FieldOk(f, name).panic)
    ensures FieldOk(f, name).Ok? && FieldOk(f, name).value.Some? ==> r == Ok(FieldOk(f, name).value.value)
  {
    match FieldOk(f, name)
    case Fail(p) => Fail(p)
    case Ok(None) => Fail(FieldNotFound)
    case Ok(Some(g)) => Ok(g)
  }
}
