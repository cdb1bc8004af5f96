/**
  The part of Go's reflect package the engine relies on, as finite trees.

  A `Type` describes a Go type; a `Value` is a Go value whose outer constructor is
  its static type (a slot of interface type holds an `InterfaceV` wrapping the dynamic
  value). Pointers are inline: the pointee of a non-nil pointer is part of the tree,
  so pointer graphs are finite and acyclic here. Maps are keyed by strings.
*/
module Reflect {

  datatype Option<+T> = None | Some(value: T)

  /** The panics of the engine, as values: a non-struct handed to New, a missing
      field asked of Field, the two reflect panics of Field.FieldOk, and
      reflect.Value.Set given a value of another type. */
  datatype Panic = NotStruct | FieldNotFound | Unaddressable | UnexportedValue | NotAssignable

  datatype Result<+T> = Ok(value: T) | Fail(panic: Panic)

  /** reflect.Kind, restricted to the kinds this model has. */
  datatype Kind =
    | Invalid | BoolKind | IntKind | UintKind | StringKind
    | StructKind | PtrKind | SliceKind | ArrayKind | MapKind | InterfaceKind

  datatype Prim = Bool | Int | Uint | String

  datatype Type =
    | BasicT(prim: Prim)
    | StructT(name: string, decls: seq<FieldDecl>)
    | PtrT(elem: Type)
    | SliceT(elem: Type)
    | ArrayT(len: nat, elem: Type)
    | MapT(elem: Type)                 // map[string]elem
    | InterfaceT(empty: bool)          // empty: interface{}, with no methods

  /** reflect.StructField: an empty pkgPath marks an exported field; the tag is the
      key-to-value lookup that reflect.StructTag.Get performs. */
  /** A struct tag as the keys and values reflect.StructTag.Lookup parses out of it;
      a parsed key has at least one character, so the empty key is never present. */
  type TagMap = m: map<string, string> | "" !in m

  datatype FieldDecl = FieldDecl(
    name: string,
    typ: Type,
    pkgPath: string,
    anonymous: bool,
    tag: TagMap)

  datatype Lit = BoolLit(b: bool) | IntLit(i: int) | UintLit(u: nat) | StringLit(s: string)

  datatype Value =
    | BasicV(lit: Lit)
    | StructV(name: string, fields: seq<FieldVal>)
    | PtrV(elem: Type, target: Option<Value>)            // None is the nil pointer
    | SliceV(elem: Type, backing: Backing)
    | ArrayV(elem: Type, elems: seq<Value>)
    | MapV(elem: Type, table: Table)
    | InterfaceV(empty: bool, dyn: Option<Value>)        // None is the nil interface

  /** A slice is nil or has a backing sequence (possibly empty). */
  datatype Backing = NilSlice | Backed(items: seq<Value>)

  /** A map is nil or has a table of entries (possibly empty). */
  datatype Table = NilMap | Table(entries: map<string, Value>)

  /** One field of a struct value: its declaration and its current value. */
  datatype FieldVal = FieldVal(field: FieldDecl, val: Value)

  /** The name under which the engine looks up directives when none is chosen. */
  const DefaultTagName: string := "json"

  function PrimOf(lit: Lit): Prim
  {
    match lit
    case BoolLit(_) => Bool
    case IntLit(_) => Int
    case UintLit(_) => Uint
    case StringLit(_) => String
  }

  function Decls(fields: seq<FieldVal>): seq<FieldDecl>
  {
    seq(|fields|, i requires 0 <= i < |fields| => fields[i].field)
  }

  /** Value.Type() */
  function TypeOf(v: Value): Type
  {
    match v
    case BasicV(lit) => BasicT(PrimOf(lit))
    case StructV(name, fields) => StructT(name, Decls(fields))
    case PtrV(elem, _) => PtrT(elem)
    case SliceV(elem, _) => SliceT(elem)
    case ArrayV(elem, elems) => ArrayT(|elems|, elem)
    case MapV(elem, _) => MapT(elem)
    case InterfaceV(e, _) => InterfaceT(e)
  }

  /** Type.Kind(); never Invalid, which only a missing value has. */
  function KindOf(t: Type): (k: Kind)
    ensures k != Invalid
  {
    match t
    case BasicT(Bool) => BoolKind
    case BasicT(Int) => IntKind
    case BasicT(Uint) => UintKind
    case BasicT(String) => StringKind
    case StructT(_, _) => StructKind
    case PtrT(_) => PtrKind
    case SliceT(_) => SliceKind
    case ArrayT(_, _) => ArrayKind
    case MapT(_) => MapKind
    case InterfaceT(_) => InterfaceKind
  }

  function ZeroLit(p: Prim): Lit
  {
    match p
    case Bool => BoolLit(false)
    case Int => IntLit(0)
    case Uint => UintLit(0)
    case String => StringLit("")
  }

  /** reflect.Zero(t): the zero value of t, which has type t. */
  function ZeroOf(t: Type): (z: Value)
    ensures TypeOf(z) == t
    decreases t
  {
    match t
    case BasicT(p) => BasicV(ZeroLit(p))
    case StructT(name, decls) =>
      var fields := seq(|decls|, i requires 0 <= i < |decls| => FieldVal(decls[i], ZeroOf(decls[i].typ)));
      assert Decls(fields) == decls;
      StructV(name, fields)
    case PtrT(e) => PtrV(e, None)
    case SliceT(e) => SliceV(e, NilSlice)
    case ArrayT(n, e) => ArrayV(e, seq(n, _ => ZeroOf(e)))
    case MapT(e) => MapV(e, NilMap)
    case InterfaceT(e) => InterfaceV(e, None)
  }

  /** reflect.DeepEqual(v, reflect.Zero(v.Type()).Interface()) on finite trees. */
  predicate IsZeroValue(v: Value)
  {
    v == ZeroOf(TypeOf(v))
  }

  /** reflect.ValueOf(v.Interface()): the dynamic value held in a slot; a nil
      interface gives the invalid value (None). */
  function Dynamic(v: Value): (r: Option<Value>)
    ensures r.Some? ==> !r.value.InterfaceV? && (r.value == v || r.value < v)
    ensures !v.InterfaceV? ==> r == Some(v)
  {
    match v
    case InterfaceV(_, None) => None
    case InterfaceV(_, Some(x)) => Dynamic(x)
    case _ => Some(v)
  }

  /** The kind of reflect.ValueOf(v): Invalid for a nil interface. */
  function DynKind(v: Value): Kind
  {
    match Dynamic(v)
    case None => Invalid
    case Some(d) => KindOf(TypeOf(d))
  }

  /** `v := reflect.ValueOf(val.Interface()); if v.Kind() == reflect.Ptr { v = v.Elem() }`:
      the dynamic value with one pointer level removed; None for the invalid value. */
  function Indirect1(v: Value): (r: Option<Value>)
    ensures r.Some? ==> r.value == v || r.value < v
  {
    match Dynamic(v)
    case None => None
    case Some(d) => if d.PtrV? then d.target else Some(d)
  }

  /** The number of non-nil pointers strctVal dereferences. */
  function Derefs(v: Value): nat
  {
    match v
    case PtrV(_, Some(x)) => 1 + Derefs(x)
    case _ => 0
  }

  /** strctVal: follow every pointer; panic unless a struct remains. */
  function StructValue(v: Value): (r: Result<Value>)
    ensures r.Ok? ==> r.value.StructV? && (r.value == v || r.value < v)
    ensures r.Fail? ==> r.panic == NotStruct
  {
    match v
    case PtrV(_, Some(x)) => StructValue(x)
    case StructV(_, _) => Ok(v)
    case _ => Fail(NotStruct)
  }

  /** reflect.StructTag.Get: the value under key, or "" when the key is absent. */
  function TagGet(tag: TagMap, key: string): string
  {
    if key in tag then tag[key] else ""
  }

  /** Get gives the value recorded under key; an absent key, the empty one among
      them, reads as "", the same as a key recorded with an empty value. */
  lemma TagGetLookup(tag: TagMap, key: string)
    ensures key in tag ==> TagGet(tag, key) == tag[key]
    ensures key !in tag ==> TagGet(tag, key) == ""
    ensures TagGet(tag, "") == ""
    ensures key != "" ==> (TagGet(tag, key) == TagGet(tag[key := ""], key) <==> key !in tag || tag[key] == "")
  {
  }

  /** strctVal succeeds exactly on pointers-to-struct of any depth, and the struct it
      returns is the one reached by following Derefs(v) pointers. */
  lemma {:induction false} StructValueDepth(v: Value)
    ensures StructValue(v).Ok? <==> StripAll(v).StructV?
    ensures StructValue(v).Ok? ==> StructValue(v).value == StripAll(v)
  {
    match v
    case PtrV(_, Some(x)) => StructValueDepth(x);
    case _ =>
  }

  /** The value left after following every non-nil pointer. */
  function StripAll(v: Value): Value
  {
    match v
    case PtrV(_, Some(x)) => StripAll(x)
    case _ => v
  }
}
