/** What the mapper learns from Go's `reflect` package, made explicit: a
    finite tree of field declarations (`Ty`, `Field`), the kind of each type,
    the values a field can hold, and an addressable field (`Loc`) that the
    setters write through. */
module Reflect {
  import opened Foreign

  /** reflect.Kind, as far as the mapper distinguishes kinds. */
  datatype Kind =
    | InvalidKind | BoolKind
    | IntKind | Int8Kind | Int16Kind | Int32Kind | Int64Kind
    | UintKind | Uint8Kind | Uint16Kind | Uint32Kind | Uint64Kind | UintptrKind
    | Float32Kind | Float64Kind | StringKind
    | ArrayKind | SliceKind | StructKind | PointerKind | OtherKind

  datatype Size = Plain | Bits8 | Bits16 | Bits32 | Bits64

  /** A Go type. `Duration` (time.Duration), `Time` (time.Time) and `UUID`
      (uuid.UUID) are the three named types the mapper recognises by
      identity; every other type is described by its structure. `Other`
      stands for maps, interfaces, functions, channels, complex numbers and
      arrays other than uuid.UUID. */
  datatype Ty =
    | Bool | Int(size: Size) | Uint(size: Size) | Uintptr | Float32 | Float64 | String
    | Duration | Time | UUID
    | Slice(elem: Ty) | Struct(fields: seq<Field>) | Ptr(elem: Ty) | Other

  /** reflect.StructField: the Go name, whether it is exported (an empty
      PkgPath), whether it is embedded, its struct tag as a key/value map,
      and its type. */
  datatype Field = Field(goName: string, exported: bool, anonymous: bool,
                         tags: map<string, string>, ty: Ty)

  // The tag keys of bind.go:38-45.
  const TagCLI := "cli"
  const TagDefault := "cliDefault"
  const TagUsage := "cliUsage"
  const TagTimeLayout := "cliTimeLayout"
  const TagPrefix := "cliPrefix"

  /** reflect.StructTag.Get: the value under `key`, or "" when absent. */
  function Tag(f: Field, key: string): string
  {
    if key in f.tags then f.tags[key] else ""
  }

  function KindOf(t: Ty): Kind
  {
    match t
    case Bool => BoolKind
    case Int(size) =>
      (match size
       case Plain => IntKind case Bits8 => Int8Kind case Bits16 => Int16Kind
       case Bits32 => Int32Kind case Bits64 => Int64Kind)
    case Uint(size) =>
      (match size
       case Plain => UintKind case Bits8 => Uint8Kind case Bits16 => Uint16Kind
       case Bits32 => Uint32Kind case Bits64 => Uint64Kind)
    case Uintptr => UintptrKind
    case Float32 => Float32Kind
    case Float64 => Float64Kind
    case String => StringKind
    case Duration => Int64Kind
    case Time => StructKind
    case UUID => ArrayKind
    case Slice(_) => SliceKind
    case Struct(_) => StructKind
    case Ptr(_) => PointerKind
    case Other => OtherKind
  }

  /** Number of nodes in a type tree; the walkers recurse on it. */
  function TySize(t: Ty): nat
  {
    match t
    case Slice(e) => TySize(e) + 1
    case Ptr(e) => TySize(e) + 1
    case Struct(fs) => FieldsSize(fs) + 1
    case _ => 1
  }

  function FieldsSize(fs: seq<Field>): nat
  {
    if fs == [] then 0 else FieldsSize(fs[..|fs| - 1]) + TySize(fs[|fs| - 1].ty) + 1
  }

  lemma {:induction false} FieldsSizeBound(fs: seq<Field>, i: nat)
    requires i < |fs|
    ensures TySize(fs[i].ty) < FieldsSize(fs)
    ensures FieldsSize(fs[..i]) < FieldsSize(fs)
  {
    if i < |fs| - 1 {
      FieldsSizeBound(fs[..|fs| - 1], i);
      assert fs[..|fs| - 1][..i] == fs[..i];
    } else {
      assert fs[..|fs| - 1] == fs[..i];
    }
  }

  /** The contents of a Go variable. A pointer is nil or points at a value;
      a slice is nil or holds its elements. */
  datatype Value =
    | BoolVal(b: bool) | IntVal(i: int) | UintVal(u: nat) | FloatVal(f: FloatBits)
    | StringVal(s: string) | DurationVal(d: int) | TimeVal(t: Instant) | UUIDVal(id: UUIDValue)
    | NilSlice | SliceVal(elems: seq<Value>)
    | StructVal(fields: seq<Value>)
    | NilPtr | PtrTo(target: Value)
    | OtherVal

  /** The zero value of a type, what reflect.New(t).Elem() holds. */
  function Zero(t: Ty): Value
  {
    match t
    case Bool => BoolVal(false)
    case Int(_) => IntVal(0)
    case Uint(_) => UintVal(0)
    case Uintptr => UintVal(0)
    case Float32 => FloatVal(ZeroFloat)
    case Float64 => FloatVal(ZeroFloat)
    case String => StringVal("")
    case Duration => DurationVal(0)
    case Time => TimeVal(ZeroInstant)
    case UUID => UUIDVal(NilUUID)
    case Slice(_) => NilSlice
    case Struct(fs) => StructVal(seq(|fs|, i requires 0 <= i < |fs| => Zero(fs[i].ty)))
    case Ptr(_) => NilPtr
    case Other => OtherVal
  }

  /** An addressable, settable reflect.Value: a cell of some storage and the
      static type of that cell. */
  datatype Loc = Loc(cells: array<Value>, index: nat, ty: Ty)
  {
    predicate Valid()
    {
      index < cells.Length
    }
  }
}
