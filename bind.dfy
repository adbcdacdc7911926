/** The binder of bind.go: reading the flag values of a parsed command back
    into a freshly allocated struct, field by field, with the same name
    resolution as the flag generator. */
module Binding {
  import opened Wrappers
  import opened Text
  import opened Foreign
  import opened Reflect
  import opened Utils

  // ---------------------------------------------------------------------
  // The flag source: a parsed cli.Command

  /** The value the command-line library holds for one flag. */
  datatype FlagValue =
    | BoolValue(truth: bool)
    | Int64Value(int64: int)
    | Uint64Value(uint64: nat)
    | Float64Value(float64: FloatBits)
    | StringValue(text: string)
    | StringSliceValue(texts: seq<string>)

  /** A parsed command: the value of every flag (its default when it was not
      given) and the names of the flags given explicitly. */
  datatype Source = Source(values: map<string, FlagValue>, explicit: set<string>)

  /** cli.Command.IsSet */
  predicate IsSet(src: Source, name: string)
  {
    name in src.explicit
  }

  // The typed accessors: the flag's value, or the zero of the type when
  // there is no such flag or it holds another type.

  function BoolOf(src: Source, name: string): bool
  {
    if name in src.values && src.values[name].BoolValue? then src.values[name].truth else false
  }

  function Int64Of(src: Source, name: string): int
  {
    if name in src.values && src.values[name].Int64Value? then src.values[name].int64 else 0
  }

  function Uint64Of(src: Source, name: string): nat
  {
    if name in src.values && src.values[name].Uint64Value? then src.values[name].uint64 else 0
  }

  function Float64Of(src: Source, name: string): FloatBits
  {
    if name in src.values && src.values[name].Float64Value? then src.values[name].float64 else ZeroFloat
  }

  function StringOf(src: Source, name: string): string
  {
    if name in src.values && src.values[name].StringValue? then src.values[name].text else ""
  }

  function StringSliceOf(src: Source, name: string): seq<string>
  {
    if name in src.values && src.values[name].StringSliceValue? then src.values[name].texts else []
  }

  // ---------------------------------------------------------------------
  // Outcomes

  /** The errors the binder returns, with the wrapping fmt.Errorf adds. */
  datatype BindError =
    | InvalidDest
    | EmbeddedWithCliTag(field: string)
    | Substruct(field: string, cause: BindError)
    | SetField(field: string, cause: BindError)
    | ParseDuration(text: string)
    | ParseTime(layout: string, text: string)
    | ParseUUID(text: string)
    | ParseInt(text: string)
    | ParseUint(text: string)
    | ParseFloat(text: string)
    | Matrix(field: string)

  /** The reflect panics the binder can run into: NumField of a type that is
      not a struct, Set of a value whose type is not the cell's type, and
      SetBool/SetFloat/SetString on a cell of another kind. */
  datatype PanicReason = NumFieldOfNonStruct | NotAssignable | WrongKind

  /** An error travels back to the caller and is wrapped on the way; a panic
      unwinds the whole call unchanged. */
  datatype Failure = Error(err: BindError) | Panic(reason: PanicReason)

  /** fmt.Errorf("bind substruct %s: %w", ...) */
  function InSubstruct(field: string, f: Failure): Failure
  {
    if f.Error? then Error(Substruct(field, f.err)) else f
  }

  /** fmt.Errorf("set field %s value: %w", ...) */
  function InSetField(field: string, f: Failure): Failure
  {
    if f.Error? then Error(SetField(field, f.err)) else f
  }

  // ---------------------------------------------------------------------
  // Writing a settable value of type `lt`

  /** reflect.Value.Set: the value must have the cell's exact type. */
  function Assign(lt: Ty, vt: Ty, v: Value): (r: Result<Value, Failure>)
    ensures r.Success? <==> lt == vt
    ensures r.Success? ==> r.value == v
    ensures r.Failure? ==> r.error == Panic(NotAssignable)
  {
    if lt == vt then Success(v) else Failure(Panic(NotAssignable))
  }

  /** The kind SetBool, SetFloat or SetString demands for the value. */
  predicate KindAccepts(k: Kind, v: Value)
  {
    match v
    case BoolVal(_) => k == BoolKind
    case FloatVal(_) => k == Float32Kind || k == Float64Kind
    case StringVal(_) => k == StringKind
    case _ => false
  }

  /** SetBool, SetFloat, SetString: the cell must be of the value's kind. */
  function SetScalar(lt: Ty, v: Value): (r: Result<Value, Failure>)
    ensures r.Success? <==> KindAccepts(KindOf(lt), v)
    ensures r.Success? ==> r.value == v
    ensures r.Failure? ==> r.error == Panic(WrongKind)
  {
    if KindAccepts(KindOf(lt), v) then Success(v) else Failure(Panic(WrongKind))
  }

  /** The layout a time field is parsed with: its `cliTimeLayout` tag, or
      RFC 3339 when the tag is empty. */
  function TimeLayout(sf: Field): string
  {
    if Tag(sf, TagTimeLayout) == "" then RFC3339 else Tag(sf, TagTimeLayout)
  }

  // ---------------------------------------------------------------------
  // setFieldValue and setSliceField (bind.go:121-276)

  /** What setFieldValue does to the settable value `cur` of type `lt`,
      for the struct field `sf` whose flag is `name`: the new value, or the
      failure. The cases are taken in the source's order on the field type
      with pointers stripped. */
  function SetFieldSpec(src: Source, ps: Parsers, name: string, sf: Field, lt: Ty, cur: Value)
    : Result<Value, Failure>
  {
    var t := Unreferenced(sf.ty);
    var k := KindOf(t);
    if t == Duration then
      var s := StringOf(src, name);
      if s == "" then Assign(lt, Duration, DurationVal(0))
      else if ps.parseDuration(s).None? then Failure(Error(ParseDuration(s)))
      else Assign(lt, Duration, DurationVal(ps.parseDuration(s).value))
    else if k == BoolKind then SetScalar(lt, BoolVal(BoolOf(src, name)))
    else if IsAnyInt(k) then Success(IntSet(lt, cur, Int64Of(src, name)))
    else if IsAnyUint(k) then Success(UintSet(lt, cur, Uint64Of(src, name)))
    else if k == Float32Kind || k == Float64Kind then SetScalar(lt, FloatVal(Float64Of(src, name)))
    else if t == Time then
      var layout := TimeLayout(sf);
      var s := StringOf(src, name);
      if s == "" then Assign(lt, Time, TimeVal(ZeroInstant))
      else if ps.parseTime(layout, s).None? then Failure(Error(ParseTime(layout, s)))
      else Assign(lt, Time, TimeVal(ps.parseTime(layout, s).value))
    else if t == UUID then
      var s := StringOf(src, name);
      if s == "" then Assign(lt, UUID, UUIDVal(NilUUID))
      else if ps.parseUUID(s).None? then Failure(Error(ParseUUID(s)))
      else Assign(lt, UUID, UUIDVal(ps.parseUUID(s).value))
    else if k == StringKind then SetScalar(lt, StringVal(StringOf(src, name)))
    else if k == SliceKind then SliceSpec(src, ps, name, sf, lt, cur)
    else Success(cur)
  }

  /** What one element of a slice flag becomes: appended, skipped (the
      `continue` before the append), or a failure. */
  datatype Step = Append(v: Value) | Skip

  /** The loop body of setSliceField for the element text `s`, where `t` is
      the element type of the field's declared type. */
  function ElemSpec(ps: Parsers, sf: Field, t: Ty, s: string): Result<Step, Failure>
  {
    var k := KindOf(t);
    if t == Duration then
      if s == "" then Success(Skip)
      else if ps.parseDuration(s).None? then Failure(Error(ParseDuration(s)))
      else Success(Append(DurationVal(ps.parseDuration(s).value)))
    else if k == BoolKind then Success(Append(BoolVal(ps.parseBool(s).value)))
    else if IsAnyInt(k) then
      if ps.parseInt(s).err != NoError then Failure(Error(ParseInt(s)))
      else Success(Append(IntSet(t, Zero(t), ps.parseInt(s).value)))
    else if IsAnyUint(k) then
      if ps.parseUint(s).err != NoError then Failure(Error(ParseUint(s)))
      else Success(Append(UintSet(t, Zero(t), ps.parseUint(s).value)))
    else if k == Float32Kind || k == Float64Kind then
      if ps.parseFloat(s).err != NoError then Failure(Error(ParseFloat(s)))
      else Success(Append(FloatVal(ps.parseFloat(s).value)))
    else if t == Time then
      var layout := TimeLayout(sf);
      if s == "" then Success(Skip)
      else if ps.parseTime(layout, s).None? then Failure(Error(ParseTime(layout, s)))
      else Success(Append(TimeVal(ps.parseTime(layout, s).value)))
    else if t == UUID then
      if s == "" then Success(Skip)
      else if ps.parseUUID(s).None? then Failure(Error(ParseUUID(s)))
      else Success(Append(UUIDVal(ps.parseUUID(s).value)))
    else if k == StringKind then Success(Append(StringVal(s)))
    else if k == SliceKind then Failure(Error(Matrix(sf.goName)))
    else Success(Append(Zero(t)))
  }

  /** What the loop of setSliceField makes of the element steps, left to
      right: appended values are collected, skipped ones dropped, and the
      first failing step ends the loop. */
  function CollectSteps(steps: seq<Result<Step, Failure>>): Result<seq<Value>, Failure>
  {
    if steps == [] then Success([])
    else
      match CollectSteps(steps[..|steps| - 1])
      case Failure(f) => Failure(f)
      case Success(vs) =>
        match steps[|steps| - 1]
        case Failure(f) => Failure(f)
        case Success(Skip) => Success(vs)
        case Success(Append(v)) => Success(vs + [v])
  }

  /** The step of every element of `raw`. */
  function ElemSteps(ps: Parsers, sf: Field, t: Ty, raw: seq<string>): (steps: seq<Result<Step, Failure>>)
    ensures |steps| == |raw|
  {
    seq(|raw|, k requires 0 <= k < |raw| => ElemSpec(ps, sf, t, raw[k]))
  }

  /** The elements setSliceField collects from `raw`. */
  function ElemsSpec(ps: Parsers, sf: Field, t: Ty, raw: seq<string>): Result<seq<Value>, Failure>
  {
    CollectSteps(ElemSteps(ps, sf, t, raw))
  }

  /** setSliceField: an empty string-slice value leaves the field alone;
      otherwise the collected elements are stored as a new slice of the
      declared element type. */
  function SliceSpec(src: Source, ps: Parsers, name: string, sf: Field, lt: Ty, cur: Value)
    : Result<Value, Failure>
    requires sf.ty.Slice? || sf.ty.Ptr?
  {
    var raw := StringSliceOf(src, name);
    if |raw| == 0 then Success(cur)
    else
      match ElemsSpec(ps, sf, sf.ty.elem, raw)
      case Failure(f) => Failure(f)
      case Success(vs) => Assign(lt, Slice(sf.ty.elem), SliceVal(vs))
  }

  /** Once a step has failed, the loop's result is that failure. */
  lemma {:induction false} CollectFailureSticks(steps: seq<Result<Step, Failure>>, j: nat)
    requires j <= |steps| && CollectSteps(steps[..j]).Failure?
    ensures CollectSteps(steps) == CollectSteps(steps[..j])
  {
    if j < |steps| {
      assert steps[..|steps| - 1][..j] == steps[..j];
      CollectFailureSticks(steps[..|steps| - 1], j);
    } else {
      assert steps[..j] == steps;
    }
  }

  lemma CollectSnoc(steps: seq<Result<Step, Failure>>, j: nat)
    requires j < |steps|
    ensures CollectSteps(steps[..j + 1]) ==
      match CollectSteps(steps[..j])
      case Failure(f) => Failure(f)
      case Success(vs) =>
        match steps[j]
        case Failure(f) => Failure(f)
        case Success(Skip) => Success(vs)
        case Success(Append(v)) => Success(vs + [v])
  {
    assert steps[..j + 1][..j] == steps[..j];
  }

  /** reflect.Value.Set on a cell. */
  method Set(field: Loc, vt: Ty, v: Value) returns (err: Option<Failure>)
    requires field.Valid()
    modifies field.cells
    ensures OnlyCellWritten(field)
    ensures match Assign(field.ty, vt, v)
      case Success(x) => err == None && field.cells[field.index] == x
      case Failure(f) => err == Some(f) && field.cells[field.index] == old(field.cells[field.index])
  {
    if field.ty != vt {
      return Some(Panic(NotAssignable));
    }
    field.cells[field.index] := v;
    err := None;
  }

  /** reflect.Value.SetBool, SetFloat and SetString on a cell. */
  method SetKinded(field: Loc, v: Value) returns (err: Option<Failure>)
    requires field.Valid()
    modifies field.cells
    ensures OnlyCellWritten(field)
    ensures match SetScalar(field.ty, v)
      case Success(x) => err == None && field.cells[field.index] == x
      case Failure(f) => err == Some(f) && field.cells[field.index] == old(field.cells[field.index])
  {
    if !KindAccepts(KindOf(field.ty), v) {
      return Some(Panic(WrongKind));
    }
    field.cells[field.index] := v;
    err := None;
  }

  method SetFieldValue(src: Source, ps: Parsers, name: string, sf: Field, field: Loc)
    returns (err: Option<Failure>)
    requires field.Valid()
    modifies field.cells
    ensures OnlyCellWritten(field)
    ensures match SetFieldSpec(src, ps, name, sf, field.ty, old(field.cells[field.index]))
      case Success(x) => err == None && field.cells[field.index] == x
      case Failure(f) => err == Some(f) && field.cells[field.index] == old(field.cells[field.index])
  {
    var t := UnreferenceType(sf.ty);
    var k := KindOf(t);
    if t == Duration {
      var s := StringOf(src, name);
      if s == "" {
        err := Set(field, Duration, DurationVal(0));
        return;
      }
      var d := ps.parseDuration(s);
      if d.None? {
        return Some(Error(ParseDuration(s)));
      }
      err := Set(field, Duration, DurationVal(d.value));
    } else if k == BoolKind {
      err := SetKinded(field, BoolVal(BoolOf(src, name)));
    } else if IsAnyInt(k) {
      CastAndSetInt(field, Int64Of(src, name));
      err := None;
    } else if IsAnyUint(k) {
      CastAndSetUint(field, Uint64Of(src, name));
      err := None;
    } else if k == Float32Kind || k == Float64Kind {
      err := SetKinded(field, FloatVal(Float64Of(src, name)));
    } else if t == Time {
      var layout := Tag(sf, TagTimeLayout);
      if layout == "" {
        layout := RFC3339;
      }
      var s := StringOf(src, name);
      if s == "" {
        err := Set(field, Time, TimeVal(ZeroInstant));
        return;
      }
      var when := ps.parseTime(layout, s);
      if when.None? {
        return Some(Error(ParseTime(layout, s)));
      }
      err := Set(field, Time, TimeVal(when.value));
    } else if t == UUID {
      var s := StringOf(src, name);
      if s == "" {
        err := Set(field, UUID, UUIDVal(NilUUID));
        return;
      }
      var id := ps.parseUUID(s);
      if id.None? {
        return Some(Error(ParseUUID(s)));
      }
      err := Set(field, UUID, UUIDVal(id.value));
    } else if k == StringKind {
      err := SetKinded(field, StringVal(StringOf(src, name)));
    } else if k == SliceKind {
      err := SetSliceField(src, ps, name, sf, field);
    } else {
      err := None;
    }
  }

  /** The loop body of setSliceField for one element, in a fresh cell of
      the element type. */
  method ParseElement(ps: Parsers, sf: Field, t: Ty, s: string) returns (step: Result<Step, Failure>)
    ensures step == ElemSpec(ps, sf, t, s)
  {
    var val := new Value[1];
    val[0] := Zero(t);
    var k := KindOf(t);
    if t == Duration {
      if s == "" {
        return Success(Skip);
      }
      var d := ps.parseDuration(s);
      if d.None? {
        return Failure(Error(ParseDuration(s)));
      }
      val[0] := DurationVal(d.value);
    } else if k == BoolKind {
      val[0] := BoolVal(ps.parseBool(s).value);
    } else if IsAnyInt(k) {
      var i := ps.parseInt(s);
      if i.err != NoError {
        return Failure(Error(ParseInt(s)));
      }
      CastAndSetInt(Loc(val, 0, t), i.value);
    } else if IsAnyUint(k) {
      var u := ps.parseUint(s);
      if u.err != NoError {
        return Failure(Error(ParseUint(s)));
      }
      CastAndSetUint(Loc(val, 0, t), u.value);
    } else if k == Float32Kind || k == Float64Kind {
      var f := ps.parseFloat(s);
      if f.err != NoError {
        return Failure(Error(ParseFloat(s)));
      }
      val[0] := FloatVal(f.value);
    } else if t == Time {
      var layout := Tag(sf, TagTimeLayout);
      if layout == "" {
        layout := RFC3339;
      }
      if s == "" {
        return Success(Skip);
      }
      var when := ps.parseTime(layout, s);
      if when.None? {
        return Failure(Error(ParseTime(layout, s)));
      }
      val[0] := TimeVal(when.value);
    } else if t == UUID {
      if s == "" {
        return Success(Skip);
      }
      var id := ps.parseUUID(s);
      if id.None? {
        return Failure(Error(ParseUUID(s)));
      }
      val[0] := UUIDVal(id.value);
    } else if k == StringKind {
      val[0] := StringVal(s);
    } else if k == SliceKind {
      return Failure(Error(Matrix(sf.goName)));
    }
    step := Success(Append(val[0]));
  }

  /** The loop of setSliceField: the elements appended to `out`, or the
      failure of the first element that fails. */
  method CollectElements(ps: Parsers, sf: Field, t: Ty, raw: seq<string>)
    returns (r: Result<seq<Value>, Failure>)
    ensures r == ElemsSpec(ps, sf, t, raw)
  {
    ghost var steps := ElemSteps(ps, sf, t, raw);
    var out: seq<Value> := [];
    assert steps[..0] == [];
    for j := 0 to |raw|
      invariant CollectSteps(steps[..j]) == Success(out)
    {
      var step := ParseElement(ps, sf, t, raw[j]);
      assert steps[j] == step;
      CollectNext(steps, j, out);
      if step.Failure? {
        return Failure(step.error);
      }
      out := Collected(out, step.value);
    }
    assert steps[..|raw|] == steps;
    r := Success(out);
  }

  /** The elements collected after a successful step. */
  function Collected(out: seq<Value>, step: Step): seq<Value>
  {
    if step.Append? then out + [step.v] else out
  }

  /** One turn of the collecting loop, from the elements collected so far. */
  lemma CollectNext(steps: seq<Result<Step, Failure>>, j: nat, out: seq<Value>)
    requires j < |steps| && CollectSteps(steps[..j]) == Success(out)
    ensures steps[j].Failure? ==> CollectSteps(steps) == Failure(steps[j].error)
    ensures steps[j].Success? ==> CollectSteps(steps[..j + 1]) == Success(Collected(out, steps[j].value))
  {
    CollectSnoc(steps, j);
    if steps[j].Failure? {
      CollectFailureSticks(steps, j + 1);
    }
  }

  method SetSliceField(src: Source, ps: Parsers, name: string, sf: Field, field: Loc)
    returns (err: Option<Failure>)
    requires field.Valid() && (sf.ty.Slice? || sf.ty.Ptr?)
    modifies field.cells
    ensures OnlyCellWritten(field)
    ensures match SliceSpec(src, ps, name, sf, field.ty, old(field.cells[field.index]))
      case Success(x) => err == None && field.cells[field.index] == x
      case Failure(f) => err == Some(f) && field.cells[field.index] == old(field.cells[field.index])
  {
    var raw := StringSliceOf(src, name);
    if |raw| == 0 {
      return None;
    }
    var t := sf.ty.elem;
    var out := CollectElements(ps, sf, t, raw);
    if out.Failure? {
      return Some(out.error);
    }
    err := Set(field, Slice(t), SliceVal(out.value));
  }

  // ---------------------------------------------------------------------
  // bindStruct (bind.go:67-118)

  /** The flag name of a field under `prefix`: the declared `cli` name, or
      the lower-cased Go name when there is none. */
  function FlagName(ps: Parsers, sf: Field, prefix: string): string
  {
    var n := ParseNames(Tag(sf, TagCLI));
    prefix + (if n.name == "" then ToLower(ps.toLower, sf.goName) else n.name)
  }

  /** bind.go:100 as written: fv.Set(*subv) stores the bound struct into the
      field as it is, so a field declared as a pointer to the struct panics. */
  function AssignSubstructAsWritten(ft: Ty, sv: Value): Result<Value, Failure>
  {
    Assign(ft, Unreferenced(ft), sv)
  }

  /** The intended assignment: a pointer field receives a freshly allocated
      chain of pointers that ends in the bound struct. */
  function AssignSubstruct(ft: Ty, sv: Value): Value
  {
    if ft.Ptr? then PtrTo(AssignSubstruct(ft.elem, sv)) else sv
  }

  /** The value reached by following the pointers of type `ft` in `v`. */
  function Deref(ft: Ty, v: Value): Option<Value>
  {
    if ft.Ptr? then (if v.PtrTo? then Deref(ft.elem, v.target) else None) else Some(v)
  }

  /** What the loop body of bindStruct does with field `sf` of a freshly
      allocated struct: nothing (None), a new value for the field, which
      marks the struct defined (Some), or a failure that ends the bind. */
  function BindField(src: Source, ps: Parsers, sf: Field, prefix: string): Result<Option<Value>, Failure>
    decreases TySize(sf.ty), 3
  {
    if !sf.exported then Success(None)
    else if IsStructLike(sf.ty) then
      if sf.anonymous && Tag(sf, TagCLI) != "" then Failure(Error(EmbeddedWithCliTag(sf.goName)))
      else
        var pfx := if sf.anonymous then prefix else prefix + Tag(sf, TagPrefix);
        match BindStructSpec(src, ps, sf.ty, pfx)
        case Failure(f) => Failure(InSubstruct(sf.goName, f))
        case Success(None) => Success(None)
        case Success(Some(sv)) => Success(Some(AssignSubstruct(sf.ty, sv)))
    else
      var name := FlagName(ps, sf, prefix);
      if !IsSet(src, name) && ParseNames(Tag(sf, TagCLI)).omitEmpty then Success(None)
      else
        // unreferenceValue: a (nil) pointer field yields a detached zero
        // value of the pointee type, and the field itself stays nil.
        var lt := if sf.ty.Ptr? then sf.ty.elem else sf.ty;
        match SetFieldSpec(src, ps, name, sf, lt, Zero(lt))
        case Failure(f) => Failure(InSetField(sf.goName, f))
        case Success(v) => Success(Some(if sf.ty.Ptr? then Zero(sf.ty) else v))
  }

  /** The struct being built and whether any field has been assigned. */
  datatype BindState = BindState(vals: seq<Value>, defined: bool)

  /** What bindStruct's loop makes of the steps `os` of the first |os|
      fields, starting from the fresh struct `init`: the first failing step
      ends it; an assigning step stores its value and marks the struct
      defined; a skipping step changes nothing. */
  function FoldSteps(init: seq<Value>, os: seq<Result<Option<Value>, Failure>>): (r: Result<BindState, Failure>)
    requires |os| <= |init|
    ensures r.Success? ==> |r.value.vals| == |init|
  {
    if os == [] then Success(BindState(init, false))
    else
      var n := |os| - 1;
      match FoldSteps(init, os[..n])
      case Failure(f) => Failure(f)
      case Success(st) =>
        match os[n]
        case Failure(f) => Failure(f)
        case Success(None) => Success(st)
        case Success(Some(v)) => Success(BindState(st.vals[n := v], true))
  }

  function ZeroFields(fs: seq<Field>): (vals: seq<Value>)
    ensures |vals| == |fs|
  {
    seq(|fs|, i requires 0 <= i < |fs| => Zero(fs[i].ty))
  }

  /** The step of every field of a struct under `prefix`. */
  function FieldSteps(src: Source, ps: Parsers, fs: seq<Field>, prefix: string)
    : (os: seq<Result<Option<Value>, Failure>>)
    ensures |os| == |fs|
    decreases FieldsSize(fs), 0
  {
    seq(|fs|, j requires 0 <= j < |fs| => FieldsSizeBound(fs, j); BindField(src, ps, fs[j], prefix))
  }

  /** bindStruct: the struct value when some field was assigned, None when
      none was, or the failure. time.Time is a struct with no exported
      field; any other type that is not a struct panics in NumField. */
  function BindStructSpec(src: Source, ps: Parsers, t: Ty, prefix: string): Result<Option<Value>, Failure>
    decreases TySize(t), 2
  {
    var rt := Unreferenced(t);
    if !rt.Struct? then
      if KindOf(rt) == StructKind then Success(None) else Failure(Panic(NumFieldOfNonStruct))
    else
      match FoldSteps(ZeroFields(rt.fields), FieldSteps(src, ps, rt.fields, prefix))
      case Failure(f) => Failure(f)
      case Success(st) => if st.defined then Success(Some(StructVal(st.vals))) else Success(None)
  }

  /** Once a step has failed, the loop's result is that failure. */
  lemma {:induction false} FoldFailureSticks(init: seq<Value>, os: seq<Result<Option<Value>, Failure>>, n: nat)
    requires n <= |os| <= |init| && FoldSteps(init, os[..n]).Failure?
    ensures FoldSteps(init, os) == FoldSteps(init, os[..n])
  {
    if n < |os| {
      assert os[..|os| - 1][..n] == os[..n];
      FoldFailureSticks(init, os[..|os| - 1], n);
    } else {
      assert os[..n] == os;
    }
  }

  /** Cells of fields not yet visited keep their initial value. */
  lemma {:induction false} FoldTail(init: seq<Value>, os: seq<Result<Option<Value>, Failure>>)
    requires |os| <= |init| && FoldSteps(init, os).Success?
    ensures forall j :: |os| <= j < |init| ==> FoldSteps(init, os).value.vals[j] == init[j]
  {
    if os != [] {
      FoldTail(init, os[..|os| - 1]);
    }
  }

  /** One iteration of bindStruct's loop, from the state after `i` fields
      to the state after `i + 1`. */
  lemma FoldStep(init: seq<Value>, os: seq<Result<Option<Value>, Failure>>, i: nat,
                 before: seq<Value>, after: seq<Value>, defined: bool, fr: Result<bool, Failure>)
    requires i < |os| <= |init| && FoldSteps(init, os[..i]) == Success(BindState(before, defined))
    requires |after| == |before|
    requires forall j :: 0 <= j < |after| && j != i ==> after[j] == before[j]
    requires match os[i]
      case Failure(f) => fr == Failure(f)
      case Success(None) => fr == Success(false) && after[i] == init[i]
      case Success(Some(x)) => fr == Success(true) && after[i] == x
    ensures fr.Failure? ==> FoldSteps(init, os[..i + 1]) == Failure(fr.error)
    ensures fr.Success? ==> FoldSteps(init, os[..i + 1]) == Success(BindState(after, defined || fr.value))
  {
    assert os[..i + 1][..i] == os[..i];
    FoldTail(init, os[..i]);
    assert after == before[i := after[i]];
    if os[i] == Success(None) {
      assert after == before;
    }
  }

  method BindStruct(src: Source, ps: Parsers, t: Ty, prefix: string) returns (r: Result<Option<Value>, Failure>)
    ensures r == BindStructSpec(src, ps, t, prefix)
    decreases TySize(t), 2
  {
    var rt := UnreferenceType(t);
    if !rt.Struct? {
      if KindOf(rt) == StructKind {
        // time.Time: every field is unexported and skipped.
        return Success(None);
      }
      return Failure(Panic(NumFieldOfNonStruct));
    }
    var fs := rt.fields;
    ghost var os := FieldSteps(src, ps, fs, prefix);
    ghost var init := ZeroFields(fs);
    var v := new Value[|fs|](i requires 0 <= i < |fs| => Zero(fs[i].ty));
    var defined := false;
    assert v[..] == init;
    assert os[..0] == [];
    for i := 0 to |fs|
      invariant FoldSteps(init, os[..i]) == Success(BindState(v[..], defined))
    {
      FieldsSizeBound(fs, i);
      FoldTail(init, os[..i]);
      ghost var before := v[..];
      assert os[i] == BindField(src, ps, fs[i], prefix);
      var fr := BindFieldInto(src, ps, fs[i], prefix, Loc(v, i, fs[i].ty));
      FoldStep(init, os, i, before, v[..], defined, fr);
      if fr.Failure? {
        FoldFailureSticks(init, os, i + 1);
        return Failure(fr.error);
      }
      if fr.value {
        defined := true;
      }
    }
    assert os[..|fs|] == os;
    if defined {
      return Success(Some(StructVal(v[..])));
    }
    return Success(None);
  }

  /** The loop body of bindStruct for field `sf`, whose cell `fv` in the
      fresh struct still holds its zero value. Returns whether the field was
      assigned. */
  method BindFieldInto(src: Source, ps: Parsers, sf: Field, prefix: string, fv: Loc)
    returns (r: Result<bool, Failure>)
    requires fv.Valid() && fv.ty == sf.ty && fv.cells[fv.index] == Zero(sf.ty)
    modifies fv.cells
    ensures OnlyCellWritten(fv)
    ensures match BindField(src, ps, sf, prefix)
      case Failure(f) => r == Failure(f) && fv.cells[fv.index] == Zero(sf.ty)
      case Success(None) => r == Success(false) && fv.cells[fv.index] == Zero(sf.ty)
      case Success(Some(x)) => r == Success(true) && fv.cells[fv.index] == x
    decreases TySize(sf.ty), 3
  {
    if !sf.exported {
      return Success(false);
    }
    var name, aliases, omitEmpty := ParseNamesWithOptions(Tag(sf, TagCLI));
    if name == "" {
      name := ToLower(ps.toLower, sf.goName);
    }
    name := prefix + name;

    if IsStructLike(sf.ty) {
      var pfx := prefix;
      if !sf.anonymous {
        pfx := pfx + Tag(sf, TagPrefix);
      } else if Tag(sf, TagCLI) != "" {
        return Failure(Error(EmbeddedWithCliTag(sf.goName)));
      }
      var sub := BindStruct(src, ps, sf.ty, pfx);
      if sub.Failure? {
        return Failure(InSubstruct(sf.goName, sub.error));
      }
      if sub.value.Some? {
        fv.cells[fv.index] := AssignSubstruct(sf.ty, sub.value.value);
        return Success(true);
      }
      return Success(false);
    }

    if !IsSet(src, name) && omitEmpty {
      return Success(false);
    }
    var field, detached := UnreferenceValue(fv);
    var err := SetFieldValue(src, ps, name, sf, field);
    if err.Some? {
      return Failure(InSetField(sf.goName, err.value));
    }
    r := Success(true);
  }

  // ---------------------------------------------------------------------
  // Bind (bind.go:47-65)

  /** The `dest any` argument: not a pointer, a nil pointer, or a pointer to
      a variable (its cell and its type). */
  datatype Dest = NotPointer | NilPointer | PointerTo(target: Loc)

  /** The type dest points to, when it is a non-nil pointer. */
  function Pointee(dest: Dest): Option<Ty>
  {
    if dest.PointerTo? then Some(dest.target.ty) else None
  }

  /** Bind as written (bind.go:52-63): only a non-pointer or nil dest is
      rejected; a pointer to a non-struct reaches NumField and panics, and a
      pointer to a pointer to a struct binds the struct and then panics on
      a Set of the wrong type. Below the dest checks the walk is the
      intended bindStruct, with the corrected nested-struct store
      (AssignSubstruct). */
  function BindOutcomeAsWritten(src: Source, ps: Parsers, pointee: Option<Ty>): Result<Option<Value>, Failure>
  {
    if pointee.None? then Failure(Error(InvalidDest))
    else
      match BindStructSpec(src, ps, Unreferenced(pointee.value), "")
      case Failure(f) => Failure(f)
      case Success(None) => Success(None)
      case Success(Some(v)) =>
        match Assign(pointee.value, Unreferenced(pointee.value), v)
        case Failure(f) => Failure(f)
        case Success(w) => Success(Some(w))
  }

  /** Bind as documented: dest must be a non-nil pointer to a struct, and
      anything else is an InvalidDest error. The result is the error, or the
      struct written through dest (None: dest is left alone). */
  function BindOutcome(src: Source, ps: Parsers, pointee: Option<Ty>): Result<Option<Value>, Failure>
  {
    if pointee.None? || KindOf(pointee.value) != StructKind then Failure(Error(InvalidDest))
    else BindStructSpec(src, ps, pointee.value, "")
  }

  method Bind(src: Source, ps: Parsers, dest: Dest) returns (err: Option<Failure>)
    requires dest.PointerTo? ==> dest.target.Valid()
    modifies if dest.PointerTo? then {dest.target.cells} else {}
    ensures var o := BindOutcome(src, ps, Pointee(dest));
      && (o.Failure? ==> err == Some(o.error))
      && (o.Success? ==> err == None)
    ensures dest.PointerTo? ==>
      && OnlyCellWritten(dest.target)
      && var o := BindOutcome(src, ps, Pointee(dest));
         dest.target.cells[dest.target.index] ==
           if o.Success? && o.value.Some? then o.value.value else old(dest.target.cells[dest.target.index])
  {
    if !dest.PointerTo? {
      return Some(Error(InvalidDest));
    }
    var rv := dest.target;
    if KindOf(rv.ty) != StructKind {
      return Some(Error(InvalidDest));
    }
    var rt := UnreferenceType(rv.ty);
    var v := BindStruct(src, ps, rt, "");
    if v.Failure? {
      return Some(v.error);
    }
    if v.value.Some? {
      rv.cells[rv.index] := v.value.value;
    }
    err := None;
  }

  // ---------------------------------------------------------------------
  // Properties of bindStruct

  /** The value a field ends up with after its step: the assigned value, or
      its initial value when the step skipped it. */
  function After(o: Result<Option<Value>, Failure>, z: Value): Value
  {
    if o.Success? && o.value.Some? then o.value.value else z
  }

  /** The loop has failed exactly when one of its steps failed. Otherwise
      each visited field holds what its step assigned, every other field
      holds its initial value, and the struct is defined exactly when some
      step assigned a value. */
  lemma {:induction false} FoldShape(init: seq<Value>, os: seq<Result<Option<Value>, Failure>>)
    requires |os| <= |init|
    ensures FoldSteps(init, os).Success? <==> forall j :: 0 <= j < |os| ==> os[j].Success?
    ensures FoldSteps(init, os).Success? ==>
      var st := FoldSteps(init, os).value;
      && (forall j :: 0 <= j < |init| ==> st.vals[j] == if j < |os| then After(os[j], init[j]) else init[j])
      && (st.defined <==> exists j :: 0 <= j < |os| && os[j].Success? && os[j].value.Some?)
  {
    if os != [] {
      var n := |os| - 1;
      FoldShape(init, os[..n]);
      assert forall j :: 0 <= j < n ==> os[..n][j] == os[j];
      if FoldSteps(init, os[..n]).Success? && os[n].Success? {
        var st := FoldSteps(init, os).value;
        if st.defined && os[n].value.None? {
          var j :| 0 <= j < n && os[..n][j].Success? && os[..n][j].value.Some?;
        }
      }
    }
  }

  /** The first failing step ends the loop with its failure: the fields
      after it are never visited. */
  lemma FoldFirstFailure(init: seq<Value>, os: seq<Result<Option<Value>, Failure>>, k: nat)
    requires k < |os| <= |init| && os[k].Failure?
    requires forall j :: 0 <= j < k ==> os[j].Success?
    ensures FoldSteps(init, os) == Failure(os[k].error)
  {
    FoldShape(init, os[..k]);
    assert os[..k + 1][..k] == os[..k];
    FoldFailureSticks(init, os, k + 1);
  }

  /** bindStruct on a struct fails with the failure of the first field
      that fails. */
  lemma BindStructFirstFailure(src: Source, ps: Parsers, t: Ty, prefix: string, k: nat)
    requires Unreferenced(t).Struct? && k < |Unreferenced(t).fields|
    requires BindField(src, ps, Unreferenced(t).fields[k], prefix).Failure?
    requires forall j :: 0 <= j < k ==> BindField(src, ps, Unreferenced(t).fields[j], prefix).Success?
    ensures BindStructSpec(src, ps, t, prefix) == Failure(BindField(src, ps, Unreferenced(t).fields[k], prefix).error)
  {
    var fs := Unreferenced(t).fields;
    FoldFirstFailure(ZeroFields(fs), FieldSteps(src, ps, fs, prefix), k);
  }

  /** bindStruct on a struct fails exactly when binding one of its fields
      fails. */
  lemma BindStructSucceeds(src: Source, ps: Parsers, t: Ty, prefix: string)
    requires Unreferenced(t).Struct?
    ensures var fs := Unreferenced(t).fields;
      BindStructSpec(src, ps, t, prefix).Success? <==>
        forall j :: 0 <= j < |fs| ==> BindField(src, ps, fs[j], prefix).Success?
  {
    var fs := Unreferenced(t).fields;
    var os := FieldSteps(src, ps, fs, prefix);
    FoldShape(ZeroFields(fs), os);
    if !FoldSteps(ZeroFields(fs), os).Success? {
      var j :| 0 <= j < |fs| && !os[j].Success?;
      assert os[j] == BindField(src, ps, fs[j], prefix);
    } else {
      forall j | 0 <= j < |fs| ensures BindField(src, ps, fs[j], prefix).Success? {
        assert os[j] == BindField(src, ps, fs[j], prefix);
      }
    }
  }

  /** bindStruct on a struct returns nil exactly when no field was
      assigned. */
  lemma BindStructNil(src: Source, ps: Parsers, t: Ty, prefix: string)
    requires Unreferenced(t).Struct?
    ensures var fs := Unreferenced(t).fields;
      BindStructSpec(src, ps, t, prefix) == Success(None) <==>
        forall j :: 0 <= j < |fs| ==> BindField(src, ps, fs[j], prefix) == Success(None)
  {
    var fs := Unreferenced(t).fields;
    var os := FieldSteps(src, ps, fs, prefix);
    var init := ZeroFields(fs);
    FoldShape(init, os);
    if FoldSteps(init, os).Success? {
      if !FoldSteps(init, os).value.defined {
        forall j | 0 <= j < |fs| ensures BindField(src, ps, fs[j], prefix) == Success(None) {
          assert os[j].Success? && os[j] == BindField(src, ps, fs[j], prefix);
        }
      } else {
        var j :| 0 <= j < |os| && os[j].Success? && os[j].value.Some?;
        assert os[j] == BindField(src, ps, fs[j], prefix);
      }
    } else {
      var j :| 0 <= j < |fs| && !os[j].Success?;
      assert os[j] == BindField(src, ps, fs[j], prefix);
    }
  }

  /** Otherwise it returns the struct whose assigned fields hold their new
      values and whose other fields are zero, so that writing it replaces
      every field. */
  lemma BindStructValue(src: Source, ps: Parsers, t: Ty, prefix: string)
    requires Unreferenced(t).Struct?
    ensures var fs := Unreferenced(t).fields;
      var r := BindStructSpec(src, ps, t, prefix);
      r.Success? && r.value.Some? ==>
        r.value.value == StructVal(seq(|fs|, j requires 0 <= j < |fs| =>
          After(BindField(src, ps, fs[j], prefix), Zero(fs[j].ty))))
  {
    var fs := Unreferenced(t).fields;
    var os := FieldSteps(src, ps, fs, prefix);
    var init := ZeroFields(fs);
    FoldShape(init, os);
    if FoldSteps(init, os).Success? {
      assert FoldSteps(init, os).value.vals == seq(|fs|, j requires 0 <= j < |fs| => After(os[j], init[j]));
    }
  }

  /** A struct every field of which is assigned binds to exactly those
      values. */
  lemma BindStructAllAssigned(src: Source, ps: Parsers, t: Ty, prefix: string, vs: seq<Value>)
    requires Unreferenced(t).Struct? && |vs| == |Unreferenced(t).fields| > 0
    requires forall j :: 0 <= j < |vs| ==> BindField(src, ps, Unreferenced(t).fields[j], prefix) == Success(Some(vs[j]))
    ensures BindStructSpec(src, ps, t, prefix) == Success(Some(StructVal(vs)))
  {
    var fs := Unreferenced(t).fields;
    BindStructSucceeds(src, ps, t, prefix);
    BindStructNil(src, ps, t, prefix);
    BindStructValue(src, ps, t, prefix);
    assert BindField(src, ps, fs[0], prefix) != Success(None);
    assert vs == seq(|fs|, j requires 0 <= j < |fs| => After(BindField(src, ps, fs[j], prefix), Zero(fs[j].ty)));
  }

  /** time.Time, or a pointer to one, binds to nothing; any other type that
      is not a struct makes bindStruct panic. */
  lemma BindStructOfNonStruct(src: Source, ps: Parsers, t: Ty, prefix: string)
    ensures Unreferenced(t) == Time ==> BindStructSpec(src, ps, t, prefix) == Success(None)
    ensures KindOf(Unreferenced(t)) != StructKind ==>
      BindStructSpec(src, ps, t, prefix) == Failure(Panic(NumFieldOfNonStruct))
  {
  }

  // ---------------------------------------------------------------------
  // Properties of one field

  /** An exported leaf marked omitempty whose flag was not set explicitly
      is skipped: it stays zero and does not make the struct defined. */
  lemma UnsetOmitEmptySkipped(src: Source, ps: Parsers, sf: Field, prefix: string)
    requires sf.exported && !IsStructLike(sf.ty)
    requires ParseNames(Tag(sf, TagCLI)).omitEmpty && !IsSet(src, FlagName(ps, sf, prefix))
    ensures BindField(src, ps, sf, prefix) == Success(None)
  {
  }

  /** Every other exported leaf is assigned, and marks the struct defined,
      whatever its type, unless setting it fails; an error names the field.
      A leaf declared as a pointer keeps its nil value. */
  lemma LeafAssigned(src: Source, ps: Parsers, sf: Field, prefix: string)
    requires sf.exported && !IsStructLike(sf.ty)
    requires IsSet(src, FlagName(ps, sf, prefix)) || !ParseNames(Tag(sf, TagCLI)).omitEmpty
    ensures var r := BindField(src, ps, sf, prefix);
      var w := SetFieldSpec(src, ps, FlagName(ps, sf, prefix), sf, sf.ty, Zero(sf.ty));
      && (r.Success? ==> r.value.Some?)
      && (r.Failure? && r.error.Error? ==> r.error.err.SetField? && r.error.err.field == sf.goName)
      && (!sf.ty.Ptr? ==> (r.Success? <==> w.Success?))
      && (!sf.ty.Ptr? && r.Success? ==> r.value.value == w.value)
      && (sf.ty.Ptr? && r.Success? ==> r.value.value == NilPtr)
  {
  }

  /** A nested struct-like field: an embedded one with a `cli` tag is an
      error; otherwise it is bound under the parent prefix when embedded and
      under the prefix extended by its `cliPrefix` when named, it is left
      alone when nothing inside it was assigned, and it receives the bound
      struct (behind freshly allocated pointers) otherwise. */
  lemma NestedStructField(src: Source, ps: Parsers, sf: Field, prefix: string)
    requires sf.exported && IsStructLike(sf.ty)
    ensures sf.anonymous && Tag(sf, TagCLI) != "" ==>
      BindField(src, ps, sf, prefix) == Failure(Error(EmbeddedWithCliTag(sf.goName)))
    ensures !(sf.anonymous && Tag(sf, TagCLI) != "") ==>
      var sub := BindStructSpec(src, ps, sf.ty, if sf.anonymous then prefix else prefix + Tag(sf, TagPrefix));
      var r := BindField(src, ps, sf, prefix);
      && (sub == Success(None) ==> r == Success(None))
      && (sub.Success? && sub.value.Some? ==> r.Success? && r.value.Some? && Deref(sf.ty, r.value.value) == sub.value)
      && (sub.Failure? && sub.error.Error? ==> r == Failure(Error(Substruct(sf.goName, sub.error.err))))
  {
    if !(sf.anonymous && Tag(sf, TagCLI) != "") {
      var sub := BindStructSpec(src, ps, sf.ty, if sf.anonymous then prefix else prefix + Tag(sf, TagPrefix));
      if sub.Success? && sub.value.Some? {
        DerefAssignSubstruct(sf.ty, sub.value.value);
      }
    }
  }

  /** A duration, timestamp or UUID leaf read from an empty flag string
      holds the zero value of its type, with no error. */
  lemma EmptyTextIsZero(src: Source, ps: Parsers, sf: Field, prefix: string)
    requires sf.exported && (sf.ty == Duration || sf.ty == Time || sf.ty == UUID)
    requires IsSet(src, FlagName(ps, sf, prefix)) || !ParseNames(Tag(sf, TagCLI)).omitEmpty
    requires StringOf(src, FlagName(ps, sf, prefix)) == ""
    ensures BindField(src, ps, sf, prefix) == Success(Some(Zero(sf.ty)))
  {
  }

  /** A bound non-pointer leaf is set from the zero value of its type. */
  lemma LeafBinds(src: Source, ps: Parsers, sf: Field, prefix: string)
    requires sf.exported && !IsStructLike(sf.ty) && !sf.ty.Ptr?
    requires IsSet(src, FlagName(ps, sf, prefix)) || !ParseNames(Tag(sf, TagCLI)).omitEmpty
    ensures var w := SetFieldSpec(src, ps, FlagName(ps, sf, prefix), sf, sf.ty, Zero(sf.ty));
      BindField(src, ps, sf, prefix) ==
        if w.Failure? then Failure(InSetField(sf.goName, w.error)) else Success(Some(w.value))
  {
  }

  /** A duration leaf is parsed from its flag string; a string the parser
      rejects fails the bind with an error naming the field and the text. */
  lemma DurationParsed(src: Source, ps: Parsers, sf: Field, prefix: string)
    requires sf.exported && sf.ty == Duration
    requires IsSet(src, FlagName(ps, sf, prefix)) || !ParseNames(Tag(sf, TagCLI)).omitEmpty
    requires StringOf(src, FlagName(ps, sf, prefix)) != ""
    ensures var s := StringOf(src, FlagName(ps, sf, prefix));
      BindField(src, ps, sf, prefix) ==
        if ps.parseDuration(s).None? then Failure(Error(SetField(sf.goName, ParseDuration(s))))
        else Success(Some(DurationVal(ps.parseDuration(s).value)))
  {
    LeafBinds(src, ps, sf, prefix);
  }

  /** A timestamp leaf is parsed with the `cliTimeLayout` tag, or with the
      RFC 3339 layout when that tag is empty; a string the parser rejects
      fails the bind with an error naming the field, the layout and the
      text. */
  lemma TimeParsed(src: Source, ps: Parsers, sf: Field, prefix: string)
    requires sf.exported && sf.ty == Time
    requires IsSet(src, FlagName(ps, sf, prefix)) || !ParseNames(Tag(sf, TagCLI)).omitEmpty
    requires StringOf(src, FlagName(ps, sf, prefix)) != ""
    ensures var s := StringOf(src, FlagName(ps, sf, prefix));
      var layout := if Tag(sf, TagTimeLayout) == "" then RFC3339 else Tag(sf, TagTimeLayout);
      BindField(src, ps, sf, prefix) ==
        if ps.parseTime(layout, s).None? then Failure(Error(SetField(sf.goName, ParseTime(layout, s))))
        else Success(Some(TimeVal(ps.parseTime(layout, s).value)))
  {
    LeafBinds(src, ps, sf, prefix);
  }

  /** A UUID leaf is parsed from its flag string; a string the parser
      rejects fails the bind with an error naming the field and the text. */
  lemma UUIDParsed(src: Source, ps: Parsers, sf: Field, prefix: string)
    requires sf.exported && sf.ty == UUID
    requires IsSet(src, FlagName(ps, sf, prefix)) || !ParseNames(Tag(sf, TagCLI)).omitEmpty
    requires StringOf(src, FlagName(ps, sf, prefix)) != ""
    ensures var s := StringOf(src, FlagName(ps, sf, prefix));
      BindField(src, ps, sf, prefix) ==
        if ps.parseUUID(s).None? then Failure(Error(SetField(sf.goName, ParseUUID(s))))
        else Success(Some(UUIDVal(ps.parseUUID(s).value)))
  {
    LeafBinds(src, ps, sf, prefix);
  }

  /** The scalar leaves take the typed value the source holds for their
      flag. */
  lemma ScalarsRead(src: Source, ps: Parsers, sf: Field, prefix: string)
    requires sf.exported && (IsSet(src, FlagName(ps, sf, prefix)) || !ParseNames(Tag(sf, TagCLI)).omitEmpty)
    ensures var name := FlagName(ps, sf, prefix);
      var r := BindField(src, ps, sf, prefix);
      && (sf.ty == Bool ==> r == Success(Some(BoolVal(BoolOf(src, name)))))
      && (sf.ty.Int? ==> r == Success(Some(IntVal(Int64Of(src, name)))))
      && ((sf.ty.Uint? || sf.ty == Uintptr) ==> r == Success(Some(UintVal(Uint64Of(src, name)))))
      && ((sf.ty == Float32 || sf.ty == Float64) ==> r == Success(Some(FloatVal(Float64Of(src, name)))))
      && (sf.ty == String ==> r == Success(Some(StringVal(StringOf(src, name)))))
  {
    if sf.ty == Bool {
      BoolRead(src, ps, sf, prefix);
    } else if sf.ty.Int? {
      IntRead(src, ps, sf, prefix);
    } else if sf.ty.Uint? || sf.ty == Uintptr {
      UintRead(src, ps, sf, prefix);
    } else if sf.ty == Float32 || sf.ty == Float64 {
      FloatRead(src, ps, sf, prefix);
    } else if sf.ty == String {
      StringRead(src, ps, sf, prefix);
    }
  }

  lemma BoolRead(src: Source, ps: Parsers, sf: Field, prefix: string)
    requires sf.exported && (IsSet(src, FlagName(ps, sf, prefix)) || !ParseNames(Tag(sf, TagCLI)).omitEmpty)
    requires sf.ty == Bool
    ensures BindField(src, ps, sf, prefix) == Success(Some(BoolVal(BoolOf(src, FlagName(ps, sf, prefix)))))
  {
    LeafBinds(src, ps, sf, prefix);
  }

  lemma IntRead(src: Source, ps: Parsers, sf: Field, prefix: string)
    requires sf.exported && (IsSet(src, FlagName(ps, sf, prefix)) || !ParseNames(Tag(sf, TagCLI)).omitEmpty)
    requires sf.ty.Int?
    ensures BindField(src, ps, sf, prefix) == Success(Some(IntVal(Int64Of(src, FlagName(ps, sf, prefix)))))
  {
    LeafBinds(src, ps, sf, prefix);
  }

  lemma UintRead(src: Source, ps: Parsers, sf: Field, prefix: string)
    requires sf.exported && (IsSet(src, FlagName(ps, sf, prefix)) || !ParseNames(Tag(sf, TagCLI)).omitEmpty)
    requires sf.ty.Uint? || sf.ty == Uintptr
    ensures BindField(src, ps, sf, prefix) == Success(Some(UintVal(Uint64Of(src, FlagName(ps, sf, prefix)))))
  {
    LeafBinds(src, ps, sf, prefix);
  }

  lemma FloatRead(src: Source, ps: Parsers, sf: Field, prefix: string)
    requires sf.exported && (IsSet(src, FlagName(ps, sf, prefix)) || !ParseNames(Tag(sf, TagCLI)).omitEmpty)
    requires sf.ty == Float32 || sf.ty == Float64
    ensures BindField(src, ps, sf, prefix) == Success(Some(FloatVal(Float64Of(src, FlagName(ps, sf, prefix)))))
  {
    LeafBinds(src, ps, sf, prefix);
  }

  lemma StringRead(src: Source, ps: Parsers, sf: Field, prefix: string)
    requires sf.exported && (IsSet(src, FlagName(ps, sf, prefix)) || !ParseNames(Tag(sf, TagCLI)).omitEmpty)
    requires sf.ty == String
    ensures BindField(src, ps, sf, prefix) == Success(Some(StringVal(StringOf(src, FlagName(ps, sf, prefix)))))
  {
    LeafBinds(src, ps, sf, prefix);
  }

  // ---------------------------------------------------------------------
  // Properties of setSliceField

  /** The values of the appended elements, in order. */
  function Kept(steps: seq<Step>): seq<Value>
  {
    if steps == [] then []
    else Kept(steps[..|steps| - 1]) + (if steps[|steps| - 1].Append? then [steps[|steps| - 1].v] else [])
  }

  /** The outcomes of steps none of which failed. */
  function Outcomes(rs: seq<Result<Step, Failure>>): (steps: seq<Step>)
    requires forall k :: 0 <= k < |rs| ==> rs[k].Success?
    ensures |steps| == |rs|
    ensures forall k :: 0 <= k < |rs| ==> rs[k] == Success(steps[k])
  {
    if rs == [] then [] else Outcomes(rs[..|rs| - 1]) + [rs[|rs| - 1].value]
  }

  /** When no step fails, the result is the appended values in input
      order, the skipped ones left out. */
  lemma {:induction false} CollectAllSucceed(rs: seq<Result<Step, Failure>>)
    requires forall k :: 0 <= k < |rs| ==> rs[k].Success?
    ensures CollectSteps(rs) == Success(Kept(Outcomes(rs)))
  {
    if rs != [] {
      var n := |rs| - 1;
      CollectAllSucceed(rs[..n]);
      var steps := Outcomes(rs);
      assert steps[..n] == Outcomes(rs[..n]);
      if steps[n].Skip? {
        assert Kept(steps[..n]) + [] == Kept(steps[..n]);
      }
    }
  }

  /** Otherwise the first failing step's failure is the result. */
  lemma CollectFirstFailure(steps: seq<Result<Step, Failure>>, k: nat)
    requires k < |steps| && steps[k].Failure?
    requires forall j :: 0 <= j < k ==> steps[j].Success?
    ensures CollectSteps(steps) == Failure(steps[k].error)
  {
    CollectAllSucceed(steps[..k]);
    CollectSnoc(steps, k);
    CollectFailureSticks(steps, k + 1);
  }

  /** A failing loop fails with the failure of one of its steps. */
  lemma {:induction false} CollectFailureFrom(steps: seq<Result<Step, Failure>>)
    requires CollectSteps(steps).Failure?
    ensures exists k :: 0 <= k < |steps| && steps[k] == Failure(CollectSteps(steps).error)
  {
    var n := |steps| - 1;
    if CollectSteps(steps[..n]).Failure? {
      CollectFailureFrom(steps[..n]);
      var k :| 0 <= k < n && steps[..n][k] == Failure(CollectSteps(steps[..n]).error);
      assert steps[k] == steps[..n][k];
    }
  }

  /** The elements of a slice value: when no element fails, the values of
      the appended ones in input order; otherwise the failure of the first
      element that fails. */
  lemma ElemsResult(ps: Parsers, sf: Field, t: Ty, raw: seq<string>)
    ensures (forall k :: 0 <= k < |raw| ==> ElemSpec(ps, sf, t, raw[k]).Success?) ==>
      ElemsSpec(ps, sf, t, raw) ==
        Success(Kept(seq(|raw|, k requires 0 <= k < |raw| => ElemSpec(ps, sf, t, raw[k]).value)))
    ensures forall k ::
      (0 <= k < |raw| && ElemSpec(ps, sf, t, raw[k]).Failure? &&
       (forall j :: 0 <= j < k ==> ElemSpec(ps, sf, t, raw[j]).Success?))
      ==> ElemsSpec(ps, sf, t, raw) == Failure(ElemSpec(ps, sf, t, raw[k]).error)
  {
    var steps := ElemSteps(ps, sf, t, raw);
    if forall k :: 0 <= k < |raw| ==> ElemSpec(ps, sf, t, raw[k]).Success? {
      CollectAllSucceed(steps);
      assert Outcomes(steps) == seq(|raw|, k requires 0 <= k < |raw| => ElemSpec(ps, sf, t, raw[k]).value);
    }
    forall k | 0 <= k < |raw| && ElemSpec(ps, sf, t, raw[k]).Failure? &&
      (forall j :: 0 <= j < k ==> ElemSpec(ps, sf, t, raw[j]).Success?)
      ensures ElemsSpec(ps, sf, t, raw) == Failure(ElemSpec(ps, sf, t, raw[k]).error)
    {
      CollectFirstFailure(steps, k);
    }
  }

  /** Empty elements of duration, timestamp and UUID slices are dropped;
      unparseable bool elements become false; unparseable int, uint and
      float elements fail; a slice element type fails on any element. */
  lemma ElementRules(ps: Parsers, sf: Field, t: Ty, s: string)
    requires StrconvContract(ps)
    ensures (t == Duration || t == Time || t == UUID) && s == "" ==> ElemSpec(ps, sf, t, s) == Success(Skip)
    ensures KindOf(t) == BoolKind && ps.parseBool(s).err != NoError ==>
      ElemSpec(ps, sf, t, s) == Success(Append(BoolVal(false)))
    ensures IsAnyInt(KindOf(t)) && t != Duration && ps.parseInt(s).err != NoError ==>
      ElemSpec(ps, sf, t, s) == Failure(Error(ParseInt(s)))
    ensures IsAnyUint(KindOf(t)) && ps.parseUint(s).err != NoError ==>
      ElemSpec(ps, sf, t, s) == Failure(Error(ParseUint(s)))
    ensures (t == Float32 || t == Float64) && ps.parseFloat(s).err != NoError ==>
      ElemSpec(ps, sf, t, s) == Failure(Error(ParseFloat(s)))
    ensures t.Slice? ==> ElemSpec(ps, sf, t, s) == Failure(Error(Matrix(sf.goName)))
  {
  }

  /** A string slice keeps every element, in order. */
  lemma StringElementsKept(ps: Parsers, sf: Field, raw: seq<string>)
    ensures ElemsSpec(ps, sf, String, raw) == Success(seq(|raw|, k requires 0 <= k < |raw| => StringVal(raw[k])))
  {
    var steps := ElemSteps(ps, sf, String, raw);
    forall k | 0 <= k < |raw| ensures steps[k] == Success(Append(StringVal(raw[k]))) {
      StringElement(ps, sf, raw[k]);
    }
    CollectAllSucceed(steps);
    var vs := Outcomes(steps);
    KeptAllAppended(vs);
    assert seq(|vs|, k requires 0 <= k < |vs| => vs[k].v) == seq(|raw|, k requires 0 <= k < |raw| => StringVal(raw[k]));
  }

  lemma StringElement(ps: Parsers, sf: Field, s: string)
    ensures ElemSpec(ps, sf, String, s) == Success(Append(StringVal(s)))
  {
  }

  lemma {:induction false} KeptAllAppended(steps: seq<Step>)
    requires forall k :: 0 <= k < |steps| ==> steps[k].Append?
    ensures Kept(steps) == seq(|steps|, k requires 0 <= k < |steps| => steps[k].v)
  {
    if steps != [] {
      KeptAllAppended(steps[..|steps| - 1]);
    }
  }

  /** A slice field whose string-slice value is empty is left alone, even a
      slice of slices; with a non-empty value, a slice of slices is an
      error. */
  lemma SliceFieldRules(src: Source, ps: Parsers, name: string, sf: Field, lt: Ty, cur: Value)
    requires sf.ty.Slice? || sf.ty.Ptr?
    ensures |StringSliceOf(src, name)| == 0 ==> SliceSpec(src, ps, name, sf, lt, cur) == Success(cur)
    ensures |StringSliceOf(src, name)| > 0 && sf.ty.elem.Slice? ==>
      SliceSpec(src, ps, name, sf, lt, cur) == Failure(Error(Matrix(sf.goName)))
  {
    var raw := StringSliceOf(src, name);
    if |raw| > 0 && sf.ty.elem.Slice? {
      MatrixElementsFail(ps, sf, raw);
    }
  }

  lemma MatrixElementsFail(ps: Parsers, sf: Field, raw: seq<string>)
    requires (sf.ty.Slice? || sf.ty.Ptr?) && sf.ty.elem.Slice? && |raw| > 0
    ensures ElemsSpec(ps, sf, sf.ty.elem, raw) == Failure(Error(Matrix(sf.goName)))
  {
    var steps := ElemSteps(ps, sf, sf.ty.elem, raw);
    assert KindOf(sf.ty.elem) == SliceKind;
    assert steps[0] == ElemSpec(ps, sf, sf.ty.elem, raw[0]) == Failure(Error(Matrix(sf.goName)));
    CollectFirstFailure(steps, 0);
  }

  // ---------------------------------------------------------------------
  // The two departures from the code as written

  /** The intended assignment leaves the bound struct behind the field's
      pointers. */
  lemma {:induction false} DerefAssignSubstruct(ft: Ty, sv: Value)
    ensures Deref(ft, AssignSubstruct(ft, sv)) == Some(sv)
  {
    if ft.Ptr? {
      DerefAssignSubstruct(ft.elem, sv);
    }
  }

  /** bind.go:100 as written panics for a field that points to a struct,
      and agrees with the intended assignment for a field that is one. */
  lemma PointerSubstructPanics(fs: seq<Field>, sv: Value)
    ensures AssignSubstructAsWritten(Ptr(Struct(fs)), sv) == Failure(Panic(NotAssignable))
    ensures AssignSubstruct(Ptr(Struct(fs)), sv) == PtrTo(sv)
    ensures AssignSubstructAsWritten(Struct(fs), sv) == Success(AssignSubstruct(Struct(fs), sv))
  {
  }

  /** Bind as written panics for a pointer to an int, where the documented
      behaviour is an InvalidDest error. */
  lemma BindOfPointerToIntPanics(src: Source, ps: Parsers)
    ensures BindOutcomeAsWritten(src, ps, Some(Int(Plain))) == Failure(Panic(NumFieldOfNonStruct))
    ensures BindOutcome(src, ps, Some(Int(Plain))) == Failure(Error(InvalidDest))
  {
  }

  /** Bind as written on a pointer to a pointer to a struct: if binding
      the struct leaves it undefined nothing is written and no error is
      reported; if it defines the struct, storing it through dest panics.
      The documented behaviour is an InvalidDest error either way. */
  lemma BindOfPointerToPointerAsWritten(src: Source, ps: Parsers, fs: seq<Field>)
    ensures BindStructSpec(src, ps, Struct(fs), "") == Success(None) ==>
      BindOutcomeAsWritten(src, ps, Some(Ptr(Struct(fs)))) == Success(None)
    ensures BindStructSpec(src, ps, Struct(fs), "").Success? && BindStructSpec(src, ps, Struct(fs), "").value.Some? ==>
      BindOutcomeAsWritten(src, ps, Some(Ptr(Struct(fs)))) == Failure(Panic(NotAssignable))
    ensures BindOutcome(src, ps, Some(Ptr(Struct(fs)))) == Failure(Error(InvalidDest))
  {
    assert Unreferenced(Ptr(Struct(fs))) == Struct(fs);
  }

  /** A NumField panic on a type that is not a struct. */
  predicate ReachesNumField<T>(r: Result<T, Failure>)
  {
    r.Failure? && r.error == Panic(NumFieldOfNonStruct)
  }

  /** A failing loop fails with the failure of one of its steps. */
  lemma {:induction false} FoldFailureFrom(init: seq<Value>, os: seq<Result<Option<Value>, Failure>>)
    requires |os| <= |init| && FoldSteps(init, os).Failure?
    ensures exists k :: 0 <= k < |os| && os[k] == Failure(FoldSteps(init, os).error)
  {
    var n := |os| - 1;
    if FoldSteps(init, os[..n]).Failure? {
      FoldFailureFrom(init, os[..n]);
      var k :| 0 <= k < n && os[..n][k] == Failure(FoldSteps(init, os[..n]).error);
      assert os[k] == os[..n][k];
    } else {
      assert os[n] == Failure(FoldSteps(init, os).error);
    }
  }

  /** Slice elements fail only with errors, never with a panic. */
  lemma ElemsFailWithErrors(ps: Parsers, sf: Field, t: Ty, raw: seq<string>)
    ensures ElemsSpec(ps, sf, t, raw).Failure? ==> ElemsSpec(ps, sf, t, raw).error.Error?
  {
    if ElemsSpec(ps, sf, t, raw).Failure? {
      var steps := ElemSteps(ps, sf, t, raw);
      CollectFailureFrom(steps);
      var k :| 0 <= k < |steps| && steps[k] == Failure(CollectSteps(steps).error);
      ElemFailsWithError(ps, sf, t, raw[k]);
    }
  }

  lemma ElemFailsWithError(ps: Parsers, sf: Field, t: Ty, s: string)
    ensures ElemSpec(ps, sf, t, s).Failure? ==> ElemSpec(ps, sf, t, s).error.Error?
  {
  }

  /** Binding a struct-kind type never calls NumField on a non-struct: the
      binder only recurses into struct-like fields. */
  lemma {:induction false} StructBindNoNumField(src: Source, ps: Parsers, t: Ty, prefix: string)
    requires KindOf(Unreferenced(t)) == StructKind
    ensures !ReachesNumField(BindStructSpec(src, ps, t, prefix))
    decreases TySize(t), 2
  {
    var rt := Unreferenced(t);
    if rt.Struct? {
      var fs := rt.fields;
      var os := FieldSteps(src, ps, fs, prefix);
      forall j | 0 <= j < |fs| ensures !ReachesNumField(os[j]) {
        FieldsSizeBound(fs, j);
        FieldBindNoNumField(src, ps, fs[j], prefix);
      }
      if FoldSteps(ZeroFields(fs), os).Failure? {
        FoldFailureFrom(ZeroFields(fs), os);
      }
    }
  }

  lemma {:induction false} FieldBindNoNumField(src: Source, ps: Parsers, sf: Field, prefix: string)
    ensures !ReachesNumField(BindField(src, ps, sf, prefix))
    decreases TySize(sf.ty), 3
  {
    if sf.exported && IsStructLike(sf.ty) {
      if !(sf.anonymous && Tag(sf, TagCLI) != "") {
        IsStructLikeExactly(sf.ty);
        StructBindNoNumField(src, ps, sf.ty, if sf.anonymous then prefix else prefix + Tag(sf, TagPrefix));
      }
    } else if sf.exported {
      var name := FlagName(ps, sf, prefix);
      var lt := if sf.ty.Ptr? then sf.ty.elem else sf.ty;
      SetFieldNoNumField(src, ps, name, sf, lt, Zero(lt));
    }
  }

  lemma SetFieldNoNumField(src: Source, ps: Parsers, name: string, sf: Field, lt: Ty, cur: Value)
    ensures !ReachesNumField(SetFieldSpec(src, ps, name, sf, lt, cur))
  {
    var t := Unreferenced(sf.ty);
    var k := KindOf(t);
    var r := SetFieldSpec(src, ps, name, sf, lt, cur);
    if t == Duration || t == Time || t == UUID {
    } else if IsAnyInt(k) || IsAnyUint(k) {
      assert r.Success?;
    } else if k == BoolKind || k == Float32Kind || k == Float64Kind || k == StringKind {
    } else if k == SliceKind {
      SliceNoNumField(src, ps, name, sf, lt, cur);
    } else {
      assert r == Success(cur);
    }
  }

  lemma SliceNoNumField(src: Source, ps: Parsers, name: string, sf: Field, lt: Ty, cur: Value)
    requires sf.ty.Slice? || sf.ty.Ptr?
    ensures !ReachesNumField(SliceSpec(src, ps, name, sf, lt, cur))
  {
    ElemsFailWithErrors(ps, sf, sf.ty.elem, StringSliceOf(src, name));
  }

  /** The documented Bind rejects every dest that is not a pointer to a
      struct with an error, never reaches NumField on a non-struct, and
      agrees with the code as written whenever dest points to a struct. */
  lemma BindOutcomeAgrees(src: Source, ps: Parsers, pointee: Option<Ty>)
    ensures pointee.None? || KindOf(pointee.value) != StructKind ==>
      BindOutcome(src, ps, pointee) == Failure(Error(InvalidDest))
    ensures BindOutcome(src, ps, pointee) != Failure(Panic(NumFieldOfNonStruct))
    ensures pointee.Some? && KindOf(pointee.value) == StructKind ==>
      BindOutcome(src, ps, pointee) == BindOutcomeAsWritten(src, ps, pointee)
  {
    if pointee.Some? && KindOf(pointee.value) == StructKind {
      StructBindNoNumField(src, ps, pointee.value, "");
    }
  }
}
