/** The two walkers side by side: the flag names the generator of flags.go
    emits and the flag names the binder of bind.go reads for the same
    fields. They agree when every named struct-like field carries a
    `cliPrefix`, no embedded struct carries a `cliPrefix` or a `cli` tag,
    and every leaf has a flag kind; two examples show that they part ways
    when the struct tags break the first two conditions. */
module Symmetry {
  import opened Wrappers
  import opened Text
  import opened Foreign
  import opened Reflect
  import opened Utils
  import opened Flags
  import opened Binding

  /** The names of a list of flags, in order. */
  function FlagNames(flags: seq<Flag>): (names: seq<string>)
    ensures |names| == |flags|
    ensures forall i :: 0 <= i < |flags| ==> names[i] == flags[i].name
  {
    if flags == [] then [] else FlagNames(flags[..|flags| - 1]) + [flags[|flags| - 1].name]
  }

  lemma FlagNamesAppend(a: seq<Flag>, b: seq<Flag>)
    ensures FlagNames(a + b) == FlagNames(a) + FlagNames(b)
  {
    assert forall i :: 0 <= i < |a + b| ==> FlagNames(a + b)[i] == (FlagNames(a) + FlagNames(b))[i];
  }

  /** The flag names bindStruct reads for the fields `fs` under `prefix`,
      in field order: the name of every exported leaf, and for a nested
      struct-like field the names of its own fields under the prefix the
      binder gives them (the parent's for an embedded struct, the parent's
      extended by `cliPrefix` for a named one). An embedded struct with a
      `cli` tag stops the bind and contributes none. */
  function BoundNames(ps: Parsers, fs: seq<Field>, prefix: string): seq<string>
    decreases FieldsSize(fs), 1
  {
    if fs == [] then []
    else BoundNames(ps, fs[..|fs| - 1], prefix) + FieldBoundNames(ps, fs[|fs| - 1], prefix)
  }

  function FieldBoundNames(ps: Parsers, f: Field, prefix: string): seq<string>
    decreases TySize(f.ty), 0
  {
    if !f.exported then []
    else if IsStructLike(f.ty) then
      if f.anonymous && Tag(f, TagCLI) != "" then []
      else
        IsStructLikeExactly(f.ty);
        BoundNames(ps, Unreferenced(f.ty).fields, if f.anonymous then prefix else prefix + Tag(f, TagPrefix))
    else [FlagName(ps, f, prefix)]
  }

  /** Two flag sources that hold the same value for `name`, and agree on
      whether it was set explicitly. */
  predicate AgreeAt(src: Source, other: Source, name: string)
  {
    && (name in src.values <==> name in other.values)
    && (name in src.values ==> src.values[name] == other.values[name])
    && (IsSet(src, name) <==> IsSet(other, name))
  }

  lemma SetFieldReadsOnly(src: Source, other: Source, ps: Parsers, name: string, sf: Field, lt: Ty, cur: Value)
    requires AgreeAt(src, other, name)
    ensures SetFieldSpec(src, ps, name, sf, lt, cur) == SetFieldSpec(other, ps, name, sf, lt, cur)
  {
    var t := Unreferenced(sf.ty);
    var k := KindOf(t);
    if t == Duration || k == BoolKind || IsAnyInt(k) || IsAnyUint(k) {
      ScalarReadsOnly(src, other, ps, name, sf, lt, cur);
    } else if k == Float32Kind || k == Float64Kind || t == Time || t == UUID {
      TextReadsOnly(src, other, ps, name, sf, lt, cur);
    } else {
      RestReadsOnly(src, other, ps, name, sf, lt, cur);
    }
  }

  lemma ScalarReadsOnly(src: Source, other: Source, ps: Parsers, name: string, sf: Field, lt: Ty, cur: Value)
    requires AgreeAt(src, other, name)
    requires var t := Unreferenced(sf.ty); var k := KindOf(t);
      t == Duration || k == BoolKind || IsAnyInt(k) || IsAnyUint(k)
    ensures SetFieldSpec(src, ps, name, sf, lt, cur) == SetFieldSpec(other, ps, name, sf, lt, cur)
  {
    ReadsAgree(src, other, name);
  }

  lemma TextReadsOnly(src: Source, other: Source, ps: Parsers, name: string, sf: Field, lt: Ty, cur: Value)
    requires AgreeAt(src, other, name)
    requires var t := Unreferenced(sf.ty); var k := KindOf(t);
      !(t == Duration || k == BoolKind || IsAnyInt(k) || IsAnyUint(k)) &&
      (k == Float32Kind || k == Float64Kind || t == Time || t == UUID)
    ensures SetFieldSpec(src, ps, name, sf, lt, cur) == SetFieldSpec(other, ps, name, sf, lt, cur)
  {
    ReadsAgree(src, other, name);
  }

  lemma RestReadsOnly(src: Source, other: Source, ps: Parsers, name: string, sf: Field, lt: Ty, cur: Value)
    requires AgreeAt(src, other, name)
    requires var t := Unreferenced(sf.ty); var k := KindOf(t);
      !(t == Duration || k == BoolKind || IsAnyInt(k) || IsAnyUint(k)) &&
      !(k == Float32Kind || k == Float64Kind || t == Time || t == UUID)
    ensures SetFieldSpec(src, ps, name, sf, lt, cur) == SetFieldSpec(other, ps, name, sf, lt, cur)
  {
    ReadsAgree(src, other, name);
  }

  lemma ReadsAgree(src: Source, other: Source, name: string)
    requires AgreeAt(src, other, name)
    ensures BoolOf(src, name) == BoolOf(other, name)
    ensures Int64Of(src, name) == Int64Of(other, name)
    ensures Uint64Of(src, name) == Uint64Of(other, name)
    ensures Float64Of(src, name) == Float64Of(other, name)
    ensures StringOf(src, name) == StringOf(other, name)
    ensures StringSliceOf(src, name) == StringSliceOf(other, name)
  {
  }

  /** The binder reads a leaf through its FlagName alone: two sources that
      agree on that name bind the leaf alike. */
  lemma LeafReadsItsName(src: Source, other: Source, ps: Parsers, sf: Field, prefix: string)
    requires !IsStructLike(sf.ty)
    requires AgreeAt(src, other, FlagName(ps, sf, prefix))
    ensures BindField(src, ps, sf, prefix) == BindField(other, ps, sf, prefix)
  {
    if sf.exported {
      var lt := if sf.ty.Ptr? then sf.ty.elem else sf.ty;
      SetFieldReadsOnly(src, other, ps, FlagName(ps, sf, prefix), sf, lt, Zero(lt));
    }
  }

  /** Two flag sources that agree on every name in `names`. */
  predicate AgreeOn(src: Source, other: Source, names: seq<string>)
  {
    forall name :: name in names ==> AgreeAt(src, other, name)
  }

  /** Every name a field reads is among the names of the fields around
      it. */
  lemma {:induction false} FieldNamesAmong(ps: Parsers, fs: seq<Field>, j: nat, prefix: string)
    requires j < |fs|
    ensures forall name :: name in FieldBoundNames(ps, fs[j], prefix) ==> name in BoundNames(ps, fs, prefix)
  {
    var n := |fs| - 1;
    if j < n {
      FieldNamesAmong(ps, fs[..n], j, prefix);
      assert fs[..n][j] == fs[j];
    }
  }

  /** bindStruct reads the source only at the names BoundNames lists: two
      sources that agree on them bind a struct type alike. */
  lemma {:induction false} BindReadsOnlyBoundNames(src: Source, other: Source, ps: Parsers, t: Ty, prefix: string)
    requires Unreferenced(t).Struct? ==> AgreeOn(src, other, BoundNames(ps, Unreferenced(t).fields, prefix))
    ensures BindStructSpec(src, ps, t, prefix) == BindStructSpec(other, ps, t, prefix)
    decreases TySize(t), 2
  {
    var u := Unreferenced(t);
    if u.Struct? {
      var fs := u.fields;
      var os, oo := FieldSteps(src, ps, fs, prefix), FieldSteps(other, ps, fs, prefix);
      forall j | 0 <= j < |fs| ensures os[j] == oo[j] {
        FieldsSizeBound(fs, j);
        FieldNamesAmong(ps, fs, j, prefix);
        FieldReadsOnlyBoundNames(src, other, ps, fs[j], prefix);
      }
      assert os == oo;
    }
  }

  lemma {:induction false} FieldReadsOnlyBoundNames(src: Source, other: Source, ps: Parsers, f: Field, prefix: string)
    requires AgreeOn(src, other, FieldBoundNames(ps, f, prefix))
    ensures BindField(src, ps, f, prefix) == BindField(other, ps, f, prefix)
    decreases TySize(f.ty), 3
  {
    if !f.exported {
    } else if IsStructLike(f.ty) {
      if !(f.anonymous && Tag(f, TagCLI) != "") {
        IsStructLikeExactly(f.ty);
        var pfx := if f.anonymous then prefix else prefix + Tag(f, TagPrefix);
        BindReadsOnlyBoundNames(src, other, ps, f.ty, pfx);
      }
    } else {
      assert FlagName(ps, f, prefix) in FieldBoundNames(ps, f, prefix);
      LeafReadsItsName(src, other, ps, f, prefix);
    }
  }

  /** The side condition under which the walkers agree, for a list of
      fields and for one field. */
  predicate Aligned(ps: Parsers, fs: seq<Field>)
    decreases FieldsSize(fs), 1
  {
    fs == [] || (Aligned(ps, fs[..|fs| - 1]) && FieldAligned(ps, fs[|fs| - 1]))
  }

  predicate FieldAligned(ps: Parsers, f: Field)
    decreases TySize(f.ty), 0
  {
    if !f.exported then true
    else if IsStructLike(f.ty) then
      IsStructLikeExactly(f.ty);
      && (if f.anonymous then Tag(f, TagPrefix) == "" && Tag(f, TagCLI) == "" else Tag(f, TagPrefix) != "")
      && Aligned(ps, Unreferenced(f.ty).fields)
    else KindFor(ps, f.ty, Tag(f, TagDefault)).Some?
  }

  lemma NoTagNoNames()
    ensures ParseNames("") == NoNames
  {
    assert TrimSpace("") == "";
  }

  /** Under the side condition, the generator emits exactly the names the
      binder reads, in the same order. */
  lemma {:induction false} GeneratedNamesAreBound(ps: Parsers, fs: seq<Field>, prefix: string)
    requires Aligned(ps, fs)
    ensures FlagNames(GenFlags(ps, fs, prefix)) == BoundNames(ps, fs, prefix)
    decreases FieldsSize(fs), 1
  {
    if fs != [] {
      var n := |fs| - 1;
      FieldsSizeBound(fs, n);
      GeneratedNamesAreBound(ps, fs[..n], prefix);
      FieldNamesAreBound(ps, fs[n], prefix);
      calc {
        FlagNames(GenFlags(ps, fs, prefix));
      ==
        FlagNames(GenFlags(ps, fs[..n], prefix) + FieldFlags(ps, fs[n], prefix));
      == { FlagNamesAppend(GenFlags(ps, fs[..n], prefix), FieldFlags(ps, fs[n], prefix)); }
        FlagNames(GenFlags(ps, fs[..n], prefix)) + FlagNames(FieldFlags(ps, fs[n], prefix));
      ==
        BoundNames(ps, fs, prefix);
      }
    }
  }

  lemma {:induction false} FieldNamesAreBound(ps: Parsers, f: Field, prefix: string)
    requires FieldAligned(ps, f)
    ensures FlagNames(FieldFlags(ps, f, prefix)) == FieldBoundNames(ps, f, prefix)
    decreases TySize(f.ty), 0
  {
    if !f.exported {
    } else if IsStructLike(f.ty) {
      IsStructLikeExactly(f.ty);
      var fs := Unreferenced(f.ty).fields;
      if f.anonymous {
        NoTagNoNames();
        FieldFlagsOfEmbedded(ps, f, prefix);
        GeneratedNamesAreBound(ps, fs, prefix);
      } else {
        FieldFlagsOfPrefixed(ps, f, prefix);
        GeneratedNamesAreBound(ps, fs, prefix + Tag(f, TagPrefix));
      }
    } else {
      FieldFlagsOfLeaf(ps, f, prefix);
    }
  }

  /** Under the side condition, what the binder makes of a struct depends
      only on the flags the generator defined for it. */
  lemma BindReadsGeneratedFlags(src: Source, other: Source, ps: Parsers, fs: seq<Field>, prefix: string)
    requires Aligned(ps, fs)
    requires AgreeOn(src, other, FlagNames(GenFlags(ps, fs, prefix)))
    ensures BindStructSpec(src, ps, Struct(fs), prefix) == BindStructSpec(other, ps, Struct(fs), prefix)
  {
    GeneratedNamesAreBound(ps, fs, prefix);
    BindReadsOnlyBoundNames(src, other, ps, Struct(fs), prefix);
  }

  // ---------------------------------------------------------------------
  // Where the walkers part ways

  /** A leaf `Port int` with no tags; its flag is "port". */
  const PortField := Field("Port", true, false, map[], Int(Plain))

  lemma PortFlagName(ps: Parsers, prefix: string)
    requires LowersAscii(ps.toLower)
    ensures FlagName(ps, PortField, prefix) == prefix + "port"
  {
    NoTagNoNames();
    var lower := ps.toLower;
    assert lower('P') == 'p' && lower('o') == 'o' && lower('r') == 'r' && lower('t') == 't';
    assert ToLower(lower, "Port") == "port";
  }

  /** A field `Sub` of a struct type holding PortField alone. */
  function SubField(anonymous: bool, tags: map<string, string>): Field
  {
    Field("Sub", true, anonymous, tags, Struct([PortField]))
  }

  lemma SubFieldBoundNames(ps: Parsers, anonymous: bool, tags: map<string, string>, prefix: string)
    requires !(anonymous && Tag(SubField(anonymous, tags), TagCLI) != "")
    ensures var pfx := if anonymous then prefix else prefix + Tag(SubField(anonymous, tags), TagPrefix);
      FieldBoundNames(ps, SubField(anonymous, tags), prefix) == [FlagName(ps, PortField, pfx)]
  {
    var f := SubField(anonymous, tags);
    var pfx := if anonymous then prefix else prefix + Tag(f, TagPrefix);
    IsStructLikeExactly(f.ty);
    assert Unreferenced(f.ty) == f.ty;
    assert !IsStructLike(PortField.ty);
    assert [PortField][..0] == [];
    calc {
      FieldBoundNames(ps, f, prefix);
    ==
      BoundNames(ps, [PortField], pfx);
    ==
      BoundNames(ps, [], pfx) + FieldBoundNames(ps, PortField, pfx);
    ==
      [] + [FlagName(ps, PortField, pfx)];
    ==
      [FlagName(ps, PortField, pfx)];
    }
  }

  /** A named struct field without `cliPrefix`: the generator emits no flag
      for it, while the binder still reads the inner field under the
      parent's prefix. */
  lemma NamedStructWithoutPrefix(ps: Parsers, prefix: string)
    requires LowersAscii(ps.toLower)
    ensures FieldFlags(ps, SubField(false, map[]), prefix) == []
    ensures FieldBoundNames(ps, SubField(false, map[]), prefix) == [prefix + "port"]
  {
    var f := SubField(false, map[]);
    IsStructLikeExactly(f.ty);
    UnprefixedStructsEmitNothing(ps, f, prefix);
    SubFieldBoundNames(ps, false, map[], prefix);
    assert prefix + Tag(f, TagPrefix) == prefix;
    PortFlagName(ps, prefix);
  }

  /** An embedded struct with `cliPrefix`: the generator names the inner
      flag with the prefix, while the binder reads it without. */
  lemma EmbeddedStructWithPrefix(ps: Parsers, prefix: string)
    requires LowersAscii(ps.toLower)
    ensures FlagNames(FieldFlags(ps, SubField(true, map[TagPrefix := "db-"]), prefix)) == [prefix + "db-port"]
    ensures FieldBoundNames(ps, SubField(true, map[TagPrefix := "db-"]), prefix) == [prefix + "port"]
  {
    var f := SubField(true, map[TagPrefix := "db-"]);
    assert Tag(f, TagCLI) == "" && Tag(f, TagPrefix) == "db-";
    IsStructLikeExactly(f.ty);
    FieldFlagsOfPrefixed(ps, f, prefix);
    var inner := prefix + "db-";
    assert [PortField][..0] == [];
    assert GenFlags(ps, [PortField], inner) == FieldFlags(ps, PortField, inner);
    NoTagNoNames();
    FieldFlagsOfLeaf(ps, PortField, inner);
    PortFlagName(ps, inner);
    assert inner + "port" == prefix + "db-port";
    SubFieldBoundNames(ps, true, map[TagPrefix := "db-"], prefix);
    PortFlagName(ps, prefix);
  }
}
