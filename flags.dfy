/** The flag generator of flags.go: one flag descriptor per leaf field of a
    struct type, with names resolved against the inherited prefix, nested
    structs with a `cliPrefix` tag and untagged embedded structs inlined at
    their position. */
module Flags {
  import opened Wrappers
  import opened Text
  import opened Foreign
  import opened Reflect
  import opened Utils

  /** The cli.Flag implementations the generator builds, with the default
      each one carries. A BoolFlag has no DefaultText. */
  datatype FlagKind =
    | StringFlag(text: string, defaultText: string)
    | BoolFlag(truth: bool)
    | Int64Flag(int64: int, defaultText: string)
    | Uint64Flag(uint64: nat, defaultText: string)
    | Float64Flag(float64: FloatBits, defaultText: string)
    | StringSliceFlag(texts: seq<string>, defaultText: string)

  datatype Flag = Flag(name: string, aliases: seq<string>, usage: string, required: bool,
                       kind: FlagKind)

  /** Aliases longer than one byte get the prefix; one-byte aliases stay. */
  function PrefixedAliases(aliases: seq<string>, prefix: string): (r: seq<string>)
    ensures |r| == |aliases|
  {
    seq(|aliases|, i requires 0 <= i < |aliases| =>
      if ByteLen(aliases[i]) > 1 then prefix + aliases[i] else aliases[i])
  }

  /** The flag kind and default for a leaf of type `ft` with default text
      `def`, in the order the generator's switch tests them: the three
      named types are matched on the declared type itself, the kinds on the
      type with pointers stripped. None when no case applies. */
  function KindFor(ps: Parsers, ft: Ty, def: string): Option<FlagKind>
  {
    var kind := KindOf(Unreferenced(ft));
    if ft == Duration then Some(StringFlag(def, def))
    else if kind == BoolKind then Some(BoolFlag(ps.parseBool(def).value))
    else if IsAnyInt(kind) then Some(Int64Flag(ps.parseInt(def).value, def))
    else if IsAnyUint(kind) then Some(Uint64Flag(ps.parseUint(def).value, def))
    else if kind == Float32Kind || kind == Float64Kind then Some(Float64Flag(ps.parseFloat(def).value, def))
    else if ft == Time then Some(StringFlag(def, def))
    else if ft == UUID then Some(StringFlag(def, def))
    else if kind == StringKind then Some(StringFlag(def, def))
    else if kind == SliceKind then Some(StringSliceFlag(CSV(def), def))
    else None
  }

  /** The flags one field contributes under the inherited prefix. */
  function FieldFlags(ps: Parsers, f: Field, prefix: string): seq<Flag>
    decreases TySize(f.ty), 0
  {
    if !f.exported then []
    else if IsStructLike(f.ty) && Tag(f, TagPrefix) != "" then
      IsStructLikeExactly(f.ty);
      GenFlags(ps, Unreferenced(f.ty).fields, prefix + Tag(f, TagPrefix))
    else
      var names := ParseNames(Tag(f, TagCLI));
      if names.name == "" && f.anonymous && IsStructLike(f.ty) then
        IsStructLikeExactly(f.ty);
        GenFlags(ps, Unreferenced(f.ty).fields, prefix)
      else
        LeafFlags(ps, f, if names.name == "" then ToLower(ps.toLower, f.goName) else names.name,
                  names.aliases, names.omitEmpty, prefix)
  }

  /** The flag of a leaf field whose declared (or derived) name is `name`. */
  function LeafFlags(ps: Parsers, f: Field, name: string, aliases: seq<string>, omitEmpty: bool,
                     prefix: string): seq<Flag>
  {
    var def := Tag(f, TagDefault);
    match KindFor(ps, f.ty, def)
    case None => []
    case Some(k) =>
      [Flag(prefix + name, PrefixedAliases(aliases, prefix), Tag(f, TagUsage),
            !omitEmpty && def == "", k)]
  }

  /** The specification of genFlagsForStruct: the fields' flags in
      declaration order. */
  function GenFlags(ps: Parsers, fs: seq<Field>, prefix: string): seq<Flag>
    decreases FieldsSize(fs), 1
  {
    if fs == [] then []
    else GenFlags(ps, fs[..|fs| - 1], prefix) + FieldFlags(ps, fs[|fs| - 1], prefix)
  }

  lemma GenFlagsSnoc(ps: Parsers, fs: seq<Field>, i: nat, prefix: string)
    requires i < |fs|
    ensures GenFlags(ps, fs[..i + 1], prefix) == GenFlags(ps, fs[..i], prefix) + FieldFlags(ps, fs[i], prefix)
  {
    assert fs[..i + 1][..i] == fs[..i];
  }

  lemma GenFlagsStep(ps: Parsers, fs: seq<Field>, i: nat, prefix: string,
                     start: seq<Flag>, before: seq<Flag>, after: seq<Flag>)
    requires i < |fs|
    requires before == start + GenFlags(ps, fs[..i], prefix)
    requires after == before + FieldFlags(ps, fs[i], prefix)
    ensures after == start + GenFlags(ps, fs[..i + 1], prefix)
  {
    GenFlagsSnoc(ps, fs, i, prefix);
  }

  /** A struct-like field with a `cliPrefix` contributes its own fields'
      flags, under the inherited prefix extended by the tag. */
  lemma FieldFlagsOfPrefixed(ps: Parsers, f: Field, prefix: string)
    requires f.exported && IsStructLike(f.ty) && Tag(f, TagPrefix) != ""
    ensures Unreferenced(f.ty).Struct?
    ensures FieldFlags(ps, f, prefix) == GenFlags(ps, Unreferenced(f.ty).fields, prefix + Tag(f, TagPrefix))
  {
    IsStructLikeExactly(f.ty);
  }

  /** An embedded struct-like field without `cliPrefix` and without a `cli`
      name contributes its fields' flags under the unchanged prefix. */
  lemma FieldFlagsOfEmbedded(ps: Parsers, f: Field, prefix: string)
    requires f.exported && f.anonymous && IsStructLike(f.ty) && Tag(f, TagPrefix) == ""
    requires ParseNames(Tag(f, TagCLI)).name == ""
    ensures Unreferenced(f.ty).Struct?
    ensures FieldFlags(ps, f, prefix) == GenFlags(ps, Unreferenced(f.ty).fields, prefix)
  {
    IsStructLikeExactly(f.ty);
  }

  /** The flags of a field that is neither inlined nor flattened. */
  lemma FieldFlagsOfLeaf(ps: Parsers, f: Field, prefix: string)
    requires f.exported && !(IsStructLike(f.ty) && Tag(f, TagPrefix) != "")
    requires var n := ParseNames(Tag(f, TagCLI)); !(n.name == "" && f.anonymous && IsStructLike(f.ty))
    ensures var n := ParseNames(Tag(f, TagCLI));
      FieldFlags(ps, f, prefix)
      == LeafFlags(ps, f, if n.name == "" then ToLower(ps.toLower, f.goName) else n.name, n.aliases, n.omitEmpty, prefix)
  {
  }

  /** The `*[]cli.Flag` accumulator that the recursive calls share. */
  class FlagList {
    var flags: seq<Flag>

    constructor ()
      ensures flags == []
    {
      flags := [];
    }
  }

  method GenFlagsForStruct(ps: Parsers, rt: Ty, inheritedPrefix: string, out: FlagList)
    requires rt.Struct?
    modifies out
    ensures out.flags == old(out.flags) + GenFlags(ps, rt.fields, inheritedPrefix)
    decreases TySize(rt)
  {
    var fs := rt.fields;
    ghost var start := out.flags;
    assert fs[..0] == [];
    for i := 0 to |fs|
      invariant out.flags == start + GenFlags(ps, fs[..i], inheritedPrefix)
    {
      ghost var before := out.flags;
      FieldsSizeBound(fs, i);
      GenFlagsForField(ps, fs[i], inheritedPrefix, out);
      GenFlagsStep(ps, fs, i, inheritedPrefix, start, before, out.flags);
    }
    assert fs[..|fs|] == fs;
  }

  /** The body of genFlagsForStruct's loop (flags.go:27-154), for one field. */
  method GenFlagsForField(ps: Parsers, sf: Field, inheritedPrefix: string, out: FlagList)
    modifies out
    ensures out.flags == old(out.flags) + FieldFlags(ps, sf, inheritedPrefix)
    decreases TySize(sf.ty) + 1
  {
    if !sf.exported {
      return;
    }

    if IsStructLike(sf.ty) && Tag(sf, TagPrefix) != "" {
      var pfx := inheritedPrefix + Tag(sf, TagPrefix);
      var sub := UnreferenceType(sf.ty);
      FieldFlagsOfPrefixed(ps, sf, inheritedPrefix);
      GenFlagsForStruct(ps, sub, pfx, out);
      return;
    }

    var name, aliases, omitEmpty := ParseNamesWithOptions(Tag(sf, TagCLI));
    if name == "" {
      name := ToLower(ps.toLower, sf.goName);
      if sf.anonymous && IsStructLike(sf.ty) {
        var sub := UnreferenceType(sf.ty);
        FieldFlagsOfEmbedded(ps, sf, inheritedPrefix);
        GenFlagsForStruct(ps, sub, inheritedPrefix, out);
        return;
      }
    }

    FieldFlagsOfLeaf(ps, sf, inheritedPrefix);
    AppendLeafFlag(ps, sf, name, aliases, omitEmpty, inheritedPrefix, out);
  }

  /** flags.go:51-154 for one leaf field: prefix the name and the long
      aliases, infer `required`, pick the flag kind and append the flag. */
  method AppendLeafFlag(ps: Parsers, sf: Field, name: string, aliases: seq<string>, omitEmpty: bool,
                        inheritedPrefix: string, out: FlagList)
    modifies out
    ensures out.flags == old(out.flags) + LeafFlags(ps, sf, name, aliases, omitEmpty, inheritedPrefix)
  {
    var name := name;
    var aliases := aliases;
    name := inheritedPrefix + name;
    ghost var declared := aliases;
    for j := 0 to |aliases|
      invariant |aliases| == |declared|
      invariant forall k :: 0 <= k < j ==> aliases[k] == PrefixedAliases(declared, inheritedPrefix)[k]
      invariant forall k :: j <= k < |aliases| ==> aliases[k] == declared[k]
    {
      if ByteLen(aliases[j]) > 1 {
        aliases := aliases[j := inheritedPrefix + aliases[j]];
      }
    }
    assert aliases == PrefixedAliases(declared, inheritedPrefix);

    var usage := Tag(sf, TagUsage);
    var def := Tag(sf, TagDefault);
    var ft := sf.ty;
    var u := UnreferenceType(ft);
    var kind := KindOf(u);
    var required := !omitEmpty && def == "";

    var made: Option<FlagKind> := None;
    if ft == Duration {
      made := Some(StringFlag(def, def));
    } else if kind == BoolKind {
      made := Some(BoolFlag(ps.parseBool(def).value));
    } else if IsAnyInt(kind) {
      made := Some(Int64Flag(ps.parseInt(def).value, def));
    } else if IsAnyUint(kind) {
      made := Some(Uint64Flag(ps.parseUint(def).value, def));
    } else if kind == Float32Kind || kind == Float64Kind {
      made := Some(Float64Flag(ps.parseFloat(def).value, def));
    } else if ft == Time {
      made := Some(StringFlag(def, def));
    } else if ft == UUID {
      made := Some(StringFlag(def, def));
    } else if kind == StringKind {
      made := Some(StringFlag(def, def));
    } else if kind == SliceKind {
      var dflt := SplitCSV(def);
      made := Some(StringSliceFlag(dflt, def));
    }
    assert made == KindFor(ps, ft, def);
    if made.Some? {
      out.flags := out.flags + [Flag(name, aliases, usage, required, made.value)];
    }
  }

  /** FlagsFromStruct: the flags of the struct type left after stripping
      pointers; none for any other type. */
  method FlagsFromStruct(ps: Parsers, t: Ty) returns (flags: seq<Flag>)
    ensures flags == if Unreferenced(t).Struct? then GenFlags(ps, Unreferenced(t).fields, "") else []
  {
    var rt := UnreferenceType(t);
    if KindOf(rt) != StructKind {
      return [];
    }
    if !rt.Struct? {
      // time.Time: a struct whose fields are all unexported.
      return [];
    }
    var out := new FlagList();
    GenFlagsForStruct(ps, rt, "", out);
    flags := out.flags;
  }

  // ---------------------------------------------------------------------
  // Properties of the generated flags

  /** The concatenation of the flag lists `parts`. */
  function Concat(parts: seq<seq<Flag>>): seq<Flag>
  {
    if parts == [] then [] else Concat(parts[..|parts| - 1]) + parts[|parts| - 1]
  }

  lemma {:induction false} ConcatAppend(p: seq<seq<Flag>>, q: seq<seq<Flag>>)
    ensures Concat(p + q) == Concat(p) + Concat(q)
  {
    if q == [] {
      assert p + q == p;
    } else {
      assert (p + q)[..|p + q| - 1] == p + q[..|q| - 1];
      ConcatAppend(p, q[..|q| - 1]);
    }
  }

  /** The flags of each field, one list per field. */
  function PerField(ps: Parsers, fs: seq<Field>, prefix: string): (parts: seq<seq<Flag>>)
    ensures |parts| == |fs|
  {
    seq(|fs|, i requires 0 <= i < |fs| => FieldFlags(ps, fs[i], prefix))
  }

  lemma {:induction false} GenFlagsIsConcat(ps: Parsers, fs: seq<Field>, prefix: string)
    ensures GenFlags(ps, fs, prefix) == Concat(PerField(ps, fs, prefix))
  {
    if fs != [] {
      var n := |fs| - 1;
      GenFlagsIsConcat(ps, fs[..n], prefix);
      assert PerField(ps, fs, prefix)[..n] == PerField(ps, fs[..n], prefix);
    }
  }

  /** Flags follow field declaration order: the flags of a concatenation of
      fields are the concatenation of their flags. */
  lemma GenFlagsAppend(ps: Parsers, a: seq<Field>, b: seq<Field>, prefix: string)
    ensures GenFlags(ps, a + b, prefix) == GenFlags(ps, a, prefix) + GenFlags(ps, b, prefix)
  {
    var pa, pb := PerField(ps, a, prefix), PerField(ps, b, prefix);
    calc {
      GenFlags(ps, a + b, prefix);
    == { GenFlagsIsConcat(ps, a + b, prefix); }
      Concat(PerField(ps, a + b, prefix));
    == { assert PerField(ps, a + b, prefix) == pa + pb; }
      Concat(pa + pb);
    == { ConcatAppend(pa, pb); }
      Concat(pa) + Concat(pb);
    == { GenFlagsIsConcat(ps, a, prefix); GenFlagsIsConcat(ps, b, prefix); }
      GenFlags(ps, a, prefix) + GenFlags(ps, b, prefix);
    }
  }

  /** The exported fields, in order. */
  function ExportedOnly(fs: seq<Field>): seq<Field>
  {
    if fs == [] then []
    else ExportedOnly(fs[..|fs| - 1]) + (if fs[|fs| - 1].exported then [fs[|fs| - 1]] else [])
  }

  /** Unexported fields contribute no flags: dropping them changes nothing. */
  lemma {:induction false} UnexportedFieldsIgnored(ps: Parsers, fs: seq<Field>, prefix: string)
    ensures GenFlags(ps, fs, prefix) == GenFlags(ps, ExportedOnly(fs), prefix)
  {
    if fs != [] {
      var n := |fs| - 1;
      UnexportedFieldsIgnored(ps, fs[..n], prefix);
      var tail := if fs[n].exported then [fs[n]] else [];
      GenFlagsAppend(ps, ExportedOnly(fs[..n]), tail, prefix);
      if fs[n].exported {
        assert GenFlags(ps, [fs[n]], prefix) == GenFlags(ps, [], prefix) + FieldFlags(ps, fs[n], prefix);
      }
    }
  }

  /** A flag's name starts with the prefix, and so does every alias longer
      than one byte. */
  ghost predicate UnderPrefix(fl: Flag, prefix: string)
  {
    && prefix <= fl.name
    && forall a :: a in fl.aliases ==> ByteLen(a) <= 1 || prefix <= a
  }

  lemma {:induction false} GenFlagsUnderPrefix(ps: Parsers, fs: seq<Field>, prefix: string)
    ensures forall fl :: fl in GenFlags(ps, fs, prefix) ==> UnderPrefix(fl, prefix)
    decreases FieldsSize(fs), 1
  {
    if fs != [] {
      GenFlagsUnderPrefix(ps, fs[..|fs| - 1], prefix);
      FieldFlagsUnderPrefix(ps, fs[|fs| - 1], prefix);
    }
  }

  lemma {:induction false} FieldFlagsUnderPrefix(ps: Parsers, f: Field, prefix: string)
    ensures forall fl :: fl in FieldFlags(ps, f, prefix) ==> UnderPrefix(fl, prefix)
    decreases TySize(f.ty), 0
  {
    if !f.exported {
    } else if IsStructLike(f.ty) && Tag(f, TagPrefix) != "" {
      var ext := prefix + Tag(f, TagPrefix);
      FieldFlagsOfPrefixed(ps, f, prefix);
      GenFlagsUnderPrefix(ps, Unreferenced(f.ty).fields, ext);
      forall fl | fl in FieldFlags(ps, f, prefix) ensures UnderPrefix(fl, prefix) {
        UnderLongerPrefix(fl, prefix, Tag(f, TagPrefix));
      }
    } else {
      var names := ParseNames(Tag(f, TagCLI));
      if names.name == "" && f.anonymous && IsStructLike(f.ty) {
        FieldFlagsOfEmbedded(ps, f, prefix);
        GenFlagsUnderPrefix(ps, Unreferenced(f.ty).fields, prefix);
      } else {
        FieldFlagsOfLeaf(ps, f, prefix);
        LeafFlagsUnderPrefix(ps, f, if names.name == "" then ToLower(ps.toLower, f.goName) else names.name,
                             names.aliases, names.omitEmpty, prefix);
      }
    }
  }

  lemma UnderLongerPrefix(fl: Flag, prefix: string, ext: string)
    requires UnderPrefix(fl, prefix + ext)
    ensures UnderPrefix(fl, prefix)
  {
    forall a | a in fl.aliases && ByteLen(a) > 1 ensures prefix <= a {
      assert prefix + ext <= a;
    }
  }

  lemma LeafFlagsUnderPrefix(ps: Parsers, f: Field, name: string, aliases: seq<string>, omitEmpty: bool,
                             prefix: string)
    ensures forall fl :: fl in LeafFlags(ps, f, name, aliases, omitEmpty, prefix) ==> UnderPrefix(fl, prefix)
  {
    var pa := PrefixedAliases(aliases, prefix);
    forall a | a in pa && ByteLen(a) > 1 ensures prefix <= a {
      var i :| 0 <= i < |pa| && pa[i] == a;
      assert ByteLen(aliases[i]) > 1;
    }
  }

  /** The descriptor of a leaf field: at most one flag, named by the prefix
      and the declared name (or the lower-cased Go name), with the prefixed
      aliases, the usage text, and `required` exactly when the field is not
      omitempty and has no default. It exists exactly when the field's type
      has a flag kind. */
  lemma LeafDescriptor(ps: Parsers, f: Field, prefix: string)
    requires f.exported && !IsStructLike(f.ty)
    ensures var n := ParseNames(Tag(f, TagCLI));
      var def := Tag(f, TagDefault);
      var flags := FieldFlags(ps, f, prefix);
      && |flags| <= 1
      && (|flags| == 1 <==> KindFor(ps, f.ty, def).Some?)
      && (|flags| == 1 ==>
            && flags[0].name == prefix + (if n.name == "" then ToLower(ps.toLower, f.goName) else n.name)
            && flags[0].aliases == PrefixedAliases(n.aliases, prefix)
            && flags[0].usage == Tag(f, TagUsage)
            && (flags[0].required <==> !n.omitEmpty && def == "")
            && flags[0].kind == KindFor(ps, f.ty, def).value)
  {
    FieldFlagsOfLeaf(ps, f, prefix);
  }

  /** Durations, timestamps, UUIDs and strings become string flags whose
      value and default text are the raw default; slices become string-slice
      flags whose value is the comma-split default. */
  lemma StringAndSliceDefaults(ps: Parsers, ft: Ty, def: string)
    ensures ft == Duration || ft == Time || ft == UUID || Unreferenced(ft) == String
      ==> KindFor(ps, ft, def) == Some(StringFlag(def, def))
    ensures Unreferenced(ft).Slice? ==> KindFor(ps, ft, def) == Some(StringSliceFlag(CSV(def), def))
  {
  }

  /** A malformed bool, int or uint default does not fail generation: the
      flag's value becomes false or zero. */
  lemma MalformedDefaultsBecomeZero(ps: Parsers, ft: Ty, def: string)
    requires StrconvContract(ps)
    ensures var k := KindOf(Unreferenced(ft));
      && (k == BoolKind && ps.parseBool(def).err != NoError ==> KindFor(ps, ft, def) == Some(BoolFlag(false)))
      && (IsAnyInt(k) && ft != Duration && ps.parseInt(def).err == ErrSyntax ==>
            KindFor(ps, ft, def) == Some(Int64Flag(0, def)))
      && (IsAnyUint(k) && ps.parseUint(def).err == ErrSyntax ==>
            KindFor(ps, ft, def) == Some(Uint64Flag(0, def)))
  {
  }

  /** The generator matches the named types on the declared type: a
      *time.Duration becomes an integer flag, and a *time.Time or *uuid.UUID
      gets no flag at all. */
  lemma PointerToNamedTypes(ps: Parsers, def: string)
    ensures KindFor(ps, Ptr(Duration), def) == Some(Int64Flag(ps.parseInt(def).value, def))
    ensures KindFor(ps, Ptr(Time), def) == None
    ensures KindFor(ps, Ptr(UUID), def) == None
  {
  }

  /** A named struct-like field without `cliPrefix`, and an embedded one that
      has a `cli` name, produce no flag at all. */
  lemma UnprefixedStructsEmitNothing(ps: Parsers, f: Field, prefix: string)
    requires IsStructLike(f.ty) && Tag(f, TagPrefix) == ""
    requires !f.anonymous || ParseNames(Tag(f, TagCLI)).name != ""
    ensures FieldFlags(ps, f, prefix) == []
  {
    if f.exported {
      FieldFlagsOfLeaf(ps, f, prefix);
      StructLikeHasNoKind(ps, f.ty, Tag(f, TagDefault));
    }
  }

  /** No flag kind applies to a struct-like type. */
  lemma StructLikeHasNoKind(ps: Parsers, ft: Ty, def: string)
    requires IsStructLike(ft)
    ensures KindFor(ps, ft, def) == None
  {
    IsStructLikeExactly(ft);
    UnreferencedIsNotPointer(ft);
  }
}
