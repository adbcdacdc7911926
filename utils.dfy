/** The shared tag interpreter and type helpers of utils.go:
    pointer stripping, the struct-like test, the integer-kind classifiers,
    the integer setters, comma splitting and `cli` tag parsing. */
module Utils {
  import opened Wrappers
  import opened Text
  import opened Reflect

  // ---------------------------------------------------------------------
  // unreferenceType, unreferenceValue (utils.go:9-26)

  /** The type left after stripping every pointer layer. */
  function Unreferenced(t: Ty): (r: Ty)
    ensures TySize(r) <= TySize(t)
  {
    if t.Ptr? then Unreferenced(t.elem) else t
  }

  /** unreferenceType: follow Elem() while the type is a pointer. */
  method UnreferenceType(t: Ty) returns (r: Ty)
    ensures r == Unreferenced(t)
  {
    r := t;
    while r.Ptr?
      invariant Unreferenced(r) == Unreferenced(t)
      decreases TySize(r)
    {
      r := r.elem;
    }
  }

  lemma {:induction false} UnreferencedIsNotPointer(t: Ty)
    ensures !Unreferenced(t).Ptr?
  {
    if t.Ptr? {
      UnreferencedIsNotPointer(t.elem);
    }
  }

  lemma UnreferencedIdempotent(t: Ty)
    ensures Unreferenced(Unreferenced(t)) == Unreferenced(t)
  {
    UnreferencedIsNotPointer(t);
  }

  /** unreferenceValue, applied (as the binder does) to a field of a freshly
      allocated struct, so to a zero value: a non-pointer field is returned
      as it is; a pointer field is nil, and the result is a fresh zero value
      of the pointee type that is not connected to the field. */
  method UnreferenceValue(field: Loc) returns (r: Loc, detached: bool)
    requires field.Valid() && field.cells[field.index] == Zero(field.ty)
    ensures r.Valid() && r.cells[r.index] == Zero(r.ty)
    ensures detached == field.ty.Ptr?
    ensures !detached ==> r == field
    ensures detached ==> fresh(r.cells) && r.ty == field.ty.elem
  {
    if field.ty.Ptr? {
      // The zero of a pointer type is nil: reflect.New(t.Type().Elem()).Elem().
      var cells := new Value[1];
      cells[0] := Zero(field.ty.elem);
      r, detached := Loc(cells, 0, field.ty.elem), true;
    } else {
      r, detached := field, false;
    }
  }

  // ---------------------------------------------------------------------
  // isStructLike, isAnyInt, isAnyUint (utils.go:28-32, 45-60)

  /** A struct other than time.Time, once pointers are stripped. */
  predicate IsStructLike(t: Ty)
  {
    var u := Unreferenced(t);
    KindOf(u) == StructKind && u != Time
  }

  predicate IsAnyInt(k: Kind)
  {
    k == IntKind || k == Int8Kind || k == Int16Kind || k == Int32Kind || k == Int64Kind
  }

  predicate IsAnyUint(k: Kind)
  {
    k == UintKind || k == Uint8Kind || k == Uint16Kind || k == Uint32Kind || k == Uint64Kind
    || k == UintptrKind
  }

  /** isStructLike holds exactly of the types that are, after stripping
      pointers, a struct declared with fields (time.Time excluded). */
  lemma IsStructLikeExactly(t: Ty)
    ensures IsStructLike(t) <==> Unreferenced(t).Struct?
  {
    UnreferencedIsNotPointer(t);
  }

  /** No kind is both a signed and an unsigned integer kind. */
  lemma IntKindsDisjoint(k: Kind)
    ensures !(IsAnyInt(k) && IsAnyUint(k))
  {
  }

  // ---------------------------------------------------------------------
  // castAndSetInt, castAndSetUint (utils.go:62-88)

  /** What reflect's SetInt stores into a cell of integer kind `t`. */
  function IntValueOf(t: Ty, v: int): Value
  {
    if t == Duration then DurationVal(v) else IntVal(v)
  }

  /** castAndSetInt as written: the pointer branch tests the kind of
      field.Elem(), which for a nil pointer is the invalid kind, so a nil
      pointer is never allocated and stays nil. */
  function IntSetAsWritten(t: Ty, cur: Value, v: int): Value
  {
    if IsAnyInt(KindOf(t)) then IntValueOf(t, v)
    else if t.Ptr? && cur.PtrTo? && IsAnyInt(KindOf(t.elem)) then PtrTo(IntValueOf(t.elem, v))
    else cur
  }

  /** castAndSetInt as intended: a pointer to an integer kind is allocated
      when nil and written through. */
  function IntSet(t: Ty, cur: Value, v: int): Value
  {
    if IsAnyInt(KindOf(t)) then IntValueOf(t, v)
    else if t.Ptr? && IsAnyInt(KindOf(t.elem)) then PtrTo(IntValueOf(t.elem, v))
    else cur
  }

  function UintSetAsWritten(t: Ty, cur: Value, v: nat): Value
  {
    if IsAnyUint(KindOf(t)) then UintVal(v)
    else if t.Ptr? && cur.PtrTo? && IsAnyUint(KindOf(t.elem)) then PtrTo(UintVal(v))
    else cur
  }

  function UintSet(t: Ty, cur: Value, v: nat): Value
  {
    if IsAnyUint(KindOf(t)) then UintVal(v)
    else if t.Ptr? && IsAnyUint(KindOf(t.elem)) then PtrTo(UintVal(v))
    else cur
  }

  /** The cell `field` is written, and no other cell of its storage. */
  twostate predicate OnlyCellWritten(field: Loc)
    requires field.Valid()
    reads field.cells
  {
    forall j :: 0 <= j < field.cells.Length && j != field.index ==>
      field.cells[j] == old(field.cells[j])
  }

  method CastAndSetInt(field: Loc, v: int)
    requires field.Valid()
    modifies field.cells
    ensures field.cells[field.index] == IntSet(field.ty, old(field.cells[field.index]), v)
    ensures IntSettable(field.ty) ==> IntAt(field.ty, field.cells[field.index]) == Some(v)
    ensures OnlyCellWritten(field)
  {
    var k := KindOf(field.ty);
    if IsAnyInt(k) {
      field.cells[field.index] := IntValueOf(field.ty, v);
    } else if k == PointerKind && IsAnyInt(KindOf(field.ty.elem)) {
      field.cells[field.index] := PtrTo(IntValueOf(field.ty.elem, v));
    }
  }

  method CastAndSetUint(field: Loc, v: nat)
    requires field.Valid()
    modifies field.cells
    ensures field.cells[field.index] == UintSet(field.ty, old(field.cells[field.index]), v)
    ensures UintSettable(field.ty) ==> UintAt(field.ty, field.cells[field.index]) == Some(v)
    ensures OnlyCellWritten(field)
  {
    var k := KindOf(field.ty);
    if IsAnyUint(k) {
      field.cells[field.index] := UintVal(v);
    } else if k == PointerKind && IsAnyUint(KindOf(field.ty.elem)) {
      field.cells[field.index] := PtrTo(UintVal(v));
    }
  }

  /** What reflect's Int() reads from a cell of integer kind `t`: a
      time.Duration cell holds a Duration, any other an int. */
  function IntIn(t: Ty, x: Value): Option<int>
  {
    if t == Duration then (if x.DurationVal? then Some(x.d) else None)
    else if x.IntVal? then Some(x.i) else None
  }

  /** The integer a field of type `t` holding `x` makes available to its
      reader: its own value for an integer field, the pointee's for a
      non-nil pointer to one, nothing otherwise. */
  function IntAt(t: Ty, x: Value): Option<int>
  {
    if IsAnyInt(KindOf(t)) then IntIn(t, x)
    else if t.Ptr? && IsAnyInt(KindOf(t.elem)) && x.PtrTo? then IntIn(t.elem, x.target)
    else None
  }

  /** The unsigned analogue: what Uint() reads through at most one pointer. */
  function UintAt(t: Ty, x: Value): Option<nat>
  {
    if IsAnyUint(KindOf(t)) then (if x.UintVal? then Some(x.u) else None)
    else if t.Ptr? && IsAnyUint(KindOf(t.elem)) && x.PtrTo? && x.target.UintVal? then Some(x.target.u)
    else None
  }

  /** Fields the integer setter is for: an integer kind, or a pointer to
      one. */
  predicate IntSettable(t: Ty)
  {
    IsAnyInt(KindOf(t)) || (t.Ptr? && IsAnyInt(KindOf(t.elem)))
  }

  predicate UintSettable(t: Ty)
  {
    IsAnyUint(KindOf(t)) || (t.Ptr? && IsAnyUint(KindOf(t.elem)))
  }

  /** After the intended setter, whatever the field held before (a nil
      pointer included), reading it gives back the value set; a field the
      setter is not for is left alone. */
  lemma IntSetStores(t: Ty, cur: Value, v: int)
    ensures IntSettable(t) ==> IntAt(t, IntSet(t, cur, v)) == Some(v)
    ensures !IntSettable(t) ==> IntSet(t, cur, v) == cur
  {
  }

  lemma UintSetStores(t: Ty, cur: Value, v: nat)
    ensures UintSettable(t) ==> UintAt(t, UintSet(t, cur, v)) == Some(v)
    ensures !UintSettable(t) ==> UintSet(t, cur, v) == cur
  {
  }

  /** The dead branch: the setter as written leaves a nil pointer to an
      integer nil, so reading the field afterwards finds no value. */
  lemma NilIntPointerLeftNil(v: int)
    ensures IntSetAsWritten(Ptr(Int(Plain)), NilPtr, v) == NilPtr
    ensures IntAt(Ptr(Int(Plain)), IntSetAsWritten(Ptr(Int(Plain)), NilPtr, v)) == None
  {
  }

  lemma NilUintPointerLeftNil(v: nat)
    ensures UintSetAsWritten(Ptr(Uint(Plain)), NilPtr, v) == NilPtr
    ensures UintAt(Ptr(Uint(Plain)), UintSetAsWritten(Ptr(Uint(Plain)), NilPtr, v)) == None
  {
  }

  /** The two setters differ only on nil pointers: wherever the as-written
      setter does anything, the intended one does the same. */
  lemma {:induction false} SettersAgreeOffNilPointers(t: Ty, cur: Value, v: int, u: nat)
    requires cur != NilPtr
    ensures IntSetAsWritten(t, cur, v) == IntSet(t, cur, v) || (t.Ptr? && !cur.PtrTo?)
    ensures UintSetAsWritten(t, cur, u) == UintSet(t, cur, u) || (t.Ptr? && !cur.PtrTo?)
  {
  }

  // ---------------------------------------------------------------------
  // splitCSV (utils.go:34-43)

  function TrimEach(ps: seq<string>): (r: seq<string>)
    ensures |r| == |ps|
  {
    seq(|ps|, k requires 0 <= k < |ps| => TrimSpace(ps[k]))
  }

  /** The specification of splitCSV. */
  function CSV(s: string): seq<string>
  {
    if s == "" then [] else TrimEach(Split(s, ','))
  }

  method SplitCSV(s: string) returns (parts: seq<string>)
    ensures parts == CSV(s)
  {
    if s == "" {
      return [];
    }
    parts := Split(s, ',');
    ghost var pieces := parts;
    for i := 0 to |parts|
      invariant |parts| == |pieces|
      invariant forall k :: 0 <= k < i ==> parts[k] == TrimSpace(pieces[k])
      invariant forall k :: i <= k < |parts| ==> parts[k] == pieces[k]
    {
      parts := parts[i := TrimSpace(parts[i])];
    }
  }

  /** A non-empty text splits into one element per comma plus one, each the
      matching piece with surrounding white space trimmed; empty pieces are
      kept. */
  lemma CSVPieces(s: string)
    requires s != ""
    ensures |CSV(s)| == Count(s, ',') + 1
    ensures forall k :: 0 <= k < |CSV(s)| ==> CSV(s)[k] == TrimSpace(Split(s, ',')[k])
  {
    SplitCount(s, ',');
  }

  /** No element of splitCSV has surrounding white space, and none contains
      a comma. */
  lemma CSVElementsTrimmed(s: string)
    ensures forall k :: 0 <= k < |CSV(s)| ==> Trimmed(CSV(s)[k]) && ',' !in CSV(s)[k]
  {
    if s != "" {
      var pieces := Split(s, ',');
      SplitPiecesLackSeparator(s, ',');
      forall k | 0 <= k < |pieces|
        ensures Trimmed(CSV(s)[k]) && ',' !in CSV(s)[k]
      {
        TrimSpaceTrims(pieces[k]);
        var i, j :| 0 <= i <= j <= |pieces[k]| && TrimSpace(pieces[k]) == pieces[k][i..j];
        assert forall c :: c in pieces[k][i..j] ==> c in pieces[k];
      }
    }
  }

  /** When no piece carries surrounding white space, joining splitCSV's
      output with commas gives back the input. */
  lemma CSVJoin(s: string)
    requires forall k :: 0 <= k < |Split(s, ',')| ==> Trimmed(Split(s, ',')[k])
    ensures Join(CSV(s), ',') == s
  {
    if s != "" {
      var pieces := Split(s, ',');
      forall k | 0 <= k < |pieces| ensures CSV(s)[k] == pieces[k] {
        TrimSpaceKeepsTrimmed(pieces[k]);
      }
      assert CSV(s) == pieces;
      JoinSplit(s, ',');
    }
  }

  // ---------------------------------------------------------------------
  // parseNamesWithOptions (utils.go:90-110)

  const OmitEmpty := "omitempty"

  datatype Names = Names(name: string, aliases: seq<string>, omitEmpty: bool)

  const NoNames := Names("", [], false)

  /** `s` with every occurrence of `x` removed, order kept. */
  function Without(s: seq<string>, x: string): seq<string>
  {
    if s == [] then [] else (if s[0] == x then [] else [s[0]]) + Without(s[1..], x)
  }

  lemma {:induction false} WithoutAppend(a: seq<string>, b: seq<string>, x: string)
    ensures Without(a + b, x) == Without(a, x) + Without(b, x)
  {
    if a != [] {
      assert (a + b)[1..] == a[1..] + b;
      WithoutAppend(a[1..], b, x);
    } else {
      assert a + b == b;
    }
  }

  /** Removing `x` keeps every other element and only those. */
  lemma {:induction false} WithoutMembers(s: seq<string>, x: string)
    ensures x !in Without(s, x)
    ensures forall y :: y != x ==> (y in Without(s, x) <==> y in s)
    ensures x !in s ==> Without(s, x) == s
  {
    if s != [] {
      WithoutMembers(s[1..], x);
      assert s == [s[0]] + s[1..];
    }
  }

  /** The specification of parseNamesWithOptions. */
  function ParseNames(tag: string): Names
  {
    var t := TrimSpace(tag);
    if t == "" then NoNames
    else
      var parts := CSV(t);
      if |parts| == 0 || parts[0] == "" then NoNames
      else Names(parts[0], Without(parts[1..], OmitEmpty), OmitEmpty in parts[1..])
  }

  method ParseNamesWithOptions(tag: string) returns (name: string, aliases: seq<string>, omitEmpty: bool)
    ensures Names(name, aliases, omitEmpty) == ParseNames(tag)
  {
    var t := TrimSpace(tag);
    if t == "" {
      return "", [], false;
    }
    var parts := SplitCSV(t);
    if |parts| == 0 || parts[0] == "" {
      return "", [], false;
    }
    CSVElementsTrimmed(t);
    var rest := parts[1..];
    aliases, omitEmpty := [], false;
    for k := 0 to |rest|
      invariant aliases == Without(rest[..k], OmitEmpty)
      invariant omitEmpty == (OmitEmpty in rest[..k])
    {
      var p := TrimSpace(rest[k]);
      TrimSpaceKeepsTrimmed(rest[k]);
      assert rest[..k + 1] == rest[..k] + [p];
      WithoutAppend(rest[..k], [p], OmitEmpty);
      if p == OmitEmpty {
        omitEmpty := true;
      } else {
        aliases := aliases + [p];
      }
    }
    assert rest[..|rest|] == rest;
    name := parts[0];
  }

  /** The tag yields no name exactly when it is blank or its first token is
      empty, and then it yields nothing else either, even if an
      "omitempty" token follows. */
  lemma ParseNamesNoName(tag: string)
    ensures var t := TrimSpace(tag);
      ParseNames(tag).name == "" <==> (t == "" || TrimSpace(Split(t, ',')[0]) == "")
    ensures ParseNames(tag).name == "" ==> ParseNames(tag) == NoNames
  {
  }

  /** Otherwise the name is the trimmed first token, omitEmpty says whether
      some later token is "omitempty", and the aliases are the other later
      tokens in their order, empty ones included. */
  lemma ParseNamesTokens(tag: string)
    requires ParseNames(tag).name != ""
    ensures var pieces := Split(TrimSpace(tag), ',');
      var r := ParseNames(tag);
      && r.name == TrimSpace(pieces[0])
      && (r.omitEmpty <==> exists k :: 1 <= k < |pieces| && TrimSpace(pieces[k]) == OmitEmpty)
      && r.aliases == Without(TrimEach(pieces)[1..], OmitEmpty)
      && OmitEmpty !in r.aliases
      && (forall a :: a != OmitEmpty ==> (a in r.aliases <==> a in TrimEach(pieces)[1..]))
      && (r.omitEmpty || r.aliases == TrimEach(pieces)[1..])
  {
    var t := TrimSpace(tag);
    var pieces := Split(t, ',');
    assert t != "" && CSV(t) == TrimEach(pieces);
    var later := TrimEach(pieces)[1..];
    assert forall k :: 1 <= k < |pieces| ==> later[k - 1] == TrimSpace(pieces[k]);
    WithoutMembers(later, OmitEmpty);
    if OmitEmpty in later {
      var i :| 0 <= i < |later| && later[i] == OmitEmpty;
      assert TrimSpace(pieces[i + 1]) == OmitEmpty;
    }
    if exists k :: 1 <= k < |pieces| && TrimSpace(pieces[k]) == OmitEmpty {
      var k :| 1 <= k < |pieces| && TrimSpace(pieces[k]) == OmitEmpty;
      assert later[k - 1] == OmitEmpty;
    }
  }

  /** The name carries no surrounding white space and no comma. */
  lemma ParseNamesNameShape(tag: string)
    ensures Trimmed(ParseNames(tag).name) && ',' !in ParseNames(tag).name
  {
    CSVElementsTrimmed(TrimSpace(tag));
  }
}
