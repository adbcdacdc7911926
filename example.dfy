/** A configuration struct with two tagged leaves, walked by both
    directions: the flags the generator defines for it, and the struct the
    binder builds once the command line set one of them. */
module EndToEnd {
  import opened Wrappers
  import opened Text
  import opened Foreign
  import opened Reflect
  import opened Utils
  import opened Flags
  import opened Binding

  /** `Name string` tagged `cli:"name,n,A" cliDefault:"guest" cliUsage:"User name"`. */
  const NameField := Field("Name", true, false,
    map[TagCLI := "name,n,A", TagDefault := "guest", TagUsage := "User name"], String)

  /** `Count int` tagged `cli:"count,c" cliDefault:"3" cliUsage:"How many items"`. */
  const CountField := Field("Count", true, false,
    map[TagCLI := "count,c", TagDefault := "3", TagUsage := "How many items"], Int(Plain))

  const Config := Struct([NameField, CountField])

  /** A token with no white space around it and no comma splits to itself. */
  lemma CSVSingle(p: string)
    requires p != "" && Trimmed(p) && ',' !in p
    ensures CSV(p) == [p]
  {
    SplitOfSeparatorFree(p, ',');
    TrimSpaceKeepsTrimmed(p);
  }

  /** Such a token in front of a comma contributes itself. */
  lemma CSVCons(p: string, tail: string)
    requires Trimmed(p) && ',' !in p && tail != ""
    ensures CSV(p + [','] + tail) == [p] + CSV(tail)
  {
    SplitAfterPiece(p, ',', tail);
    TrimSpaceKeepsTrimmed(p);
    var pieces := Split(tail, ',');
    assert TrimEach([p] + pieces) == [p] + TrimEach(pieces);
  }

  /** A tag without surrounding white space whose tokens are a non-empty
      name followed by aliases, none of them "omitempty". */
  lemma TagOfTokens(tag: string, name: string, aliases: seq<string>)
    requires Trimmed(tag) && CSV(tag) == [name] + aliases && name != ""
    requires OmitEmpty !in aliases
    ensures ParseNames(tag) == Names(name, aliases, false)
  {
    TrimSpaceKeepsTrimmed(tag);
    assert CSV(tag)[1..] == aliases;
    WithoutMembers(aliases, OmitEmpty);
  }

  /** Three such tokens joined by commas split back into the tokens. */
  lemma ThreeTokens(tag: string, a: string, b: string, c: string)
    requires tag == a + [','] + b + [','] + c
    requires Trimmed(a) && Trimmed(b) && Trimmed(c) && ',' !in a && ',' !in b && ',' !in c
    requires c != ""
    ensures Trimmed(tag) && CSV(tag) == [a, b, c]
  {
    var tail := b + [','] + c;
    assert tag == a + [','] + tail;
    CSVSingle(c);
    CSVCons(b, c);
    CSVCons(a, tail);
  }

  lemma NameTokens()
    ensures Trimmed("name,n,A") && CSV("name,n,A") == ["name", "n", "A"]
  {
    ThreeTokens("name,n,A", "name", "n", "A");
  }

  lemma NameTag()
    ensures ParseNames(Tag(NameField, TagCLI)) == Names("name", ["n", "A"], false)
  {
    assert Tag(NameField, TagCLI) == "name,n,A";
    NameTokens();
    TagOfTokens("name,n,A", "name", ["n", "A"]);
  }

  lemma CountTokens()
    ensures Trimmed("count,c") && CSV("count,c") == ["count", "c"]
  {
    assert "count,c" == "count" + [','] + "c";
    CSVSingle("c");
    CSVCons("count", "c");
  }

  lemma CountTag()
    ensures ParseNames(Tag(CountField, TagCLI)) == Names("count", ["c"], false)
  {
    assert Tag(CountField, TagCLI) == "count,c";
    CountTokens();
    TagOfTokens("count,c", "count", ["c"]);
  }

  /** What the example relies on about each field: its type, and what its
      tags say once parsed. */
  predicate NameLike(f: Field)
  {
    && f.exported && !f.anonymous && f.ty == String
    && ParseNames(Tag(f, TagCLI)) == Names("name", ["n", "A"], false)
    && Tag(f, TagDefault) == "guest" && Tag(f, TagUsage) == "User name"
  }

  predicate CountLike(f: Field)
  {
    && f.exported && !f.anonymous && f.ty == Int(Plain)
    && ParseNames(Tag(f, TagCLI)) == Names("count", ["c"], false)
    && Tag(f, TagDefault) == "3" && Tag(f, TagUsage) == "How many items"
  }

  lemma FieldsAsDeclared()
    ensures NameLike(NameField) && CountLike(CountField)
  {
    NameTag();
    CountTag();
  }

  lemma NameFlag(ps: Parsers, f: Field, prefix: string)
    requires NameLike(f)
    ensures FieldFlags(ps, f, prefix) == [Flag(prefix + "name", ["n", "A"], "User name", false, StringFlag("guest", "guest"))]
  {
    assert !IsStructLike(f.ty);
    FieldFlagsOfLeaf(ps, f, prefix);
    StringAndSliceDefaults(ps, String, "guest");
    assert PrefixedAliases(["n", "A"], prefix) == ["n", "A"];
  }

  lemma CountFlag(ps: Parsers, f: Field, prefix: string)
    requires CountLike(f)
    ensures FieldFlags(ps, f, prefix) == [Flag(prefix + "count", ["c"], "How many items", false, Int64Flag(ps.parseInt("3").value, "3"))]
  {
    assert !IsStructLike(f.ty);
    FieldFlagsOfLeaf(ps, f, prefix);
    assert KindFor(ps, Int(Plain), "3") == Some(Int64Flag(ps.parseInt("3").value, "3"));
    assert PrefixedAliases(["c"], prefix) == ["c"];
  }

  /** The generator defines `name` (aliases `n` and `A`, string default
      "guest") and `count` (alias `c`, int default parsed from "3"), with
      their usage texts, neither of them required. */
  lemma ConfigFlags(ps: Parsers, fs: seq<Field>)
    requires |fs| == 2 && NameLike(fs[0]) && CountLike(fs[1])
    ensures GenFlags(ps, fs, "") ==
      [Flag("name", ["n", "A"], "User name", false, StringFlag("guest", "guest")),
       Flag("count", ["c"], "How many items", false, Int64Flag(ps.parseInt("3").value, "3"))]
  {
    var name := Flag("name", ["n", "A"], "User name", false, StringFlag("guest", "guest"));
    var count := Flag("count", ["c"], "How many items", false, Int64Flag(ps.parseInt("3").value, "3"));
    calc {
      GenFlags(ps, fs, "");
    == { assert fs[..2] == fs; GenFlagsSnoc(ps, fs, 1, ""); }
      GenFlags(ps, fs[..1], "") + FieldFlags(ps, fs[1], "");
    == { assert fs[..0] == []; GenFlagsSnoc(ps, fs, 0, ""); }
      GenFlags(ps, [], "") + FieldFlags(ps, fs[0], "") + FieldFlags(ps, fs[1], "");
    == { assert GenFlags(ps, [], "") == []; }
      [] + FieldFlags(ps, fs[0], "") + FieldFlags(ps, fs[1], "");
    == { NameFlag(ps, fs[0], ""); assert "" + "name" == "name"; }
      [] + [name] + FieldFlags(ps, fs[1], "");
    == { CountFlag(ps, fs[1], ""); assert "" + "count" == "count"; }
      [] + [name] + [count];
    ==
      [name, count];
    }
  }

  lemma NameBound(src: Source, ps: Parsers, f: Field)
    requires NameLike(f)
    ensures BindField(src, ps, f, "") == Success(Some(StringVal(StringOf(src, "name"))))
  {
    assert FlagName(ps, f, "") == "name";
    ScalarsRead(src, ps, f, "");
  }

  lemma CountBound(src: Source, ps: Parsers, f: Field)
    requires CountLike(f)
    ensures BindField(src, ps, f, "") == Success(Some(IntVal(Int64Of(src, "count"))))
  {
    assert FlagName(ps, f, "") == "count";
    ScalarsRead(src, ps, f, "");
  }

  /** After `--count 7`, the flag library reports `name` holding its
      default and `count` holding 7; binding then yields
      {Name: "guest", Count: 7}. */
  lemma ConfigBound(src: Source, ps: Parsers, fs: seq<Field>)
    requires |fs| == 2 && NameLike(fs[0]) && CountLike(fs[1])
    requires StringOf(src, "name") == "guest" && Int64Of(src, "count") == 7
    ensures BindStructSpec(src, ps, Struct(fs), "") == Success(Some(StructVal([StringVal("guest"), IntVal(7)])))
  {
    NameBound(src, ps, fs[0]);
    CountBound(src, ps, fs[1]);
    BindStructAllAssigned(src, ps, Struct(fs), "", [StringVal("guest"), IntVal(7)]);
  }

  /** The source the flag library builds for `--count 7`. */
  lemma CountSeven()
    ensures var src := Source(map["name" := StringValue("guest"), "count" := Int64Value(7)], {"count"});
      StringOf(src, "name") == "guest" && Int64Of(src, "count") == 7 && !IsSet(src, "name") && IsSet(src, "count")
  {
  }
}
