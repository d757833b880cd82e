/** Concrete documents and patches: the examples of Appendix A of RFC 6902
    that main_test.go exercises, the patcher cases of patcher_test.go, and
    the nested-array add that patcher_test.go leaves commented out. */
module Scenarios {
  import opened Values
  import opened Strconv
  import opened Pointer
  import opened Edits
  import opened Rfc6902

  function S(s: string): Json {
    JStr(s)
  }

  /** The tokens of a one-segment path. */
  lemma OneToken(a: string)
    requires '/' !in a
    ensures SplitPath("/" + a) == Ok([a])
  {
    assert SlashFree([a]) by { assert [a][0] == a; }
    assert Join([a]) == "/" + a by { assert [a][1..] == []; }
    JoinExample([a], "/" + a);
  }

  /** The tokens of a one- or two-segment path without escapes. */
  lemma Path1(a: string)
    requires '/' !in a && '~' !in a
    ensures SplitPath("/" + a) == Ok([a])
    ensures Decode(a) == a
  {
    OneToken(a);
    DecodeNoTilde(a);
  }

  lemma Path2(a: string, b: string)
    requires '/' !in a && '~' !in a && '/' !in b && '~' !in b
    ensures SplitPath("/" + a + "/" + b) == Ok([a, b])
    ensures Decode(a) == a && Decode(b) == b
  {
    var ts := [a, b];
    assert SlashFree(ts) by { assert ts[0] == a && ts[1] == b; }
    assert Join(ts) == "/" + a + "/" + b by {
      assert ts[1..] == [b] && ts[1..][1..] == [];
      assert Join([b]) == "/" + b;
      assert "/" + a + ("/" + b) == "/" + a + "/" + b;
    }
    JoinExample(ts, "/" + a + "/" + b);
    DecodeNoTilde(a);
    DecodeNoTilde(b);
  }

  // ---------------------------------------------------------------------
  // Resolution examples of section 5 of RFC 6901 (jsonpointer_test.go)
  // ---------------------------------------------------------------------

  /** The example document of section 5 of RFC 6901. */
  function Target(): Json {
    JObj(map["foo" := JArr([S("bar"), S("baz")]), "" := JNum(0), "a/b" := JNum(1),
             "c%d" := JNum(2), "e^f" := JNum(3), "g|h" := JNum(4), "i\\j" := JNum(5),
             "k\"l" := JNum(6), " " := JNum(7), "m~n" := JNum(8)])
  }

  /** What the example test reads for a path: the value of the handle
      `jsonPointer` returns for the path's tokens. */
  function Resolved(doc: Json, path: string): Result<Json>
    requires SplitPath(path).Ok?
  {
    Walk(doc, RefPointer(doc), None, SplitPath(path).value).handle.Get()
  }

  /** The error `jsonPointer` returns for the path's tokens. */
  function WalkError(doc: Json, path: string): Option<Error>
    requires SplitPath(path).Ok?
  {
    Walk(doc, RefPointer(doc), None, SplitPath(path).value).err
  }

  /** A one-token pointer whose key is in the document resolves to that
      member, without error. */
  lemma WalkOneKey(doc: Json, tok: string)
    requires doc.JObj? && Decode(tok) in doc.members
    ensures Walk(doc, RefPointer(doc), None, [tok]).err.None?
    ensures Walk(doc, RefPointer(doc), None, [tok]).handle.Get() == Ok(doc.members[Decode(tok)])
  {
    assert [tok][1..] == [];
  }

  /** A one-token path to a key of the example document. */
  lemma TargetKey(key: string, n: int)
    requires '/' !in key && '~' !in key
    requires key in Target().members && Target().members[key] == JNum(n)
    ensures SplitPath("/" + key).Ok? && Resolved(Target(), "/" + key) == Ok(JNum(n))
  {
    Path1(key);
    WalkOneKey(Target(), key);
  }

  /** The empty pointer resolves to the whole document. */
  lemma ResolveRoot()
    ensures SplitPath("") == Ok([]) && Resolved(Target(), "") == Ok(Target())
  {
  }

  /** "/foo" reaches the array, and "/foo/0" its first element. */
  lemma ResolveArray()
    ensures SplitPath("/foo").Ok? && Resolved(Target(), "/foo") == Ok(JArr([S("bar"), S("baz")]))
  {
    assert "/foo" == "/" + "foo";
    assert "foo" in Target().members && Target().members["foo"] == JArr([S("bar"), S("baz")]);
    Path1("foo");
    WalkOneKey(Target(), "foo");
  }

  lemma ResolveArrayElement()
    ensures SplitPath("/foo/0").Ok? && Resolved(Target(), "/foo/0") == Ok(S("bar"))
  {
    assert "/foo/0" == "/" + "foo" + "/" + "0";
    Path2("foo", "0");
    assert "foo" in Target().members && Target().members["foo"] == JArr([S("bar"), S("baz")]);
    assert Atoi("0") == Some(0);
    WalkKeyThenIndex(Target(), "foo", "0");
  }

  /** A key of the root map, then an index of the array held there. */
  lemma WalkKeyThenIndex(doc: Json, key: string, index: string)
    requires doc.JObj? && Decode(key) in doc.members && doc.members[Decode(key)].JArr?
    requires var a := doc.members[Decode(key)].elems;
      Atoi(Decode(index)).Some? && 0 <= Atoi(Decode(index)).value < |a|
    ensures var a := doc.members[Decode(key)].elems;
      Walk(doc, RefPointer(doc), None, [key, index]).handle.Get() == Ok(a[Atoi(Decode(index)).value])
  {
    var a := doc.members[Decode(key)].elems;
    var i := Atoi(Decode(index)).value;
    var slot := MapPointer(doc.members, Decode(key));
    assert [key, index][1..] == [index] && [index][1..] == [];
    assert Walk(doc, RefPointer(doc), None, [key, index]) == Walk(JArr(a), slot, Some(slot), [index]);
    assert Walk(JArr(a), slot, Some(slot), [index]) == Walk(a[i], ArrayPointer(a, i, Some(slot)), Some(slot), []);
  }

  /** Keys that need no escaping, including the empty key and " ". */
  lemma ResolveEmptyKey()
    ensures SplitPath("/").Ok? && Resolved(Target(), "/") == Ok(JNum(0))
  {
    assert "" in Target().members && Target().members[""] == JNum(0);
    TargetKey("", 0);
  }

  lemma ResolvePercentKey()
    ensures SplitPath("/c%d").Ok? && Resolved(Target(), "/c%d") == Ok(JNum(2))
  {
    assert "c%d" in Target().members && Target().members["c%d"] == JNum(2);
    TargetKey("c%d", 2);
  }

  lemma ResolveCaretKey()
    ensures SplitPath("/e^f").Ok? && Resolved(Target(), "/e^f") == Ok(JNum(3))
  {
    assert "e^f" in Target().members && Target().members["e^f"] == JNum(3);
    TargetKey("e^f", 3);
  }

  lemma ResolveBarKey()
    ensures SplitPath("/g|h").Ok? && Resolved(Target(), "/g|h") == Ok(JNum(4))
  {
    assert "g|h" in Target().members && Target().members["g|h"] == JNum(4);
    TargetKey("g|h", 4);
  }

  lemma ResolveBackslashKey()
    ensures SplitPath("/i\\j").Ok? && Resolved(Target(), "/i\\j") == Ok(JNum(5))
  {
    assert "i\\j" in Target().members && Target().members["i\\j"] == JNum(5);
    TargetKey("i\\j", 5);
  }

  lemma ResolveQuoteKey()
    ensures SplitPath("/k\"l").Ok? && Resolved(Target(), "/k\"l") == Ok(JNum(6))
  {
    assert "k\"l" in Target().members && Target().members["k\"l"] == JNum(6);
    TargetKey("k\"l", 6);
  }

  lemma ResolveSpaceKey()
    ensures SplitPath("/ ").Ok? && Resolved(Target(), "/ ") == Ok(JNum(7))
  {
    assert " " in Target().members && Target().members[" "] == JNum(7);
    TargetKey(" ", 7);
  }

  /** The two escaped keys: "~1" stands for '/' and "~0" for '~'. */
  lemma ResolveSlashKey()
    ensures SplitPath("/a~1b").Ok? && Resolved(Target(), "/a~1b") == Ok(JNum(1))
  {
    DecodeSlashKeys();
    assert "/a~1b" == "/" + "a~1b";
    OneToken("a~1b");
    assert "a/b" in Target().members && Target().members["a/b"] == JNum(1);
    WalkOneKey(Target(), "a~1b");
  }

  lemma ResolveTildeKey()
    ensures SplitPath("/m~0n").Ok? && Resolved(Target(), "/m~0n") == Ok(JNum(8))
  {
    DecodeTildeKey();
    assert "/m~0n" == "/" + "m~0n";
    OneToken("m~0n");
    assert "m~n" in Target().members && Target().members["m~n"] == JNum(8);
    WalkOneKey(Target(), "m~0n");
  }

  /** The escaped keys of the examples, decoded. */
  lemma DecodeSlashKeys()
    ensures Decode("a~1b") == "a/b" && Decode("x~1y") == "x/y"
  {
    assert ReplaceEscape("a~1b", '1', '/') == "a/b" by {
      assert ReplaceEscape("b", '1', '/') == "b";
      assert ("~1b")[2..] == "b";
      assert ReplaceEscape("~1b", '1', '/') == "/b";
    }
    ReplaceEscapeNoTilde("a/b", '0', '~');
    assert ReplaceEscape("x~1y", '1', '/') == "x/y" by {
      assert ReplaceEscape("y", '1', '/') == "y";
      assert ("~1y")[2..] == "y";
      assert ReplaceEscape("~1y", '1', '/') == "/y";
    }
    ReplaceEscapeNoTilde("x/y", '0', '~');
  }

  lemma DecodeTildeKey()
    ensures Decode("m~0n") == "m~n"
  {
    assert ReplaceEscape("m~0n", '1', '/') == "m~0n" by {
      assert ReplaceEscape("n", '1', '/') == "n";
      assert ReplaceEscape("0n", '1', '/') == "0n";
      assert ReplaceEscape("~0n", '1', '/') == "~0n";
    }
    assert ReplaceEscape("m~0n", '0', '~') == "m~n" by {
      assert ("~0n")[2..] == "n";
      ReplaceEscapeNoTilde("n", '0', '~');
      assert ReplaceEscape("~0n", '0', '~') == "~n";
    }
  }

  /** The document of the error-handling test. */
  function ErrorTarget(): Json {
    JObj(map["a" := S("b"), "d" := JObj(map["e" := S("f")])])
  }

  /** A key missing from the map reached stops the walk with an invalid
      path. */
  lemma WalkMissingKey(ref: Json, h: Handle, last: Option<Handle>, fields: seq<string>)
    requires fields != [] && ref.JObj? && Decode(fields[0]) !in ref.members
    ensures Walk(ref, h, last, fields).err == Some(InvalidJsonPath)
  {
  }

  /** A one-token path whose key is not a member of ErrorTarget. */
  lemma WalkMissingTop(a: string)
    requires '/' !in a && Decode(a) !in ErrorTarget().members
    ensures SplitPath("/" + a).Ok? && WalkError(ErrorTarget(), "/" + a) == Some(InvalidJsonPath)
  {
    OneToken(a);
    WalkMissingKey(ErrorTarget(), RefPointer(ErrorTarget()), None, [a]);
  }

  lemma MissingKeyC()
    ensures SplitPath("/c").Ok? && WalkError(ErrorTarget(), "/c") == Some(InvalidJsonPath)
  {
    assert "/c" == "/" + "c";
    DecodeNoTilde("c");
    WalkMissingTop("c");
  }

  lemma MissingKeyCcc()
    ensures SplitPath("/ccc").Ok? && WalkError(ErrorTarget(), "/ccc") == Some(InvalidJsonPath)
  {
    assert "/ccc" == "/" + "ccc";
    DecodeNoTilde("ccc");
    WalkMissingTop("ccc");
  }

  lemma MissingKeyXy()
    ensures SplitPath("/x~1y").Ok? && WalkError(ErrorTarget(), "/x~1y") == Some(InvalidJsonPath)
  {
    assert "/x~1y" == "/" + "x~1y";
    DecodeSlashKeys();
    WalkMissingTop("x~1y");
  }

  /** A missing key, and a key that exists only unescaped, are reported as
      an invalid path. */
  lemma MissingTopLevelKeys()
    ensures SplitPath("/c").Ok? && WalkError(ErrorTarget(), "/c") == Some(InvalidJsonPath)
    ensures SplitPath("/ccc").Ok? && WalkError(ErrorTarget(), "/ccc") == Some(InvalidJsonPath)
    ensures SplitPath("/x~1y").Ok? && WalkError(ErrorTarget(), "/x~1y") == Some(InvalidJsonPath)
  {
    MissingKeyC();
    MissingKeyCcc();
    MissingKeyXy();
  }

  /** A key missing below an existing member is reported the same way. */
  lemma MissingNestedKeys()
    ensures SplitPath("/d/g").Ok? && WalkError(ErrorTarget(), "/d/g") == Some(InvalidJsonPath)
    ensures SplitPath("/d/h/j").Ok? && WalkError(ErrorTarget(), "/d/h/j") == Some(InvalidJsonPath)
  {
    var doc := ErrorTarget();
    var inner := JObj(map["e" := S("f")]);
    var slot := MapPointer(doc.members, "d");
    assert "d" in doc.members && doc.members["d"] == inner;
    assert "/d/g" == "/" + "d" + "/" + "g" && "/d/h/j" == "/" + "d" + "/" + "h" + "/" + "j";
    Path2("d", "g");
    assert Walk(doc, RefPointer(doc), None, ["d", "g"]) == Walk(inner, slot, Some(slot), ["g"]) by {
      assert ["d", "g"][1..] == ["g"];
    }
    WalkMissingKey(inner, slot, Some(slot), ["g"]);
    ThreeTokens("d", "h", "j");
    assert Walk(doc, RefPointer(doc), None, ["d", "h", "j"]) == Walk(inner, slot, Some(slot), ["h", "j"]) by {
      assert ["d", "h", "j"][1..] == ["h", "j"];
    }
    DecodeNoTilde("h");
    WalkMissingKey(inner, slot, Some(slot), ["h", "j"]);
  }

  lemma ThreeTokens(a: string, b: string, c: string)
    requires '/' !in a && '~' !in a && '/' !in b && '/' !in c
    ensures SplitPath("/" + a + "/" + b + "/" + c) == Ok([a, b, c])
    ensures Decode(a) == a
  {
    var ts := [a, b, c];
    assert SlashFree(ts) by { assert ts[0] == a && ts[1] == b && ts[2] == c; }
    assert Join(ts) == "/" + a + "/" + b + "/" + c by {
      assert ts[1..] == [b, c] && ts[1..][1..] == [c] && ts[1..][1..][1..] == [];
      assert Join([c]) == "/" + c;
      assert Join([b, c]) == "/" + b + "/" + c;
      assert "/" + a + ("/" + b + "/" + c) == "/" + a + "/" + b + "/" + c;
    }
    JoinExample(ts, "/" + a + "/" + b + "/" + c);
    DecodeNoTilde(a);
  }

  /** A.1: adding an object member. */
  lemma AddObjectMember()
    ensures Fold([Op("add", "/baz", "", S("qux"))], JObj(map["foo" := S("bar")]))
         == Ok(JObj(map["baz" := S("qux"), "foo" := S("bar")]))
  {
    var doc := JObj(map["foo" := S("bar")]);
    var o := Op("add", "/baz", "", S("qux"));
    Path1("baz");
    assert "/baz" == "/" + "baz";
    assert ["baz"][..0] == [];
    assert SetExisting(doc, ["baz"], S("qux"), true) == Ok(JObj(map["foo" := S("bar")]["baz" := S("qux")]));
    assert map["foo" := S("bar")]["baz" := S("qux")] == map["baz" := S("qux"), "foo" := S("bar")];
    assert ApplyOp(o, doc) == SetExisting(doc, ["baz"], S("qux"), true);
    FoldSingle(o, doc);
  }

  /** A.2: adding an array element. */
  lemma AddArrayElement()
    ensures Fold([Op("add", "/foo/1", "", S("qux"))], JObj(map["foo" := JArr([S("bar"), S("baz")])]))
         == Ok(JObj(map["foo" := JArr([S("bar"), S("qux"), S("baz")])]))
  {
    var doc := JObj(map["foo" := JArr([S("bar"), S("baz")])]);
    var o := Op("add", "/foo/1", "", S("qux"));
    Path2("foo", "1");
    assert "/foo/1" == "/" + "foo" + "/" + "1";
    InsertIntoFoo();
    assert ApplyOp(o, doc) == SetExisting(doc, ["foo", "1"], S("qux"), true);
    FoldSingle(o, doc);
  }

  lemma InsertIntoFoo()
    ensures SetExisting(JObj(map["foo" := JArr([S("bar"), S("baz")])]), ["foo", "1"], S("qux"), true)
         == Ok(JObj(map["foo" := JArr([S("bar"), S("qux"), S("baz")])]))
  {
    var a := [S("bar"), S("baz")];
    var na := [S("bar"), S("qux"), S("baz")];
    var doc := JObj(map["foo" := JArr(a)]);
    FooHoldsArray(a);
    assert InsertAt(a, "1", S("qux")) == Ok(na) by {
      assert a[..1] + [S("qux")] + a[1..] == na;
    }
    assert SetAt(doc, ["foo"], JArr(na)) == JObj(map["foo" := JArr(na)]) by {
      assert map["foo" := JArr(a)]["foo" := JArr(na)] == map["foo" := JArr(na)];
    }
    AddWritesBack(doc, ["foo", "1"], S("qux"));
  }

  /** The document {"foo": a}: "foo" resolves to the array a, which sits
      under a map. */
  lemma FooHoldsArray(a: seq<Json>)
    ensures Decode("foo") == "foo" && Decode("1") == "1" && Decode("0") == "0"
    ensures ["foo", "1"][..1] == ["foo"] && ["foo", "0"][..1] == ["foo"] && ["foo"][..0] == []
    ensures Lookup(JObj(map["foo" := JArr(a)]), ["foo"]) == Ok(JArr(a))
    ensures InMap(JObj(map["foo" := JArr(a)]), ["foo"])
    ensures Atoi("1") == Some(1) && Atoi("0") == Some(0)
  {
    DecodeNoTilde("foo");
    DecodeNoTilde("1");
    DecodeNoTilde("0");
    assert ["foo"][1..] == [];
  }

  /** Adding to an array that is the whole document. */
  lemma AddToArrayDocument()
    ensures Fold([Op("add", "/1", "", S("qux"))], JArr([S("bar"), S("baz")]))
         == Ok(JArr([S("bar"), S("qux"), S("baz")]))
  {
    var a := [S("bar"), S("baz")];
    var na := [S("bar"), S("qux"), S("baz")];
    var o := Op("add", "/1", "", S("qux"));
    Path1("1");
    assert "/1" == "/" + "1";
    assert ["1"][..0] == [];
    assert Atoi("1") == Some(1);
    assert InsertAt(a, "1", S("qux")) == Ok(na) by {
      assert a[..1] + [S("qux")] + a[1..] == na;
    }
    assert SetExisting(JArr(a), ["1"], S("qux"), true) == Ok(JArr(na));
    assert ApplyOp(o, JArr(a)) == SetExisting(JArr(a), ["1"], S("qux"), true);
    FoldSingle(o, JArr(a));
  }

  /** A.3: removing an object member. */
  lemma RemoveObjectMember()
    ensures Fold([Op("remove", "/baz", "", JNull)], JObj(map["baz" := S("qux"), "foo" := S("bar")]))
         == Ok(JObj(map["foo" := S("bar")]))
  {
    var m := map["baz" := S("qux"), "foo" := S("bar")];
    var o := Op("remove", "/baz", "", JNull);
    Path1("baz");
    assert "/baz" == "/" + "baz";
    assert ["baz"][..0] == [];
    assert m - {"baz"} == map["foo" := S("bar")];
    assert RemoveAt(JObj(m), ["baz"]) == Ok(JObj(map["foo" := S("bar")]));
    assert ApplyOp(o, JObj(m)) == Ok(JObj(map["foo" := S("bar")]));
    FoldSingle(o, JObj(m));
  }

  /** A.4: removing an array element. */
  lemma RemoveArrayElement()
    ensures Fold([Op("remove", "/foo/1", "", JNull)], JObj(map["foo" := JArr([S("bar"), S("qux"), S("baz")])]))
         == Ok(JObj(map["foo" := JArr([S("bar"), S("baz")])]))
  {
    var doc := JObj(map["foo" := JArr([S("bar"), S("qux"), S("baz")])]);
    var o := Op("remove", "/foo/1", "", JNull);
    Path2("foo", "1");
    assert "/foo/1" == "/" + "foo" + "/" + "1";
    RemoveFromFoo();
    assert ApplyOp(o, doc) == RemoveAt(doc, ["foo", "1"]);
    FoldSingle(o, doc);
  }

  lemma RemoveFromFoo()
    ensures RemoveAt(JObj(map["foo" := JArr([S("bar"), S("qux"), S("baz")])]), ["foo", "1"])
         == Ok(JObj(map["foo" := JArr([S("bar"), S("baz")])]))
  {
    var a := [S("bar"), S("qux"), S("baz")];
    var na := [S("bar"), S("baz")];
    var doc := JObj(map["foo" := JArr(a)]);
    FooHoldsArray(a);
    assert Removed(JArr(a), "1") == Ok(JArr(na)) by {
      assert a[..1] + a[2..] == na;
    }
    assert SetAt(doc, ["foo"], JArr(na)) == JObj(map["foo" := JArr(na)]) by {
      assert map["foo" := JArr(a)]["foo" := JArr(na)] == map["foo" := JArr(na)];
    }
    RemoveWritesBack(doc, ["foo", "1"]);
  }

  /** A.5: replacing a value. */
  lemma ReplaceValue()
    ensures Fold([Op("replace", "/baz", "", S("boo"))], JObj(map["baz" := S("qux"), "foo" := S("bar")]))
         == Ok(JObj(map["baz" := S("boo"), "foo" := S("bar")]))
  {
    var m := map["baz" := S("qux"), "foo" := S("bar")];
    var o := Op("replace", "/baz", "", S("boo"));
    Path1("baz");
    assert "/baz" == "/" + "baz";
    assert ["baz"][..0] == [];
    assert m["baz" := S("boo")] == map["baz" := S("boo"), "foo" := S("bar")];
    assert SetExisting(JObj(m), ["baz"], S("boo"), true) == Ok(JObj(m["baz" := S("boo")]));
    assert ReplaceAt(JObj(m), ["baz"], S("boo")) == Ok(JObj(m["baz" := S("boo")]));
    assert ApplyOp(o, JObj(m)) == Ok(JObj(m["baz" := S("boo")]));
    FoldSingle(o, JObj(m));
  }

  /** Replacing an element of an array held by a map. */
  lemma ReplaceArrayElement()
    ensures Fold([Op("replace", "/foo/0", "", S("baz"))], JObj(map["foo" := JArr([S("qux"), S("bar")])]))
         == Ok(JObj(map["foo" := JArr([S("baz"), S("bar")])]))
  {
    var doc := JObj(map["foo" := JArr([S("qux"), S("bar")])]);
    var o := Op("replace", "/foo/0", "", S("baz"));
    Path2("foo", "0");
    assert "/foo/0" == "/" + "foo" + "/" + "0";
    ReplaceInFoo();
    assert ApplyOp(o, doc) == ReplaceAt(doc, ["foo", "0"], S("baz"));
    FoldSingle(o, doc);
  }

  lemma ReplaceInFoo()
    ensures ReplaceAt(JObj(map["foo" := JArr([S("qux"), S("bar")])]), ["foo", "0"], S("baz"))
         == Ok(JObj(map["foo" := JArr([S("baz"), S("bar")])]))
  {
    var a := [S("qux"), S("bar")];
    var na := [S("baz"), S("bar")];
    var doc := JObj(map["foo" := JArr(a)]);
    FooHoldsArray(a);
    assert Replaced(JArr(a), "0", S("baz")) == Ok(JArr(na)) by {
      assert a[0 := S("baz")] == na;
    }
    assert SetAt(doc, ["foo"], JArr(na)) == JObj(map["foo" := JArr(na)]) by {
      assert map["foo" := JArr(a)]["foo" := JArr(na)] == map["foo" := JArr(na)];
    }
    ReplaceWritesBack(doc, ["foo", "0"], S("baz"));
  }

  /** A.9 in spirit: a failing test stops the patch, so the add before it
      is not returned either. */
  lemma FailedTestDiscardsPatch()
    ensures Fold([Op("add", "/baz", "", S("qux")), Op("test", "/baz", "", S("other"))],
                 JObj(map["foo" := S("bar")]))
         == Err(TestFailed)
  {
    var ad := Op("add", "/baz", "", S("qux"));
    var ts := Op("test", "/baz", "", S("other"));
    var d := JObj(map["baz" := S("qux"), "foo" := S("bar")]);
    AddObjectMember();
    assert [ad, ts][..1] == [ad];
    TestOfQuxFails();
    PatchHaltsAtFailure([ad, ts], 1, JObj(map["foo" := S("bar")]), d);
  }

  lemma TestOfQuxFails()
    ensures ApplyOp(Op("test", "/baz", "", S("other")), JObj(map["baz" := S("qux"), "foo" := S("bar")]))
         == Err(TestFailed)
  {
    var d := JObj(map["baz" := S("qux"), "foo" := S("bar")]);
    var o := Op("test", "/baz", "", S("other"));
    Path1("baz");
    assert "/baz" == "/" + "baz";
    TestOfQuxAt();
    assert ApplyOp(o, d) == Test(o, ["baz"], d);
  }

  lemma TestOfQuxAt()
    ensures Test(Op("test", "/baz", "", S("other")), ["baz"], JObj(map["baz" := S("qux"), "foo" := S("bar")]))
         == Err(TestFailed)
  {
    var d := JObj(map["baz" := S("qux"), "foo" := S("bar")]);
    DecodeNoTilde("baz");
    assert Lookup(d, ["baz"]) == Ok(S("qux")) by {
      assert ["baz"][1..] == [];
    }
    assert Equal(S("other"), S("qux")) == Ok(false);
  }

  /** A test against an array value panics even when the arrays are equal. */
  lemma TestOfArrayPanics()
    ensures ApplyOp(Op("test", "/foo", "", JArr([S("a")])), JObj(map["foo" := JArr([S("a")])]))
         == Err(Panic(Uncomparable))
  {
    Path1("foo");
    assert "/foo" == "/" + "foo";
  }

  /** The commented-out case of patcher_test.go: adding into an array that
      is itself an element of an array. The rebuilt inner array is inserted
      into the outer one (patcher.go:78) instead of overwriting the old
      inner array, so the old one stays behind it. */
  lemma NestedArrayAddAsWritten()
    ensures SetExisting(JObj(map["foo" := JArr([S("a"), JArr([S("a"), S("c")])])]), ["foo", "1", "1"], S("b"), true)
         == Ok(JObj(map["foo" := JArr([S("a"), JArr([S("a"), S("b"), S("c")]), JArr([S("a"), S("c")])])]))
  {
    var inner := [S("a"), S("c")];
    var doc := JObj(map["foo" := JArr([S("a"), JArr(inner)])]);
    var na := [S("a"), S("b"), S("c")];
    FooHoldsArray([S("a"), JArr(inner)]);
    assert ["foo", "1", "1"][..2] == ["foo", "1"];
    assert Lookup(doc, ["foo", "1"]) == Ok(JArr(inner)) by {
      LookupLast(doc, ["foo"], "1");
    }
    assert InsertAt(inner, "1", S("b")) == Ok(na) by {
      assert inner[..1] + [S("b")] + inner[1..] == na;
    }
    NestedInsertOuter();
    assert SetExisting(doc, ["foo", "1", "1"], S("b"), true)
        == IgnoreError(SetExisting(doc, ["foo", "1"], JArr(na), false), doc);
  }

  /** The nested call of the case above: the rebuilt inner array is added
      to the outer array at index 1, and that array is stored under "foo". */
  lemma NestedInsertOuter()
    ensures SetExisting(JObj(map["foo" := JArr([S("a"), JArr([S("a"), S("c")])])]), ["foo", "1"],
                        JArr([S("a"), S("b"), S("c")]), false)
         == Ok(JObj(map["foo" := JArr([S("a"), JArr([S("a"), S("b"), S("c")]), JArr([S("a"), S("c")])])]))
  {
    var outer := [S("a"), JArr([S("a"), S("c")])];
    var doc := JObj(map["foo" := JArr(outer)]);
    var x := JArr([S("a"), S("b"), S("c")]);
    var outer2 := [S("a"), x, JArr([S("a"), S("c")])];
    FooHoldsArray(outer);
    assert InsertAt(outer, "1", x) == Ok(outer2) by {
      assert outer[..1] + [x] + outer[1..] == outer2;
    }
    assert SetAt(doc, ["foo"], JArr(outer2)) == JObj(map["foo" := JArr(outer2)]) by {
      assert map["foo" := JArr(outer)]["foo" := JArr(outer2)] == map["foo" := JArr(outer2)];
    }
    NestedWriteBack(doc, ["foo"], outer2);
  }

  /** The first two add cases of patcher_test.go: "b" added to an empty
      object, and into a top-level array; each then resolves. */
  lemma PatcherAddToObject()
    ensures SetExisting(JObj(map[]), ["a"], S("b"), true) == Ok(JObj(map["a" := S("b")]))
    ensures Lookup(JObj(map["a" := S("b")]), ["a"]) == Ok(S("b"))
  {
    DecodeNoTilde("a");
    assert ["a"][..0] == [];
    assert map[]["a" := S("b")] == map["a" := S("b")];
  }

  lemma PatcherAddToArray()
    ensures SetExisting(JArr([S("a"), S("c")]), ["1"], S("b"), true) == Ok(JArr([S("a"), S("b"), S("c")]))
    ensures Lookup(JArr([S("a"), S("b"), S("c")]), ["1"]) == Ok(S("b"))
  {
    DecodeNoTilde("1");
    var a := [S("a"), S("c")];
    assert a[..1] + [S("b")] + a[1..] == [S("a"), S("b"), S("c")];
    assert ["1"][..0] == [];
    assert Atoi("1") == Some(1);
  }

  /** The third add case of patcher_test.go: into an array held by a map. */
  lemma PatcherAddUnderMap()
    ensures SetExisting(JObj(map["foo" := JArr([S("a"), S("c")])]), ["foo", "1"], S("b"), true)
         == Ok(JObj(map["foo" := JArr([S("a"), S("b"), S("c")])]))
    ensures Lookup(JObj(map["foo" := JArr([S("a"), S("b"), S("c")])]), ["foo", "1"]) == Ok(S("b"))
  {
    var a := [S("a"), S("c")];
    var na := [S("a"), S("b"), S("c")];
    var doc := JObj(map["foo" := JArr(a)]);
    FooHoldsArray(a);
    FooHoldsArray(na);
    assert InsertAt(a, "1", S("b")) == Ok(na) by {
      assert a[..1] + [S("b")] + a[1..] == na;
    }
    assert SetAt(doc, ["foo"], JArr(na)) == JObj(map["foo" := JArr(na)]) by {
      assert map["foo" := JArr(a)]["foo" := JArr(na)] == map["foo" := JArr(na)];
    }
    AddWritesBack(doc, ["foo", "1"], S("b"));
    LookupLast(JObj(map["foo" := JArr(na)]), ["foo"], "1");
    assert ["foo"] + ["1"] == ["foo", "1"];
  }

  /** Test_Patcher_ExistingValue: pointers that resolve. */
  lemma PatcherValueOfObject()
    ensures Lookup(JObj(map[]), []) == Ok(JObj(map[]))
    ensures Lookup(JObj(map["" := S("whiteshadow")]), [""]) == Ok(S("whiteshadow"))
  {
    DecodeNoTilde("");
    assert [""][1..] == [];
  }

  lemma PatcherValueOfArray()
    ensures Lookup(JArr([S("a"), S("b")]), ["1"]) == Ok(S("b"))
    ensures Lookup(JArr([S("c"), S("d")]), ["0"]) == Ok(S("c"))
  {
    DecodeNoTilde("0");
    DecodeNoTilde("1");
    assert Atoi("0") == Some(0) && Atoi("1") == Some(1);
  }

  /** Test_Patcher_NotExistingValue: pointers that do not resolve. */
  lemma PatcherNoValue()
    ensures Lookup(JObj(map[]), ["a"]) == Err(InvalidJsonPath)
    ensures Lookup(JObj(map["a" := S("whiteshadow")]), [""]) == Err(InvalidJsonPath)
    ensures Lookup(JArr([S("c"), S("d")]), ["2"]) == Err(InvalidJsonPath)
  {
    DecodeNoTilde("");
    DecodeNoTilde("a");
    DecodeNoTilde("2");
    assert Atoi("2") == Some(2);
  }

  /** Test_Patcher_NotExistingValue, the other two rows. */
  lemma PatcherNoValueFurther()
    ensures Lookup(JObj(map["a" := S("b")]), ["c"]) == Err(InvalidJsonPath)
    ensures Lookup(JObj(map["z" := JArr([S("a"), S("b")])]), [""]) == Err(InvalidJsonPath)
  {
    DecodeNoTilde("");
    DecodeNoTilde("c");
  }

  /** Test_Patcher_NotExistingValue: each pointer has one token, so the
      parent value (the lookup of the pointer without its last token) is the
      whole target, whether or not the token resolves. */
  lemma PatcherNoValueParents()
    ensures Lookup(JObj(map[]), ["a"][..0]) == Ok(JObj(map[]))
    ensures Lookup(JObj(map["a" := S("whiteshadow")]), [""][..0]) == Ok(JObj(map["a" := S("whiteshadow")]))
    ensures Lookup(JObj(map["a" := S("b")]), ["c"][..0]) == Ok(JObj(map["a" := S("b")]))
    ensures Lookup(JObj(map["z" := JArr([S("a"), S("b")])]), [""][..0])
         == Ok(JObj(map["z" := JArr([S("a"), S("b")])]))
    ensures Lookup(JArr([S("c"), S("d")]), ["2"][..0]) == Ok(JArr([S("c"), S("d")]))
  {
    assert ["a"][..0] == [] && [""][..0] == [] && ["c"][..0] == [] && ["2"][..0] == [];
  }

  /** Test_ParsePatch_MissingRequiredElements. */
  lemma ParseProblems()
    ensures Problem(Op("", "/a/b/c/", "", JNull), 0) == Some(MissingOp(0))
    ensures Problem(Op("add", "", "", JNull), 0) == Some(MissingPath(0))
    ensures Problem(Op("add", "/a/b/c", "", JNull), 0) == Some(MissingAddValue)
    ensures Problem(Op("add", "/baz", "", S("qux")), 0) == None
  {
  }

  /** Two different tokens can name the same element: writing at "00"
      changes what "0" resolves to, so the two paths are not apart. */
  lemma IndexTokensAlias()
    ensures Lookup(SetAt(JArr([JNull]), ["00"], S("x")), ["0"]) == Ok(S("x"))
    ensures !Apart(JArr([JNull]), ["0"], ["00"])
  {
    assert Decode("00") == "00" && Decode("0") == "0" by {
      DecodeNoTilde("00");
      DecodeNoTilde("0");
    }
    assert Atoi("00") == Some(0) && Atoi("0") == Some(0) by {
      AtoiReads("00");
      AtoiReads("0");
      assert DecimalValue("00") == 10 * DecimalValue("0") + 0;
    }
  }
}
