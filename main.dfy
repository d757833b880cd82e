/** The operations of a JSON Patch (RFC 6902) as main.go applies them: the
    dispatch on the operation name, the five supported operations, the
    validation `ParsePatch` makes of a decoded patch, and `Apply`, which
    runs the operations in order and stops at the first error. */
module Rfc6902 {
  import opened Values
  import opened Strconv
  import opened Pointer
  import opened Edits

  /** One decoded operation. A member missing from the patch document
      decodes to "" (op, path, from) or to null (value). */
  datatype Op = Op(op: string, path: string, from: string, value: Json)

  /** A parsed patch: its operations, in document order. */
  datatype Patch = Patch(ops: seq<Op>)

  /** The operation names `apply` dispatches on. */
  predicate Known(name: string) {
    name == "add" || name == "remove" || name == "replace" || name == "move" || name == "test"
  }

  /** `add`: the edit's error is returned. */
  function Add(o: Op, ptr: seq<string>, doc: Json): (r: Result<Json>)
    ensures r.Err? ==> EditError(r.error)
  {
    SetExisting(doc, ptr, o.value, true)
  }

  /** `remove`: the edit's error is dropped, so only a panic fails it. */
  function Remove(ptr: seq<string>, doc: Json): (r: Result<Json>)
    ensures r.Err? ==> r.error.Panic?
    ensures RemoveAt(doc, ptr).Ok? ==> r == RemoveAt(doc, ptr)
    ensures RemoveAt(doc, ptr).Err? && !RemoveAt(doc, ptr).error.Panic? ==> r == Ok(doc)
  {
    IgnoreError(RemoveAt(doc, ptr), doc)
  }

  /** `replace`: the edit's error is dropped, so only a panic fails it. */
  function Replace(o: Op, ptr: seq<string>, doc: Json): (r: Result<Json>)
    ensures r.Err? ==> r.error.Panic?
    ensures ReplaceAt(doc, ptr, o.value).Ok? ==> r == ReplaceAt(doc, ptr, o.value)
    ensures ReplaceAt(doc, ptr, o.value).Err? && !ReplaceAt(doc, ptr, o.value).error.Panic? ==> r == Ok(doc)
  {
    IgnoreError(ReplaceAt(doc, ptr, o.value), doc)
  }

  /** `move`: read the value at `from`, remove it there, add it at the
      target; every error on the way is returned. */
  function Move(o: Op, ptr: seq<string>, doc: Json): (r: Result<Json>)
    ensures r.Err? ==> EditError(r.error) || r.error == FragmentPointer
    ensures SplitPath(o.from).Err? ==> r == Err(SplitPath(o.from).error)
    ensures SplitPath(o.from).Ok? ==>
      var fp := SplitPath(o.from).value;
      (Lookup(doc, fp).Err? ==> r == Lookup(doc, fp))
      && (Lookup(doc, fp).Ok? && RemoveAt(doc, fp).Err? ==> r == RemoveAt(doc, fp))
  {
    match SplitPath(o.from)
    case Err(e) => Err(e)
    case Ok(fromPtr) =>
      match Lookup(doc, fromPtr)
      case Err(e) => Err(e)
      case Ok(x) =>
        match RemoveAt(doc, fromPtr)
        case Err(e) => Err(e)
        case Ok(d) => SetExisting(d, ptr, x, true)
  }

  /** Go's `!=` on two interface values: two slices or two maps cannot be
      compared and panic; values of different kinds are unequal. */
  function Equal(a: Json, b: Json): (r: Result<bool>)
    ensures r.Err? <==> (a.JArr? && b.JArr?) || (a.JObj? && b.JObj?)
    ensures r.Err? ==> r.error == Panic(Uncomparable)
    ensures r.Ok? ==> (r.value <==> a == b)
  {
    if (a.JArr? && b.JArr?) || (a.JObj? && b.JObj?) then Err(Panic(Uncomparable))
    else Ok(a == b)
  }

  /** `test`: passes exactly when the pointer resolves to the expected
      value and that value is neither an array nor an object (those never
      compare), and a passing test returns the document untouched. */
  function Test(o: Op, ptr: seq<string>, doc: Json): (r: Result<Json>)
    ensures r.Ok? ==> r.value == doc
    ensures r.Ok? <==> Lookup(doc, ptr) == Ok(o.value) && !o.value.JArr? && !o.value.JObj?
    ensures r.Err? ==> EditError(r.error) || r.error == TestFailed
    ensures Lookup(doc, ptr).Err? ==> r == Lookup(doc, ptr)
    ensures Lookup(doc, ptr).Ok? && Equal(o.value, Lookup(doc, ptr).value) == Ok(false) ==> r == Err(TestFailed)
    ensures Lookup(doc, ptr).Ok? && Equal(o.value, Lookup(doc, ptr).value).Err? ==> r == Err(Panic(Uncomparable))
  {
    match Lookup(doc, ptr)
    case Err(e) => Err(e)
    case Ok(actual) =>
      match Equal(o.value, actual)
      case Err(e) => Err(e)
      case Ok(same) => if same then Ok(doc) else Err(TestFailed)
  }

  /** `op.apply`: split the path, then dispatch on the operation name. An
      unknown name (including "copy", which is not implemented) is an
      error, and no other outcome is that error. */
  function ApplyOp(o: Op, doc: Json): (r: Result<Json>)
    ensures r == Err(UnknownOperation) <==> SplitPath(o.path).Ok? && !Known(o.op)
  {
    match SplitPath(o.path)
    case Err(e) => Err(e)
    case Ok(ptr) =>
      if o.op == "add" then Add(o, ptr, doc)
      else if o.op == "remove" then Remove(ptr, doc)
      else if o.op == "replace" then Replace(o, ptr, doc)
      else if o.op == "move" then Move(o, ptr, doc)
      else if o.op == "test" then Test(o, ptr, doc)
      else Err(UnknownOperation)
  }

  /** The operations applied in order, stopping at the first error. A patch
      of tests only either fails or returns the document unchanged. */
  function Fold(ops: seq<Op>, doc: Json): (r: Result<Json>)
    ensures (forall i :: 0 <= i < |ops| ==> ops[i].op == "test") && r.Ok? ==> r.value == doc
    decreases |ops|
  {
    if ops == [] then Ok(doc)
    else
      match ApplyOp(ops[0], doc)
      case Err(e) => Err(e)
      case Ok(d) => Fold(ops[1..], d)
  }

  /** `Patcher.Apply` on an already decoded document; `None` stands for the
      zero-length input. */
  method Apply(p: Patch, input: Option<Json>) returns (r: Result<Json>)
    ensures input.None? ==> r == Err(EmptyDocument)
    ensures input.Some? ==> r == Fold(p.ops, input.value)
  {
    if input.None? {
      return Err(EmptyDocument);
    }
    var v := input.value;
    var i := 0;
    while i < |p.ops|
      invariant 0 <= i <= |p.ops|
      invariant Fold(p.ops, input.value) == Fold(p.ops[i..], v)
    {
      assert p.ops[i..][1..] == p.ops[i + 1..];
      var next := ApplyOp(p.ops[i], v);
      if next.Err? {
        return Err(next.error);
      }
      v := next.value;
      i := i + 1;
    }
    return Ok(v);
  }

  /** The check `ParsePatch` makes of the operation at position pos. */
  function Problem(o: Op, pos: nat): (r: Option<Error>)
    ensures r.None? <==> |o.op| > 0 && |o.path| > 0 && (o.op == "add" ==> o.value != JNull)
    ensures r.Some? ==> r.value in {MissingOp(pos), MissingPath(pos), MissingAddValue}
    // op is checked first, then path, then add's value
    ensures |o.op| == 0 ==> r == Some(MissingOp(pos))
    ensures |o.op| > 0 && |o.path| == 0 ==> r == Some(MissingPath(pos))
    ensures |o.op| > 0 && |o.path| > 0 && o.op == "add" && o.value == JNull ==> r == Some(MissingAddValue)
  {
    if |o.op| == 0 then Some(MissingOp(pos))
    else if |o.path| == 0 then Some(MissingPath(pos))
    else if o.op == "add" && o.value == JNull then Some(MissingAddValue)
    else None
  }

  /** The validation loop of `ParsePatch` over the decoded operations: the
      patch is accepted exactly when every operation passes, and otherwise
      the error is that of the first operation that fails. */
  method ParsePatch(ops: seq<Op>) returns (r: Result<Patch>)
    ensures r.Ok? <==> forall i :: 0 <= i < |ops| ==> Problem(ops[i], i).None?
    ensures r.Ok? ==> r.value == Patch(ops)
    ensures r.Err? ==> exists k :: 0 <= k < |ops| && Problem(ops[k], k) == Some(r.error) &&
                                  forall i :: 0 <= i < k ==> Problem(ops[i], i).None?
  {
    var pos := 0;
    while pos < |ops|
      invariant 0 <= pos <= |ops|
      invariant forall i :: 0 <= i < pos ==> Problem(ops[i], i).None?
    {
      var o := ops[pos];
      if |o.op| == 0 {
        return Err(MissingOp(pos));
      }
      if |o.path| == 0 {
        return Err(MissingPath(pos));
      }
      if o.op == "add" && o.value == JNull {
        return Err(MissingAddValue);
      }
      pos := pos + 1;
    }
    return Ok(Patch(ops));
  }

  // ---------------------------------------------------------------------
  // Properties of whole patches
  // ---------------------------------------------------------------------

  function FoldThen(r: Result<Json>, ops: seq<Op>): Result<Json> {
    match r
    case Ok(d) => Fold(ops, d)
    case Err(e) => Err(e)
  }

  /** Applying a + b is applying a, then b to the result. */
  lemma {:induction false} FoldAppend(a: seq<Op>, b: seq<Op>, doc: Json)
    ensures Fold(a + b, doc) == FoldThen(Fold(a, doc), b)
    decreases |a|
  {
    if a == [] {
      assert a + b == b;
    } else {
      assert (a + b)[0] == a[0];
      assert (a + b)[1..] == a[1..] + b;
      match ApplyOp(a[0], doc)
      case Ok(d) => FoldAppend(a[1..], b, d);
      case Err(_) =>
    }
  }

  lemma FoldSingle(o: Op, doc: Json)
    ensures Fold([o], doc) == ApplyOp(o, doc)
  {
    assert [o][1..] == [];
    match ApplyOp(o, doc)
    case Ok(d) => assert Fold([], d) == Ok(d);
    case Err(_) =>
  }

  /** An operation that fails (a failed test, say) fails the whole patch
      with its error: none of the patch's edits is returned. */
  lemma PatchHaltsAtFailure(ops: seq<Op>, k: nat, doc: Json, d: Json)
    requires k < |ops|
    requires Fold(ops[..k], doc) == Ok(d)
    requires ApplyOp(ops[k], d).Err?
    ensures Fold(ops, doc) == Err(ApplyOp(ops[k], d).error)
  {
    var rest := ops[k..];
    assert Fold(rest, d) == Err(ApplyOp(ops[k], d).error) by {
      assert rest[0] == ops[k];
      FoldFirstFails(rest, d);
    }
    assert Fold(ops, doc) == FoldThen(Fold(ops[..k], doc), rest) by {
      assert ops == ops[..k] + rest;
      FoldAppend(ops[..k], rest, doc);
    }
  }

  /** A patch whose first operation fails fails with that error. */
  lemma FoldFirstFails(ops: seq<Op>, doc: Json)
    requires ops != [] && ApplyOp(ops[0], doc).Err?
    ensures Fold(ops, doc) == Err(ApplyOp(ops[0], doc).error)
  {
  }

  /** A patch whose operations all pass the parse checks never fails with
      an unknown operation name unless one is present. */
  lemma UnknownOperationNamed(ops: seq<Op>, doc: Json)
    requires forall i :: 0 <= i < |ops| ==> Known(ops[i].op)
    ensures Fold(ops, doc) != Err(UnknownOperation)
    decreases |ops|
  {
    if ops != [] {
      match ApplyOp(ops[0], doc)
      case Ok(d) => UnknownOperationNamed(ops[1..], d);
      case Err(_) =>
    }
  }

  /** "copy" is not implemented: it is rejected for any valid path. */
  lemma CopyIsUnknown(o: Op, doc: Json)
    requires o.op == "copy" && SplitPath(o.path).Ok?
    ensures ApplyOp(o, doc) == Err(UnknownOperation)
  {
  }

  /** move is a remove at `from` followed by an add at the target, whenever
      the removal succeeds (section 4.4 of RFC 6902). */
  lemma MoveIsRemoveThenAdd(o: Op, doc: Json, fromPtr: seq<string>, x: Json)
    requires o.op == "move" && SplitPath(o.path).Ok?
    requires SplitPath(o.from) == Ok(fromPtr)
    requires Lookup(doc, fromPtr) == Ok(x)
    requires RemoveAt(doc, fromPtr).Ok?
    ensures ApplyOp(o, doc) == Fold([Op("remove", o.from, "", JNull), Op("add", o.path, "", x)], doc)
  {
    var rm := Op("remove", o.from, "", JNull);
    var ad := Op("add", o.path, "", x);
    var d := RemoveAt(doc, fromPtr).value;
    assert ApplyOp(rm, doc) == Ok(d);
    assert [rm, ad][1..] == [ad];
    FoldSingle(ad, d);
  }

  /** Moving a member or an element onto itself leaves the document as it
      was, when its container is a map or an array held by a map. */
  lemma MoveOntoItself(o: Op, doc: Json, ptr: seq<string>)
    requires o.op == "move" && o.from == o.path && SplitPath(o.path) == Ok(ptr)
    requires Removable(doc, ptr)
    ensures ApplyOp(o, doc) == Ok(doc)
  {
    RemoveThenAdd(doc, ptr);
    MoveInPlace(o, doc, ptr, Lookup(doc, ptr).value);
  }

  /** A move whose `from` is its `path`: remove there, then add back. */
  lemma MoveInPlace(o: Op, doc: Json, ptr: seq<string>, x: Json)
    requires o.op == "move" && o.from == o.path && SplitPath(o.path) == Ok(ptr)
    requires Lookup(doc, ptr) == Ok(x) && RemoveAt(doc, ptr).Ok?
    ensures ApplyOp(o, doc) == SetExisting(RemoveAt(doc, ptr).value, ptr, x, true)
  {
    assert ApplyOp(o, doc) == Move(o, ptr, doc);
  }

  /** Applying a replace operation a second time changes nothing more. */
  lemma ReplaceOpIdempotent(o: Op, doc: Json)
    requires o.op == "replace"
    requires ApplyOp(o, doc).Ok?
    ensures ApplyOp(o, ApplyOp(o, doc).value) == ApplyOp(o, doc)
  {
    var ptr := SplitPath(o.path).value;
    if ReplaceAt(doc, ptr, o.value).Ok? {
      ReplaceIdempotent(doc, ptr, o.value);
    }
  }

  /** Removing an absent member is not an error: the document is returned
      unchanged (as is the document for a path that does not resolve). */
  lemma RemoveAbsentMember(o: Op, doc: Json, ptr: seq<string>)
    requires o.op == "remove" && SplitPath(o.path) == Ok(ptr) && |ptr| >= 1
    requires var q := ptr[..|ptr| - 1];
      Lookup(doc, q).Ok? && Lookup(doc, q).value.JObj?
      && Decode(ptr[|ptr| - 1]) !in Lookup(doc, q).value.members
    ensures ApplyOp(o, doc) == Ok(doc)
  {
    var q := ptr[..|ptr| - 1];
    var m := Lookup(doc, q).value.members;
    assert m - {Decode(ptr[|ptr| - 1])} == m;
    SetAtSame(doc, q);
  }

  /** On an element of an array, a remove or replace operation whose token
      is not an integer is silently a no-op (the returned error is dropped),
      while an index outside a nested array panics and fails the patch. */
  lemma ArrayTokenOutcomes(o: Op, doc: Json, ptr: seq<string>)
    requires (o.op == "remove" || o.op == "replace") && SplitPath(o.path) == Ok(ptr) && |ptr| >= 1
    requires var q := ptr[..|ptr| - 1];
      Lookup(doc, q).Ok? && Lookup(doc, q).value.JArr?
    ensures var q := ptr[..|ptr| - 1]; var key := Decode(ptr[|ptr| - 1]);
      Atoi(key).None? ==> ApplyOp(o, doc) == Ok(doc)
    ensures var q := ptr[..|ptr| - 1]; var key := Decode(ptr[|ptr| - 1]);
      |ptr| >= 2 && Atoi(key).Some? && !(0 <= Atoi(key).value < |Lookup(doc, q).value.elems|)
      ==> ApplyOp(o, doc) == Err(Panic(IndexOutOfRange))
    ensures |ptr| == 1 && Atoi(Decode(ptr[0])).Some? ==> ApplyOp(o, doc) == Err(Panic(NilPointer))
  {
    assert ptr[..0] == [];
    assert ApplyOp(o, doc) == if o.op == "remove" then Remove(ptr, doc) else Replace(o, ptr, doc);
  }

  /** On an array, an add whose token is neither "-" nor an integer fails
      the patch with the returned error, and an index outside 0..len fails
      it with a panic; the error is not dropped, unlike remove and replace. */
  lemma AddTokenOutcomes(o: Op, doc: Json, ptr: seq<string>)
    requires o.op == "add" && SplitPath(o.path) == Ok(ptr) && |ptr| >= 1
    requires var q := ptr[..|ptr| - 1];
      Lookup(doc, q).Ok? && Lookup(doc, q).value.JArr?
    ensures var key := Decode(ptr[|ptr| - 1]);
      key != "-" && Atoi(key).None? ==> ApplyOp(o, doc) == Err(NotAnInteger(key))
    ensures var q := ptr[..|ptr| - 1]; var key := Decode(ptr[|ptr| - 1]);
      key != "-" && Atoi(key).Some? && !(0 <= Atoi(key).value <= |Lookup(doc, q).value.elems|)
      ==> ApplyOp(o, doc) == Err(Panic(IndexOutOfRange))
  {
    assert ApplyOp(o, doc) == SetExisting(doc, ptr, o.value, true);
  }

  /** An add followed by a remove at the same pointer, on a new member or
      a new element of an array held by a map, gives the document back. */
  lemma AddThenRemoveOps(doc: Json, path: string, ptr: seq<string>, v: Json)
    requires SplitPath(path) == Ok(ptr) && |ptr| >= 1
    requires var q := ptr[..|ptr| - 1]; var key := Decode(ptr[|ptr| - 1]);
      && Lookup(doc, q).Ok?
      && var c := Lookup(doc, q).value;
      && (c.JObj? ==> key !in c.members)
      && (c.JArr? ==> Atoi(key).Some? && 0 <= Atoi(key).value <= |c.elems| && InMap(doc, q))
      && (c.JObj? || c.JArr?)
    ensures Fold([Op("add", path, "", v), Op("remove", path, "", JNull)], doc) == Ok(doc)
  {
    var ad := Op("add", path, "", v);
    var rm := Op("remove", path, "", JNull);
    AddThenRemove(doc, ptr, v);
    var d := SetExisting(doc, ptr, v, true).value;
    assert [ad, rm][1..] == [rm];
    FoldSingle(rm, d);
  }
}
