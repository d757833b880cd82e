/** The tree editor of patcher.go: resolving a pointer (`value`), and the
    three edits `setExistingValue` (add), `remove` and `replace`, which act on
    the container that holds the pointer's last token.

    Go shares maps and slice backing arrays between the document and the
    values `value` hands out, so a map edit (`t[key] = v`, `delete`) or an
    element store (`container[i] = o`) is seen from the root. Here documents
    are values, and such an edit is `SetAt`: the document rebuilt along the
    path with the edited container in place. What Go does NOT share is the
    root variable of a patcher: `setParentValue` on a one-token pointer
    reassigns only the `jsonObject` of the patcher it is called on. The
    nested calls on a parent patcher (patcher.go:78, 126) therefore carry
    `top == false`, and a root reassignment they make is lost. */
module Edits {
  import opened Values
  import opened Strconv
  import opened Pointer

  // ---------------------------------------------------------------------
  // Resolution: the free function `value`
  // ---------------------------------------------------------------------

  /** The errors the editor reports. */
  predicate EditError(e: Error) {
    e.InvalidJsonPath? || e.Panic? || e.NotAnInteger?
  }

  /** An array token as `value` reads it: not an integer panics, an index
      at or past the end is a missing path, a negative index panics. */
  function ArrayIndex(len: nat, el: string): (r: Result<nat>)
    ensures r.Ok? <==> Atoi(el).Some? && 0 <= Atoi(el).value < len
    ensures r.Ok? ==> r.value == Atoi(el).value
    ensures r.Err? ==> r.error.InvalidJsonPath? || r.error.Panic?
    ensures Atoi(el).None? ==> r == Err(Panic(NotAnIndex))
    ensures Atoi(el).Some? && Atoi(el).value >= len ==> r == Err(InvalidJsonPath)
    ensures Atoi(el).Some? && Atoi(el).value < 0 ==> r == Err(Panic(IndexOutOfRange))
  {
    match Atoi(el)
    case None => Err(Panic(NotAnIndex))
    case Some(idx) =>
      if idx >= len then Err(InvalidJsonPath)
      else if idx < 0 then Err(Panic(IndexOutOfRange))
      else Ok(idx)
  }

  /** One hop of `value` on an already decoded key. */
  function Step(node: Json, el: string): (r: Result<Json>)
    ensures r.Err? ==> r.error.InvalidJsonPath? || r.error.Panic?
    ensures node.JObj? ==> (r.Ok? <==> el in node.members)
    ensures node.JObj? && r.Ok? ==> r.value == node.members[el]
    ensures node.JObj? && el !in node.members ==> r == Err(InvalidJsonPath)
    ensures node.JArr? && ArrayIndex(|node.elems|, el).Err? ==> r == Err(ArrayIndex(|node.elems|, el).error)
    ensures node.JArr? ==> (r.Ok? <==> ArrayIndex(|node.elems|, el).Ok?)
    ensures node.JArr? && r.Ok? ==> r.value == node.elems[ArrayIndex(|node.elems|, el).value]
    ensures !node.JObj? && !node.JArr? ==> r == Err(Panic(UnknownType))
  {
    match node
    case JObj(t) => if el in t then Ok(t[el]) else Err(InvalidJsonPath)
    case JArr(t) =>
      (match ArrayIndex(|t|, el)
       case Ok(i) => Ok(t[i])
       case Err(e) => Err(e))
    case _ => Err(Panic(UnknownType))
  }

  /** What `value(fields, &doc)` yields. */
  function Lookup(doc: Json, fields: seq<string>): (r: Result<Json>)
    ensures r.Err? ==> r.error.InvalidJsonPath? || r.error.Panic?
    decreases |fields|
  {
    if fields == [] then Ok(doc)
    else
      match Step(doc, Decode(fields[0]))
      case Ok(child) => Lookup(child, fields[1..])
      case Err(e) => Err(e)
  }

  /** `value`: the loop that walks `ref` down the tokens. */
  method ValueAt(fields: seq<string>, doc: Json) returns (r: Result<Json>)
    ensures r == Lookup(doc, fields)
  {
    var ref := doc;
    var i := 0;
    while i < |fields|
      invariant 0 <= i <= |fields|
      invariant Lookup(doc, fields) == Lookup(ref, fields[i..])
    {
      assert fields[i..][1..] == fields[i + 1..];
      var el := Decode(fields[i]);
      match ref {
        case JObj(t) =>
          if el !in t {
            return Err(InvalidJsonPath);
          }
          ref := t[el];
        case JArr(t) =>
          var idx := Atoi(el);
          if idx.None? {
            return Err(Panic(NotAnIndex));
          }
          if idx.value >= |t| {
            return Err(InvalidJsonPath);
          }
          if idx.value < 0 {
            return Err(Panic(IndexOutOfRange));
          }
          ref := t[idx.value];
        case _ =>
          return Err(Panic(UnknownType));
      }
      i := i + 1;
    }
    return Ok(ref);
  }

  function Then(r: Result<Json>, fields: seq<string>): Result<Json> {
    match r
    case Ok(x) => Lookup(x, fields)
    case Err(e) => Err(e)
  }

  /** Resolving p + q is resolving p, then q from there. */
  lemma {:induction false} LookupAppend(doc: Json, p: seq<string>, q: seq<string>)
    ensures Lookup(doc, p + q) == Then(Lookup(doc, p), q)
    decreases |p|
  {
    if p != [] {
      assert (p + q)[0] == p[0];
      assert (p + q)[1..] == p[1..] + q;
      match Step(doc, Decode(p[0]))
      case Ok(child) => LookupAppend(child, p[1..], q);
      case Err(_) =>
    } else {
      assert p + q == q;
    }
  }

  /** Resolving one more token from a resolved path. */
  lemma LookupLast(doc: Json, q: seq<string>, t: string)
    requires Lookup(doc, q).Ok?
    ensures Lookup(doc, q + [t]) == Step(Lookup(doc, q).value, Decode(t))
  {
    LookupAppend(doc, q, [t]);
    var x := Lookup(doc, q).value;
    assert [t][0] == t && [t][1..] == [];
    match Step(x, Decode(t))
    case Ok(child) => assert Lookup(child, []) == Ok(child);
    case Err(_) =>
  }

  /** `jsonPointer` and `value` agree on every path that resolves: a walk
      that ends without error reaches what `value` reaches, and conversely. */
  lemma {:induction false} WalkAgreesWithLookup(ref: Json, h: Handle, last: Option<Handle>, fields: seq<string>)
    requires h.Get() == Ok(ref)
    ensures Lookup(ref, fields).Ok? <==> Walk(ref, h, last, fields).err.None?
    ensures Lookup(ref, fields).Ok? ==> Walk(ref, h, last, fields).handle.Get() == Lookup(ref, fields)
    ensures Walk(ref, h, last, fields).err == Some(InvalidJsonPath) ==> Lookup(ref, fields) == Err(InvalidJsonPath)
    decreases |fields|
  {
    if fields != [] {
      var el := Decode(fields[0]);
      match ref
      case JObj(t) =>
        if el in t {
          WalkAgreesWithLookup(t[el], MapPointer(t, el), Some(MapPointer(t, el)), fields[1..]);
        }
      case JArr(t) =>
        if Atoi(el).Some? && 0 <= Atoi(el).value < |t| {
          var idx := Atoi(el).value;
          WalkAgreesWithLookup(t[idx], ArrayPointer(t, idx, last), last, fields[1..]);
        }
      case _ =>
    }
  }

  /** Resolving a whole document from its root handle. */
  lemma JsonPointerAgreesWithValue(doc: Json, fields: seq<string>)
    ensures Lookup(doc, fields).Ok? <==> Walk(doc, RefPointer(doc), None, fields).err.None?
    ensures Lookup(doc, fields).Ok? ==> Walk(doc, RefPointer(doc), None, fields).handle.Get() == Lookup(doc, fields)
    ensures Walk(doc, RefPointer(doc), None, fields).err == Some(InvalidJsonPath) ==> Lookup(doc, fields) == Err(InvalidJsonPath)
  {
    WalkAgreesWithLookup(doc, RefPointer(doc), None, fields);
  }

  /** A key missing from a map reached at any depth is, for both resolvers,
      ErrorInvalidJSONPath. */
  lemma {:induction false} MissingKeyAtAnyDepth(ref: Json, h: Handle, last: Option<Handle>,
                                                fields: seq<string>, k: nat, m: map<string, Json>)
    requires k < |fields|
    requires Lookup(ref, fields[..k]) == Ok(JObj(m)) && Decode(fields[k]) !in m
    ensures Lookup(ref, fields) == Err(InvalidJsonPath)
    ensures Walk(ref, h, last, fields).err == Some(InvalidJsonPath)
    decreases k
  {
    if k == 0 {
      assert fields[..0] == [];
    } else {
      var el := Decode(fields[0]);
      assert fields[..k][0] == fields[0];
      assert fields[..k][1..] == fields[1..][..k - 1];
      match ref
      case JObj(t) =>
        MissingKeyAtAnyDepth(t[el], MapPointer(t, el), Some(MapPointer(t, el)), fields[1..], k - 1, m);
      case JArr(t) =>
        var idx := Atoi(el).value;
        MissingKeyAtAnyDepth(t[idx], ArrayPointer(t, idx, last), last, fields[1..], k - 1, m);
    }
  }

  /** An index at or past the end of an array reached at any depth is, for
      `value`, ErrorInvalidJSONPath; `jsonPointer` indexes the slice and
      panics. */
  lemma {:induction false} IndexPastEndAtAnyDepth(ref: Json, h: Handle, last: Option<Handle>,
                                                  fields: seq<string>, k: nat, a: seq<Json>)
    requires k < |fields|
    requires Lookup(ref, fields[..k]) == Ok(JArr(a))
    requires Atoi(Decode(fields[k])).Some? && Atoi(Decode(fields[k])).value >= |a|
    ensures Lookup(ref, fields) == Err(InvalidJsonPath)
    ensures Walk(ref, h, last, fields).err == Some(Panic(IndexOutOfRange))
    decreases k
  {
    if k == 0 {
      assert fields[..0] == [];
    } else {
      var el := Decode(fields[0]);
      assert fields[..k][0] == fields[0];
      assert fields[..k][1..] == fields[1..][..k - 1];
      match ref
      case JObj(t) =>
        IndexPastEndAtAnyDepth(t[el], MapPointer(t, el), Some(MapPointer(t, el)), fields[1..], k - 1, a);
      case JArr(t) =>
        var idx := Atoi(el).value;
        IndexPastEndAtAnyDepth(t[idx], ArrayPointer(t, idx, last), last, fields[1..], k - 1, a);
    }
  }

  // ---------------------------------------------------------------------
  // Writing a container back along its path
  // ---------------------------------------------------------------------

  /** The document with the value at `path` replaced by v; unchanged when
      the path does not resolve. */
  function SetAt(doc: Json, path: seq<string>, v: Json): Json
    decreases |path|
  {
    if path == [] then v
    else
      var el := Decode(path[0]);
      match doc
      case JObj(t) => if el in t then JObj(t[el := SetAt(t[el], path[1..], v)]) else doc
      case JArr(t) =>
        (match ArrayIndex(|t|, el)
         case Ok(i) => JArr(t[i := SetAt(t[i], path[1..], v)])
         case Err(_) => doc)
      case _ => doc
  }

  /** p and q part ways in doc: at some depth they name different members
      or different elements of the container they reach. Equal tokens are
      not needed for the same element: "0" and "00" both name element 0. */
  predicate Apart(doc: Json, p: seq<string>, q: seq<string>)
    decreases |p|
  {
    && p != [] && q != []
    && var kp := Decode(p[0]); var kq := Decode(q[0]);
    match doc
    case JObj(t) => kp != kq || (kp in t && Apart(t[kp], p[1..], q[1..]))
    case JArr(t) =>
      ArrayIndex(|t|, kp) != ArrayIndex(|t|, kq)
      || (ArrayIndex(|t|, kp).Ok? && Apart(t[ArrayIndex(|t|, kp).value], p[1..], q[1..]))
    case _ => true
  }

  /** Writing at q leaves every path apart from q resolving as before. */
  lemma {:induction false} LookupSetAtApart(doc: Json, q: seq<string>, x: Json, p: seq<string>)
    requires Apart(doc, p, q)
    ensures Lookup(SetAt(doc, q, x), p) == Lookup(doc, p)
    decreases |p|
  {
    var kp := Decode(p[0]);
    var kq := Decode(q[0]);
    match doc
    case JObj(t) =>
      if kp == kq && kp in t {
        LookupSetAtApart(t[kp], q[1..], x, p[1..]);
      }
    case JArr(t) =>
      if ArrayIndex(|t|, kp) == ArrayIndex(|t|, kq) && ArrayIndex(|t|, kp).Ok? {
        LookupSetAtApart(t[ArrayIndex(|t|, kp).value], q[1..], x, p[1..]);
      }
    case _ =>
  }

  /** After writing v at a path that resolves, the path resolves to v. */
  lemma {:induction false} LookupSetAt(doc: Json, path: seq<string>, v: Json)
    requires Lookup(doc, path).Ok?
    ensures Lookup(SetAt(doc, path, v), path) == Ok(v)
    decreases |path|
  {
    if path != [] {
      var el := Decode(path[0]);
      match doc
      case JObj(t) => LookupSetAt(t[el], path[1..], v);
      case JArr(t) => LookupSetAt(t[ArrayIndex(|t|, el).value], path[1..], v);
    }
  }

  /** A second write at the same path overrides the first. */
  lemma {:induction false} SetAtTwice(doc: Json, path: seq<string>, v: Json, w: Json)
    ensures SetAt(SetAt(doc, path, v), path, w) == SetAt(doc, path, w)
    decreases |path|
  {
    if path != [] {
      var el := Decode(path[0]);
      match doc
      case JObj(t) =>
        if el in t {
          SetAtTwice(t[el], path[1..], v, w);
          SetAtTwiceInMap(t, path, v, w);
        }
      case JArr(t) =>
        if ArrayIndex(|t|, el).Ok? {
          SetAtTwice(t[ArrayIndex(|t|, el).value], path[1..], v, w);
          SetAtTwiceInArray(t, path, v, w);
        }
      case _ =>
    }
  }

  lemma SetAtTwiceInMap(t: map<string, Json>, path: seq<string>, v: Json, w: Json)
    requires path != [] && Decode(path[0]) in t
    requires var x := t[Decode(path[0])];
      SetAt(SetAt(x, path[1..], v), path[1..], w) == SetAt(x, path[1..], w)
    ensures SetAt(SetAt(JObj(t), path, v), path, w) == SetAt(JObj(t), path, w)
  {
    var el := Decode(path[0]);
    var x := SetAt(t[el], path[1..], v);
    assert SetAt(JObj(t), path, v) == JObj(t[el := x]);
    assert t[el := x][el := SetAt(x, path[1..], w)] == t[el := SetAt(t[el], path[1..], w)];
  }

  lemma SetAtTwiceInArray(t: seq<Json>, path: seq<string>, v: Json, w: Json)
    requires path != [] && ArrayIndex(|t|, Decode(path[0])).Ok?
    requires var x := t[ArrayIndex(|t|, Decode(path[0])).value];
      SetAt(SetAt(x, path[1..], v), path[1..], w) == SetAt(x, path[1..], w)
    ensures SetAt(SetAt(JArr(t), path, v), path, w) == SetAt(JArr(t), path, w)
  {
    var i := ArrayIndex(|t|, Decode(path[0])).value;
    var x := SetAt(t[i], path[1..], v);
    assert SetAt(JArr(t), path, v) == JArr(t[i := x]);
    assert t[i := x][i := SetAt(x, path[1..], w)] == t[i := SetAt(t[i], path[1..], w)];
  }

  /** Writing back what is already there changes nothing. */
  lemma {:induction false} SetAtSame(doc: Json, path: seq<string>)
    requires Lookup(doc, path).Ok?
    ensures SetAt(doc, path, Lookup(doc, path).value) == doc
    decreases |path|
  {
    if path != [] {
      var el := Decode(path[0]);
      match doc
      case JObj(t) =>
        SetAtSame(t[el], path[1..]);
        assert t[el := t[el]] == t;
      case JArr(t) =>
        var i := ArrayIndex(|t|, el).value;
        SetAtSame(t[i], path[1..]);
        assert t[i := t[i]] == t;
    }
  }

  /** Writing below p is writing, at p, the rebuilt value found there. */
  lemma {:induction false} SetAtAppend(doc: Json, p: seq<string>, q: seq<string>, v: Json)
    requires Lookup(doc, p).Ok?
    ensures SetAt(doc, p + q, v) == SetAt(doc, p, SetAt(Lookup(doc, p).value, q, v))
    decreases |p|
  {
    if p == [] {
      assert p + q == q;
    } else {
      assert (p + q)[0] == p[0];
      assert (p + q)[1..] == p[1..] + q;
      var el := Decode(p[0]);
      match doc
      case JObj(t) =>
        assert el in t && Lookup(t[el], p[1..]) == Lookup(doc, p);
        SetAtAppend(t[el], p[1..], q, v);
      case JArr(t) =>
        var i := ArrayIndex(|t|, el).value;
        assert Lookup(t[i], p[1..]) == Lookup(doc, p);
        SetAtAppend(t[i], p[1..], q, v);
    }
  }

  /** Storing a new value for a key of the map at g is writing the new value
      at g + [key]. */
  lemma SetAtUnderMap(doc: Json, g: seq<string>, gt: string, x: Json)
    requires Lookup(doc, g).Ok? && Lookup(doc, g).value.JObj?
    requires Decode(gt) in Lookup(doc, g).value.members
    ensures SetAt(doc, g + [gt], x)
         == SetAt(doc, g, JObj(Lookup(doc, g).value.members[Decode(gt) := x]))
  {
    SetAtAppend(doc, g, [gt], x);
  }

  // ---------------------------------------------------------------------
  // The edits on one container (what RFC 6902 asks of add, remove, replace)
  // ---------------------------------------------------------------------

  /** The rebuilt array of `setExistingValue`: v inserted before index `key`,
      or appended for "-". */
  function InsertAt(a: seq<Json>, key: string, v: Json): (r: Result<seq<Json>>)
    ensures r.Err? ==> EditError(r.error)
    ensures key == "-" ==> r == Ok(a + [v])
    ensures key != "-" ==> (r.Ok? <==> Atoi(key).Some? && 0 <= Atoi(key).value <= |a|)
    // a token Atoi rejects is a returned error; an index outside 0..|a|
    // panics in the slice expression
    ensures key != "-" && Atoi(key).None? ==> r == Err(NotAnInteger(key))
    ensures key != "-" && Atoi(key).Some? && !(0 <= Atoi(key).value <= |a|) ==> r == Err(Panic(IndexOutOfRange))
    ensures key != "-" && r.Ok? ==>
      var i := Atoi(key).value;
      |r.value| == |a| + 1 && r.value[..i] == a[..i] && r.value[i] == v && r.value[i + 1..] == a[i..]
  {
    if key == "-" then Ok(a + [v])
    else
      match Atoi(key)
      case None => Err(NotAnInteger(key))
      case Some(i) =>
        if i < 0 || i > |a| then Err(Panic(IndexOutOfRange))
        else Ok(a[..i] + [v] + a[i..])
  }

  /** The container after adding v under key: a map gains or overwrites the
      key, an array gets v inserted. */
  function Added(c: Json, key: string, v: Json): (r: Result<Json>)
    ensures r.Err? ==> EditError(r.error)
    ensures c.JObj? ==> r == Ok(JObj(c.members[key := v]))
    ensures c.JArr? ==> (r.Ok? <==> InsertAt(c.elems, key, v).Ok?)
    ensures c.JArr? && r.Ok? ==> r.value == JArr(InsertAt(c.elems, key, v).value)
    ensures c.JArr? && r.Err? ==> r.error == InsertAt(c.elems, key, v).error
    ensures !c.JObj? && !c.JArr? ==> r == Err(Panic(UnknownType))
  {
    match c
    case JObj(m) => Ok(JObj(m[key := v]))
    case JArr(a) =>
      (match InsertAt(a, key, v)
       case Ok(na) => Ok(JArr(na))
       case Err(e) => Err(e))
    case _ => Err(Panic(UnknownType))
  }

  /** The container after removing key: a map loses the key (if it had it),
      an array loses the element at the index, later elements moving down. */
  function Removed(c: Json, key: string): (r: Result<Json>)
    ensures r.Err? ==> EditError(r.error)
    ensures c.JArr? && Atoi(key).None? ==> r == Err(NotAnInteger(key))
    ensures c.JArr? && Atoi(key).Some? && !(0 <= Atoi(key).value < |c.elems|) ==> r == Err(Panic(IndexOutOfRange))
    ensures c.JObj? ==>
      (r.Ok? && r.value.JObj? && r.value.members.Keys == c.members.Keys - {key}
       && forall k :: k in r.value.members ==> r.value.members[k] == c.members[k])
    ensures c.JArr? ==> (r.Ok? <==> Atoi(key).Some? && 0 <= Atoi(key).value < |c.elems|)
    ensures c.JArr? && r.Ok? ==>
      var i := Atoi(key).value;
      r.value.JArr? && |r.value.elems| == |c.elems| - 1
      && r.value.elems[..i] == c.elems[..i] && r.value.elems[i..] == c.elems[i + 1..]
    ensures !c.JObj? && !c.JArr? ==> r == Err(Panic(UnknownType))
  {
    match c
    case JObj(m) => Ok(JObj(m - {key}))
    case JArr(a) =>
      (match Atoi(key)
       case None => Err(NotAnInteger(key))
       case Some(i) =>
         if i < 0 || i >= |a| then Err(Panic(IndexOutOfRange))
         else Ok(JArr(a[..i] + a[i + 1..])))
    case _ => Err(Panic(UnknownType))
  }

  /** The container after replacing key by o: a map overwrites the key, an
      array overwrites the element in place; anything else is left as is. */
  function Replaced(c: Json, key: string, o: Json): (r: Result<Json>)
    ensures r.Err? ==> EditError(r.error)
    ensures c.JArr? && Atoi(key).None? ==> r == Err(NotAnInteger(key))
    ensures c.JArr? && Atoi(key).Some? && !(0 <= Atoi(key).value < |c.elems|) ==> r == Err(Panic(IndexOutOfRange))
    ensures c.JObj? ==> r == Ok(JObj(c.members[key := o]))
    ensures c.JArr? ==> (r.Ok? <==> Atoi(key).Some? && 0 <= Atoi(key).value < |c.elems|)
    ensures c.JArr? && r.Ok? ==>
      var i := Atoi(key).value;
      r.value.JArr? && |r.value.elems| == |c.elems| && r.value.elems[i] == o
      && forall j :: 0 <= j < |c.elems| && j != i ==> r.value.elems[j] == c.elems[j]
    ensures !c.JObj? && !c.JArr? ==> r == Ok(c)
  {
    match c
    case JObj(m) => Ok(JObj(m[key := o]))
    case JArr(a) =>
      (match Atoi(key)
       case None => Err(NotAnInteger(key))
       case Some(i) =>
         if i < 0 || i >= |a| then Err(Panic(IndexOutOfRange))
         else Ok(JArr(a[i := o])))
    case _ => Ok(c)
  }

  /** Removing what was just added gives the container back. */
  lemma RemovedAdded(c: Json, key: string, v: Json)
    requires c.JObj? ==> key !in c.members
    requires c.JArr? ==> Atoi(key).Some? && 0 <= Atoi(key).value <= |c.elems|
    requires c.JObj? || c.JArr?
    ensures Added(c, key, v).Ok? && Removed(Added(c, key, v).value, key) == Ok(c)
  {
    match c
    case JObj(m) =>
      assert m[key := v] - {key} == m;
    case JArr(a) =>
      var i := Atoi(key).value;
      assert key != "-" by { AtoiRejectsSentinels(); }
      var na := InsertAt(a, key, v).value;
      assert na[..i] + na[i + 1..] == a by {
        assert na[..i] == a[..i] && na[i + 1..] == a[i..];
        assert a == a[..i] + a[i..];
      }
  }

  /** The value a container holds under key (Go's nil for a missing key). */
  function Member(c: Json, key: string): Json {
    match c
    case JObj(m) => if key in m then m[key] else JNull
    case JArr(a) =>
      (match Atoi(key)
       case Some(i) => if 0 <= i < |a| then a[i] else JNull
       case None => JNull)
    case _ => JNull
  }

  /** A key present in a map, or an index inside an array, resolves to the
      member there. */
  lemma StepMember(c: Json, key: string)
    requires c.JObj? ==> key in c.members
    requires c.JArr? ==> Atoi(key).Some? && 0 <= Atoi(key).value < |c.elems|
    requires c.JObj? || c.JArr?
    ensures Step(c, key) == Ok(Member(c, key))
  {
  }

  /** Adding back what was just removed gives the container back. */
  lemma AddedRemoved(c: Json, key: string)
    requires c.JObj? ==> key in c.members
    requires c.JArr? ==> Atoi(key).Some? && 0 <= Atoi(key).value < |c.elems|
    requires c.JObj? || c.JArr?
    ensures Removed(c, key).Ok? && Added(Removed(c, key).value, key, Member(c, key)) == Ok(c)
  {
    match c
    case JObj(m) =>
      assert (m - {key})[key := m[key]] == m;
    case JArr(a) =>
      var i := Atoi(key).value;
      assert key != "-" by { AtoiRejectsSentinels(); }
      ReinsertRemoved(a, i);
  }

  /** Putting back the element removed at i restores the array. */
  lemma ReinsertRemoved(a: seq<Json>, i: nat)
    requires i < |a|
    ensures var ra := a[..i] + a[i + 1..]; ra[..i] + [a[i]] + ra[i..] == a
  {
    var ra := a[..i] + a[i + 1..];
    assert ra[..i] == a[..i] && ra[i..] == a[i + 1..];
    assert a == a[..i] + [a[i]] + a[i + 1..];
  }

  lemma ReplacedTwice(c: Json, key: string, o: Json)
    requires Replaced(c, key, o).Ok?
    ensures Replaced(Replaced(c, key, o).value, key, o) == Replaced(c, key, o)
  {
    match c
    case JObj(m) =>
      assert m[key := o][key := o] == m[key := o];
    case JArr(a) =>
      var i := Atoi(key).value;
      assert a[i := o][i := o] == a[i := o];
    case _ =>
  }

  // ---------------------------------------------------------------------
  // The patcher's edits, as written
  // ---------------------------------------------------------------------

  /** `setExistingValue(v)` on a patcher with pointer `ptr` and document
      `doc`; `top` tells whether that patcher's own root is the caller's. */
  function SetExisting(doc: Json, ptr: seq<string>, v: Json, top: bool): (r: Result<Json>)
    ensures r.Err? ==> EditError(r.error)
    ensures ptr == [] ==> r == Err(Panic(EmptyPointer))
    ensures ptr != [] && Lookup(doc, ptr[..|ptr| - 1]).Err? ==> r == Lookup(doc, ptr[..|ptr| - 1])
    ensures ptr != [] && Lookup(doc, ptr[..|ptr| - 1]).Ok? && Lookup(doc, ptr[..|ptr| - 1]).value.Scalar()
      ==> r == Err(Panic(UnknownType))
    // an array parent: the insertion's error (NotAnInteger returned, or the
    // IndexOutOfRange panic) is the result
    ensures ptr != [] ==>
      var q := ptr[..|ptr| - 1];
      Lookup(doc, q).Ok? && Lookup(doc, q).value.JArr? && InsertAt(Lookup(doc, q).value.elems, Decode(ptr[|ptr| - 1]), v).Err?
      ==> r == Err(InsertAt(Lookup(doc, q).value.elems, Decode(ptr[|ptr| - 1]), v).error)
    decreases |ptr|
  {
    if ptr == [] then Err(Panic(EmptyPointer))
    else
      var q := ptr[..|ptr| - 1];
      var key := Decode(ptr[|ptr| - 1]);
      match Lookup(doc, q)
      case Err(e) => Err(e)
      case Ok(JObj(t)) => Ok(SetAt(doc, q, JObj(t[key := v])))
      case Ok(JArr(pa)) =>
        (match InsertAt(pa, key, v)
         case Err(e) => Err(e)
         case Ok(na) =>
           if |ptr| == 1 then Ok(if top then JArr(na) else doc)
           else IgnoreError(SetExisting(doc, q, JArr(na), false), doc))
      case Ok(_) => Err(Panic(UnknownType))
  }

  /** `remove()`. */
  function RemoveAt(doc: Json, ptr: seq<string>): (r: Result<Json>)
    ensures r.Err? ==> EditError(r.error)
    ensures ptr == [] ==> r == Err(Panic(EmptyPointer))
    ensures ptr != [] && Lookup(doc, ptr[..|ptr| - 1]).Err? ==> r == Lookup(doc, ptr[..|ptr| - 1])
    ensures ptr != [] && Lookup(doc, ptr[..|ptr| - 1]).Ok? && Lookup(doc, ptr[..|ptr| - 1]).value.Scalar()
      ==> r == Err(Panic(UnknownType))
    // an array parent: a token Atoi rejects is a returned error; past that,
    // a one-token pointer dereferences the nil parent, and a deeper one
    // panics on an index outside the array
    ensures |ptr| == 1 && doc.JArr? ==>
      var key := Decode(ptr[0]);
      r == if Atoi(key).None? then Err(NotAnInteger(key)) else Err(Panic(NilPointer))
    ensures ptr != [] ==>
      var q := ptr[..|ptr| - 1];
      var key := Decode(ptr[|ptr| - 1]);
      Lookup(doc, q).Ok? && Lookup(doc, q).value.JArr? ==>
        (Atoi(key).None? ==> r == Err(NotAnInteger(key)))
        && (|ptr| >= 2 && Atoi(key).Some? && !(0 <= Atoi(key).value < |Lookup(doc, q).value.elems|)
            ==> r == Err(Panic(IndexOutOfRange)))
  {
    if ptr == [] then Err(Panic(EmptyPointer))
    else
      var q := ptr[..|ptr| - 1];
      var key := Decode(ptr[|ptr| - 1]);
      match Lookup(doc, q)
      case Err(e) => Err(e)
      case Ok(JObj(t)) => Ok(SetAt(doc, q, JObj(t - {key})))
      case Ok(JArr(c)) =>
        (match Atoi(key)
         case None => Err(NotAnInteger(key))
         case Some(i) =>
           if |ptr| == 1 then Err(Panic(NilPointer))
           else if i < 0 || i >= |c| then Err(Panic(IndexOutOfRange))
           else IgnoreError(SetExisting(doc, q, JArr(c[..i] + c[i + 1..]), false), doc))
      case Ok(_) => Err(Panic(UnknownType))
  }

  /** `replace(o)`. */
  function ReplaceAt(doc: Json, ptr: seq<string>, o: Json): (r: Result<Json>)
    ensures r.Err? ==> EditError(r.error)
    ensures ptr == [] ==> r == Err(Panic(EmptyPointer))
    ensures ptr != [] && Lookup(doc, ptr[..|ptr| - 1]).Err? ==> r == Lookup(doc, ptr[..|ptr| - 1])
    ensures ptr != [] && Lookup(doc, ptr[..|ptr| - 1]).Ok? && Lookup(doc, ptr[..|ptr| - 1]).value.Scalar()
      ==> r == Ok(doc)
    // an array parent: a token Atoi rejects is a returned error; past that,
    // a one-token pointer dereferences the nil parent, and a deeper one
    // panics on an index outside the array
    ensures |ptr| == 1 && doc.JArr? ==>
      var key := Decode(ptr[0]);
      r == if Atoi(key).None? then Err(NotAnInteger(key)) else Err(Panic(NilPointer))
    ensures ptr != [] ==>
      var q := ptr[..|ptr| - 1];
      var key := Decode(ptr[|ptr| - 1]);
      Lookup(doc, q).Ok? && Lookup(doc, q).value.JArr? ==>
        (Atoi(key).None? ==> r == Err(NotAnInteger(key)))
        && (|ptr| >= 2 && Atoi(key).Some? && !(0 <= Atoi(key).value < |Lookup(doc, q).value.elems|)
            ==> r == Err(Panic(IndexOutOfRange)))
  {
    if ptr == [] then Err(Panic(EmptyPointer))
    else
      var q := ptr[..|ptr| - 1];
      var key := Decode(ptr[|ptr| - 1]);
      match Lookup(doc, q)
      case Err(e) => Err(e)
      case Ok(JObj(_)) => IgnoreError(SetExisting(doc, ptr, o, true), doc)
      case Ok(JArr(c)) =>
        (match Atoi(key)
         case None => Err(NotAnInteger(key))
         case Some(i) =>
           if |ptr| == 1 then Err(Panic(NilPointer))
           else if i < 0 || i >= |c| then Err(Panic(IndexOutOfRange))
           else Ok(SetAt(doc, q, JArr(c[i := o]))))
      case Ok(_) => Ok(doc)
  }

  /** The container at q sits directly under a map. */
  predicate InMap(doc: Json, q: seq<string>) {
    |q| >= 1 && Lookup(doc, q[..|q| - 1]).Ok? && Lookup(doc, q[..|q| - 1]).value.JObj?
  }

  function WriteBack(doc: Json, q: seq<string>, r: Result<Json>): Result<Json> {
    match r
    case Ok(c) => Ok(SetAt(doc, q, c))
    case Err(e) => Err(e)
  }

  /** The write-back of a rebuilt array into the map that holds it. */
  lemma {:induction false} NestedWriteBack(doc: Json, q: seq<string>, na: seq<Json>)
    requires Lookup(doc, q).Ok? && InMap(doc, q)
    ensures SetExisting(doc, q, JArr(na), false) == Ok(SetAt(doc, q, JArr(na)))
  {
    var g := q[..|q| - 1];
    var gt := q[|q| - 1];
    var m := Lookup(doc, g).value.members;
    assert q == g + [gt];
    var m' := m[Decode(gt) := JArr(na)];
    assert Decode(gt) in m by {
      LookupLast(doc, g, gt);
    }
    assert SetAt(doc, q, JArr(na)) == SetAt(doc, g, JObj(m')) by {
      SetAtUnderMap(doc, g, gt, JArr(na));
    }
    assert SetExisting(doc, q, JArr(na), false) == Ok(SetAt(doc, g, JObj(m'))) by {
      SetExistingIntoMap(doc, q, JArr(na), false);
    }
  }

  /** add into a map parent stores the key in that map, written back. */
  lemma SetExistingIntoMap(doc: Json, ptr: seq<string>, v: Json, top: bool)
    requires ptr != [] && Lookup(doc, ptr[..|ptr| - 1]).Ok? && Lookup(doc, ptr[..|ptr| - 1]).value.JObj?
    ensures var q := ptr[..|ptr| - 1];
      SetExisting(doc, ptr, v, top)
      == Ok(SetAt(doc, q, JObj(Lookup(doc, q).value.members[Decode(ptr[|ptr| - 1]) := v])))
  {
  }

  /** add, when the container is the root, a map, or an array held by a map
      (the cases where the rebuilt array is written back correctly): the
      container at the parent path gets the entry, and nothing else changes. */
  lemma AddWritesBack(doc: Json, ptr: seq<string>, v: Json)
    requires |ptr| >= 1
    requires var q := ptr[..|ptr| - 1];
      Lookup(doc, q).Ok? && (!Lookup(doc, q).value.JArr? || |q| == 0 || InMap(doc, q))
    ensures var q := ptr[..|ptr| - 1];
      SetExisting(doc, ptr, v, true)
      == WriteBack(doc, q, Added(Lookup(doc, q).value, Decode(ptr[|ptr| - 1]), v))
  {
    var q := ptr[..|ptr| - 1];
    var c := Lookup(doc, q).value;
    var key := Decode(ptr[|ptr| - 1]);
    if c.JArr? && InsertAt(c.elems, key, v).Ok? && |q| > 0 {
      NestedWriteBack(doc, q, InsertAt(c.elems, key, v).value);
    }
  }

  /** After an add whose key is not the append sentinel, the pointer
      resolves to the added value (the existence check after an add). */
  lemma AddThenValue(doc: Json, ptr: seq<string>, v: Json)
    requires |ptr| >= 1
    requires var q := ptr[..|ptr| - 1];
      Lookup(doc, q).Ok? && (!Lookup(doc, q).value.JArr? || |q| == 0 || InMap(doc, q))
    requires Decode(ptr[|ptr| - 1]) != "-"
    requires SetExisting(doc, ptr, v, true).Ok?
    ensures Lookup(SetExisting(doc, ptr, v, true).value, ptr) == Ok(v)
  {
    var q := ptr[..|ptr| - 1];
    var key := Decode(ptr[|ptr| - 1]);
    var c := Lookup(doc, q).value;
    AddWritesBack(doc, ptr, v);
    var c' := Added(c, key, v).value;
    var doc' := SetAt(doc, q, c');
    LookupSetAt(doc, q, c');
    assert ptr == q + [ptr[|ptr| - 1]];
    LookupLast(doc', q, ptr[|ptr| - 1]);
    StepAdded(c, key, v);
  }

  /** The added entry of a map or an array holds the new value. */
  lemma StepAdded(c: Json, key: string, v: Json)
    requires key != "-"
    requires Added(c, key, v).Ok?
    ensures Step(Added(c, key, v).value, key) == Ok(v)
  {
    if c.JArr? {
      var c1 := Added(c, key, v).value;
      assert ArrayIndex(|c1.elems|, key) == Ok(Atoi(key).value);
    }
  }

  /** "-" appends: it adds exactly what the index equal to the length adds. */
  lemma AppendSentinel(doc: Json, q: seq<string>, t: string, v: Json)
    requires Lookup(doc, q).Ok? && Lookup(doc, q).value.JArr?
    requires Atoi(Decode(t)) == Some(|Lookup(doc, q).value.elems|)
    ensures SetExisting(doc, q + ["-"], v, true) == SetExisting(doc, q + [t], v, true)
  {
    var a := Lookup(doc, q).value.elems;
    assert (q + ["-"])[..|q|] == q && (q + [t])[..|q|] == q;
    assert Decode("-") == "-";
    assert Decode(t) != "-" by { AtoiRejectsSentinels(); }
    assert InsertAt(a, "-", v) == InsertAt(a, Decode(t), v) by {
      assert InsertAt(a, Decode(t), v) == Ok(a[..|a|] + [v] + a[|a|..]);
      assert a[..|a|] + [v] + a[|a|..] == a + [v];
    }
  }

  /** With the index written by Itoa. */
  lemma AppendSentinelItoa(doc: Json, q: seq<string>, v: Json)
    requires Lookup(doc, q).Ok? && Lookup(doc, q).value.JArr?
    requires |Lookup(doc, q).value.elems| <= MaxInt
    ensures SetExisting(doc, q + ["-"], v, true)
         == SetExisting(doc, q + [Itoa(|Lookup(doc, q).value.elems|)], v, true)
  {
    var n := |Lookup(doc, q).value.elems|;
    AtoiItoa(n);
    assert '~' !in Itoa(n) by {
      assert forall i :: 0 <= i < |Itoa(n)| ==> IsDigit(Itoa(n)[i]);
    }
    DecodeNoTilde(Itoa(n));
    AppendSentinel(doc, q, Itoa(n), v);
  }

  /** remove, when the container is a map or an array held by a map: the
      container at the parent path loses the entry, and nothing else
      changes. */
  lemma RemoveWritesBack(doc: Json, ptr: seq<string>)
    requires |ptr| >= 1
    requires var q := ptr[..|ptr| - 1];
      Lookup(doc, q).Ok? && (!Lookup(doc, q).value.JArr? || InMap(doc, q))
    ensures var q := ptr[..|ptr| - 1];
      RemoveAt(doc, ptr) == WriteBack(doc, q, Removed(Lookup(doc, q).value, Decode(ptr[|ptr| - 1])))
  {
    var q := ptr[..|ptr| - 1];
    var c := Lookup(doc, q).value;
    var key := Decode(ptr[|ptr| - 1]);
    if c.JArr? && Removed(c, key).Ok? {
      var i := Atoi(key).value;
      NestedWriteBack(doc, q, c.elems[..i] + c.elems[i + 1..]);
    }
  }

  /** replace, for any container except a top-level array: the container at
      the parent path has the entry overwritten, and nothing else changes. */
  lemma ReplaceWritesBack(doc: Json, ptr: seq<string>, o: Json)
    requires |ptr| >= 1
    requires var q := ptr[..|ptr| - 1];
      Lookup(doc, q).Ok? && (!Lookup(doc, q).value.JArr? || |q| >= 1)
    ensures var q := ptr[..|ptr| - 1];
      ReplaceAt(doc, ptr, o) == WriteBack(doc, q, Replaced(Lookup(doc, q).value, Decode(ptr[|ptr| - 1]), o))
  {
    var q := ptr[..|ptr| - 1];
    var c := Lookup(doc, q).value;
    if !c.JObj? && !c.JArr? {
      SetAtSame(doc, q);
    }
  }

  /** add, remove and replace rewrite only the container at the parent
      path: a path apart from it resolves as before. */
  lemma EditsLeaveApartPaths(doc: Json, ptr: seq<string>, v: Json, p: seq<string>)
    requires |ptr| >= 1 && Apart(doc, p, ptr[..|ptr| - 1])
    ensures var q := ptr[..|ptr| - 1];
      Lookup(doc, q).Ok? && (!Lookup(doc, q).value.JArr? || InMap(doc, q)) && SetExisting(doc, ptr, v, true).Ok?
      ==> Lookup(SetExisting(doc, ptr, v, true).value, p) == Lookup(doc, p)
    ensures var q := ptr[..|ptr| - 1];
      Lookup(doc, q).Ok? && (!Lookup(doc, q).value.JArr? || InMap(doc, q)) && RemoveAt(doc, ptr).Ok?
      ==> Lookup(RemoveAt(doc, ptr).value, p) == Lookup(doc, p)
    ensures var q := ptr[..|ptr| - 1];
      Lookup(doc, q).Ok? && ReplaceAt(doc, ptr, v).Ok?
      ==> Lookup(ReplaceAt(doc, ptr, v).value, p) == Lookup(doc, p)
  {
    var q := ptr[..|ptr| - 1];
    var key := Decode(ptr[|ptr| - 1]);
    if Lookup(doc, q).Ok? {
      var c := Lookup(doc, q).value;
      if !c.JArr? || InMap(doc, q) {
        if SetExisting(doc, ptr, v, true).Ok? {
          AddWritesBack(doc, ptr, v);
          LookupSetAtApart(doc, q, Added(c, key, v).value, p);
        }
        if RemoveAt(doc, ptr).Ok? {
          RemoveWritesBack(doc, ptr);
          LookupSetAtApart(doc, q, Removed(c, key).value, p);
        }
      }
      if ReplaceAt(doc, ptr, v).Ok? {
        ReplaceWritesBack(doc, ptr, v);
        LookupSetAtApart(doc, q, Replaced(c, key, v).value, p);
      }
    }
  }

  /** Removing what was just added restores the document. */
  lemma AddThenRemove(doc: Json, ptr: seq<string>, v: Json)
    requires |ptr| >= 1
    requires var q := ptr[..|ptr| - 1]; var key := Decode(ptr[|ptr| - 1]);
      && Lookup(doc, q).Ok?
      && var c := Lookup(doc, q).value;
      && (c.JObj? ==> key !in c.members)
      && (c.JArr? ==> Atoi(key).Some? && 0 <= Atoi(key).value <= |c.elems| && InMap(doc, q))
      && (c.JObj? || c.JArr?)
    ensures SetExisting(doc, ptr, v, true).Ok?
    ensures RemoveAt(SetExisting(doc, ptr, v, true).value, ptr) == Ok(doc)
  {
    var q := ptr[..|ptr| - 1];
    var key := Decode(ptr[|ptr| - 1]);
    var c := Lookup(doc, q).value;
    AddWritesBack(doc, ptr, v);
    RemovedAdded(c, key, v);
    var c1 := Added(c, key, v).value;
    var doc1 := SetAt(doc, q, c1);
    LookupSetAt(doc, q, c1);
    if c.JArr? {
      StillInMap(doc, q, c1);
    }
    RemoveWritesBack(doc1, ptr);
    SetAtTwice(doc, q, c1, c);
    SetAtSame(doc, q);
  }

  /** The member at ptr exists, and its container is a map or an array
      held by a map. */
  predicate Removable(doc: Json, ptr: seq<string>) {
    && |ptr| >= 1
    && var q := ptr[..|ptr| - 1]; var key := Decode(ptr[|ptr| - 1]);
    && Lookup(doc, q).Ok?
    && var c := Lookup(doc, q).value;
    && (c.JObj? ==> key in c.members)
    && (c.JArr? ==> Atoi(key).Some? && 0 <= Atoi(key).value < |c.elems| && InMap(doc, q))
    && (c.JObj? || c.JArr?)
  }

  /** A removable pointer resolves to the member it names. */
  lemma LookupRemovable(doc: Json, ptr: seq<string>)
    requires Removable(doc, ptr)
    ensures Lookup(doc, ptr) == Ok(Member(Lookup(doc, ptr[..|ptr| - 1]).value, Decode(ptr[|ptr| - 1])))
  {
    var q := ptr[..|ptr| - 1];
    var t := ptr[|ptr| - 1];
    assert ptr == q + [t];
    LookupLast(doc, q, t);
    StepMember(Lookup(doc, q).value, Decode(t));
  }

  /** Adding back what was just removed restores the document. */
  lemma RemoveThenAdd(doc: Json, ptr: seq<string>)
    requires Removable(doc, ptr)
    ensures RemoveAt(doc, ptr).Ok? && Lookup(doc, ptr).Ok?
    ensures SetExisting(RemoveAt(doc, ptr).value, ptr, Lookup(doc, ptr).value, true) == Ok(doc)
  {
    var q := ptr[..|ptr| - 1];
    var key := Decode(ptr[|ptr| - 1]);
    var c := Lookup(doc, q).value;
    var x := Member(c, key);
    assert Lookup(doc, ptr) == Ok(x) by {
      LookupRemovable(doc, ptr);
    }
    assert Removed(c, key).Ok? && Added(Removed(c, key).value, key, x) == Ok(c) by {
      AddedRemoved(c, key);
    }
    var c1 := Removed(c, key).value;
    var doc1 := SetAt(doc, q, c1);
    assert RemoveAt(doc, ptr) == Ok(doc1) by {
      RemoveWritesBack(doc, ptr);
    }
    assert Lookup(doc1, q) == Ok(c1) by {
      LookupSetAt(doc, q, c1);
    }
    assert !c1.JArr? || InMap(doc1, q) by {
      if c.JArr? {
        StillInMap(doc, q, c1);
      }
    }
    assert SetExisting(doc1, ptr, x, true) == Ok(SetAt(doc1, q, c)) by {
      AddWritesBack(doc1, ptr, x);
    }
    assert SetAt(doc1, q, c) == doc by {
      SetAtTwice(doc, q, c1, c);
      SetAtSame(doc, q);
    }
  }

  /** Rewriting the container at q keeps it under its map. */
  lemma StillInMap(doc: Json, q: seq<string>, x: Json)
    requires InMap(doc, q)
    ensures InMap(SetAt(doc, q, x), q)
  {
    var g := q[..|q| - 1];
    var gt := q[|q| - 1];
    assert q == g + [gt];
    MapAfterWrite(doc, g, gt, x);
  }

  /** Writing under a key of the map at g leaves a map at g. */
  lemma MapAfterWrite(doc: Json, g: seq<string>, gt: string, x: Json)
    requires Lookup(doc, g).Ok? && Lookup(doc, g).value.JObj?
    ensures Lookup(SetAt(doc, g + [gt], x), g).Ok? && Lookup(SetAt(doc, g + [gt], x), g).value.JObj?
  {
    var inner := SetAt(Lookup(doc, g).value, [gt], x);
    assert inner.JObj?;
    SetAtAppend(doc, g, [gt], x);
    LookupSetAt(doc, g, inner);
  }

  /** Replacing twice with the same value is replacing once. */
  lemma ReplaceIdempotent(doc: Json, ptr: seq<string>, o: Json)
    requires ReplaceAt(doc, ptr, o).Ok?
    ensures ReplaceAt(ReplaceAt(doc, ptr, o).value, ptr, o) == ReplaceAt(doc, ptr, o)
  {
    var q := ptr[..|ptr| - 1];
    var key := Decode(ptr[|ptr| - 1]);
    var c := Lookup(doc, q).value;
    ReplaceWritesBack(doc, ptr, o);
    var c1 := Replaced(c, key, o).value;
    LookupSetAt(doc, q, c1);
    var doc1 := SetAt(doc, q, c1);
    ReplaceWritesBack(doc1, ptr, o);
    ReplacedTwice(c, key, o);
    SetAtTwice(doc, q, c1, c1);
  }

  /** After a replace in a map or an array, the pointer resolves to o. */
  lemma ReplaceThenValue(doc: Json, ptr: seq<string>, o: Json)
    requires |ptr| >= 1
    requires var q := ptr[..|ptr| - 1];
      Lookup(doc, q).Ok? && (Lookup(doc, q).value.JObj? || Lookup(doc, q).value.JArr?)
    requires ReplaceAt(doc, ptr, o).Ok?
    ensures Lookup(ReplaceAt(doc, ptr, o).value, ptr) == Ok(o)
  {
    var q := ptr[..|ptr| - 1];
    var key := Decode(ptr[|ptr| - 1]);
    var c := Lookup(doc, q).value;
    ReplaceWritesBack(doc, ptr, o);
    var c1 := Replaced(c, key, o).value;
    LookupSetAt(doc, q, c1);
    assert ptr == q + [ptr[|ptr| - 1]];
    LookupLast(SetAt(doc, q, c1), q, ptr[|ptr| - 1]);
    StepReplaced(c, key, o);
  }

  /** The replaced entry of a map or an array holds the new value. */
  lemma StepReplaced(c: Json, key: string, o: Json)
    requires c.JObj? || c.JArr?
    requires Replaced(c, key, o).Ok?
    ensures Step(Replaced(c, key, o).value, key) == Ok(o)
  {
    if c.JArr? {
      var c1 := Replaced(c, key, o).value;
      assert ArrayIndex(|c1.elems|, key) == Ok(Atoi(key).value);
    }
  }

  // ---------------------------------------------------------------------
  // The patcher object
  // ---------------------------------------------------------------------

  /** How a state-changing method ends, given the function that specifies
      it: on success the document is the new one and no error is returned;
      on error the error is returned and the document is as it was. */
  predicate Outcome(r: Result<Json>, before: Json, after: Json, err: Option<Error>) {
    match r
    case Ok(d) => err == None && after == d
    case Err(e) => err == Some(e) && after == before
  }

  /** A pointer into a document, with the edits at that pointer. */
  class Patcher {
    var pointer: seq<string>
    var jsonObject: Json

    constructor (pointer: seq<string>, jsonObject: Json)
      ensures this.pointer == pointer && this.jsonObject == jsonObject
    {
      this.pointer := pointer;
      this.jsonObject := jsonObject;
    }

    /** `parent()`: none for a one-token pointer, otherwise a patcher on the
        pointer without its last token, over the same document. */
    method Parent() returns (q: Patcher?, err: Option<Error>)
      ensures err.Some? <==> pointer == []
      ensures err.Some? ==> err == Some(Panic(EmptyPointer))
      ensures q == null <==> |pointer| <= 1
      ensures q != null ==> fresh(q) && q.pointer == pointer[..|pointer| - 1] && q.jsonObject == jsonObject
    {
      if |pointer| == 0 {
        return null, Some(Panic(EmptyPointer));
      }
      if |pointer| == 1 {
        return null, None;
      }
      q := new Patcher(pointer[..|pointer| - 1], jsonObject);
      err := None;
    }

    /** `value()`: what the pointer refers to. */
    method Value() returns (r: Result<Json>)
      ensures r == Lookup(jsonObject, pointer)
    {
      r := ValueAt(pointer, jsonObject);
    }

    /** `exists()`: whether the pointer resolves; a panic of `value` is not
        caught. */
    method Exists() returns (r: Result<bool>)
      ensures r.Ok? <==> !(Lookup(jsonObject, pointer).Err? && Lookup(jsonObject, pointer).error.Panic?)
      ensures r.Ok? ==> (r.value <==> Lookup(jsonObject, pointer).Ok?)
      ensures r.Err? ==> r.error.Panic?
    {
      var v := ValueAt(pointer, jsonObject);
      if v.Err? && v.error.Panic? {
        return Err(v.error);
      }
      return Ok(v.Ok?);
    }

    /** `parentValue()`: what the pointer without its last token refers to. */
    method ParentValue() returns (r: Result<Json>)
      ensures pointer == [] ==> r == Err(Panic(EmptyPointer))
      ensures pointer != [] ==> r == Lookup(jsonObject, pointer[..|pointer| - 1])
    {
      if |pointer| == 0 {
        return Err(Panic(EmptyPointer));
      }
      r := ValueAt(pointer[..|pointer| - 1], jsonObject);
    }

    /** `setParentValue(v)`: the store goes through the reference `value`
        returns, which is the patcher's own root only for a one-token
        pointer; deeper, it is a local copy and the store has no effect. */
    method SetParentValue(v: Json) returns (err: Option<Error>)
      modifies this
      ensures pointer == old(pointer)
      ensures pointer == [] ==> err == Some(Panic(EmptyPointer)) && jsonObject == old(jsonObject)
      ensures |pointer| == 1 ==> err == None && jsonObject == v
      ensures |pointer| >= 2 ==> jsonObject == old(jsonObject)
      ensures |pointer| >= 2 ==>
        (err == None <==> Lookup(old(jsonObject), pointer[..|pointer| - 1]).Ok?)
      ensures err.Some? ==> err.value.Panic?
      ensures pointer != [] && err.Some? ==>
        var r := Lookup(old(jsonObject), pointer[..|pointer| - 1]);
        err == Some(if r.error.Panic? then r.error else Panic(NilPointer))
    {
      if |pointer| == 0 {
        return Some(Panic(EmptyPointer));
      }
      var ref := ValueAt(pointer[..|pointer| - 1], jsonObject);
      if ref.Err? {
        // `value` panicked itself, or returned a nil reference that the
        // store dereferences.
        return Some(if ref.error.Panic? then ref.error else Panic(NilPointer));
      }
      if |pointer| == 1 {
        jsonObject := v;
      }
      return None;
    }

    /** `setExistingValue(v)`. */
    method SetExistingValue(v: Json) returns (err: Option<Error>)
      modifies this
      ensures pointer == old(pointer)
      ensures Outcome(SetExisting(old(jsonObject), pointer, v, true), old(jsonObject), jsonObject, err)
    {
      err := SetExistingAt(pointer, v, true);
    }

    /** `setExistingValue(v)` on a patcher with pointer `path` over this
        document. The patcher that `parent()` returns shares the document's
        maps and arrays but has its own root variable: its calls are made
        with `top == false`, where a reassignment of the root is lost. */
    method SetExistingAt(path: seq<string>, v: Json, top: bool) returns (err: Option<Error>)
      modifies this
      ensures pointer == old(pointer)
      ensures Outcome(SetExisting(old(jsonObject), path, v, top), old(jsonObject), jsonObject, err)
      decreases |path|
    {
      if |path| == 0 {
        return Some(Panic(EmptyPointer));
      }
      var q := path[..|path| - 1];
      var ref := ValueAt(q, jsonObject);
      if ref.Err? {
        return Some(ref.error);
      }
      var key := Decode(path[|path| - 1]);
      match ref.value {
        case JObj(t) =>
          jsonObject := SetAt(jsonObject, q, JObj(t[key := v]));
          return None;
        case JArr(pa) =>
          var na: seq<Json>;
          if key == "-" {
            na := pa + [v];
          } else {
            var i := Atoi(key);
            if i.None? {
              return Some(NotAnInteger(key));
            }
            if i.value < 0 || i.value > |pa| {
              return Some(Panic(IndexOutOfRange));
            }
            na := pa[..i.value] + [v] + pa[i.value..];
          }
          if |path| == 1 {
            if top {
              jsonObject := JArr(na);
            }
            return None;
          }
          var e := SetExistingAt(q, JArr(na), false);
          if e.Some? && e.value.Panic? {
            return e;
          }
          return None;
        case _ =>
          return Some(Panic(UnknownType));
      }
    }

    /** `remove()`. */
    method Remove() returns (err: Option<Error>)
      modifies this
      ensures pointer == old(pointer)
      ensures Outcome(RemoveAt(old(jsonObject), pointer), old(jsonObject), jsonObject, err)
    {
      var ref := ParentValue();
      if ref.Err? {
        return Some(ref.error);
      }
      var q := pointer[..|pointer| - 1];
      var key := Decode(pointer[|pointer| - 1]);
      match ref.value {
        case JObj(t) =>
          jsonObject := SetAt(jsonObject, q, JObj(t - {key}));
          return None;
        case JArr(container) =>
          var i := Atoi(key);
          if i.None? {
            return Some(NotAnInteger(key));
          }
          if |pointer| == 1 {
            return Some(Panic(NilPointer));
          }
          if i.value < 0 || i.value >= |container| {
            return Some(Panic(IndexOutOfRange));
          }
          var e := SetExistingAt(q, JArr(container[..i.value] + container[i.value + 1..]), false);
          if e.Some? && e.value.Panic? {
            return e;
          }
          return None;
        case _ =>
          return Some(Panic(UnknownType));
      }
    }

    /** `replace(o)`. */
    method Replace(o: Json) returns (err: Option<Error>)
      modifies this
      ensures pointer == old(pointer)
      ensures Outcome(ReplaceAt(old(jsonObject), pointer, o), old(jsonObject), jsonObject, err)
    {
      var ref := ParentValue();
      if ref.Err? {
        return Some(ref.error);
      }
      var q := pointer[..|pointer| - 1];
      var key := Decode(pointer[|pointer| - 1]);
      match ref.value {
        case JObj(_) =>
          // The container is a map, so this add cannot fail and the error
          // Go drops here is always nil.
          assert ReplaceAt(jsonObject, pointer, o) == SetExisting(jsonObject, pointer, o, true);
          err := SetExistingAt(pointer, o, true);
        case JArr(container) =>
          var i := Atoi(key);
          if i.None? {
            return Some(NotAnInteger(key));
          }
          if |pointer| == 1 {
            return Some(Panic(NilPointer));
          }
          if i.value < 0 || i.value >= |container| {
            return Some(Panic(IndexOutOfRange));
          }
          jsonObject := SetAt(jsonObject, q, JArr(container[i.value := o]));
          return None;
        case _ =>
          return None;
      }
    }
  }
}
