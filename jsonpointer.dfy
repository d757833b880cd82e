/** JSON Pointer (RFC 6901): splitting a pointer string into reference
    tokens (section 3), unescaping a token (section 4) and walking the tokens
    through a document to a location handle (jsonpointer.go). */
module Pointer {
  import opened Values
  import opened Strconv

  // ---------------------------------------------------------------------
  // Escaping (section 4 of RFC 6901)
  // ---------------------------------------------------------------------

  /** `strings.Replace(s, "~" + [digit], [repl], -1)`: every leftmost,
      non-overlapping occurrence of the two-character escape is replaced. */
  function ReplaceEscape(s: string, digit: char, repl: char): (r: string)
    ensures |r| <= |s|
    decreases |s|
  {
    if s == [] then []
    else if |s| >= 2 && s[0] == '~' && s[1] == digit then [repl] + ReplaceEscape(s[2..], digit, repl)
    else [s[0]] + ReplaceEscape(s[1..], digit, repl)
  }

  /** `decode` (and `reftoken.token`, which only calls it): "~1" becomes '/'
      first, then "~0" becomes '~'. */
  function Decode(s: string): (r: string)
    ensures |r| <= |s|
  {
    ReplaceEscape(ReplaceEscape(s, '1', '/'), '0', '~')
  }

  /** The escaping a pointer writer applies: '~' as "~0", '/' as "~1". */
  function EscapeChar(c: char): string {
    if c == '~' then "~0" else if c == '/' then "~1" else [c]
  }

  function Escape(t: string): (e: string)
    ensures '/' !in e
  {
    if t == [] then [] else EscapeChar(t[0]) + Escape(t[1..])
  }

  /** Only the '~' half of the escaping. */
  function EscapeTilde(t: string): string {
    if t == [] then [] else (if t[0] == '~' then "~0" else [t[0]]) + EscapeTilde(t[1..])
  }

  lemma {:induction false} UnescapeSlashes(t: string)
    ensures ReplaceEscape(Escape(t), '1', '/') == EscapeTilde(t)
  {
    if t != [] {
      var x := Escape(t[1..]);
      UnescapeSlashes(t[1..]);
      var e := Escape(t);
      assert e == EscapeChar(t[0]) + x;
      if t[0] == '/' {
        assert e[0] == '~' && e[1] == '1' && e[2..] == x;
      } else if t[0] == '~' {
        assert e[0] == '~' && e[1] == '0' && e[1..] == "0" + x;
        var y := e[1..];
        assert y[0] == '0' && y[1..] == x;
        assert ReplaceEscape(y, '1', '/') == "0" + ReplaceEscape(x, '1', '/');
      } else {
        assert e[0] == t[0] && e[1..] == x;
      }
    }
  }

  lemma {:induction false} UnescapeTildes(t: string)
    ensures ReplaceEscape(EscapeTilde(t), '0', '~') == t
  {
    if t != [] {
      var x := EscapeTilde(t[1..]);
      UnescapeTildes(t[1..]);
      var e := EscapeTilde(t);
      if t[0] == '~' {
        assert e == "~0" + x;
        assert e[0] == '~' && e[1] == '0' && e[2..] == x;
      } else {
        assert e == [t[0]] + x;
        assert e[0] == t[0] && e[1..] == x;
      }
      assert t == [t[0]] + t[1..];
    }
  }

  /** Decoding undoes escaping for every token, including ones holding
      "~1", "~0", '/' and '~' in any combination. */
  lemma DecodeEscape(t: string)
    ensures Decode(Escape(t)) == t
  {
    UnescapeSlashes(t);
    UnescapeTildes(t);
  }

  lemma {:induction false} ReplaceEscapeNoTilde(s: string, digit: char, repl: char)
    requires '~' !in s
    ensures ReplaceEscape(s, digit, repl) == s
  {
    if s != [] {
      ReplaceEscapeNoTilde(s[1..], digit, repl);
      assert s == [s[0]] + s[1..];
    }
  }

  /** A token without '~' is its own key. */
  lemma DecodeNoTilde(s: string)
    requires '~' !in s
    ensures Decode(s) == s
  {
    ReplaceEscapeNoTilde(s, '1', '/');
    ReplaceEscapeNoTilde(s, '0', '~');
  }

  /** The order of the two replacements matters: "~01" is a '~' followed by
      '1', never a '/'. */
  lemma DecodeOrder()
    ensures Decode("~01") == "~1"
    ensures Decode("~1") == "/" && Decode("~0") == "~"
  {
    assert ReplaceEscape("~01", '1', '/') == "~01" by {
      assert ReplaceEscape("1", '1', '/') == "1";
      assert ReplaceEscape("01", '1', '/') == "01";
    }
    assert ReplaceEscape("~01", '0', '~') == "~1" by {
      assert ("~01")[2..] == "1";
      assert ReplaceEscape("1", '0', '~') == "1";
    }
    assert ReplaceEscape("/", '0', '~') == "/";
  }

  /** Two escaped keys, decoded. */
  lemma DecodeEscapedKeys()
    ensures Decode("a~0") == "a~" && Decode("b~1~1") == "b//"
  {
    assert ReplaceEscape("a~0", '1', '/') == "a~0" by {
      assert ReplaceEscape("0", '1', '/') == "0";
      assert ReplaceEscape("~0", '1', '/') == "~0";
    }
    assert ReplaceEscape("a~0", '0', '~') == "a~" by {
      assert ReplaceEscape("~0", '0', '~') == "~";
    }
    assert ReplaceEscape("b~1~1", '1', '/') == "b//" by {
      assert ReplaceEscape("~1", '1', '/') == "/";
      assert ("~1~1")[2..] == "~1";
      assert ReplaceEscape("~1~1", '1', '/') == "//";
    }
    assert ReplaceEscape("b//", '0', '~') == "b//" by {
      ReplaceEscapeNoTilde("b//", '0', '~');
    }
  }

  // ---------------------------------------------------------------------
  // Tokenizing (section 3 of RFC 6901)
  // ---------------------------------------------------------------------

  /** `strings.Index(s, "/")`: the first '/' in s, or -1. */
  function IndexOfSlash(s: string): (k: int)
    ensures -1 <= k < |s|
    ensures k >= 0 ==> s[k] == '/' && '/' !in s[..k]
    ensures k < 0 ==> '/' !in s
  {
    if s == [] then -1
    else if s[0] == '/' then 0
    else
      var k := IndexOfSlash(s[1..]);
      assert s == [s[0]] + s[1..];
      if k < 0 then -1
      else
        assert s[..k + 1] == [s[0]] + s[1..][..k];
        k + 1
  }

  /** `newRefToken`: the raw token after the leading '/'. Its two panics
      (empty input, no leading '/') are excluded: its only caller, the
      tokenizer, never passes such an input. */
  function NewRefToken(s: string): (r: string)
    requires |s| > 0 && s[0] == '/'
    ensures "/" + r == s
  {
    s[1..]
  }

  /** The raw (still escaped) tokens of a pointer that does not start with
      '#': one per '/' segment, the segment after a trailing '/' being "".
      A non-empty string that does not start with '/' makes Go panic. */
  function Tokens(s: string): (r: Result<seq<string>>)
    ensures r.Err? ==> r.error == Panic(MalformedPointer)
    decreases |s|
  {
    if s == [] then Ok([])
    else if s[0] != '/' then Err(Panic(MalformedPointer))
    else
      var next := IndexOfSlash(s[1..]);
      if next < 0 then Ok([NewRefToken(s)])
      else
        match Tokens(s[next + 1..])
        case Ok(rest) => Ok([NewRefToken(s[..next + 1])] + rest)
        case Err(e) => Err(e)
  }

  /** What `newJSONPointer` returns for a path. */
  function SplitPath(path: string): (r: Result<seq<string>>)
    ensures r.Err? ==> r.error == FragmentPointer || r.error == Panic(MalformedPointer)
  {
    if |path| > 0 && path[0] == '#' then Err(FragmentPointer) else Tokens(path)
  }

  function Prepend(head: seq<string>, r: Result<seq<string>>): Result<seq<string>> {
    match r
    case Ok(ts) => Ok(head + ts)
    case Err(e) => Err(e)
  }

  lemma PrependPrepend(a: seq<string>, b: seq<string>, r: Result<seq<string>>)
    ensures Prepend(a, Prepend(b, r)) == Prepend(a + b, r)
    ensures Prepend([], r) == r
  {
    if r.Ok? {
      assert a + (b + r.value) == (a + b) + r.value;
      assert [] + r.value == r.value;
    }
  }

  /** `newJSONPointer`: the loop that appends one token per segment while
      shrinking the unread suffix `s`. */
  method NewJsonPointer(path: string) returns (head: Result<seq<string>>)
    ensures head == SplitPath(path)
  {
    if |path| > 0 && path[0] == '#' {
      return Err(FragmentPointer);
    }
    var acc: seq<string> := [];
    var s := path;
    PrependPrepend([], [], Tokens(path));
    while |s| > 0
      invariant Tokens(path) == Prepend(acc, Tokens(s))
      decreases |s|
    {
      if s[0] == '/' {
        if |s| == 1 {
          return Ok(acc + [NewRefToken(s)]);
        }
        var next := IndexOfSlash(s[1..]);
        if next == -1 {
          return Ok(acc + [NewRefToken(s)]);
        }
        next := next + 1;
        assert Tokens(s) == Prepend([NewRefToken(s[..next])], Tokens(s[next..]));
        PrependPrepend(acc, [NewRefToken(s[..next])], Tokens(s[next..]));
        acc := acc + [NewRefToken(s[..next])];
        s := s[next..];
      } else {
        return Err(Panic(MalformedPointer));
      }
    }
    assert acc + [] == acc;
    return Ok(acc);
  }

  /** Re-joining raw tokens: "/" + token for each, in order. */
  function Join(ts: seq<string>): (p: string)
    ensures ts != [] ==> |p| > 0 && p[0] == '/'
  {
    if ts == [] then "" else "/" + ts[0] + Join(ts[1..])
  }

  function CountSlash(s: string): nat {
    if s == [] then 0 else (if s[0] == '/' then 1 else 0) + CountSlash(s[1..])
  }

  predicate SlashFree(ts: seq<string>) {
    forall i :: 0 <= i < |ts| ==> '/' !in ts[i]
  }

  /** Tokenizing fails exactly on a non-empty path without a leading '/';
      otherwise re-joining the raw tokens gives back the path, and no raw
      token holds a '/'. */
  lemma {:induction false} TokensJoin(s: string)
    ensures Tokens(s).Ok? <==> (s == [] || s[0] == '/')
    ensures Tokens(s).Ok? ==> Join(Tokens(s).value) == s && SlashFree(Tokens(s).value)
    decreases |s|
  {
    if s != [] && s[0] == '/' {
      var next := IndexOfSlash(s[1..]);
      if next < 0 {
        assert "/" + s[1..] + "" == s;
        assert forall j :: 0 <= j < |s| - 1 ==> s[1..][j] != '/';
      } else {
        var tok := s[1..next + 1];
        var tail := s[next + 1..];
        assert tail[0] == '/';
        assert '/' !in tok by {
          assert tok == s[1..][..next];
        }
        assert s == "/" + tok + tail;
        TokensJoin(tail);
        TokensCons(tok, tail);
        var rest := Tokens(tail).value;
        assert ([tok] + rest)[1..] == rest;
      }
    }
  }

  lemma {:induction false} IndexOfSlashAppend(a: string, b: string)
    requires '/' !in a
    ensures IndexOfSlash(a + b) == if IndexOfSlash(b) < 0 then -1 else |a| + IndexOfSlash(b)
  {
    if a == [] {
      assert a + b == b;
    } else {
      assert (a + b)[0] == a[0];
      assert (a + b)[1..] == a[1..] + b;
      IndexOfSlashAppend(a[1..], b);
    }
  }

  /** Joining slash-free raw tokens and tokenizing again gives the same
      tokens. */
  lemma {:induction false} JoinTokens(ts: seq<string>)
    requires SlashFree(ts)
    ensures Tokens(Join(ts)) == Ok(ts)
  {
    if ts != [] {
      assert SlashFree(ts[1..]) by {
        forall k | 0 <= k < |ts| - 1 ensures '/' !in ts[1..][k] {
          assert ts[1..][k] == ts[k + 1];
        }
      }
      JoinTokens(ts[1..]);
      assert '/' !in ts[0];
      TokensCons(ts[0], Join(ts[1..]));
      assert ts == [ts[0]] + ts[1..];
    }
  }

  /** A slash-free token after a '/', then a path that is empty or starts
      with '/', tokenizes as that token followed by the path's tokens. */
  lemma TokensCons(tok: string, tail: string)
    requires '/' !in tok
    requires tail == [] || tail[0] == '/'
    ensures Tokens("/" + tok + tail) == Prepend([tok], Tokens(tail))
  {
    if tail == [] {
      TokensLastSegment(tok);
      assert "/" + tok + tail == "/" + tok;
      assert Tokens(tail) == Ok([]);
      assert [tok] + [] == [tok];
    } else {
      TokensInnerSegment(tok, tail);
    }
  }

  lemma TokensLastSegment(tok: string)
    requires '/' !in tok
    ensures Tokens("/" + tok) == Ok([tok])
  {
    var s := "/" + tok;
    assert s[1..] == tok;
    assert IndexOfSlash(tok) < 0;
  }

  lemma TokensInnerSegment(tok: string, tail: string)
    requires '/' !in tok
    requires |tail| > 0 && tail[0] == '/'
    ensures Tokens("/" + tok + tail) == Prepend([tok], Tokens(tail))
  {
    var s := "/" + tok + tail;
    assert s[1..] == tok + tail;
    IndexOfSlashAppend(tok, tail);
    var next := IndexOfSlash(s[1..]);
    assert next == |tok|;
    assert s[next + 1..] == tail;
    assert NewRefToken(s[..next + 1]) == tok;
  }

  lemma {:induction false} CountSlashAppend(a: string, b: string)
    ensures CountSlash(a + b) == CountSlash(a) + CountSlash(b)
  {
    if a == [] {
      assert a + b == b;
    } else {
      assert (a + b)[0] == a[0];
      assert (a + b)[1..] == a[1..] + b;
      CountSlashAppend(a[1..], b);
    }
  }

  lemma {:induction false} CountSlashFree(s: string)
    requires '/' !in s
    ensures CountSlash(s) == 0
  {
    if s != [] { CountSlashFree(s[1..]); }
  }

  lemma {:induction false} CountJoin(ts: seq<string>)
    requires SlashFree(ts)
    ensures CountSlash(Join(ts)) == |ts|
  {
    if ts != [] {
      CountJoin(ts[1..]);
      CountSlashAppend("/" + ts[0], Join(ts[1..]));
      CountSlashAppend("/", ts[0]);
      CountSlashFree(ts[0]);
    }
  }

  /** For a path starting with '/', there are as many tokens as '/'
      characters: "/" has one (empty) token, a trailing '/' adds an empty
      token, and "" has none. */
  lemma TokenCount(s: string)
    requires s == [] || s[0] == '/'
    ensures Tokens(s).Ok? && |Tokens(s).value| == CountSlash(s)
  {
    TokensJoin(s);
    CountJoin(Tokens(s).value);
  }

  function DecodeAll(ts: seq<string>): (ks: seq<string>)
    ensures |ks| == |ts|
    ensures forall i :: 0 <= i < |ts| ==> ks[i] == Decode(ts[i])
  {
    if ts == [] then [] else [Decode(ts[0])] + DecodeAll(ts[1..])
  }

  function EscapeAll(ts: seq<string>): (es: seq<string>)
    ensures |es| == |ts| && SlashFree(es)
    ensures forall i :: 0 <= i < |ts| ==> es[i] == Escape(ts[i])
  {
    if ts == [] then [] else [Escape(ts[0])] + EscapeAll(ts[1..])
  }

  /** The pointer written from any keys, by escaping each and joining,
      tokenizes back into exactly those keys. */
  lemma PointerRoundTrip(keys: seq<string>)
    ensures var p := Join(EscapeAll(keys));
      SplitPath(p).Ok? && DecodeAll(SplitPath(p).value) == keys
  {
    var es := EscapeAll(keys);
    JoinTokens(es);
    forall i | 0 <= i < |keys| ensures DecodeAll(es)[i] == keys[i] {
      DecodeEscape(keys[i]);
    }
  }

  /** `jsonptr.remainder(i)`: the raw tokens from i on, re-joined, without
      the leading '/'. An index outside the tokens panics: past the end
      `j[i:]` does, and at the end `s[1:]` of the empty string does. */
  function Remainder(j: seq<string>, i: int): (r: Result<string>)
    ensures r.Ok? <==> 0 <= i < |j|
    ensures r.Err? ==> r.error == Panic(IndexOutOfRange)
    ensures r.Ok? ==> "/" + r.value == Join(j[i..])
  {
    if i < 0 || i >= |j| then Err(Panic(IndexOutOfRange))
    else
      var s := Join(j[i..]);
      assert s == [s[0]] + s[1..];
      Ok(s[1..])
  }

  /** remainder(0) of a tokenized non-empty path is the path after its
      leading '/'. */
  lemma RemainderOfPath(path: string)
    requires |path| > 0 && path[0] == '/'
    ensures SplitPath(path).Ok? && |SplitPath(path).value| > 0
    ensures Remainder(SplitPath(path).value, 0) == Ok(path[1..])
  {
    TokensJoin(path);
    assert SplitPath(path) == Tokens(path);
    var j := Tokens(path).value;
    assert j[0..] == j;
  }

  /** `jsonptr.String`: "/" + the DECODED token, for each token. */
  function ToString(j: seq<string>): (r: string)
    ensures j != [] ==> |r| > 0 && r[0] == '/'
    ensures |r| >= |j|
  {
    if j == [] then "" else "/" + Decode(j[0]) + ToString(j[1..])
  }

  lemma {:induction false} ToStringIsJoinOfKeys(j: seq<string>)
    ensures ToString(j) == Join(DecodeAll(j))
  {
    if j != [] {
      ToStringIsJoinOfKeys(j[1..]);
      assert DecodeAll(j)[1..] == DecodeAll(j[1..]);
    }
  }

  /** String() gives back a path that holds no '~', but it does not escape
      again: "/a~1b" prints as "/a/b". */
  lemma ToStringOfPlainPath(path: string)
    requires |path| > 0 && path[0] == '/' && '~' !in path
    ensures SplitPath(path).Ok? && ToString(SplitPath(path).value) == path
  {
    TokensJoin(path);
    var j := Tokens(path).value;
    ToStringIsJoinOfKeys(j);
    forall i | 0 <= i < |j| ensures DecodeAll(j)[i] == j[i] {
      assert '~' !in j[i] by { TildeFreeTokens(path, i); }
      DecodeNoTilde(j[i]);
    }
    assert DecodeAll(j) == j;
  }

  lemma {:induction false} TildeFreeTokens(s: string, i: nat)
    requires '~' !in s && Tokens(s).Ok? && i < |Tokens(s).value|
    ensures '~' !in Tokens(s).value[i]
    decreases |s|
  {
    var next := IndexOfSlash(s[1..]);
    if next >= 0 && i > 0 {
      var tail := s[next + 1..];
      assert Tokens(s).value[i] == Tokens(tail).value[i - 1];
      TildeFreeTokens(tail, i - 1);
    }
  }

  lemma ToStringDoesNotEscape()
    ensures SplitPath("/a~1b") == Ok(["a~1b"])
    ensures ToString(["a~1b"]) == "/a/b"
  {
    assert IndexOfSlash("a~1b") == -1;
    assert Decode("a~1b") == "a/b" by {
      assert ReplaceEscape("b", '1', '/') == "b";
      assert ("a~1b")[1..] == "~1b";
      assert ("~1b")[2..] == "b";
      ReplaceEscapeNoTilde("a/b", '0', '~');
    }
  }

  /** The tokenizer examples: token counts, trailing '/' and escapes. */
  lemma TokenizerExamples()
    ensures SplitPath("") == Ok([])
    ensures SplitPath("/") == Ok([""])
    ensures SplitPath("/a/") == Ok(["a", ""])
    ensures SplitPath("/a/b/") == Ok(["a", "b", ""])
    ensures SplitPath("a/b") == Err(Panic(MalformedPointer))
  {
    JoinExample([""], "/");
    JoinExample(["a", ""], "/a/");
    JoinExample(["a", "b", ""], "/a/b/");
  }

  lemma EscapedTokensExample()
    ensures SplitPath("/a~0/b~1~1/c") == Ok(["a~0", "b~1~1", "c"])
  {
    var ts := ["a~0", "b~1~1", "c"];
    assert SlashFree(ts) by {
      assert '/' !in ts[0] && '/' !in ts[1] && '/' !in ts[2];
    }
    assert Join(ts) == "/a~0/b~1~1/c" by {
      assert Join(ts[2..]) == "/c";
      assert Join(ts[1..]) == "/b~1~1/c";
    }
    JoinExample(ts, "/a~0/b~1~1/c");
  }

  lemma EscapedKeysExample()
    ensures DecodeAll(["a~0", "b~1~1", "c"]) == ["a~", "b//", "c"]
  {
    DecodeEscapedKeys();
    assert Decode("c") == "c" by { DecodeNoTilde("c"); }
  }

  lemma JoinExample(ts: seq<string>, p: string)
    requires SlashFree(ts) && Join(ts) == p
    requires |p| == 0 || p[0] != '#'
    ensures SplitPath(p) == Ok(ts)
  {
    JoinTokens(ts);
  }

  // ---------------------------------------------------------------------
  // Location handles and resolution (jsonPointer)
  // ---------------------------------------------------------------------

  /** The handle `jsonPointer` returns: the whole document (`refPointer`),
      a key of a map (`mapPointer`) or a slot of an array (`arrayPointer`,
      with the last map slot passed on the way, through which an insertion
      is written back). Handles are values here: an edit returns the edited
      handle. */
  datatype Handle =
    | RefPointer(value: Json)
    | MapPointer(mm: map<string, Json>, el: string)
    | ArrayPointer(a: seq<Json>, idx: int, last: Option<Handle>)
  {
    /** `Value()`: a missing map key reads as Go's nil; an array slot outside
        the array panics. */
    function Get(): (r: Result<Json>)
      ensures MapPointer? ==> r == Ok(if el in mm then mm[el] else JNull)
      ensures ArrayPointer? ==> (r.Ok? <==> 0 <= idx < |a|)
      ensures ArrayPointer? && r.Ok? ==> r.value == a[idx]
      ensures RefPointer? ==> r == Ok(value)
    {
      match this
      case RefPointer(v) => Ok(v)
      case MapPointer(m, k) => Ok(if k in m then m[k] else JNull)
      case ArrayPointer(s, i, _) => if 0 <= i < |s| then Ok(s[i]) else Err(Panic(IndexOutOfRange))
    }

    /** `Insert(v)`: a map slot sets its key, whether or not it was there; an
        array slot rebuilds its array with v at idx and stores it through the
        enclosing map slot; the root cannot be inserted into. */
    function Insert(v: Json): (r: Result<Handle>)
      decreases this
      ensures RefPointer? ==> r == Err(Panic(RootInsert))
      ensures MapPointer? ==> (r.Ok? && r.value.MapPointer? && r.value.el == el
        && r.value.mm.Keys == mm.Keys + {el} && r.value.mm[el] == v
        && forall k :: k in mm && k != el ==> r.value.mm[k] == mm[k])
      ensures ArrayPointer? && (last.None? || !last.value.MapPointer?) ==> r == Err(Panic(TopLevelArray))
      ensures ArrayPointer? ==> (r.Ok? <==> last.Some? && last.value.MapPointer? && 0 <= idx <= |a|)
      ensures ArrayPointer? && r.Ok? ==>
        var lm := last.value;
        var h := r.value;
        // the same slot, whose enclosing map slot now holds the array with v at idx
        h.ArrayPointer? && h.a == a && h.idx == idx && h.last.Some?
        && h.last.value.MapPointer? && h.last.value.el == lm.el
        && h.last.value.mm.Keys == lm.mm.Keys + {lm.el}
        && (forall k :: k in lm.mm && k != lm.el ==> h.last.value.mm[k] == lm.mm[k])
        && h.last.value.mm[lm.el].JArr?
        && var na := h.last.value.mm[lm.el].elems;
           |na| == |a| + 1 && na[..idx] == a[..idx] && na[idx] == v && na[idx + 1..] == a[idx..]
    {
      match this
      case RefPointer(_) => Err(Panic(RootInsert))
      case MapPointer(m, k) => Ok(MapPointer(m[k := v], k))
      case ArrayPointer(s, i, l) =>
        if l.None? || !l.value.MapPointer? then Err(Panic(TopLevelArray))
        else if i < 0 || i > |s| then Err(Panic(IndexOutOfRange))
        else
          var lm := l.value;
          Ok(ArrayPointer(s, i, Some(MapPointer(lm.mm[lm.el := JArr(s[..i] + [v] + s[i..])], lm.el))))
    }

    /** `Remove()`: only a map slot can remove, and it deletes only its key. */
    function Remove(): (r: Result<Handle>)
      ensures r.Ok? <==> MapPointer?
      ensures MapPointer? ==> (r.value.MapPointer? && r.value.el == el
        && r.value.mm.Keys == mm.Keys - {el}
        && forall k :: k in r.value.mm ==> r.value.mm[k] == mm[k])
    {
      match this
      case RefPointer(_) => Err(Panic(RootRemove))
      case MapPointer(m, k) => Ok(MapPointer(m - {k}, k))
      case ArrayPointer(_, _, _) => Err(Panic(ArrayRemove))
    }
  }

  /** What `jsonPointer` returns: a handle and, when resolution stopped, the
      error (ErrorInvalidJSONPath for a missing key, with the handle for that
      key; a Panic for what makes Go panic). */
  datatype Located = Located(handle: Handle, err: Option<Error>)

  /** The loop of `jsonPointer` from some iteration on: `ref` is the value
      reached, `h` the handle for it and `last` the last map slot passed. */
  function Walk(ref: Json, h: Handle, last: Option<Handle>, fields: seq<string>): (r: Located)
    // a missing key is the only returned error, and its handle is that key's slot
    ensures r.err.None? || r.err == Some(InvalidJsonPath) || r.err.value.Panic?
    ensures r.err == Some(InvalidJsonPath) ==> r.handle.MapPointer? && r.handle.el !in r.handle.mm
    decreases |fields|
  {
    if fields == [] then Located(h, None)
    else
      var el := Decode(fields[0]);
      match ref
      case JObj(t) =>
        var slot := MapPointer(t, el);
        if el !in t then Located(slot, Some(InvalidJsonPath))
        else Walk(t[el], slot, Some(slot), fields[1..])
      case JArr(t) =>
        (match Atoi(el)
         case None => Located(h, Some(Panic(NotAnIndex)))
         case Some(idx) =>
           var slot := ArrayPointer(t, idx, last);
           if idx < 0 || idx >= |t| then Located(slot, Some(Panic(IndexOutOfRange)))
           else Walk(t[idx], slot, last, fields[1..]))
      case _ => Located(h, Some(Panic(UnknownType)))
  }

  /** `jsonPointer(fields, doc)`. */
  method JsonPointer(fields: seq<string>, doc: Json) returns (value: Handle, err: Option<Error>)
    ensures Located(value, err) == Walk(doc, RefPointer(doc), None, fields)
  {
    var ref := doc;
    value := RefPointer(doc);
    var last: Option<Handle> := None;
    var i := 0;
    while i < |fields|
      invariant 0 <= i <= |fields|
      invariant Walk(doc, RefPointer(doc), None, fields) == Walk(ref, value, last, fields[i..])
    {
      assert fields[i..][1..] == fields[i + 1..];
      var el := Decode(fields[i]);
      match ref {
        case JObj(t) =>
          last := Some(MapPointer(t, el));
          value := last.value;
          if el !in t {
            return value, Some(InvalidJsonPath);
          }
          ref := t[el];
        case JArr(t) =>
          var idx := Atoi(el);
          if idx.None? {
            return value, Some(Panic(NotAnIndex));
          }
          value := ArrayPointer(t, idx.value, last);
          if idx.value < 0 || idx.value >= |t| {
            return value, Some(Panic(IndexOutOfRange));
          }
          ref := t[idx.value];
        case _ =>
          return value, Some(Panic(UnknownType));
      }
      i := i + 1;
    }
    err := None;
  }

  /** A resolved handle holds the value the walk reached. */
  lemma {:induction false} WalkValue(ref: Json, h: Handle, last: Option<Handle>, fields: seq<string>)
    requires h.Get() == Ok(ref)
    requires Walk(ref, h, last, fields).err.None?
    ensures Walk(ref, h, last, fields).handle.Get().Ok?
    decreases |fields|
  {
    if fields != [] {
      var el := Decode(fields[0]);
      match ref
      case JObj(t) =>
        WalkValue(t[el], MapPointer(t, el), Some(MapPointer(t, el)), fields[1..]);
      case JArr(t) =>
        var idx := Atoi(el).value;
        WalkValue(t[idx], ArrayPointer(t, idx, last), last, fields[1..]);
    }
  }
}
