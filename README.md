# A verified model of the rfc6902 JSON Patch engine

This project models, in Dafny, the core of a Go implementation of JSON Patch
(RFC 6902) and JSON Pointer (RFC 6901). The core has three layers:

- **jsonpointer.go: the pointer tokenizer and resolver** (module `Pointer`,
  file `jsonpointer.dfy`).
  - `newJSONPointer` splits a path into raw reference tokens. It is modelled
    by the loop `NewJsonPointer`, which is proved equal to the function
    `SplitPath`.
  - `decode` (through `reftoken.token`) unescapes a token: "~1" becomes '/',
    then "~0" becomes '~'.
  - `remainder` and `String` re-join tokens.
  - `jsonPointer` walks the tokens to a location handle: the root, a map slot
    or an array slot.
- **patcher.go: the tree editor** (module `Edits`, file `patcher.dfy`).
  - The free function `value` is a second resolver. It is modelled by the
    loop `ValueAt`, which is proved equal to the function `Lookup`.
  - The `patcher` object is a class `Patcher` with fields `pointer` and
    `jsonObject`. Its methods are `Parent`, `Value`, `Exists`, `ParentValue`,
    `SetParentValue`, `SetExistingValue` (add), `Remove` and `Replace`.
  - Each state-changing method is proved against a function of the old
    document: `SetExisting`, `RemoveAt` or `ReplaceAt`.
- **main.go: the operations and the patch** (module `Rfc6902`, file
  `main.dfy`).
  - The per-operation functions are `Add`, `Remove`, `Replace`, `Move` and
    `Test`. The dispatch is `ApplyOp`.
  - The validation loop of `ParsePatch` is a method.
  - `Apply` is a loop proved equal to the left fold `Fold`, which stops at
    the first error.

The other files are:

- `values.dfy` (module `Values`) holds the decoded JSON tree `Json` and the
  error values.
- `strconv.dfy` (module `Strconv`) models Go's `strconv.Atoi`, which reads
  array indices.
- `scenarios.dfy` (module `Scenarios`) holds the concrete examples of the
  repository's tests:
  - the RFC 6901 section 5 resolution examples;
  - the RFC 6902 Appendix A cases;
  - the patcher add and lookup cases;
  - the missing-field checks of `ParsePatch`.

## How Go's behaviour is represented

- **Panics become errors.** Every Go panic is an error result
  `Panic(fault)`, where the fault names the reason. Errors that Go returns
  are the other `Error` constructors.
  - The two declarations of `ErrorInvalidJSONPath` (patcher.go:9 and
    jsonpointer.go:95) are one value, `InvalidJsonPath`.
- **Documents are values.**
  - Go shares maps and slice backing arrays between the document and the
    values `value` returns. A map store, a `delete` or `container[i] = o` is
    therefore seen from the root.
  - In the model such an edit is `SetAt`: the document rebuilt along the path
    with the edited container in place.
- **Only a one-token pointer reassigns the root.** `setParentValue` stores
  through the root variable of the patcher it is called on only for a
  one-token pointer. Deeper, it stores into a local copy and has no effect.
  - The parent patcher that `setExistingValue` and `remove` create
    (patcher.go:78, 126) has its own root variable. A reassignment of that
    root is lost.
  - The model carries this as the flag `top`.
  - The errors these nested calls return are dropped. Their panics still
    propagate.
- **Dropped errors.** The `remove` and `replace` operations drop the error
  of the edit (main.go:51, 57). Only a panic fails them: removing a missing
  member returns the document unchanged.
- **Nested arrays are modelled as written.** An add into an array held
  directly by another array writes the rebuilt array back with a second
  insertion (patcher.go:78). It does not overwrite the slot.
  - `Scenarios.NestedArrayAddAsWritten` shows the resulting document for the
    case left commented out at patcher_test.go:28.
  - The write-back lemmas are stated for containers that are the root, a map,
    or an array held by a map.

## Where the code departs from RFC 6902

The model follows the code in each case below:

- `copy` is not implemented and is an unknown operation.
- `move` does not reject moving a value into its own descendant.
- `test` uses Go's `!=` on interface values.
  - Two arrays or two objects cannot be compared, and the comparison panics.
  - Values of different kinds are simply unequal.
- `ParsePatch` checks only three things:
  - a non-empty `op`;
  - a non-empty `path` (so the valid pointer "" is refused);
  - a non-null `value` for `add`.
- When a pointer is resolved (`test`, the `from` of `move`, and the parent
  path of every edit), an array index past the end of the array is a
  missing path, and a negative index panics.
- `add`, `remove` and `replace` panic on an array index outside the array
  (patcher.go:69, 124-125, 157), and so fail the patch. A token that is not
  an integer is a returned error there instead, which `remove` and
  `replace` drop, so the document comes back unchanged
  (`Rfc6902.ArrayTokenOutcomes`). `add` does not drop it, so there a
  non-integer token fails the patch with the returned error
  (`Rfc6902.AddTokenOutcomes`).
- `remove` and `replace` of an element of a top-level array always fail:
  the one-token pointer has no parent patcher, and its use panics
  (patcher.go:114, 149).
- `replace` of a missing object member adds it, because it goes through
  `setExistingValue` (patcher.go:140-142). Section 4.3 of RFC 6902 requires
  the target to exist.

## Model

| member | source | states |
|---|---|---|
| `Values.IgnoreError` | main.go:49-59 | A dropped error becomes success with the document unchanged. A panic still fails. Success passes through. |
| `Strconv.Atoi` | patcher.go:176-179 | An accepted index fits a 64-bit int and starts with a digit or a sign. AtoiReads states which strings are accepted and the value read. |
| `Strconv.AtoiReads` | patcher.go:176-179 | A string is accepted only as digits after at most one sign. Digits, with '+' or without a sign, read as their decimal value when it fits a 64-bit int. After '-' they read as the negated value when it fits. |
| `Strconv.AtoiItoa` | patcher.go:65-69 | Every index a slice can have, written in decimal, is read back by Atoi as itself. |
| `Strconv.AtoiRejectsSentinels` | patcher.go:62-65 | Atoi rejects "-", "+" and "", so the append sentinel never reads as an index. |
| `Pointer.Decode` | jsonpointer.go:12-15 | Decoding never lengthens a token. Its inverse is stated by DecodeEscape and its order by DecodeOrder. |
| `Pointer.DecodeEscape` | jsonpointer.go:12-15 | Decoding undoes RFC 6901 escaping for every token. |
| `Pointer.DecodeOrder` | jsonpointer.go:12-15 | "~1" is replaced before "~0": "~01" decodes to "~1", never to "/". "~1" decodes to "/" and "~0" to "~". |
| `Pointer.DecodeNoTilde` | jsonpointer.go:12-15 | A token without '~' decodes to itself. |
| `Pointer.IndexOfSlash` | jsonpointer.go:185 | The result is the position of the first '/', or -1 exactly when there is none. |
| `Pointer.NewRefToken` | jsonpointer.go:159-167 | The raw token is the segment after its leading '/'. |
| `Pointer.Tokens` | jsonpointer.go:177-197 | The only failure is the panic for a segment that does not start with '/'. |
| `Pointer.SplitPath` | jsonpointer.go:169-176 | Failure is a fragment pointer or the malformed-pointer panic. |
| `Pointer.NewJsonPointer` | jsonpointer.go:169-199 | The tokenizing loop returns exactly SplitPath of the path. |
| `Pointer.TokensJoin` | jsonpointer.go:177-197 | A path tokenizes if and only if it is empty or starts with '/'. Re-joining "/" + token gives back the path. No raw token holds '/'. |
| `Pointer.JoinTokens` | jsonpointer.go:177-197 | Slash-free tokens, joined, tokenize back into the same tokens. |
| `Pointer.TokenCount` | jsonpointer.go:177-197 | A path starting with '/' has one token per '/', including empty tokens for "/" and for a trailing '/'. |
| `Pointer.PointerRoundTrip` | jsonpointer.go:155-199 | For any keys, escaping and joining them gives a pointer that tokenizes and decodes back to those keys. |
| `Pointer.Remainder` | jsonpointer.go:137-144 | remainder(i) succeeds exactly for the index of a token, and then '/' followed by the result is the join of the raw tokens from i on. Any other index panics: past the end in `j[i:]`, at the end in `s[1:]` of the empty string. |
| `Pointer.RemainderOfPath` | jsonpointer.go:138-144 | remainder(0) of a tokenized path is the path without its leading '/'. |
| `Pointer.ToString` | jsonpointer.go:146-151 | String() writes a '/' before every token, so it starts with '/' when there is a token and is at least as long as the token count. |
| `Pointer.ToStringIsJoinOfKeys` | jsonpointer.go:146-151 | String() joins the decoded keys. |
| `Pointer.ToStringOfPlainPath` | jsonpointer.go:146-151 | For a path without '~', String() gives back the path. |
| `Pointer.ToStringDoesNotEscape` | jsonpointer.go:146-151 | String() does not escape again: "/a~1b" prints as "/a/b". |
| `Pointer.TokenizerExamples` | jsonpointer_test.go:112-118 | "" has no token, "/" one empty token, "/a/" two and "/a/b/" three. "a/b" is rejected. |
| `Pointer.EscapedTokensExample` | jsonpointer_test.go:120 | "/a~0/b~1~1/c" has the three raw tokens "a~0", "b~1~1" and "c". |
| `Pointer.EscapedKeysExample` | jsonpointer_test.go:119-120 | Those tokens decode to "a~", "b//" and "c". |
| `Pointer.Handle.Get` | jsonpointer.go:45-81 | A map slot reads its key, or Go's nil when the key is absent. An array slot reads its element and panics outside the array. The root reads the document. |
| `Pointer.Handle.Insert` | jsonpointer.go:49-89 | The root panics. A map slot sets its key, added or overwritten, and keeps every other key. An array slot panics unless it has an enclosing map slot, and succeeds exactly for an index inside the array or at its end. Its map slot then holds, under its key, the array with v inserted at idx: the prefix kept, then v, then the rest. Every other key of that map is kept. |
| `Pointer.Handle.Remove` | jsonpointer.go:53-93 | Only a map slot removes, and it deletes only its own key. |
| `Pointer.JsonPointer` | jsonpointer.go:104-133 | The resolution loop returns the handle and error of Walk from the root. |
| `Pointer.Walk` | jsonpointer.go:104-133 | The only error returned rather than panicked is a missing key, and the handle returned with it is the map slot for that key. |
| `Pointer.WalkValue` | jsonpointer.go:104-133 | A walk that ends without error yields a handle that can be read. |
| `Edits.ArrayIndex` | patcher.go:175-185 | An array token succeeds exactly when Atoi reads it as an index inside the array. A token Atoi rejects panics. An index at or past the length is an invalid path. A negative index panics. |
| `Edits.Step` | patcher.go:166-188 | A map step succeeds exactly when the key is present and yields its member. A missing key is an invalid path. An array step succeeds exactly for an index inside the array and yields that element, and otherwise fails as ArrayIndex does. A scalar panics. |
| `Edits.Lookup` | patcher.go:162-191 | Resolution fails only with an invalid path or a panic. MissingKeyAtAnyDepth and IndexPastEndAtAnyDepth say which error it is. |
| `Edits.ValueAt` | patcher.go:162-191 | The loop of value returns exactly Lookup. |
| `Edits.LookupAppend` | patcher.go:162-191 | Resolving p + q is resolving p, then q from there. |
| `Edits.WalkAgreesWithLookup` | jsonpointer.go:104-133 | For any handle that reads its value, the walk ends without error if and only if value succeeds, and then the handle reads what value yields. A missing key in the walk is a missing path for value. |
| `Edits.JsonPointerAgreesWithValue` | jsonpointer.go:104-133 | The same agreement, from the root of any document. |
| `Edits.MissingKeyAtAnyDepth` | patcher.go:166-172 | A key missing from a map reached at any depth makes value fail with an invalid path. The walk of jsonPointer reports the same error. |
| `Edits.IndexPastEndAtAnyDepth` | patcher.go:180-182 | An index at or past the end of an array reached at any depth makes value fail with an invalid path. jsonPointer instead panics indexing the slice. |
| `Edits.LookupSetAt` | patcher.go:45-47 | After a store at a path that resolves, the path resolves to the stored value. |
| `Edits.LookupSetAtApart` | patcher.go:45-47 | A store at q leaves every path apart from q resolving as before. |
| `Edits.EditsLeaveApartPaths` | patcher.go:39-160 | After a successful add, remove or replace, every path apart from the parent path resolves as before, so only the parent container changes. |
| `Edits.InsertAt` | patcher.go:60-70 | "-" appends. Otherwise insertion succeeds exactly for an Atoi index from 0 to the length. The result is one longer, with the prefix kept, v at i, and later elements shifted up. A token that is not an integer is the returned NotAnInteger error; an integer outside 0 to the length panics with IndexOutOfRange. |
| `Edits.Added` | patcher.go:45-79 | A map gains or overwrites the key. An array gets v inserted, and fails with exactly InsertAt's error. A scalar container panics. |
| `Edits.Removed` | patcher.go:106-126 | A map loses exactly the key and keeps every other member. An array removal succeeds exactly for an index inside it; the result is one shorter with order preserved. A token Atoi rejects is a returned integer error, while an index outside the array panics. A scalar container panics. |
| `Edits.Replaced` | patcher.go:139-158 | A map overwrites the key. An array overwrites index i, keeping its length and every other element. A token Atoi rejects is a returned integer error, while an index outside the array panics. A scalar container is left as it is. |
| `Edits.RemovedAdded` | patcher.go:39-131 | Removing what was just added to a map or array gives the container back. |
| `Edits.AddedRemoved` | patcher.go:39-131 | Adding back the removed member gives the container back. |
| `Edits.ReplacedTwice` | patcher.go:139-158 | Replacing a second time with the same value changes nothing more. |
| `Edits.SetExisting` | patcher.go:39-84 | The empty pointer panics. A parent path that does not resolve returns value's error for it. A scalar parent panics. An array parent whose insertion fails gives that insertion's error: NotAnInteger for a non-integer token, the IndexOutOfRange panic for an index outside the array. |
| `Edits.RemoveAt` | patcher.go:99-131 | The empty pointer panics. A parent path that does not resolve returns value's error for it. A scalar parent panics. Under an array parent, a token Atoi rejects is a returned integer error; otherwise a one-token pointer panics on the nil parent, and a deeper one panics on an index outside the array. |
| `Edits.ReplaceAt` | patcher.go:133-160 | The empty pointer panics. A parent path that does not resolve returns value's error for it. A scalar parent leaves the document as it is. Under an array parent, a token Atoi rejects is a returned integer error; otherwise a one-token pointer panics on the nil parent, and a deeper one panics on an index outside the array. |
| `Edits.NestedWriteBack` | patcher.go:72-78 | The nested add on the parent patcher stores a rebuilt array held by a map back into that map, at its path. |
| `Edits.SetExistingIntoMap` | patcher.go:45-47 | An add whose parent resolves to a map stores the value under the decoded key and writes that map back at the parent path. |
| `Edits.AddWritesBack` | patcher.go:39-84 | For a root, map or map-held array container, add is Added on the parent container written back at the parent path, with nothing else changed (see `Edits.EditsLeaveApartPaths`). An error is returned before any change. |
| `Edits.AddThenValue` | patcher.go:39-84 | After an add with a key other than "-", the pointer resolves to the added value, so exists() holds. |
| `Edits.AppendSentinel` | patcher.go:62-70 | Adding at "-" is adding at the index equal to the array's length. |
| `Edits.AppendSentinelItoa` | patcher.go:62-70 | The same, with the index written in decimal. |
| `Edits.RemoveWritesBack` | patcher.go:99-131 | For a map or map-held array container, remove is Removed written back at the parent path, with nothing else changed (see `Edits.EditsLeaveApartPaths`). An error is returned before any change. |
| `Edits.ReplaceWritesBack` | patcher.go:133-160 | For any container except a top-level array, replace is Replaced written back at the parent path, with nothing else changed (see `Edits.EditsLeaveApartPaths`). |
| `Edits.AddThenRemove` | patcher.go:39-131 | Removing what was just added restores the document. |
| `Edits.RemoveThenAdd` | patcher.go:39-131 | When `ptr` resolves to an existing member or element (`Removable`), removing it succeeds, and adding the value that was there back at the same pointer restores the document. |
| `Edits.ReplaceIdempotent` | patcher.go:133-160 | Replacing twice with the same value is replacing once. |
| `Edits.ReplaceThenValue` | patcher.go:133-160 | After a replace in a map or an array, the pointer resolves to the new value. |
| `Edits.Patcher.constructor` | patcher.go:14-17 | A patcher holds a pointer and a document. |
| `Edits.Patcher.Parent` | patcher.go:19-24 | There is no parent for a one-token pointer, and the empty pointer panics. Otherwise it returns a new patcher on the pointer without its last token, over the same document, so a three-token pointer reaches none after three calls. |
| `Edits.Patcher.Value` | patcher.go:26-32 | value() is Lookup of the pointer in the patcher's document. |
| `Edits.Patcher.Exists` | patcher.go:34-37 | exists() is true exactly when value() succeeds. A panic in value() is not caught. |
| `Edits.Patcher.ParentValue` | patcher.go:86-92 | parentValue() is Lookup of the pointer without its last token. The empty pointer panics. |
| `Edits.Patcher.SetParentValue` | patcher.go:94-97 | A one-token pointer replaces the patcher's document. A deeper one changes nothing. A parent path that does not resolve panics on the nil reference, or with the panic of value itself. |
| `Edits.Patcher.SetExistingValue` | patcher.go:39-84 | The patcher's document becomes SetExisting of the old one, or the error is returned and the document is unchanged. The pointer is unchanged. |
| `Edits.Patcher.SetExistingAt` | patcher.go:39-84 | The same for a parent patcher's pointer, with the root reassignment lost when the patcher is not the caller's own. |
| `Edits.Patcher.Remove` | patcher.go:99-131 | The document becomes RemoveAt of the old one, or the error is returned and the document is unchanged. |
| `Edits.Patcher.Replace` | patcher.go:133-160 | The document becomes ReplaceAt of the old one, or the error is returned and the document is unchanged. |
| `Rfc6902.Add` | main.go:41-47 | The add operation fails only with the editor's errors. |
| `Rfc6902.Remove` | main.go:49-53 | Only a panic fails a remove. A removal error leaves the document unchanged. |
| `Rfc6902.Replace` | main.go:55-59 | Only a panic fails a replace. A replace error leaves the document unchanged. |
| `Rfc6902.Move` | main.go:61-82 | A `from` that does not tokenize returns the tokenizer's error. A `from` that does not resolve returns value's error. A failed removal at `from` returns the removal's error. Any other failure is an edit error. |
| `Rfc6902.Equal` | main.go:90 | `!=` panics exactly for two arrays or two objects, and otherwise is structural equality. |
| `Rfc6902.Test` | main.go:84-94 | test passes exactly when the pointer resolves to the expected value and that value is not an array or an object. A passing test returns the document unchanged. A pointer that does not resolve returns value's error. A resolved value that compares unequal gives "test condition failed". Two arrays or two objects panic. |
| `Rfc6902.ApplyOp` | main.go:19-39 | The unknown-operation error occurs exactly when the path tokenizes and the name is none of the five supported operations. |
| `Rfc6902.Apply` | main.go:132-150 | An empty input fails before any operation. Otherwise the loop returns the left fold of the operations, stopping at the first error. |
| `Rfc6902.Fold` | main.go:142-147 | A patch made only of test operations either fails or returns the document unchanged. FoldAppend and PatchHaltsAtFailure state how it composes and where it stops. |
| `Rfc6902.Problem` | main.go:114-127 | A record passes exactly when op and path are non-empty and an add has a non-null value. The checks run in order: an empty op gives MissingOp, else an empty path gives MissingPath, else an add with a null value gives MissingAddValue. |
| `Rfc6902.ParsePatch` | main.go:100-130 | The patch is accepted exactly when every record passes. Otherwise the error is that of the first failing record. |
| `Rfc6902.FoldAppend` | main.go:142-147 | Applying a + b is applying a, then b to the result. |
| `Rfc6902.PatchHaltsAtFailure` | main.go:142-147 | An operation that fails fails the whole patch with its error, and no edit is returned. |
| `Rfc6902.UnknownOperationNamed` | main.go:25-38 | A patch whose operations are all supported never fails with the unknown-operation error. |
| `Rfc6902.CopyIsUnknown` | main.go:25-38 | "copy" is an unknown operation. |
| `Rfc6902.MoveIsRemoveThenAdd` | main.go:61-82 | When the removal at `from` succeeds, move is a remove at `from` followed by an add of the removed value at `path`. |
| `Rfc6902.MoveOntoItself` | main.go:61-82 | Moving an existing member or element onto itself leaves the document unchanged. |
| `Rfc6902.ReplaceOpIdempotent` | main.go:55-59 | A replace operation applied twice gives what it gives once. |
| `Rfc6902.RemoveAbsentMember` | main.go:49-53 | Removing a missing member returns the document unchanged, with no error. |
| `Rfc6902.AddThenRemoveOps` | main.go:41-53 | An add followed by a remove at the same new pointer gives the document back. |
| `Rfc6902.AddTokenOutcomes` | main.go:40-47 | On an array, an add whose token is neither "-" nor an integer fails the patch with NotAnInteger, and an index outside 0 to the length fails it with the IndexOutOfRange panic. |
| `Rfc6902.ArrayTokenOutcomes` | main.go:49-59 | On an array element, a remove or replace operation whose token is not an integer returns the document unchanged. An index outside a nested array fails the patch with a panic, and so does an integer token on a top-level array. |
| `Scenarios.ResolveRoot` | jsonpointer_test.go:29 | The empty pointer resolves to the whole document. |
| `Scenarios.ResolveArray` | jsonpointer_test.go:30 | "/foo" resolves to the array. |
| `Scenarios.ResolveArrayElement` | jsonpointer_test.go:31 | "/foo/0" resolves to "bar". |
| `Scenarios.ResolveEmptyKey` | jsonpointer_test.go:32 | "/" resolves to the member with the empty key. |
| `Scenarios.ResolveSlashKey` | jsonpointer_test.go:33 | "/a~1b" resolves to the member "a/b". |
| `Scenarios.ResolvePercentKey` | jsonpointer_test.go:34 | "/c%d" resolves to 2. |
| `Scenarios.ResolveCaretKey` | jsonpointer_test.go:35 | "/e^f" resolves to 3. |
| `Scenarios.ResolveBarKey` | jsonpointer_test.go:36 | "/g\|h" resolves to 4. |
| `Scenarios.ResolveBackslashKey` | jsonpointer_test.go:37 | The key with a backslash resolves to 5. |
| `Scenarios.ResolveQuoteKey` | jsonpointer_test.go:38 | The key with a double quote resolves to 6. |
| `Scenarios.ResolveSpaceKey` | jsonpointer_test.go:39 | "/ " resolves to 7. |
| `Scenarios.ResolveTildeKey` | jsonpointer_test.go:40 | "/m~0n" resolves to the member "m~n". |
| `Scenarios.MissingTopLevelKeys` | jsonpointer_test.go:82-86 | "/c", "/ccc" and "/x~1y" are invalid paths. |
| `Scenarios.MissingNestedKeys` | jsonpointer_test.go:84-85 | "/d/g" and "/d/h/j" are invalid paths. |
| `Scenarios.AddObjectMember` | main_test.go:80-85 | RFC 6902 A.1 gives the expected document. |
| `Scenarios.AddArrayElement` | main_test.go:86-91 | RFC 6902 A.2 gives the expected document. |
| `Scenarios.AddToArrayDocument` | main_test.go:92-97 | An add into a top-level array gives the expected document. |
| `Scenarios.RemoveObjectMember` | main_test.go:98-103 | RFC 6902 A.3 gives the expected document. |
| `Scenarios.RemoveArrayElement` | main_test.go:104-109 | RFC 6902 A.4 gives the expected document. |
| `Scenarios.ReplaceValue` | main_test.go:110-115 | RFC 6902 A.5 gives the expected document. |
| `Scenarios.ReplaceArrayElement` | main_test.go:116-121 | A replace of an array element gives the expected document. |
| `Scenarios.FailedTestDiscardsPatch` | main.go:142-147 | A failing test after an add fails the patch, and the added document is not returned. |
| `Scenarios.TestOfQuxFails` | main.go:84-94 | A test against a different string fails with "test condition failed". |
| `Scenarios.TestOfArrayPanics` | main.go:90 | A test whose value is an array panics. |
| `Scenarios.NestedArrayAddAsWritten` | patcher.go:72-78 | An add at "/foo/1/1" into `{"foo": ["a", ["a", "c"]]}` inserts the rebuilt inner array instead of replacing it. patcher_test.go:28 expects a replacement. |
| `Scenarios.PatcherAddToObject` | patcher_test.go:25 | "b" added at "/a" to {} gives {"a": "b"}, which resolves. |
| `Scenarios.PatcherAddToArray` | patcher_test.go:26 | "b" added at "/1" to ["a", "c"] gives ["a", "b", "c"]. |
| `Scenarios.PatcherAddUnderMap` | patcher_test.go:27 | "b" added at "/foo/1" to {"foo": ["a", "c"]} gives {"foo": ["a", "b", "c"]}. |
| `Scenarios.PatcherValueOfObject` | patcher_test.go:48-49 | "" resolves to {}, and "/" resolves to the member with the empty key. |
| `Scenarios.PatcherValueOfArray` | patcher_test.go:51-52 | "/1" and "/0" resolve to the array elements. |
| `Scenarios.PatcherNoValue` | patcher_test.go:72-76 | "/a" on {}, "/" on {"a": "whiteshadow"} and "/2" on ["c", "d"] are invalid paths. |
| `Scenarios.PatcherNoValueFurther` | patcher_test.go:74-75 | "/c" on {"a": "b"} and "/" on {"z": ["a", "b"]} are invalid paths. |
| `Scenarios.PatcherNoValueParents` | patcher_test.go:72-84 | For each of the five one-token pointers, parentValue() is the whole target. |
| `Scenarios.IndexTokensAlias` | patcher.go:174-182 | The tokens "0" and "00" name the same element: a store at "/00" changes what "/0" resolves to, so these paths are not apart. |
| `Scenarios.ParseProblems` | main_test.go:27-43 | The three records missing op, path and add value are refused with the expected errors, and a complete add passes. |

## Left out

- JSON text is not modelled.
  - `json.Unmarshal` and `json.Marshal` (main.go:109, 137, 149) are library
    I/O. So are the `io.Reader` buffering and the nil-reader check of
    `ParsePatch` (main.go:100-112).
  - `ParsePatch` is modelled over already-decoded records. `Apply` is
    modelled over a decoded document, with `None` for the zero-length input.
  - A decode error is not modelled.
- Fragment pointers are not modelled. `url.QueryUnescape` of '#' pointers
  (jsonpointer.go:170-175) is a foreign library call.
  - Every path starting with '#' is the error `FragmentPointer`.
  - The fragment examples of jsonpointer_test.go:42-53 are therefore not
    covered.
- JSON numbers are integers. Go decodes them as `float64`, and the engine
  never computes with them.
- Error and panic texts are not modelled. Errors are constructors, and
  panics carry a reason code.
- The in-place write of `append` into a shared backing array is not
  modelled. In Go, `append(pa[:i], …)` (patcher.go:69, jsonpointer.go:87) can
  overwrite elements of the original slice, which other references to that
  slice would see. The model builds fresh sequences. An index past the
  length panics in both, because the same expressions also slice `pa[i:]`
  and `r.a[r.idx:]`.
- The parent patcher is not modelled as a separate object. The nested
  `setExistingValue` on a parent patcher is a recursive call on the same
  object with a shorter path and `top == false`. `Parent` models the
  allocation separately.
- Handles are values. A handle's `Insert` and `Remove` return the edited
  handle; they do not mutate a map shared with a document. No edit in the core
  goes through these handles.
- Pointer.NewRefToken: its two panics, for an empty string and for a missing
  leading '/', are excluded by its precondition. Its only caller, the
  tokenizer, never passes such a string. The tokenizer's own panic for a
  segment without '/' is modelled in `Tokens`.
- Edits.AddWritesBack: stated only for a container that is the root, a map,
  or an array held by a map. An array held by an array is written back with a
  second insertion; see `Scenarios.NestedArrayAddAsWritten`.
- Edits.RemoveWritesBack: stated only for a map, or an array held by a map.
  An array held by another array is written back with an insertion.
- Edits.AddThenRemove: stated only for the containers of RemoveWritesBack: a
  map, or an array held by a map. A top-level array is left out because a
  remove of one of its elements panics on the nil parent patcher
  (patcher.go:114). An array held by another array is left out because
  both the add and the remove write it back with an insertion.
- Edits.RemoveThenAdd: stated only for the containers of RemoveWritesBack,
  for the same reason.
- Rfc6902.MoveOntoItself: stated only for a member of a map, or an element
  of an array held by a map, for the same reason.
- The missing `existing` method called at patcher_test.go:36 and 60 is read
  as `exists`.
