# Trace comparison helpers of the PyPy JIT optimizer, and the cffi `lib` attribute cache

This project models two small pieces of PyPy and proves properties of them.

**The optimizer's test helpers** (`pypy/jit/metainterp/optimizeopt/test/test_util.py`).
- `sort_descrs` orders a descriptor list in place by `sort_key()`.
- `ArgsSet` and `ArgsDict` are tables keyed by the shape of an operation: its opcode, arguments and descriptor. Both can be forked with `copy()`.
- `equaloplists` decides whether two operation lists are equal up to a consistent renaming of boxes. It can start from a seed renaming, and its fail-argument check is either positional (strict) or set-based (lenient).
- The helpers `_sortboxes`, `BaseTest.assert_equal` and `convert_old_style_to_targets`.
- The `__eq__` of the descriptor test doubles `Storage`, `FakeDescr` and `FakeDescrWithSnapshot`.

The implementations of `sort_descrs`, `equaloplists`, `ArgsSet` and `ArgsDict` live in `optimizeopt/util.py`, which is not part of this model. Their contracts are taken from what the tests in `test_util.py` assert about them. Where the tests leave a choice open, the model makes one and states it:
- The renaming maps the boxes of the second (expected) list to those of the first (optimized) list, as `assert_equal` seeds it.
- A box of the second list is bound at its first occurrence, either as an argument or as a result.
- Constants are compared by value.
- Fail-arguments are renamed but never bind a box.
- The renaming is one-to-one: a box is bound only to a box that no other box is bound to yet.

**The cffi compiled library object** (`W_LibObject`, `pypy/module/_cffi_backend/lib_obj.py`).
- Attributes are resolved lazily: first from the `dict_w` cache, then from the library's own globals table, then from the included libraries in order.
- What is found is cached.
- `setattr` writes only to global variables, `delattr` always fails, and `dir` lists the library's own globals.
- `address_of_global_var` gives the address of a global variable, or the function object itself for a function.
- `make_includes_from` builds the include list from a NULL-terminated array of module names.

The C-level collaborators are opaque values: realized C types, function pointers, global-variable memory and the import machinery. Included libraries are fixed when a library object is built. The ghost `depth` of each library bounds its include graph. This makes the graph acyclic, so the recursive search terminates.

Modules:
- `Wrappers`: `Option`.
- `Resop`: values, descriptors, operations and loops.
- `Descriptors`: descriptor equality and `sort_descrs`.
- `ArgsTables`: `ArgsSet` and `ArgsDict`.
- `TraceEquality`: `equaloplists`, with the function `Compare` as its specification.
- `TraceEqualityExamples`: the traces of the tests.
- `TestHelpers`: `_sortboxes`, `assert_equal` and `convert_old_style_to_targets`.
- `CffiLib`: `W_LibObject`.

## Model

| member | source | states |
|---|---|---|
| Descriptors.DescrEqReflexive | pypy/jit/metainterp/optimizeopt/test/test_util.py:391-392 | every descriptor, of any test-double class, equals itself |
| Descriptors.DescrEqIgnoresIdentity | pypy/jit/metainterp/optimizeopt/test/test_util.py:489-490 | two distinct `Storage` (or `FakeDescr`, or `FakeDescrWithSnapshot`) instances compare equal: the test doubles compare by class, not identity |
| Descriptors.DescrEqNotSymmetric | pypy/jit/metainterp/optimizeopt/test/test_util.py:500-501 | a `FakeDescrWithSnapshot` equals a `Storage`, but the `Storage` does not equal it back, because `Storage` demands the exact same type |
| Descriptors.PlainDescrEqIsIdentity | pypy/jit/metainterp/optimizeopt/test/test_util.py:384-392 | a descriptor with default equality equals exactly itself, from either side |
| Descriptors.SortDescrs | pypy/jit/metainterp/optimizeopt/test/test_util.py:22-33 | the array ends in ascending `sort_key` order and is a permutation of what it held; an already ordered array is left unchanged, including the empty one |
| Descriptors.SinkLast | pypy/jit/metainterp/optimizeopt/test/test_util.py:32 | one insertion step: the prefix up to `i` becomes ordered, the rest is untouched, and the contents are permuted |
| Descriptors.SwapDown | pypy/jit/metainterp/optimizeopt/test/test_util.py:32 | swapping two neighbours moves the out-of-order element one place down and keeps the multiset |
| Descriptors.SortedPermutationUnique | pypy/jit/metainterp/optimizeopt/test/test_util.py:28-33 | two ordered permutations of a list with distinct keys are the same list, so sorting a shuffled copy gives back the original (the test's `lst2 == lst`) |
| Descriptors.SameTails | pypy/jit/metainterp/optimizeopt/test/test_util.py:28-33 | two permutations with the same head have permuted tails |
| Descriptors.TailKeepsOrder | pypy/jit/metainterp/optimizeopt/test/test_util.py:28-33 | dropping the head keeps a list ordered and its keys distinct |
| Descriptors.HeadHasLeastKey | pypy/jit/metainterp/optimizeopt/test/test_util.py:28-33 | the head of an ordered list has the least key of all its elements |
| Descriptors.OnlyHeadHasHeadKey | pypy/jit/metainterp/optimizeopt/test/test_util.py:28-33 | with distinct keys, the only element carrying the head's key is the head |
| ArgsTables.KeyIgnoresOutputs | pypy/jit/metainterp/optimizeopt/test/test_util.py:74-98 | two operations share a key exactly when opcode, arguments and descriptor agree, whatever their results and fail-arguments |
| ArgsTables.ArgsSet.constructor | pypy/jit/metainterp/optimizeopt/test/test_util.py:75 | a new set is empty |
| ArgsTables.ArgsSet.Get | pypy/jit/metainterp/optimizeopt/test/test_util.py:77-79 | finds an entry exactly when one is stored under the operation's key, and returns the stored operation |
| ArgsTables.ArgsSet.Add | pypy/jit/metainterp/optimizeopt/test/test_util.py:78-79 | stores the operation under its key unless the key is already present; the first stored operation stays |
| ArgsTables.ArgsSet.Copy | pypy/jit/metainterp/optimizeopt/test/test_util.py:80 | the copy is a fresh table with the same entries |
| ArgsTables.ArgsSetFork | pypy/jit/metainterp/optimizeopt/test/test_util.py:74-85 | absent before `add`; the very operation after it; after `copy()` the copy sees the old entry and its own addition, and the original does not see the copy's |
| ArgsTables.ArgsSetForkBackwards | pypy/jit/metainterp/optimizeopt/test/test_util.py:74-85 | an addition to the original after the fork is not seen by the copy |
| ArgsTables.ArgsSetFirstWins | pypy/jit/metainterp/optimizeopt/test/test_util.py:74-85 | two operations with one key make one entry, and looking up either returns the first |
| ArgsTables.ArgsDict.constructor | pypy/jit/metainterp/optimizeopt/test/test_util.py:88 | a new dictionary is empty |
| ArgsTables.ArgsDict.Get | pypy/jit/metainterp/optimizeopt/test/test_util.py:90-92 | finds a payload exactly when the operation's key is bound, and returns it |
| ArgsTables.ArgsDict.Set | pypy/jit/metainterp/optimizeopt/test/test_util.py:91 | binds the operation's key to the payload, overwriting |
| ArgsTables.ArgsDict.Copy | pypy/jit/metainterp/optimizeopt/test/test_util.py:93 | the copy is a fresh dictionary with the same bindings |
| ArgsTables.ArgsDictFork | pypy/jit/metainterp/optimizeopt/test/test_util.py:87-98 | `None` before `set`, 3 after; the copy holds 5 and 3; the original does not gain the copy's 5 |
| ArgsTables.ArgsDictForkOverwrite | pypy/jit/metainterp/optimizeopt/test/test_util.py:87-98 | rebinding a key in the copy leaves the original's binding in place |
| TraceEquality.RenameAll | pypy/jit/metainterp/optimizeopt/test/test_util.py:35-50 | renaming a list keeps its length and renames element by element |
| TraceEquality.RenameFailArgs | pypy/jit/metainterp/optimizeopt/test/test_util.py:52-71 | renaming fail-arguments keeps their length and dead slots, and renames each live one |
| TraceEquality.MatchValueSound | pypy/jit/metainterp/optimizeopt/test/test_util.py:35-50 | a successful match extends the renaming only by `y`, and `y` renames to `x` (an unbound `y` is bound only to a box `x` that is not already some box's image); a constant equal to `x` or an already bound box matches without change; conversely an unbound box `y` against a box `x` that is no box's image matches, binding `y` to `x` |
| TraceEquality.MatchArgsSound | pypy/jit/metainterp/optimizeopt/test/test_util.py:35-50 | a successful match extends the renaming, and under it the second argument list renames to the first |
| TraceEquality.RenameStable | pypy/jit/metainterp/optimizeopt/test/test_util.py:35-50 | extending a renaming does not change how an already bound box is renamed |
| TraceEquality.MatchResultSound | pypy/jit/metainterp/optimizeopt/test/test_util.py:35-50 | a successful match extends the renaming, and under it the second result renames to the first |
| TraceEquality.CompareOp | pypy/jit/metainterp/optimizeopt/test/test_util.py:35-71 | an accepted pair of operations only extends the renaming |
| TraceEquality.Compare | pypy/jit/metainterp/optimizeopt/test/test_util.py:35-71 | an accepted pair of lists has equal length and a final renaming that extends the seed; a mismatch is reported at a position no greater than either length (a length mismatch sits at the shorter length); with `CompareMismatchFirst`, that position is the first rejected pair and the rule is the one that rejected it; with `CompareComplete`, lists related by any one-to-one renaming of boxes are accepted |
| TraceEquality.EqualOpLists | pypy/jit/metainterp/optimizeopt/test/test_util.py:35-71 | the lock-step walk that extends the renaming returns exactly the verdict `Compare` specifies |
| TraceEquality.CompareAt | pypy/jit/metainterp/optimizeopt/test/test_util.py:35-71 | the verdict on two lists from position `i` follows from the verdict on the `i`-th pair |
| TraceEquality.CompareStep | pypy/jit/metainterp/optimizeopt/test/test_util.py:35-71 | a rejected pair at `i` is the walk's verdict from `i`; an accepted one continues the walk at `i + 1` with the extended renaming |
| TraceEquality.WalkFromStart | pypy/jit/metainterp/optimizeopt/test/test_util.py:35-71 | walking from position 0 is the comparison of the whole lists |
| TraceEquality.RemapAfterFirst | pypy/jit/metainterp/optimizeopt/test/test_util.py:52-71 | after an accepted first pair, the renaming in force after `n` pairs is that after `n - 1` pairs of the rest |
| TraceEquality.CompareMismatchFirst | pypy/jit/metainterp/optimizeopt/test/test_util.py:52-71 | every pair before a mismatch's position is accepted under the renaming in force there; at the position either that pair is rejected by the reported rule, or one list has ended, the lengths differ and the rule is the length rule |
| TraceEquality.WalkIsCompare | pypy/jit/metainterp/optimizeopt/test/test_util.py:35-71 | the position-by-position walk from `i` gives the verdict of comparing the suffixes from `i`, positions counted in the whole lists |
| TraceEquality.ShiftTwice | pypy/jit/metainterp/optimizeopt/test/test_util.py:35-71 | moving a mismatch position by `a` and then by `b` moves it by `a + b` |
| TraceEquality.RenamedOpExtends | pypy/jit/metainterp/optimizeopt/test/test_util.py:35-71 | a pair related under a renaming stays related under any extension of it that keeps the pair's boxes bound |
| TraceEquality.CompareSound | pypy/jit/metainterp/optimizeopt/test/test_util.py:35-71 | accepted lists have equal length, and under the final renaming every operation of the second list is the corresponding one of the first: same opcode, renamed arguments and result, equal descriptor (fail-arguments: `CompareFailArgsSound`) |
| TraceEquality.CompareFailArgsSound | pypy/jit/metainterp/optimizeopt/test/test_util.py:52-71 | in accepted lists each pair's fail-arguments match in the chosen mode (strict: positionally after renaming; lenient: the same renamed values) under the renaming in force at that pair, and the final renaming is the one after the last pair |
| TraceEquality.CompareInjective | pypy/jit/metainterp/optimizeopt/test/test_util.py:35-71 | from a one-to-one seed, an accepted comparison ends in a one-to-one renaming |
| TraceEquality.MatchValueComplete | pypy/jit/metainterp/optimizeopt/test/test_util.py:35-50 | when `x` is `y` under a one-to-one renaming of boxes to boxes that extends the current one, the match succeeds, binds `y` and stays within that renaming |
| TraceEquality.MatchArgsComplete | pypy/jit/metainterp/optimizeopt/test/test_util.py:35-50 | argument lists related by such a renaming match, within it, keeping the old bindings and binding every box of the second list |
| TraceEquality.MatchResultComplete | pypy/jit/metainterp/optimizeopt/test/test_util.py:35-50 | results related by such a renaming match, within it, binding the second result when it is a box |
| TraceEquality.MatchPairComplete | pypy/jit/metainterp/optimizeopt/test/test_util.py:35-50 | the arguments and result of a related pair match within the renaming and bind every argument and result box of the second operation |
| TraceEquality.FailArgsRenameStable | pypy/jit/metainterp/optimizeopt/test/test_util.py:52-71 | fail-arguments whose boxes are all bound rename the same under every extension |
| TraceEquality.CompareOpComplete | pypy/jit/metainterp/optimizeopt/test/test_util.py:35-71 | a related pair, with descriptors equal and fail-arguments renamed position by position and bound by the time the pair is matched, is accepted in either mode; the renaming stays within the given one and binds the pair's boxes |
| TraceEquality.CompareComplete | pypy/jit/metainterp/optimizeopt/test/test_util.py:35-71 | two lists of one length that a one-to-one renaming of boxes (agreeing with the seed) relates pair by pair, with equal descriptors and positionally renamed fail-arguments that refer to the seed or to boxes mentioned up to their own operation, are accepted in either mode, with a final renaming within the given one |
| TraceEquality.MatchValueInjective | pypy/jit/metainterp/optimizeopt/test/test_util.py:35-50 | matching one value keeps a renaming one-to-one |
| TraceEquality.MatchArgsInjective | pypy/jit/metainterp/optimizeopt/test/test_util.py:35-50 | matching an argument list keeps a renaming one-to-one |
| TraceEquality.CompareOpBinds | pypy/jit/metainterp/optimizeopt/test/test_util.py:35-71 | an accepted pair is related under the new renaming, which binds every box among the second operation's arguments and result |
| TraceEquality.MatchArgsBinds | pypy/jit/metainterp/optimizeopt/test/test_util.py:35-71 | after a successful argument match every box among the second arguments is bound |
| TraceEquality.IdentityMatchArgs | pypy/jit/metainterp/optimizeopt/test/test_util.py:35-50 | an argument list matches itself, and the renaming stays the identity |
| TraceEquality.IdentityRenamesToItself | pypy/jit/metainterp/optimizeopt/test/test_util.py:52-71 | the identity renaming leaves fail-arguments unchanged |
| TraceEquality.CompareReflexive | pypy/jit/metainterp/optimizeopt/test/test_util.py:35-50 | any list of operations is accepted against itself from an identity seed, in either mode (two parses sharing one namespace are equal) |
| TraceEquality.StrictImpliesLenient | pypy/jit/metainterp/optimizeopt/test/test_util.py:52-71 | whatever strict comparison accepts, lenient comparison accepts with the same renaming |
| TraceEquality.OpcodeDifferenceRejected | pypy/jit/metainterp/optimizeopt/test/test_util.py:35-50 | lists that agree up to position `k` and differ in opcode there are rejected |
| TraceEqualityExamples.FirstStep | pypy/jit/metainterp/optimizeopt/test/test_util.py:36-39 | `i1 = int_add(i0, 1)` against itself binds `i0` and `i1` to themselves |
| TraceEqualityExamples.SecondStep | pypy/jit/metainterp/optimizeopt/test/test_util.py:40 | `i2 = int_add(i1, 1)` against itself binds `i2` |
| TraceEqualityExamples.GuardArgs | pypy/jit/metainterp/optimizeopt/test/test_util.py:41 | the guard's argument `i1` matches itself under the renaming |
| TraceEqualityExamples.FirstTwoSteps | pypy/jit/metainterp/optimizeopt/test/test_util.py:36-40 | the verdict on the sample traces reduces to the verdict from their second (or third) operation on |
| TraceEqualityExamples.SameTraceAccepted | pypy/jit/metainterp/optimizeopt/test/test_util.py:44-48 | two parses of the sample trace are equal |
| TraceEqualityExamples.OpcodeChangeRejected | pypy/jit/metainterp/optimizeopt/test/test_util.py:46-50 | replacing `int_add` by `int_sub` in the second operation is rejected there, by the opcode check |
| TraceEqualityExamples.FailArgsOrderRejectedWhenStrict | pypy/jit/metainterp/optimizeopt/test/test_util.py:52-65 | fail-arguments `[i2, i1]` against `[i1, i2]` are rejected at the guard in strict mode |
| TraceEqualityExamples.ReorderedGuardStep | pypy/jit/metainterp/optimizeopt/test/test_util.py:66-67 | the reordered guard is accepted leniently |
| TraceEqualityExamples.SubstitutedGuardStep | pypy/jit/metainterp/optimizeopt/test/test_util.py:68-71 | the guard with `[i2, i0]` is rejected in either mode |
| TraceEqualityExamples.JumpStep | pypy/jit/metainterp/optimizeopt/test/test_util.py:41 | `jump(i1)` matches itself |
| TraceEqualityExamples.FailArgsOrderAcceptedWhenLenient | pypy/jit/metainterp/optimizeopt/test/test_util.py:66-67 | the reordered fail-arguments are accepted with `strict_fail_args=False` |
| TraceEqualityExamples.FailArgsSubstitutionRejected | pypy/jit/metainterp/optimizeopt/test/test_util.py:68-71 | fail-arguments `[i2, i1]` against `[i2, i0]` are rejected at the guard, in both modes |
| TraceEqualityExamples.RenamingClashRejected | pypy/jit/metainterp/optimizeopt/test/test_util.py:35-50 | `int_add(i0, i0)` against `int_add(i0, i9)` is rejected at the arguments: `i9` cannot also be renamed to `i0` |
| TraceEqualityExamples.OtherBoxesRelated | pypy/jit/metainterp/optimizeopt/test/test_util.py:35-45 | each pair of the sample trace and its copy over `j0, j1, j2` is related by `j0 -> i0, j1 -> i1, j2 -> i2` |
| TraceEqualityExamples.OtherBoxesFailArgsBound | pypy/jit/metainterp/optimizeopt/test/test_util.py:35-45 | the guard's fail-argument `j2` is the result of an earlier operation |
| TraceEqualityExamples.OtherBoxesAccepted | pypy/jit/metainterp/optimizeopt/test/test_util.py:35-45 | the sample trace is equal to its copy written over other boxes, in either mode |
| TestHelpers.OfKind | pypy/jit/metainterp/optimizeopt/test/test_util.py:394-396 | the filtered list holds only boxes of the given kind |
| TestHelpers.InsertSkips | pypy/jit/metainterp/optimizeopt/test/test_util.py:394-396 | inserting a box passes over a prefix of boxes of strictly lower rank |
| TestHelpers.InsertIntoPartition | pypy/jit/metainterp/optimizeopt/test/test_util.py:394-396 | inserting into an INT/REF/FLOAT partition puts the box at the front of its own block, ahead of the boxes of equal rank already there (which keeps the sort stable), and leaves the other blocks as they are |
| TestHelpers.InsertIntoIntBlock | pypy/jit/metainterp/optimizeopt/test/test_util.py:394-396 | an INT box goes in front of everything |
| TestHelpers.InsertIntoRefBlock | pypy/jit/metainterp/optimizeopt/test/test_util.py:394-396 | a REF box passes the INT block and goes in front of the REF block |
| TestHelpers.InsertIntoFloatBlock | pypy/jit/metainterp/optimizeopt/test/test_util.py:394-396 | a FLOAT box passes the INT and REF blocks and goes in front of the FLOAT block |
| TestHelpers.OfKindHead | pypy/jit/metainterp/optimizeopt/test/test_util.py:394-396 | the boxes of one kind are the first box if it has that kind, then those of the rest |
| TestHelpers.SortBoxesIsStable | pypy/jit/metainterp/optimizeopt/test/test_util.py:394-396 | the sorted list is the INT boxes, then the REF boxes, then the FLOAT boxes, each block in input order: a stable sort by kind |
| TestHelpers.SortBoxesOrdered | pypy/jit/metainterp/optimizeopt/test/test_util.py:394-396 | the sorted list is in ascending kind rank (INT 1, REF 2, FLOAT 3) |
| TestHelpers.InsertByKindAdds | pypy/jit/metainterp/optimizeopt/test/test_util.py:394-396 | inserting adds exactly the one box |
| TestHelpers.SortBoxesPermutes | pypy/jit/metainterp/optimizeopt/test/test_util.py:394-396 | the sorted list is a permutation of the input |
| TestHelpers.SeedRemapPositional | pypy/jit/metainterp/optimizeopt/test/test_util.py:414-417 | with distinct expected inputs, the seed renaming is defined on exactly those inputs and maps each to the optimized input at the same position |
| TestHelpers.SeedRemapOfSelfIsIdentity | pypy/jit/metainterp/optimizeopt/test/test_util.py:414-417 | a loop's inputs paired with themselves seed the identity |
| TestHelpers.AssertEqual | pypy/jit/metainterp/optimizeopt/test/test_util.py:411-419 | fails on input counts exactly when they differ; fails at the first pair of inputs of different classes; otherwise returns the lenient verdict of the operation lists from the positional seed |
| TestHelpers.AssertEqualReflexive | pypy/jit/metainterp/optimizeopt/test/test_util.py:411-419 | a loop passes against itself |
| TestHelpers.AssertEqualMeaning | pypy/jit/metainterp/optimizeopt/test/test_util.py:411-419 | a pass means equal lengths, each expected input renamed to its optimized partner, and every expected operation renaming to the optimized one |
| TestHelpers.ConvertOldStyleToTargets | pypy/jit/metainterp/optimizeopt/test/test_util.py:504-512 | fails exactly when `jump` is false and the last operation is not a JUMP; otherwise keeps the name and inputs, prepends a LABEL over the inputs, keeps every operation (`jump`), or replaces the final JUMP by a LABEL over its arguments (`not jump`) |
| CffiLib.SearchInGlobals | pypy/module/_cffi_backend/lib_obj.py:78 | the index of the first global with the name, or -1 exactly when no global has it |
| CffiLib.BuildGlobal | pypy/module/_cffi_backend/lib_obj.py:96-142 | a size error exactly when the declared size is nonzero, differs from the type's size, and the type's size is positive; NotImplementedError exactly for an unknown op; a global variable object at the global's address exactly when the sizes agree and the address is not NULL; the dlopen-fetch NotImplementedError exactly when the sizes agree and the address is NULL; no other op fails; a C function builds a function object at its address (a struct-argument wrapper when `structArgs`), an integer constant or enum builds an integer, and any other constant builds the constant object |
| CffiLib.AddressOf | pypy/module/_cffi_backend/lib_obj.py:194-205 | a global variable yields its address; a function, a struct wrapper or a function constant yields itself; an integer or other constant raises "cannot take the address" |
| CffiLib.ReprOf | pypy/module/_cffi_backend/lib_obj.py:80-92 | every library an include list names, and everything below it, is reachable from the list |
| CffiLib.LibObject.Repr | pypy/module/_cffi_backend/lib_obj.py:80-92 | a library reaches itself and nothing above it in the include graph; every library it reaches has an acyclic include graph |
| CffiLib.LibObject.IncludedInRepr | pypy/module/_cffi_backend/lib_obj.py:80-92 | an included library's reachable set lies below the including library and does not contain it |
| CffiLib.LibObject.Lookup | pypy/module/_cffi_backend/lib_obj.py:77-146 | an own global always yields something; the only errors are building errors |
| CffiLib.LibObject.SearchIncludes | pypy/module/_cffi_backend/lib_obj.py:80-94 | the search through the includes raises only building errors |
| CffiLib.LibObject.IncludeLookup | pypy/module/_cffi_backend/lib_obj.py:81-92 | one include raises only building errors |
| CffiLib.LibObject.Resolve | pypy/module/_cffi_backend/lib_obj.py:148-159 | AttributeError naming the library exactly when nothing defines the attribute; a value exactly when the search finds one, and it is that value; an error raised while building an attribute is passed on unchanged |
| CffiLib.LibObject.constructor | pypy/module/_cffi_backend/lib_obj.py:21-26 | a new library has an empty cache, and it is coherent with the uncached lookup whenever the libraries it includes are |
| CffiLib.LibObject.BuildAttr | pypy/module/_cffi_backend/lib_obj.py:77-146 | returns what an uncached search returns; caches the attribute exactly when a value is found; caches anywhere in the include graph only gain this attribute; every cache stays coherent |
| CffiLib.LibObject.SearchIncludesCached | pypy/module/_cffi_backend/lib_obj.py:79-94 | the for/else loop, consulting each included library's cache before building there, yields exactly the uncached search over the includes |
| CffiLib.LibObject.GetAttr | pypy/module/_cffi_backend/lib_obj.py:148-159 | returns `Resolve(attr)`; a cache hit changes no cache; on success the attribute is cached with the returned value |
| CffiLib.LibObject.SetAttr | pypy/module/_cffi_backend/lib_obj.py:167-174 | succeeds exactly for a global variable, whose object it returns as the write target; a function or constant gives "cannot write"; an unknown name gives the lookup error; caches stay coherent, a cache hit changes none, caches only gain the name, and a resolved name is left cached with its value |
| CffiLib.LibObject.DelAttr | pypy/module/_cffi_backend/lib_obj.py:176-179 | always an error: the lookup error for an unresolvable name, otherwise "cannot be deleted"; caches stay coherent, a cache hit changes none, caches only gain the name, and a resolved name is left cached with its value |
| CffiLib.LibObject.AddressOfGlobalVar | pypy/module/_cffi_backend/lib_obj.py:189-205 | the lookup error, or `AddressOf` of the resolved value; caches stay coherent, a cache hit changes none, caches only gain the name, and a resolved name is left cached with its value |
| CffiLib.LibObject.DirListsOwnGlobals | pypy/module/_cffi_backend/lib_obj.py:181-187 | a name is listed exactly when an own global has it, and every listed name resolves to something |
| CffiLib.LibObject.OwnGlobalWins | pypy/module/_cffi_backend/lib_obj.py:78-79 | when an own global has the name, the lookup is that global's built object or its building error, whatever the includes hold |
| CffiLib.LibObject.OwnFunctionAddressIsItself | pypy/module/_cffi_backend/lib_obj.py:189-202 | the address of an own C function global is the function object itself, which is what the lookup returns |
| CffiLib.LibObject.UnlistedNamesComeFromIncludes | pypy/module/_cffi_backend/lib_obj.py:78-94 | a name not listed by `dir` is resolved by the includes alone |
| CffiLib.LibObject.NotFoundIff | pypy/module/_cffi_backend/lib_obj.py:78-94 | nothing is found exactly when no own global has the name and every include yields nothing |
| CffiLib.LibObject.SearchIncludesNone | pypy/module/_cffi_backend/lib_obj.py:80-94 | the includes from position `j` on yield nothing exactly when each of them yields nothing |
| CffiLib.LibObject.FirstIncludeWins | pypy/module/_cffi_backend/lib_obj.py:80-92 | when no own global has the name, the first include that yields a value or an error decides the lookup |
| CffiLib.LibObject.SearchIncludesFrom | pypy/module/_cffi_backend/lib_obj.py:80-92 | the search from position `j` ends at the first include after it that yields something |
| CffiLib.IncludeNames | pypy/module/_cffi_backend/lib_obj.py:35-36 | the names are the entries before the first NULL |
| CffiLib.IncludesFrom | pypy/module/_cffi_backend/lib_obj.py:35-50 | success exactly when every name imports, with one included library per name, in order |
| CffiLib.FirstFailureReported | pypy/module/_cffi_backend/lib_obj.py:35-50 | a failure is the ImportError of the first name that cannot be imported, every earlier name having imported |
| CffiLib.FailureSticks | pypy/module/_cffi_backend/lib_obj.py:42-47 | once a prefix of the names fails to import, the whole list fails with the same error |
| CffiLib.MakeIncludesFrom | pypy/module/_cffi_backend/lib_obj.py:31-50 | the counting loop up to the NULL returns exactly `IncludesFrom` of the names before the NULL |

## Left out

- `optimizeopt/util.py` is not part of this model. `SortDescrs`, `EqualOpLists`, `ArgsSet` and `ArgsDict` follow the behaviour the tests assert, not that file's code.
- Descriptors.SortDescrs: an insertion sort. The original's algorithm lives in `optimizeopt/util.py`, so only what the test checks is claimed: sorted order, a permutation, and that a sorted list stays the same. Stability is not claimed.
- TraceEquality.EqualOpLists: the defaults `strict_fail_args=True` and `remap={}` are not modelled; every caller passes the mode and the seed (`true` and `map[]` where the tests rely on the defaults).
- `equaloplists`' diagnostic printing, its `text_right` argument, and the `AssertionError` it raises are left out. The model returns a verdict naming the first mismatching position and rule instead.
- Values are data, so Python object identity is left out. `get(op) is op` becomes equality of the stored operation. A box's identity is its `id` field.
- The `LLtypeMixin` fixture, the disabled `OOtypeMixin_xxx_disabled` block, `_do_optimize_loop`, `unroll_and_optimize`, `process_guard`, and the trace parser are left out. They drive or feed the optimizer and CPU, which are outside this model. Traces are built directly as values.
- `FakeMetaInterpStaticData`, `Fake`, and `Storage.store_final_boxes` are test plumbing with no comparison logic.
- `search_in_globals` is a binary search over a sorted table in the C parser, which is not part of this model. Here it is a linear search with the same result whenever names are unique.
- Realizing C types, `_build_cpython_func`, `realize_global_int`, converting a constant through its fetch function, and the `W_GlobSupport` read and write are foreign calls. Their results are the opaque fields of `Global` and `Value`.
- A global variable with a NULL address goes to `cdlopen_fetch`. The base class raises NotImplementedError there, which the model keeps. The dlopen subclass that overrides it is not part of this model.
- The RPython `assert`s on non-NULL function addresses and positive constant sizes are left out.
- `make_includes_from`'s application-level import is the parameter `imported`, a map from module name to library. Any import failure is a name missing from it. Asynchronous exceptions re-raised during the import are left out.
- `make_includes_from` stores its list in the ffi object after the library exists. Here the include list is fixed when the library object is built. `MakeIncludesFrom` computes the list that is passed in.
- `descr_getattribute` reads a global variable through `W_GlobSupport`, which is left out. `descr_repr`, the JIT hints and the `TypeDef` wiring carry no behaviour.
- The source has no guard against cyclic includes: `_build_attr` (`lib_obj.py:80-88`) would recurse without end through a library that includes itself. The model rules such cycles out with the ghost `depth` of each library object, which strictly decreases along includes, so a cyclic include graph cannot be built.
- An `ffi` object whose `lib` is None appears in `included_ffis_libs` only as its integer constants, which is what `fetch_int_constant` consults.
