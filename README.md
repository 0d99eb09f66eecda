# Simple-instruction handlers of a CPython 2 bytecode decompiler

This project models the handler table `SimpleInstructions` of the bytecode
decompiler in `decompile/simple_instructions.py`. The decompiler turns CPython 2
bytecode back into Python abstract syntax trees. It runs the instructions of a
basic block on an explicit operand stack (`ast_stack`). Each opcode handler pops
partly built AST nodes and pushes the node they combine into.

Covered:
- the binary, in-place and unary operator builders;
- the comparison map and `COMPARE_OP`;
- loads, stores and deletes of names, attributes, subscripts and slices;
- the call family with its packed argument count and its decorator rewrite;
- imports;
- the container builders, including the closure-tuple rule;
- `BUILD_MAP`, which reads ahead in the instruction feed up to each `STORE_MAP`;
- `UNPACK_SEQUENCE`, which runs the following store instructions on a `None` placeholder;
- the print and raise statements;
- the stack shuffles;
- `process_ifexpr` (merging a two-branch `If` into a conditional expression);
- `format_slice`.

Layout:
- `ast.dfy`: the values involved — instructions and their decoded arguments,
  the AST nodes (plus the raw values the handlers also push: `None`, the
  `'CLOSURE'` marker and unconverted constants), the errors the handlers raise.
- `tags.dfy`: the Load/Store/Del context discipline as predicates.
  `WellTagged` means every node in a read position is tagged Load and every
  assignment target is tagged Store. `StackTagged` means every entry of the
  stack is well tagged.
- `tables.dfy`: `isNone`, `CMP_OPMAP`, the opcode-to-operator tables,
  `LOAD_CONST`'s conversion, and the decoding of `CALL_FUNCTION`'s packed count
  with Python's unbounded `>>` and `~x & y`.
- `stacks.dfy`, `operators.dfy`, `names.dfy`, `calls.dfy`, `subscripts.dfy`,
  `containers.dfy`, `mapblocks.dfy`, `statements.dfy`: each handler as a
  function from the stack (a sequence, top last) to the new stack, or to the
  error it raises. Beside each are lemmas about what it builds, and a lemma that
  it keeps a well-tagged stack well tagged.
- `machine.dfy`: the class `SimpleInstructions`. Its fields are the stack, the
  instruction feed and the `seenYield` flag. Every handler is a method that pops
  and pushes one entry at a time, with loops where the source loops. Each
  method is proved to leave exactly the state the corresponding function
  describes, and to raise exactly when and what that function raises.
  Three methods follow a corrected function rather than the handler as written
  (see "## Findings"):
  - `StoreAttr` follows `Names.StoreAttr`; as written it is `Names.StoreAttrAsWritten`.
  - `StoreSlice` follows `Subscripts.StoreSlice`; as written it is `Subscripts.StoreSliceAsWritten`.
  - `PrintNewline` follows `Statements.PrintNewline`; as written it is `Statements.PrintNewlineAsWritten`.
- `scenarios.dfy`: whole statements run through the handlers, such as
  `a.b += 1`, `a[:] += x`, `x = y = v`, `from m import x as y` and comparisons.

Stack underflow on a handler's unconditional pops is a precondition (the
minimum depth the handler pops). A pop that happens only on some branches, an
`assert` in the source, a failed lookup, and a missing attribute are modelled as
the exception the source raises: `IndexError`, `AssertionError`, `KeyError` or
`AttributeError`.

Three behaviours of the code worth stating plainly:
- `ROT_TWO` pops `one`, then `two`, and pushes `one`, then `two`, so it swaps
  the top two entries (`Stacks.RotTwo`, `Stacks.RotTwoInvolution`).
- `STORE_SUBSCR` does not call `process_ifexpr` (`Subscripts.StoreSubscr`).
- `BUILD_MAP` appends each entry as it reads it from the feed, which keeps
  source order (`Containers.BuildMapOfLayout`).

## Model

| member | source | states |
|---|---|---|
| Tables.IsNone | decompile/simple_instructions.py:10-16 | holds of exactly two stack entries: Python's None and the name `None` read in Load context |
| Tables.DropNone | decompile/simple_instructions.py:674-675 | a bound that is absent or the name `None` becomes absent; any other bound is kept |
| Tables.CompareOpFor | decompile/simple_instructions.py:53-61 | the lookup succeeds exactly for a string mnemonic that is a key of the comparison map, and gives that key's operator |
| Tables.CmpOpMapKeys | decompile/simple_instructions.py:53-61 | the map has exactly eight mnemonics; `!=`, `<>` and `not in` are not among them |
| Tables.CmpOpMapInjective | decompile/simple_instructions.py:53-61 | no two mnemonics map to the same operator |
| Tables.BinaryTableCovers | decompile/simple_instructions.py:322-335 | every operator has a BINARY_ opcode |
| Tables.InplaceTableCovers | decompile/simple_instructions.py:337-349 | every operator has an INPLACE_ opcode |
| Tables.UnaryTableCovers | decompile/simple_instructions.py:351-354 | every unary operator has a UNARY_ opcode |
| Tables.ConstNode | decompile/simple_instructions.py:65-83 | LOAD_CONST's node is `Str(s)` for a byte string s, `Num(literal)` for an int, float or complex number, the `None` name exactly for Python's None, raw exactly for tuples and other objects (unicode strings and longs among them), and well tagged |
| Tables.AndNot | decompile/simple_instructions.py:125 | Python's `x & ~m` on naturals is never more than x, and is x when m is 0 |
| Tables.AndNotSelf | decompile/simple_instructions.py:125 | `~x & x` is 0 for every natural x |
| Tables.AndNotClearsHigh | decompile/simple_instructions.py:125 | clearing the high part `high * 2^k` of `high * 2^k + low` leaves the low part, for any `low < 2^k` |
| Tables.DecodeCallCount | decompile/simple_instructions.py:124-125 | `oparg >> 8` and `~(nkwargs << 8) & oparg` split oparg into `nkwargs * 256 + nargs` with `nargs < 256` |
| Tables.DecodeEncodeCallCount | decompile/simple_instructions.py:124-125 | decoding a count packed from `nkwargs` and `nargs < 256` gives back both |
| Tables.CallDepth | decompile/simple_instructions.py:124-156 | CALL_FUNCTION pops at least the callee and at least one entry per keyword pair; its exact value is stated by Tables.CallDepthCounts |
| Tables.CallDepthCounts | decompile/simple_instructions.py:124-156 | CALL_FUNCTION pops exactly `2 * (oparg >> 8) + (oparg & 255) + 1` entries: two per keyword pair, one per positional argument, and the callee |
| Stacks.RotTwo | decompile/simple_instructions.py:315-320 | the top two entries are swapped; nothing below changes |
| Stacks.RotThree | decompile/simple_instructions.py:511-518 | `[.., a, b, c]` becomes `[.., c, a, b]`; nothing below changes |
| Stacks.DupTop | decompile/simple_instructions.py:493-498 | the top entry is pushed again over an unchanged stack |
| Stacks.DupTopX | decompile/simple_instructions.py:501-509 | the top n entries are pushed again, in order, over an unchanged stack |
| Stacks.RotThreeCycles | decompile/simple_instructions.py:511-518 | three ROT_THREEs restore the stack |
| Stacks.RotTwoInvolution | decompile/simple_instructions.py:315-320 | two ROT_TWOs restore the stack |
| Stacks.RotTwoKeepsTags | decompile/simple_instructions.py:315-320 | ROT_TWO keeps a well-tagged stack well tagged |
| Stacks.RotThreeKeepsTags | decompile/simple_instructions.py:511-518 | ROT_THREE keeps a well-tagged stack well tagged |
| Stacks.DupKeepsTags | decompile/simple_instructions.py:493-509 | DUP_TOP and DUP_TOPX keep a well-tagged stack well tagged |
| Operators.Retag | decompile/simple_instructions.py:35 | setting `ctx` changes only the tag of a tagged node and leaves any other node as it is |
| Operators.Binary | decompile/simple_instructions.py:18-27 | pops right, then left, and pushes `BinOp(left, op, right)`: one entry fewer, nothing below changed |
| Operators.Inplace | decompile/simple_instructions.py:29-40 | pops right, then left, and pushes `AugAssign(left retagged Store, op, right)`; raises AttributeError exactly when left is a plain value (None, the closure marker, an unconverted constant) that has no `ctx` to set |
| Operators.Unary | decompile/simple_instructions.py:43-51 | the top entry becomes `UnaryOp(op, top)` |
| Operators.CompareOp | decompile/simple_instructions.py:357-367 | pushes `Compare(left, [op], [right])` exactly for the eight mnemonics of the map; any other mnemonic raises KeyError |
| Operators.RetaggedTarget | decompile/simple_instructions.py:35 | a well-tagged assignable node retagged Store is a well-tagged Store target |
| Operators.BinaryKeepsTags | decompile/simple_instructions.py:18-27 | BINARY_* keeps a well-tagged stack well tagged |
| Operators.InplaceKeepsTags | decompile/simple_instructions.py:29-40 | INPLACE_* on an assignable target succeeds and keeps the stack well tagged |
| Operators.UnaryKeepsTags | decompile/simple_instructions.py:43-51 | UNARY_* keeps a well-tagged stack well tagged |
| Operators.CompareOpKeepsTags | decompile/simple_instructions.py:357-367 | COMPARE_OP keeps a well-tagged stack well tagged |
| Names.ProcessIfExpr | decompile/simple_instructions.py:280-297 | an `If` with one statement per branch becomes `IfExp(test, body, orelse)`, any other `If` raises AssertionError, any other node is unchanged; the result is never an `If` |
| Names.IfExprKeepsTags | decompile/simple_instructions.py:280-297 | merging keeps a well-tagged node well tagged |
| Names.Rebind | decompile/simple_instructions.py:187-197 | binding an import's first alias to a name: whenever the imported name differs from the local one, the alias's `as` name becomes the local one, whatever it was; otherwise the aliases are unchanged; the other aliases are never changed; an empty name list raises IndexError |
| Names.StoreValue | decompile/simple_instructions.py:181-216 | every branch of STORE_NAME: import, from-import (which needs an ImportFrom below it), definition rename, augmented assignment, chained assignment (which pops one more entry), plain assignment; it fails exactly when the source raises |
| Names.StoreName | decompile/simple_instructions.py:177-180 | STORE_NAME merges an If and then records the store |
| Names.StoreValueKeepsTags | decompile/simple_instructions.py:181-216 | recording a store keeps a well-tagged stack well tagged |
| Names.ChainedStoreKeepsTags | decompile/simple_instructions.py:206-210 | the chained-assignment branch keeps the stack well tagged |
| Names.ImportStoreKeepsTags | decompile/simple_instructions.py:193-199 | the import branch keeps the stack well tagged |
| Names.FromImportStoreKeepsTags | decompile/simple_instructions.py:183-192 | the from-import branch keeps the stack well tagged |
| Names.PlainStoreKeepsTags | decompile/simple_instructions.py:211-216 | the plain assignment keeps the stack well tagged, its target tagged Store |
| Names.DefStoreKeepsTags | decompile/simple_instructions.py:200-203 | renaming a definition keeps the stack well tagged |
| Names.StoreNameKeepsTags | decompile/simple_instructions.py:177-216 | STORE_NAME keeps a well-tagged stack well tagged |
| Names.ReturnValue | decompile/simple_instructions.py:219-223 | the top entry becomes `Return(top)` |
| Names.YieldValue | decompile/simple_instructions.py:370-375 | the top entry becomes `Yield(top)` |
| Names.LoadAttr | decompile/simple_instructions.py:225-233 | the top entry becomes `Attribute(top, attr, Load)` |
| Names.DeleteAttr | decompile/simple_instructions.py:471-477 | the top entry becomes `del top.attr`, tagged Del |
| Names.StoreAttrAsWritten | decompile/simple_instructions.py:235-245 | STORE_ATTR as written: pops the object, then the value (merging an If), and pushes `object.attr = value` whatever the value is |
| Names.StoreAttr | decompile/simple_instructions.py:235-245 | STORE_ATTR as intended: an augmented assignment is pushed back unchanged, and the result is never an assignment of an augmented assignment |
| Names.StoreAttrAgrees | decompile/simple_instructions.py:235-245 | the two versions differ exactly when the merged value is an augmented assignment |
| Names.LoadAttrKeepsTags | decompile/simple_instructions.py:225-233 | LOAD_ATTR keeps a well-tagged stack well tagged |
| Names.DeleteAttrKeepsTags | decompile/simple_instructions.py:471-477 | DELETE_ATTR keeps a well-tagged stack well tagged |
| Names.ReturnValueKeepsTags | decompile/simple_instructions.py:219-223 | RETURN_VALUE keeps a well-tagged stack well tagged |
| Names.YieldValueKeepsTags | decompile/simple_instructions.py:370-375 | YIELD_VALUE keeps a well-tagged stack well tagged |
| Names.StoreAttrKeepsTags | decompile/simple_instructions.py:235-245 | the corrected STORE_ATTR keeps a well-tagged stack well tagged |
| Names.ImportName | decompile/simple_instructions.py:247-258 | pops the from-list and the level and pushes `import name`, a from-import exactly when the from-list is not None |
| Names.FromImport | decompile/simple_instructions.py:260-268 | pushes `from module import name` under the pending import; no names raises IndexError, a node without names AttributeError |
| Names.StarImport | decompile/simple_instructions.py:270-278 | the pending import becomes `from module import *`, with the same errors |
| Names.LoadName | decompile/simple_instructions.py:85-87 | pushes `Name(name, Load)` over an unchanged stack |
| Names.LoadConst | decompile/simple_instructions.py:65-83 | pushes the constant's node over an unchanged stack |
| Names.DeleteName | decompile/simple_instructions.py:457-469 | pushes `del name`, tagged Del, and pops nothing |
| Names.LoadsKeepTags | decompile/simple_instructions.py:65-87 | the loads and DELETE_NAME keep a well-tagged stack well tagged |
| Calls.Keywords | decompile/simple_instructions.py:131-136 | keyword pairs read from the top: one keyword per pair, or AttributeError |
| Calls.KeywordsPairUp | decompile/simple_instructions.py:131-136 | the read succeeds exactly when every name slot holds a string, and keyword j is `(pairs[2j].s, pairs[2j+1])`: source order is kept |
| Calls.KeywordsConcat | decompile/simple_instructions.py:131-136 | reading two runs of pairs laid end to end is reading each, the keywords concatenated |
| Calls.KeywordsOfPair | decompile/simple_instructions.py:132-135 | one pair gives one keyword exactly when its name is a string |
| Calls.KeywordsFailAt | decompile/simple_instructions.py:133-135 | a non-string name anywhere makes the read fail |
| Calls.KeywordsConsPair | decompile/simple_instructions.py:131-136 | a pair in front of others puts its keyword first |
| Calls.KeywordsOfPairs | decompile/simple_instructions.py:131-136 | reading the pairs a compiler pushes for some keywords gives back exactly those keywords |
| Calls.Decorate | decompile/simple_instructions.py:143-153 | the decorator goes in front of the definition's decorators; kind and name are kept |
| Calls.CallParts | decompile/simple_instructions.py:124-156 | popping the keyword entries, then the positional arguments, then one more entry takes exactly the call's entries, callee last |
| Calls.CallFunction | decompile/simple_instructions.py:123-160 | pops the keyword pairs, the positional arguments and the callee, and pushes `Call(callee, args, keywords)`, or the decorated definition when the only argument is one; fails exactly when a keyword name is not a string |
| Calls.LaidOutCall | decompile/simple_instructions.py:123-160 | on a stack holding callee, arguments and pairs, the pieces CALL_FUNCTION takes apart are exactly those |
| Calls.CallFunctionRebuilds | decompile/simple_instructions.py:123-160 | CALL_FUNCTION on the code a compiler emits for `f(args, k=v..)` rebuilds that call, with every argument and keyword in source order |
| Calls.KeywordValuesTagged | decompile/simple_instructions.py:131-136 | keyword values from a well-tagged stack are well tagged |
| Calls.PositionalArgsTagged | decompile/simple_instructions.py:138-140 | the positional arguments from a well-tagged stack are well tagged |
| Calls.CallNodeTagged | decompile/simple_instructions.py:143-160 | the call or decorated definition pushed is well tagged |
| Calls.CallFunctionKeepsTags | decompile/simple_instructions.py:123-160 | CALL_FUNCTION keeps a well-tagged stack well tagged |
| Calls.DecorateKeepsTags | decompile/simple_instructions.py:143-153 | decorating keeps a definition well tagged |
| Calls.WithExtras | decompile/simple_instructions.py:96-98 | a call gets the given star-arguments and keyword-arguments and keeps everything else |
| Calls.CallFunctionVar | decompile/simple_instructions.py:89-98 | pops the star-arguments first, then does CALL_FUNCTION and sets `starargs` on the call |
| Calls.CallFunctionKw | decompile/simple_instructions.py:100-109 | pops the keyword-arguments first and sets `kwargs` on the call |
| Calls.CallFunctionVarKw | decompile/simple_instructions.py:111-121 | pops keyword-arguments, then star-arguments, and sets both |
| Subscripts.Dims | decompile/simple_instructions.py:586-591 | each dimension of a tuple index is wrapped in Index unless it is a Slice |
| Subscripts.FormattedIndex | decompile/simple_instructions.py:581-600 | format_slice: ExtSlice exactly for a tuple with a Slice among its elements, a Slice kept as it is, anything else wrapped in Index |
| Subscripts.FormatSlice | decompile/simple_instructions.py:581-600 | the loop over the tuple's elements computes FormattedIndex |
| Subscripts.IndexDimTagged | decompile/simple_instructions.py:587-588 | wrapping a dimension keeps it well tagged |
| Subscripts.DimsTagged | decompile/simple_instructions.py:586-591 | the dimensions of well-tagged elements are well tagged |
| Subscripts.FormattedIndexKeepsTags | decompile/simple_instructions.py:581-600 | format_slice keeps a well-tagged index well tagged |
| Subscripts.BinarySubscr | decompile/simple_instructions.py:602-613 | pops index and owner and pushes `Subscript(owner, format_slice(index), Load)` |
| Subscripts.StoreSubscr | decompile/simple_instructions.py:784-800 | an augmented assignment below the owner is pushed back unchanged; otherwise `owner[index] = expr` with a Store subscript |
| Subscripts.DeleteSubscr | decompile/simple_instructions.py:802-813 | pushes `del owner[index]` with a Del subscript |
| Subscripts.SubscriptFormsAgree | decompile/simple_instructions.py:784-800 | load and store of the same stack build the same subscript up to its tag |
| Subscripts.BinarySubscrKeepsTags | decompile/simple_instructions.py:602-613 | BINARY_SUBSCR keeps a well-tagged stack well tagged |
| Subscripts.StoreSubscrKeepsTags | decompile/simple_instructions.py:784-800 | STORE_SUBSCR keeps a well-tagged stack well tagged |
| Subscripts.DeleteSubscrKeepsTags | decompile/simple_instructions.py:802-813 | DELETE_SUBSCR keeps a well-tagged stack well tagged |
| Subscripts.PoppedSlice | decompile/simple_instructions.py:615-658 | SLICE_n's bounds: lower present for n = 1, 3, upper for n = 2, 3, taken from the right stack slots, never a step |
| Subscripts.SliceLoad | decompile/simple_instructions.py:615-658 | SLICE_n pushes `Subscript(owner, slice, Load)` |
| Subscripts.StoreSliceAsWritten | decompile/simple_instructions.py:682-733 | STORE_SLICE_n as written: pushes `owner[slice] = expr`, the subscript tagged Store, whatever expr is |
| Subscripts.StoreSlice | decompile/simple_instructions.py:682-733 | STORE_SLICE_n as intended: an augmented assignment is pushed back unchanged, otherwise `owner[slice] = expr`; the result is never an assignment of an augmented assignment |
| Subscripts.StoreSliceAgrees | decompile/simple_instructions.py:682-733 | the two versions differ exactly when the value is an augmented assignment |
| Subscripts.DeleteSlice | decompile/simple_instructions.py:735-782 | DELETE_SLICE_n pushes `del owner[slice]`, the subscript tagged Del |
| Subscripts.SliceFormsAgree | decompile/simple_instructions.py:615-782 | for a value that is not an augmented assignment, the load, store and delete forms build the same slice of the same owner |
| Subscripts.PoppedSliceTagged | decompile/simple_instructions.py:615-658 | the slice of a well-tagged stack is well tagged |
| Subscripts.SliceLoadKeepsTags | decompile/simple_instructions.py:615-658 | SLICE_n keeps a well-tagged stack well tagged |
| Subscripts.StoreSliceKeepsTags | decompile/simple_instructions.py:682-733 | the corrected STORE_SLICE_n keeps a well-tagged stack well tagged |
| Subscripts.DeleteSliceKeepsTags | decompile/simple_instructions.py:735-782 | DELETE_SLICE_n keeps a well-tagged stack well tagged |
| Subscripts.BuildSlice | decompile/simple_instructions.py:661-680 | pops step, upper and lower by oparg; a `None` bound becomes absent, the step is kept as popped |
| Subscripts.BuildSliceAgreesWithSlice | decompile/simple_instructions.py:661-680 | BUILD_SLICE 2 then BINARY_SUBSCR is SLICE_3 when neither bound is `None` |
| Subscripts.BuildSliceKeepsTags | decompile/simple_instructions.py:661-680 | BUILD_SLICE keeps a well-tagged stack well tagged |
| Containers.BuildList | decompile/simple_instructions.py:379-388 | pops n items and pushes a Load list of them, bottom-most first |
| Containers.BuildSet | decompile/simple_instructions.py:405-414 | the same for a set |
| Containers.BuildTuple | decompile/simple_instructions.py:390-403 | a Load tuple of the items; all closure markers push nothing; some but not all raise AssertionError |
| Containers.BuildOfPushed | decompile/simple_instructions.py:379-414 | building over items just pushed gives a container of exactly those items in push order |
| Containers.ClosureCellsVanish | decompile/simple_instructions.py:399-401 | a tuple of closure markers only leaves the stack below them |
| Containers.ContainerKeepsTags | decompile/simple_instructions.py:379-414 | a Load container of well-tagged items keeps the stack well tagged |
| Containers.BuildKeepsTags | decompile/simple_instructions.py:379-414 | BUILD_LIST, BUILD_SET and BUILD_TUPLE keep a well-tagged stack well tagged |
| Containers.BuildMap | decompile/simple_instructions.py:416-439 | BUILD_MAP fails exactly when an entry does; on success the feed starts with n STORE_MAP-free blocks, each followed by a STORE_MAP and decompiling to (value, key), and BUILD_MAP pushes `Dict` of those keys and values in feed order and leaves the feed after the last STORE_MAP |
| Containers.BuildMapOfLayout | decompile/simple_instructions.py:416-439 | conversely, on a feed of n such blocks, each followed by its own STORE_MAP, BUILD_MAP succeeds with the blocks' keys and values in source order and leaves exactly what follows |
| Containers.DictPushTagged | decompile/simple_instructions.py:438-439 | a dict of well-tagged keys and values keeps the stack well tagged |
| Containers.BuildMapKeepsTags | decompile/simple_instructions.py:416-439 | with a block decompiler that builds only well-tagged nodes, BUILD_MAP keeps the stack well tagged |
| Containers.UnpackTarget | decompile/simple_instructions.py:446-452 | the target of one element: a name store gives a Store name and a nested UNPACK_SEQUENCE a Store tuple; an empty feed raises IndexError |
| Containers.UnpackTargets | decompile/simple_instructions.py:446-452 | n targets read one after another, all tagged Store, with the feed position after them |
| Containers.UnpackTargetsCons | decompile/simple_instructions.py:446-452 | a first target followed by n - 1 more is a read of n |
| Containers.UnpackTargetsSnoc | decompile/simple_instructions.py:446-452 | one more target after i goes at the end, as the loop appends it |
| Containers.UnpackTargetsStop | decompile/simple_instructions.py:446-452 | a failing target stops every longer read with its error |
| Containers.StoreOfPlaceholder | decompile/simple_instructions.py:211-216 | a name store on the None placeholder leaves `name = None`, whose first target is the element's |
| Containers.UnpackSequence | decompile/simple_instructions.py:441-455 | the top entry becomes `(targets..) = value`, the tuple tagged Store; fails exactly when a target does |
| Containers.UnpackSequenceKeepsTags | decompile/simple_instructions.py:441-455 | UNPACK_SEQUENCE keeps a well-tagged stack well tagged |
| Containers.UnpackReadsPattern | decompile/simple_instructions.py:441-455 | the store code a compiler emits for a (nested) target pattern reads back as that pattern's target |
| Containers.UnpackReadsPatterns | decompile/simple_instructions.py:441-455 | the same for a sequence of patterns, in order |
| MapBlocks.StoreMapFrom | decompile/simple_instructions.py:423-429 | the first STORE_MAP at or after a position, or the end of the feed |
| MapBlocks.StoreMapFromIs | decompile/simple_instructions.py:423-429 | a STORE_MAP with none before it is the one found |
| MapBlocks.MapEntry | decompile/simple_instructions.py:422-435 | one entry: the instructions before the next STORE_MAP (which is dropped), decompiled to exactly (value, key), else AssertionError; no STORE_MAP left raises IndexError |
| MapBlocks.MapEntryRunsOut | decompile/simple_instructions.py:424 | an entry raises IndexError exactly when no STORE_MAP is left |
| MapBlocks.MapEntries | decompile/simple_instructions.py:421-435 | n entries read one after another; the first failure stops the read |
| MapBlocks.MapEntriesNone | decompile/simple_instructions.py:421 | reading no entries reads nothing |
| MapBlocks.MapEntriesFirst | decompile/simple_instructions.py:421-435 | a read of n entries is one entry, then n - 1 more |
| MapBlocks.MapEntriesStep | decompile/simple_instructions.py:421-435 | one entry followed by n - 1 more is a read of n |
| MapBlocks.MapEntriesSnoc | decompile/simple_instructions.py:434-435 | one more entry after i appends its key and value, as the loop does |
| MapBlocks.MapEntriesStop | decompile/simple_instructions.py:421-435 | a failing entry stops every longer read with its error |
| MapBlocks.MapEntryOfBlock | decompile/simple_instructions.py:422-435 | a STORE_MAP-free block followed by STORE_MAP is read as one entry |
| MapBlocks.EntryKeys | decompile/simple_instructions.py:435 | the key of each block is the second node it decompiles to |
| MapBlocks.EntryValues | decompile/simple_instructions.py:434 | the value of each block is the first node it decompiles to |
| MapBlocks.MapEntriesOfLayoutAt | decompile/simple_instructions.py:421-435 | blocks laid out each followed by some STORE_MAP (line numbers free) are read back as their keys and values, in order |
| MapBlocks.MapEntriesOfLayout | decompile/simple_instructions.py:421-435 | the same from the start of a feed built from the blocks and one STORE_MAP per block |
| MapBlocks.MapEntriesLaidOut | decompile/simple_instructions.py:421-435 | the converse: every successful read of n entries is a read of n STORE_MAP-free blocks, each followed by a STORE_MAP, whose keys and values it returns |
| MapBlocks.MapEntriesOnly | decompile/simple_instructions.py:431-435 | every key and value comes out of the block decompiler |
| Statements.PopValue | decompile/simple_instructions.py:304-313 | an import is dropped, a print replaces the entry below it (IndexError if none), anything else becomes an expression statement |
| Statements.PopTop | decompile/simple_instructions.py:299-313 | POP_TOP merges an If and then finishes the statement |
| Statements.PopValueKeepsTags | decompile/simple_instructions.py:304-313 | finishing a statement keeps the stack well tagged |
| Statements.PopTopKeepsTags | decompile/simple_instructions.py:299-313 | POP_TOP keeps a well-tagged stack well tagged |
| Statements.OpenPrintShape | decompile/simple_instructions.py:532 | the test PRINT_ITEM and PRINT_NEWLINE apply to the entry on top (`OpenPrint`) holds exactly of a print statement without destination and without newline, whatever its values |
| Statements.PrintItem | decompile/simple_instructions.py:523-536 | the item joins an open print statement on top, or starts a new one |
| Statements.PrintItemKeepsTags | decompile/simple_instructions.py:523-536 | PRINT_ITEM keeps a well-tagged stack well tagged |
| Statements.AddItemTagged | decompile/simple_instructions.py:532-533 | adding a well-tagged item to an open print statement keeps the stack well tagged |
| Statements.PrintNewlineAsWritten | decompile/simple_instructions.py:538-545 | PRINT_NEWLINE as written: an empty stack raises IndexError; an open print is closed, otherwise a bare print is pushed |
| Statements.PrintNewline | decompile/simple_instructions.py:538-545 | PRINT_NEWLINE as intended: agrees with the handler wherever it succeeds, and on an empty stack pushes a bare print |
| Statements.PrintNewlineKeepsTags | decompile/simple_instructions.py:538-545 | PRINT_NEWLINE keeps a well-tagged stack well tagged |
| Statements.BarePrintFirst | decompile/simple_instructions.py:539 | a bare `print` on an empty stack: the handler raises, the corrected one prints |
| Statements.PrintItemOpen | decompile/simple_instructions.py:532-533 | an item after an open print is appended to it |
| Statements.PrintItemNew | decompile/simple_instructions.py:534-536 | an item with no open print starts a new one |
| Statements.PrintItemsExtend | decompile/simple_instructions.py:523-536 | items printed after an open print are appended to it, in order |
| Statements.PrintNewlineCloses | decompile/simple_instructions.py:541-542 | PRINT_NEWLINE closes an open print |
| Statements.PrintStatement | decompile/simple_instructions.py:523-545 | `print e1, .., en` compiles back to one print statement with exactly those items |
| Statements.PrintItemsConcat | decompile/simple_instructions.py:523-536 | printing xs, then ys, is printing xs + ys |
| Statements.RaiseCount | decompile/simple_instructions.py:821-826 | RAISE_VARARGS pops as many entries as its argument says, but never more than three |
| Statements.RaiseVarargs | decompile/simple_instructions.py:815-830 | pops traceback, instance and type by nargs and pushes the raise with the others absent |
| Statements.RaiseKeepsTags | decompile/simple_instructions.py:815-830 | RAISE_VARARGS keeps a well-tagged stack well tagged |
| Machine.SimpleInstructions.constructor | decompile/simple_instructions.py:63 | a handler set starts with an empty stack over the given feed, no yield seen |
| Machine.SimpleInstructions.PopItems | decompile/simple_instructions.py:385-386 | the pop-and-insert-at-front loop gives the top n entries in push order and leaves the stack below them |
| Machine.SimpleInstructions.Binary | decompile/simple_instructions.py:18-27 | leaves exactly Operators.Binary's stack; feed and flag unchanged |
| Machine.SimpleInstructions.Inplace | decompile/simple_instructions.py:29-40 | raises AttributeError exactly when Operators.Inplace fails, else leaves its stack |
| Machine.SimpleInstructions.Unary | decompile/simple_instructions.py:43-51 | leaves exactly Operators.Unary's stack |
| Machine.SimpleInstructions.CompareOp | decompile/simple_instructions.py:357-367 | raises KeyError exactly when Operators.CompareOp fails, else leaves its stack |
| Machine.SimpleInstructions.LoadConst | decompile/simple_instructions.py:65-83 | leaves exactly Names.LoadConst's stack |
| Machine.SimpleInstructions.LoadName | decompile/simple_instructions.py:85-87 | leaves exactly Names.LoadName's stack (also LOAD_FAST, LOAD_GLOBAL, LOAD_DEREF) |
| Machine.SimpleInstructions.DeleteName | decompile/simple_instructions.py:457-469 | leaves exactly Names.DeleteName's stack (also DELETE_FAST) |
| Machine.SimpleInstructions.ReturnValue | decompile/simple_instructions.py:219-223 | leaves exactly Names.ReturnValue's stack |
| Machine.SimpleInstructions.YieldValue | decompile/simple_instructions.py:370-377 | leaves exactly Names.YieldValue's stack and sets the yield flag |
| Machine.SimpleInstructions.LoadAttr | decompile/simple_instructions.py:225-233 | leaves exactly Names.LoadAttr's stack |
| Machine.SimpleInstructions.DeleteAttr | decompile/simple_instructions.py:471-477 | leaves exactly Names.DeleteAttr's stack |
| Machine.SimpleInstructions.RotTwo | decompile/simple_instructions.py:315-320 | leaves exactly Stacks.RotTwo's stack |
| Machine.SimpleInstructions.RotThree | decompile/simple_instructions.py:511-518 | leaves exactly Stacks.RotThree's stack |
| Machine.SimpleInstructions.DupTop | decompile/simple_instructions.py:493-498 | leaves exactly Stacks.DupTop's stack |
| Machine.SimpleInstructions.DupTopX | decompile/simple_instructions.py:501-509 | the pop-and-extend loop leaves exactly Stacks.DupTopX's stack |
| Machine.SimpleInstructions.PopKeyword | decompile/simple_instructions.py:132-136 | pops a value and its name; succeeds exactly when the name is a string, giving that keyword |
| Machine.SimpleInstructions.PopKeywords | decompile/simple_instructions.py:131-136 | the keyword loop gives exactly Calls.Keywords of the top pairs, and raises AttributeError exactly when that read fails |
| Machine.SimpleInstructions.CallFunction | decompile/simple_instructions.py:123-160 | passes exactly when Calls.CallFunction succeeds and then leaves its stack, else raises its error |
| Machine.SimpleInstructions.CallFunctionVar | decompile/simple_instructions.py:89-98 | the same against Calls.CallFunctionVar |
| Machine.SimpleInstructions.CallFunctionKw | decompile/simple_instructions.py:100-109 | the same against Calls.CallFunctionKw |
| Machine.SimpleInstructions.CallFunctionVarKw | decompile/simple_instructions.py:111-121 | the same against Calls.CallFunctionVarKw |
| Machine.SimpleInstructions.StoreName | decompile/simple_instructions.py:177-216 | passes exactly when Names.StoreName succeeds and leaves its stack, else raises its error |
| Machine.SimpleInstructions.StoreFast | decompile/simple_instructions.py:174-175 | delegates to STORE_NAME, with the same outcome |
| Machine.SimpleInstructions.StoreAttr | decompile/simple_instructions.py:235-245 | the same against the corrected Names.StoreAttr |
| Machine.SimpleInstructions.ImportName | decompile/simple_instructions.py:247-258 | leaves exactly Names.ImportName's stack |
| Machine.SimpleInstructions.FromImport | decompile/simple_instructions.py:260-268 | the same against Names.FromImport |
| Machine.SimpleInstructions.StarImport | decompile/simple_instructions.py:270-278 | the same against Names.StarImport |
| Machine.SimpleInstructions.PopTop | decompile/simple_instructions.py:299-313 | the same against Statements.PopTop |
| Machine.SimpleInstructions.BuildList | decompile/simple_instructions.py:379-388 | leaves exactly Containers.BuildList's stack |
| Machine.SimpleInstructions.BuildSet | decompile/simple_instructions.py:405-414 | leaves exactly Containers.BuildSet's stack |
| Machine.SimpleInstructions.BuildTuple | decompile/simple_instructions.py:390-403 | the same against Containers.BuildTuple |
| Machine.SimpleInstructions.PrintItem | decompile/simple_instructions.py:523-536 | leaves exactly Statements.PrintItem's stack |
| Machine.SimpleInstructions.PrintNewline | decompile/simple_instructions.py:538-545 | leaves exactly the corrected Statements.PrintNewline's stack |
| Machine.SimpleInstructions.RaiseVarargs | decompile/simple_instructions.py:815-830 | leaves exactly Statements.RaiseVarargs's stack |
| Machine.SimpleInstructions.BinarySubscr | decompile/simple_instructions.py:602-613 | leaves exactly Subscripts.BinarySubscr's stack |
| Machine.SimpleInstructions.StoreSubscr | decompile/simple_instructions.py:784-800 | leaves exactly Subscripts.StoreSubscr's stack |
| Machine.SimpleInstructions.DeleteSubscr | decompile/simple_instructions.py:802-813 | leaves exactly Subscripts.DeleteSubscr's stack |
| Machine.SimpleInstructions.PopBounds | decompile/simple_instructions.py:648-652 | pops SLICE_n's bounds and gives Subscripts.PoppedSlice |
| Machine.SimpleInstructions.SliceLoad | decompile/simple_instructions.py:615-658 | leaves exactly Subscripts.SliceLoad's stack |
| Machine.SimpleInstructions.StoreSlice | decompile/simple_instructions.py:682-733 | leaves exactly the corrected Subscripts.StoreSlice's stack |
| Machine.SimpleInstructions.DeleteSlice | decompile/simple_instructions.py:735-782 | leaves exactly Subscripts.DeleteSlice's stack |
| Machine.SimpleInstructions.BuildSlice | decompile/simple_instructions.py:661-680 | leaves exactly Subscripts.BuildSlice's stack |
| Machine.SimpleInstructions.ReadEntryBlock | decompile/simple_instructions.py:422-429 | the inner loop takes the feed up to the first STORE_MAP, drops it and gives the instructions before it; raises IndexError exactly when there is none |
| Machine.SimpleInstructions.BuildMap | decompile/simple_instructions.py:416-439 | passes exactly when Containers.BuildMap succeeds and then leaves its stack and feed, else raises its error |
| Machine.SimpleInstructions.UnpackSequence | decompile/simple_instructions.py:441-455 | passes exactly when Containers.UnpackSequence succeeds and then leaves its stack and the feed after the targets, else raises its error |
| Machine.SimpleInstructions.UnpackElement | decompile/simple_instructions.py:447-452 | one element: gives Containers.UnpackTarget's target and feed position with the stack as it was, or raises its error |
| Machine.SimpleInstructions.VisitTarget | decompile/simple_instructions.py:449 | a store instruction run on the placeholder leaves `target = None` with UnpackTarget's target, or raises its error |
| Scenarios.AugmentedAttributeStore | decompile/simple_instructions.py:235-245 | for `a.b += 1`, STORE_ATTR as written builds `a.b = (a.b += 1)` and the corrected one builds `a.b += 1` |
| Scenarios.AugmentedSliceStore | decompile/simple_instructions.py:682-692 | for `a[:] += x`, STORE_SLICE+0 as written builds `a[:] = (a[:] += x)` and the corrected one builds `a[:] += x` |
| Scenarios.ChainedAssignment | decompile/simple_instructions.py:206-210 | `x = y = v` becomes one assignment with targets x, y |
| Scenarios.PendingFromImportIs | decompile/simple_instructions.py:247-268 | after IMPORT_NAME and IMPORT_FROM the stack holds the unbound from-import under the pending import |
| Scenarios.RebindOne | decompile/simple_instructions.py:187-190 | the one imported name gets `as y` unless y is that name |
| Scenarios.FromImportStackIs | decompile/simple_instructions.py:181-192 | STORE_NAME binds the from-import and keeps the pending import on top |
| Scenarios.FromImportAs | decompile/simple_instructions.py:304-305 | after POP_TOP drops the pending import, `from m import x as y` is left alone |
| Scenarios.Comparisons | decompile/simple_instructions.py:357-367 | `a < b` becomes a comparison; `a != b` raises KeyError |

## Left out

- EXEC_STMT, PRINT_ITEM_TO and PRINT_NEWLINE_TO compare nodes by object identity (`locals_ is globals_`, `dup_print is print_`, `item.dest is stream`). Value-typed nodes cannot express that, so these three handlers are not modelled.
- `lineno` and `col_offset` on the nodes built are not modelled. The instruction record keeps `lineno` but no node carries it.
- LOAD_CONST's split between int, float and complex is not modelled. A number of those three types is carried as its literal text, because nothing here computes with it. A `unicode` string and a `long` integer are neither `str` nor one of those three types, so they are `OtherArg` constants and LOAD_CONST pushes them unconverted.
- Aliasing: the source changes nodes in place (`ctx`, `decorator_list`, `targets`, `values`, `nl`, `asname`, `name`). The model replaces the node at that stack position by the updated value. A copy of the same node elsewhere on the stack, such as one left by DUP_TOP, does not see the change.
- The dispatcher `self.visit` is not part of this model. After UNPACK_SEQUENCE, only STORE_NAME or STORE_FAST with a string argument and a nested UNPACK_SEQUENCE are dispatched. Any other follow-up instruction ends the handler with the model's own `Unsupported` error.
- The block decompiler `decompile_block(...).stmnt()` is not part of this model. It is a parameter (`decompileBlock`) taken as an arbitrary function from instructions to nodes.
- Machine.SimpleInstructions (every method that can raise): the contract gives the error raised but not the partly popped stack the handler leaves behind when the exception propagates.
- Calls.WithExtras: a decorated definition returned by CALL_FUNCTION does not get the `starargs` and `kwargs` attributes the source sets on it. Definitions have no such fields here.
- A stack pop that every path of a handler makes is a precondition on the minimum depth, not an `IndexError` path.
- Names are strings. An instruction argument of another type where a name is expected (possible in Python, not produced by the compiler) is not modelled.

## Findings

| source | as written | input that shows it | evidently intended | confidence | as-written member | corrected member |
|---|---|---|---|---|---|---|
| decompile/simple_instructions.py:235-245 | STORE_ATTR wraps the value in `Assign` even when the value is an augmented assignment that already stores into the attribute | `a.b += 1` (LOAD_NAME a, DUP_TOP, LOAD_ATTR b, LOAD_CONST 1, INPLACE_ADD, ROT_TWO, STORE_ATTR b) gives `a.b = (a.b += 1)` | re-push the augmented assignment unchanged, as STORE_NAME (line 204) and STORE_SUBSCR (line 790) do | high; not executed | Names.StoreAttrAsWritten | Names.StoreAttr |
| decompile/simple_instructions.py:682-733 | STORE_SLICE_0 to STORE_SLICE_3 wrap the value in `Assign` even when it is an augmented assignment that already stores into the slice | `a[:] += x` (LOAD_NAME a, DUP_TOP, SLICE+0, LOAD_NAME x, INPLACE_ADD, ROT_TWO, STORE_SLICE+0) gives `a[:] = (a[:] += x)` | re-push the augmented assignment unchanged, as STORE_SUBSCR (line 790) does | high; not executed | Subscripts.StoreSliceAsWritten | Subscripts.StoreSlice |
| decompile/simple_instructions.py:538-545 | PRINT_NEWLINE reads `ast_stack[-1]` without checking that the stack is non-empty | a bare `print` as the first statement of a block, i.e. PRINT_NEWLINE on an empty stack, raises IndexError | push an empty closed print statement, guarding the read as PRINT_ITEM does at line 527 | medium; not executed | Statements.PrintNewlineAsWritten | Statements.PrintNewline |
