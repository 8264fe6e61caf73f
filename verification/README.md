# Verified model of the SignalWire C++ SDK's codecs and build tooling

The project models the algorithms of the repository whose correctness is not evident from reading them,
and proves what they promise. `dafny verify dfyconfig.toml` checks everything.

| files | what is modelled |
|---|---|
| `Base64Spec`, `CommonBase64`, `WireDump` | the two Base64 implementations: a streaming pair over a wrapping 32-bit accumulator, and a block-of-three encoder with a second streaming decoder over the URL-safe alphabet. One block-of-three definition (RFC 4648, sections 4 and 5), itself tied to the bits of the input read as one big number, serves as the specification of all four loops. |
| `TidyCache`, `TidyDriver`, `TidyHistory`, `TidyRace`, `TidyPieces`, `TidyAlone` | the tiered cache of clang-tidy results: local and remote tiers, how they are built, write-back, the driver that is meant always to fall back to a real run, histories of runs in changing environments, and the driver again as a state machine of many interleaved processes that write their files in pieces. |
| `StatsText`, `StatsLock`, `StatsRead`, `Stats` | the sharded hit counters under lock files: the text of a counter file, the state machine of many processes, a read of all shards among them, and the sequential class. |
| `Schemas`, `SchemaFields`, `FlattenUnion` | two walks over cyclic tables of schemas, one with a shared mutable set of seen names and one with no memory at all, both against reachability by paths. |
| `MemberNames`, `Paths`, `CppExpr`, `PathCompiler`, `PathEmitter`, `PathExamples`, `RouteTemplates` | naming of generated members; the compiler from URL templates to C++ string expressions, with a reader and evaluator for the emitted expressions; and the templating that undoes it. |
| `GreedyPack`, `BinPack`, `WrapLayout`, `ReflowComments`, `AlignComments` | the deterministic line breaker: packing, the choice of a layout, comment reflow, comment alignment. |
| `TopLevelSplit`, `Qualifiers`, `TypeTranslate`, `TypeHeads`, `CppLiterals` | the comma splitters, the translator of C++ type spellings, the string-literal escaper and the literal masker, each against a printer or a reader. |
| `Sequences`, `Whitespace`, `Wrappers` | shared definitions. |

Loops and mutated state of the source are methods and classes here. Each is proved to compute a function,
and the properties are lemmas about those functions. Bytes are integers from 0 to 255; text is a sequence of
characters.

Places where the code does less than a reader might expect from its description are stated as they are, with
the exact condition where one exists:

- The decoder of `common.hpp` accepts more than canonical Base64; re-encoding gives the string back exactly
  for the canonical ones (`CommonBase64.ReverseRoundTrip`; for instance `CommonBase64.SloppyTextIsRead`).
- A token whose call id or function name contains a dot does not split into its five fields
  (`WireDump.TokenInterop`; for instance `WireDump.DottedCallId`).
- `_binpack` loses the tail of an empty parameter list (`BinPack.BinPackKeepsText`; for instance
  `BinPack.EmptyListLosesTail`).
- `_flatten_union` overflows the stack on every reference cycle it can reach
  (`FlattenUnion.CompletesIffCycleFree`; for instance `FlattenUnion.SelfReferenceOverflows`).
- A parameter of a relative path that asks for the name `base_path_` hides the member of that name
  (for instance `PathCompiler.BaseCanBeHidden`), and slashes are dropped where a relative path has an empty
  segment or an absolute one is nothing but slashes (for instance `PathCompiler.SlashCanBeDropped`). In all other
  cases, and in no others, the expression means the path (`PathCompiler.CompiledMeansExactly`).
- A literal segment `__ID__` is taken for a parameter (`RouteTemplates.TemplateOfFilled`; for instance
  `RouteTemplates.LiteralSentinelIsRenamed`). A route is recovered exactly if none of the three happens
  (`RouteTemplates.RouteRecovered`).
- A path with an unclosed brace keeps `abs_cpp_path` in its loop for ever (`PathEmitter.ScanEndsIffCloses`; for
  instance `PathEmitter.OpenBraceGoesOn`).
- The string escaper does not escape newlines (`CppLiterals.ReadOfCppStr`; for instance
  `CppLiterals.LineBreakIsNotEscaped`).
- The header of `clang_tidy_cache.py` says that any cache error leads to a real run. An error while the cache is
  built does not: a tier whose module is missing, whose settings do not parse or which gets no client ends the
  process with status 1, and clang-tidy is never run (`TidyDriver.BrokenTierStopsTheRun`; for instance
  `TidyDriver.ServerWithoutRequests`). Over whole histories every run has the status of the tool exactly if each
  has its cache built or a tool that ends in status 1 (`TidyHistory.StatusAgreesIffBuilt`).
- Once the cache is built, every error the driver notices leads to a real run (`TidyDriver.FailOpen`,
  `TidyHistory.CachedRunsAgree`). A local file left in part by a failed write is not noticed: it is replayed
  unless the part is empty or no text (`TidyDriver.TornStoreExact`; for instance
  `TidyDriver.TornStoreIsReplayed`).
- So is a local file that is read while somebody still writes it: with writes in pieces, the answers are the
  tool's in all executions exactly if no output is saved or no run that can be stored has any
  (`TidyPieces.AlwaysAgreeExactly`;
  `TidyPieces.ReadInBetween` is the run that goes wrong).
- A server's reply is decoded to text and encoded again. What comes back may be replayed as something else: a
  run answers as uncached exactly if the reply came through unchanged or cannot be replayed
  (`TidyHistory.ReplyExact`; for instance `TidyHistory.LatinReplyIsReplayed`).
- A get that passes over a failing remote and writes back what is behind it changes what later gets see
  (`TidyCache.WriteBackKeepsView`; for instance `TidyCache.PassedOverIsHidden`).
- The driver itself ends in status 1 on a tool whose output is no UTF-8 (`TidyDriver.RealRunStatus`; for instance
  `TidyDriver.UndecodableOutputFails`).
- In save-output mode an exit code outside 0 to 255 is replayed as its low byte (`TidyDriver.SecondRunExact`; for
  instance `TidyDriver.KilledToolReplayed`), which is also all that the operating system keeps of it
  (`TidyDriver.AsUncachedMeans`).
- Releasing the lock of a counter file swallows a failing close or unlink. The lock file then stays, and its
  shard counts nothing any more (`StatsLock.LockGivenBack`, `StatsLock.LeakedShardIsDead`; for instance
  `StatsLock.LockCanLeak`).
- A `const` that follows a `*` is not stripped from a C++ type spelling, nor are the marks before it
  (`Qualifiers.StripsToCore`; for instance `Qualifiers.ConstTailStays`).
- One argument that is no known type makes a whole C++ type untranslatable (`TypeTranslate.TranslatesIffKnown`).
  The size of a `std::array` is such an argument (`TypeTranslate.SizedArray`; for instance
  `TypeTranslate.ArrayOfFiveRaises`), and so, as a rule, is the signature of a `std::function` (for instance
  `TypeTranslate.FunctionRaises`).

## Model

| member | source | states |
|---|---|---|
| Base64Spec.SextetsSpellTheBits | include/signalwire/common.hpp:100-110 | the sextets of any byte string, read as one number base 64, are the bytes read as one number base 256, shifted left by the zero bits of the last group: the bits come out in order, none lost or added |
| Base64Spec.EncodedLength | include/signalwire/common.hpp:96-115 | the encoding of n bytes has 4 * ceil(n / 3) characters (RFC 4648, section 4) |
| Base64Spec.BytesOfEncode | include/signalwire/common.hpp:118-147 | the alphabet characters at the front of an encoding are its sextets, and their bytes are the input |
| Base64Spec.EncodeIsCanonical | include/signalwire/common.hpp:96-115 | every encoding is canonical: whole quartets, padding only at the end, unused bits zero (RFC 4648, section 3.5) |
| Base64Spec.CanonicalRoundTrip | include/signalwire/common.hpp:96-147 | for either alphabet, encoding what was decoded gives the string back if and only if the string is canonical |
| Base64Spec.AlphabetsAgreeUpToSubstitution | tools/wire_dump.cpp:68-97 | on every input the two encodings, and so the two encoders, differ in `+` for `-` and `/` for `_` only |
| CommonBase64.ShiftIn | include/signalwire/common.hpp:101 | `(val << k) + c` in 32 bits: the exact shift and sum, brought into the range of an `int` once |
| CommonBase64.NoOverflow | include/signalwire/common.hpp:101 | a shifted accumulator has zero low bits, so adding a byte or a sextet stays within 32 bits |
| CommonBase64.EncoderWidthsAgree | include/signalwire/common.hpp:99-110 | from any reachable count of pending bits (-6, -4, -2) the encoder emits the same with a wrapping 32-bit accumulator as with an unbounded one |
| CommonBase64.DecoderWidthsAgree | include/signalwire/common.hpp:134-145 | the same for the decoder, with its counts -8, -6, -4, -2 |
| CommonBase64.EncoderMeetsSpec | include/signalwire/common.hpp:99-110 | the streaming encoder emits the sextets of blocks of three, whatever stale bits its accumulator started with |
| CommonBase64.DecoderMeetsSpec | include/signalwire/common.hpp:134-145 | the streaming decoder emits the bytes of blocks of four, whatever stale bits its accumulator started with |
| CommonBase64.PushPending | include/signalwire/common.hpp:103-106 | the inner loop pushes every complete sextet of the accumulator and leaves the count in {-6, -4, -2} |
| CommonBase64.PadToQuartets | include/signalwire/common.hpp:111-113 | the padding loop adds the `=` that complete the last quartet |
| CommonBase64.Base64Encode | include/signalwire/common.hpp:96-115 | the loop over a wrapping 32-bit accumulator computes the block-of-three encoding over the standard alphabet |
| CommonBase64.Base64Decode | include/signalwire/common.hpp:118-147 | the loop over a wrapping 32-bit accumulator, stopping at the first foreign character, computes the bytes of the leading alphabet characters |
| CommonBase64.TableIsValue | include/signalwire/common.hpp:119-132 | each of the 256 entries of the decoder's table is the sextet of its character, or -1 |
| CommonBase64.RoundTrip | include/signalwire/common.hpp:96-147 | decoding an encoding gives the input, for every byte string |
| CommonBase64.ReverseRoundTrip | include/signalwire/common.hpp:96-147 | encoding a decoding gives the string back if and only if it is canonical, and the canonical strings are exactly the encoder's image |
| CommonBase64.SloppyTextIsRead | include/signalwire/common.hpp:118-147 | for instance, `QQ` and `QR==` are read like the canonical `QQ==` |
| WireDump.Base64UrlEncode | tools/wire_dump.cpp:70-97 | the encoder over blocks of three computes the URL-safe encoding |
| WireDump.CrossRoundTrip | tools/wire_dump.cpp:70-159 | what the streaming encoder of common.hpp writes, with its two symbols substituted, the URL-safe decoder reads back |
| WireDump.Base64UrlDecode | tools/wire_dump.cpp:135-159 | the decoder with an unsigned 32-bit buffer, stopping at `=` and skipping foreign characters, computes the bytes of the characters it keeps |
| WireDump.UrlRoundTrip | tools/wire_dump.cpp:70-159 | the URL-safe decoder inverts the block encoder on every byte string |
| WireDump.UrlReverseRoundTrip | tools/wire_dump.cpp:70-159 | encoding what the URL-safe decoder made of a string gives it back if and only if the string is canonical over that alphabet |
| WireDump.ForeignCharacter | tools/wire_dump.cpp:149-150 | a foreign character other than `=` makes no difference to what the URL-safe decoder keeps |
| WireDump.ForeignCharacterStops | include/signalwire/common.hpp:136-138 | whereas in the standard decoder a foreign character ends the input |
| WireDump.TokenFields | tools/wire_dump.cpp:161-173 | the loop over the decoded token splits it at every dot, empty fields kept |
| WireDump.TokenInterop | tools/wire_dump.cpp:102-173 | a token that is built, encoded, decoded and split has five fields if and only if call id and function name hold no dot, and then the five are the ones put in |
| WireDump.DottedCallId | tools/wire_dump.cpp:102-173 | for instance, the call id `a.b` breaks a token up |
| SchemaFields.Fields | scripts/generate_rest.py:885-903 | the depth-first walk with a shared set of seen names ends on every finite table, cyclic or not, and only adds to the set |
| SchemaFields.WalkSchema | scripts/generate_rest.py:885-903 | the recursion that mutates the shared set returns the names and leaves the set of the pure walk |
| SchemaFields.WalkBranches | scripts/generate_rest.py:900-902 | the loop over the branches of one combinator, each starting from the set its elder siblings left |
| SchemaFields.FieldsWalkExactly | scripts/generate_rest.py:885-903 | from any set of seen names: the walk returns and marks what is reachable, except what was marked before, and misses nothing that is not behind a marked name |
| SchemaFields.FieldsAreExact | scripts/generate_rest.py:885-903 | from the empty set: a name is returned if and only if some path of local references and combinators leads to a declaration of it, although siblings share the set |
| SchemaFields.SchemaFieldsOf | scripts/generate_rest.py:885-903 | the top-level call returns exactly the property names reachable in that sense |
| Schemas.LeafIs | scripts/generate_rest.py:894 | the target of a reference is the name behind its last slash, or all of it if it has none |
| SchemaFields.FieldsOfReference | scripts/generate_rest.py:889-898 | a local reference such as `#/components/schemas/Pet` gives exactly what is reachable from the schema of that name, and nothing if there is none |
| SchemaFields.FieldsOfForeignReference | scripts/generate_rest.py:892-893 | a reference that does not start with `#/` gives nothing |
| SchemaFields.PetFields | scripts/generate_rest.py:885-903 | for instance, a pet with a name that refers to an animal with legs |
| FlattenUnion.Flattener.AddProperties | scripts/generate_swml_verbs.py:110-111 | the setdefault loop keeps what is there and appends what is new, in order |
| FlattenUnion.Flattener.Visit | scripts/generate_swml_verbs.py:101-115 | the nested walk that mutates the captured dict does what the pure walk says, and fails exactly when the recursion gets too deep |
| FlattenUnion.Flattener.VisitAll | scripts/generate_swml_verbs.py:108-115 | the same for a list of branches |
| FlattenUnion.Flatten | scripts/generate_swml_verbs.py:96-118 | the whole call, from an empty dict |
| FlattenUnion.DeeperSame | scripts/generate_swml_verbs.py:101-115 | a walk that completes gives the same dict with any more stack |
| FlattenUnion.WalkAddsDeclared | scripts/generate_swml_verbs.py:101-115 | a completed walk adds exactly the property names reachable through references and combinators |
| FlattenUnion.SameNamesAsSchemaFields | scripts/generate_swml_verbs.py:96-118 | on tables of local references, the walk without memory yields exactly the names of the memoised one |
| FlattenUnion.FirstDeclarationWins | scripts/generate_swml_verbs.py:108-115 | each name is mapped to the schema of its first declaration in walk order (allOf, own properties, oneOf, anyOf), keys stay distinct and earlier entries stay in place |
| FlattenUnion.DeclarationOrder | scripts/generate_swml_verbs.py:108-115 | of one name declared in all four places, the declaration under allOf wins, then the own property, then oneOf, then anyOf |
| FlattenUnion.WalkOfReference | scripts/generate_swml_verbs.py:104-107 | a reference of any kind leads to the schema named behind its last slash |
| FlattenUnion.CompletedMeansCycleFree | scripts/generate_swml_verbs.py:104-107 | a walk that completes has met no reference cycle |
| FlattenUnion.CycleFreeCompletes | scripts/generate_swml_verbs.py:104-107 | a walk of a node from which no cycle can be reached completes, given stack enough |
| FlattenUnion.CompletesIffCycleFree | scripts/generate_swml_verbs.py:96-118 | some depth of stack suffices if and only if no reference cycle can be reached from the node |
| FlattenUnion.SelfReferenceOverflows | scripts/generate_swml_verbs.py:96-118 | for instance, a schema that refers to itself overflows any stack |
| GreedyPack.FirstLineIsExact | scripts/_cpp_fmt.py:96-104 | the first line takes m words if and only if those m words, set on one line, fit or are a single word |
| GreedyPack.GreedyIsSplit | scripts/_cpp_fmt.py:96-104 | greedy packing cuts the words into lines in order, none lost, every line of two or more words within 100 columns |
| GreedyPack.FewerWordsFewerLines | scripts/_cpp_fmt.py:96-104 | dropping words from the front never makes the packing longer |
| GreedyPack.GreedyIsOptimal | scripts/_cpp_fmt.py:96-104 | no order-preserving split whose multi-word lines fit has fewer lines |
| BinPack.PackLoop | scripts/_cpp_fmt.py:90-104 | the loop over the pieces builds the greedy packing, the last line still open |
| WrapLayout.PiecesAre | scripts/_cpp_fmt.py:88-89 | a piece is a parameter with its comma, the last one with the tail |
| WrapLayout.PiecesText | scripts/_cpp_fmt.py:88-89 | on one line the pieces are the parameter list and the tail |
| BinPack.PlusLoop | scripts/_cpp_fmt.py:105-118 | the loop over the operands of an over-long last line |
| BinPack.BinPackLines | scripts/_cpp_fmt.py:79-119 | the whole of `_binpack` computes the packed lines |
| BinPack.PackedIsSplit | scripts/_cpp_fmt.py:88-104 | for one or more parameters, the lines before the `+` stage are an in-order split of the pieces whose multi-piece lines fit |
| BinPack.PackedIsOptimal | scripts/_cpp_fmt.py:88-104 | and no other such split has fewer lines |
| BinPack.PlusStageSplits | scripts/_cpp_fmt.py:105-118 | the `+` stage keeps the operands in order, ends every line but the last with ` +`, and leaves a line over the limit only if it has a single operand |
| BinPack.PlusStageOptimal | scripts/_cpp_fmt.py:105-118 | no in-order split of the operands whose multi-operand lines fit takes fewer lines than the `+` stage |
| WrapLayout.PlusStageFits | scripts/_cpp_fmt.py:105-118 | the lines of the `+` stage fit within 100 columns if and only if the line did, or some in-order split of its operands does |
| BinPack.OverlongLine | scripts/_cpp_fmt.py:79-119 | with parameters, a line over 100 columns is the head on a line of its own, or holds one piece, or one operand |
| BinPack.BinPackKeepsText | scripts/_cpp_fmt.py:79-119 | `_binpack` changes nothing but white space if and only if there is a parameter or the tail is blank: an empty parameter list loses the tail |
| BinPack.EmptyListLosesTail | scripts/_cpp_fmt.py:79-119 | for instance, `f(` and `);` with no parameters between lose the `);` |
| BinPack.WrapSignatureLines | scripts/_cpp_fmt.py:122-134 | `_wrap_signature`: one line, else aligned under the parenthesis, else on a continuation |
| WrapLayout.OneLine | scripts/_cpp_fmt.py:126-128 | a signature of at most 100 columns is one line |
| WrapLayout.UnderTheParenthesis | scripts/_cpp_fmt.py:129-132 | a longer one, some in-order split of whose pieces fits within 100 columns under the parenthesis: the first line is indent, head and the first pieces, every other is as many blanks and pieces, all within 100 columns, in no more lines than any such split |
| WrapLayout.BrokenUnderTheParenthesis | scripts/_cpp_fmt.py:105-118 | if the last piece fits there only broken at its operators: the pieces before it as above, then its operands in groups, all within 100 columns |
| WrapLayout.OnTheContinuation | scripts/_cpp_fmt.py:133-134 | in all other cases the first line is the indent and the stripped head alone, and the pieces follow behind four blanks more than the indent, in the fewest lines |
| WrapLayout.WithoutParameters | scripts/_cpp_fmt.py:127-134 | what becomes of an over-long head without parameters |
| WrapLayout.ThreeParameters | scripts/_cpp_fmt.py:130-132 | for instance, of three parameters of 36 columns two go behind the parenthesis and one under it |
| BinPack.WrapKeepsText | scripts/_cpp_fmt.py:122-134 | and all three ways change nothing but white space |
| BinPack.WrapOverlong | scripts/_cpp_fmt.py:122-134 | a line over 100 columns of a signature with parameters is its head, one parameter, or one operand |
| ReflowComments.MatchSplits | scripts/_cpp_fmt.py:192-198 | a matching line is its indent, its marker, a blank and a body, and nothing else |
| ReflowComments.ParaKeepsWords | scripts/_cpp_fmt.py:210-227 | refilling a paragraph keeps its words in order, makes every multi-word line fit, and never drops a line |
| ReflowComments.ParaStable | scripts/_cpp_fmt.py:210-227 | a paragraph whose multi-word lines fit is refilled line for line as it is |
| ReflowComments.FillLine | scripts/_cpp_fmt.py:213-217 | the inner loop fills one line as far as it goes |
| ReflowComments.ReflowParagraph | scripts/_cpp_fmt.py:210-227 | both loops over one paragraph, with the words carried down |
| ReflowComments.CollectRun | scripts/_cpp_fmt.py:199-206 | the loop that collects the lines of one prefix |
| ReflowComments.ReflowOneRun | scripts/_cpp_fmt.py:207-227 | a run is left alone if it fits and refilled if not |
| ReflowComments.ReflowCommentLines | scripts/_cpp_fmt.py:184-229 | the whole pass |
| ReflowComments.ReflowedRun | scripts/_cpp_fmt.py:199-227 | a reflowed run is a run of the same prefix with the same words, no shorter, stable, and within 100 columns but for single over-long words |
| ReflowComments.ReflowIdempotent | scripts/_cpp_fmt.py:184-229 | reflowing twice is reflowing once, on any lines |
| ReflowComments.ReflowKeepsContent | scripts/_cpp_fmt.py:184-229 | every other line, and the words of every run of one prefix, are kept in order |
| ReflowComments.ReflowedWidth | scripts/_cpp_fmt.py:184-229 | every comment line of the result is within 100 columns unless it is a single word |
| AlignComments.FlushRun | scripts/_cpp_fmt.py:239-247 | flushing a run pads each row to the common column |
| AlignComments.AlignTrailingComments | scripts/_cpp_fmt.py:232-260 | the whole pass, runs ended by blank lines |
| AlignComments.SplitRowExact | scripts/_cpp_fmt.py:254-258 | a line is cut into code and comment if and only if it is no comment as a whole and holds code that ends in ink, two or more blanks and two slashes; it is cut at the last such place |
| AlignComments.TwoBlanksCut | scripts/_cpp_fmt.py:254-258 | for instance, two blanks before the slashes are enough and one is not |
| Whitespace.SpacesAre | scripts/_cpp_fmt.py:250 | the white space that is stripped is the 29 characters Python counts as such |
| AlignComments.AlignSameRows | scripts/_cpp_fmt.py:232-260 | the pass keeps the number of lines, each line's code and each comment |
| AlignComments.AlignIdempotent | scripts/_cpp_fmt.py:232-260 | aligning twice is aligning once |
| AlignComments.CommentsLineUp | scripts/_cpp_fmt.py:243-246 | in a run every comment starts at one column, at least two past its code, and exactly two past the widest commented code |
| AlignComments.AlignKeepsReflow | scripts/_cpp_fmt.py:403-404 | aligning lines that reflow leaves alone gives lines that reflow leaves alone |
| AlignComments.LastPassesIdempotent | scripts/_cpp_fmt.py:403-404 | the last two passes together are idempotent |
| TopLevelSplit.SplitTopLevel | scripts/_cpp_fmt.py:59-76 | the loop computes the pieces between commas at depth zero of `<>` and `()`, stripped, the last dropped if blank |
| TopLevelSplit.SplitTopCommas | scripts/enumerate_signatures.py:271-287 | the loop computes the pieces between commas at depth zero of all four brackets, stripped, the last dropped if empty |
| TopLevelSplit.CommaBetweenBrackets | scripts/enumerate_signatures.py:275-283 | a comma between angle brackets or parentheses does not cut; between curly or square brackets it does not cut for this splitter, and does for `_split_toplevel` |
| TopLevelSplit.BehindTheLastComma | scripts/enumerate_signatures.py:284-286 | behind the last comma this splitter drops only an empty rest, `_split_toplevel` a blank one |
| TopLevelSplit.PiecesOfJoin | scripts/_cpp_fmt.py:59-76 | cutting the joined list gives its items back, space for space, if and only if no item has a comma at depth zero and every item but the last closes its brackets |
| TopLevelSplit.SplittersUndoJoin | scripts/enumerate_signatures.py:271-287 | for any list of trimmed items, each splitter undoes `", ".join` if and only if the list is separable in its own brackets |
| CppLiterals.TwoReplacesAreOnePass | scripts/generate_rest.py:438-439 | replacing backslashes and then quotes is one pass that escapes each character by itself |
| PathExamples.EscapedText | scripts/generate_rest.py:438-439 | for instance, quotes and backslashes are escaped |
| CppLiterals.ReadOfCppStr | scripts/generate_rest.py:438-439 | a C++ reader gets the text back from the literal, whatever follows it, if and only if the text holds no newline |
| CppLiterals.LineBreakIsNotEscaped | scripts/generate_rest.py:438-439 | for instance, the literal of a line break is no literal |
| CppLiterals.Mask | scripts/enumerate_surface.py:1148-1189 | masking keeps the length |
| CppLiterals.MaskLiteral | scripts/enumerate_surface.py:1156-1170 | the inner loop masks up to the closing quote, or to the end of the line |
| CppLiterals.StripStringsLine | scripts/enumerate_surface.py:1148-1189 | the whole scan, over both kinds of quotes |
| CppLiterals.StripStringsIdempotent | scripts/enumerate_surface.py:1148-1189 | masking keeps the length and is idempotent, on every line |
| CppLiterals.MaskOfCppStr | scripts/enumerate_surface.py:1156-1170 | the literal of any text is masked to two quotes around blanks, and what follows is masked as if it stood alone |
| MemberNames.Fresh | scripts/generate_rest.py:1500-1501 | the suffixing loop ends, on every finite set of used names, with a name not in the set that begins with the one asked for |
| MemberNames.FreshIsLeast | scripts/generate_rest.py:1500-1501 | it adds the fewest suffixes that make the name new |
| MemberNames.SnakeIdentIsIdentifier | scripts/generate_rest.py:384-395 | a sanitised name is a C++ identifier and no keyword, and an identifier is left as it is |
| MemberNames.SnakeIdentIs | scripts/generate_rest.py:384-395 | the name is the key with an underscore for every foreign character, `field` for the empty key, an underscore before a leading digit and one behind a keyword |
| MemberNames.SnakeIdents | scripts/generate_rest.py:384-395 | for instance, `default_`, `x_y`, `_2fa` and `field` |
| MemberNames.FreshIsIdentifier | scripts/generate_rest.py:1500-1501 | suffixing keeps a name an identifier and no keyword |
| MemberNames.Suffixed | scripts/generate_rest.py:1500-1501 | the loop against the used names and `extras` |
| MemberNames.NameMembers | scripts/generate_rest.py:1492-1502 | the loop over the wire keys names each in turn, the earlier names used |
| MemberNames.MembersAreDistinct | scripts/generate_rest.py:1492-1507 | the members are pairwise distinct non-keyword identifiers, none of them `extras` |
| MemberNames.KeptName | scripts/generate_rest.py:1499-1504 | a key that is an identifier keeps its name if and only if it is not `extras` and no earlier member took it |
| Paths.DerivedCollectionBraceFree | scripts/generate_rest.py:337-344 | a collection derived from an anchor with braces around whole segments only has no braces |
| CppExpr.EvalOfSpell | scripts/generate_rest.py:758-764 | an emitted sum that starts with a string object reads back and evaluates to the concatenation of its terms |
| CppExpr.LiteralPlusLiteral | scripts/generate_rest.py:788-795 | a sum that starts with two bare literals does not: hence the wrapping of the first |
| PathCompiler.CompiledArgs | scripts/generate_rest.py:739-765 | the argument names are distinct identifiers, one for each `{parameter}` of the joined path |
| PathCompiler.BaseArgument | scripts/generate_rest.py:743-753 | one of the arguments is named `base_path_` if and only if the argument some `{parameter}` asks for, before any suffixing, is `base_path_` |
| PathCompiler.RelTermsMean | scripts/generate_rest.py:758-764 | the terms of a relative path add up to its segments filled in, each after a slash |
| PathCompiler.ScanMeans | scripts/generate_rest.py:768-787 | the scan of an absolute path yields pieces that add up to the path with its parameters filled in |
| PathCompiler.AbsTermsMean | scripts/generate_rest.py:768-795 | so does the emitted expression |
| PathCompiler.CompiledMeans | scripts/generate_rest.py:739-795 | for every argument values, the emitted expression evaluates to the joined path with each parameter replaced in order, in the sibling case and in the relative case, unless a parameter asks for `base_path_` or slashes are dropped |
| PathCompiler.CompiledMeansExactly | scripts/generate_rest.py:739-795 | it does so for all values if and only if no parameter behind the collection asks for the name `base_path_` and no slashes are dropped: a relative path has no empty segment, and an absolute one is more than slashes |
| PathCompiler.HiddenBase | scripts/generate_rest.py:757-764 | a parameter that asks for the name `base_path_` hides the member of that name, and some value gives another path |
| PathCompiler.BaseCanBeHidden | scripts/generate_rest.py:757-764 | for instance, `/things/{base_path_}` behind the collection `/things` |
| PathCompiler.RelativeLoses | scripts/generate_rest.py:739-765 | a relative path with a hidden base or an empty segment gives another path for some values |
| PathCompiler.SlashCanBeDropped | scripts/generate_rest.py:739-765 | for instance, the last slash of `/things/` behind the collection `/things`, and the path `/` beside it |
| PathExamples.RelativeExactly | scripts/generate_rest.py:351-359 | an operation is relative if and only if there is a collection and its path is the base path or goes on behind it with a slash |
| PathExamples.CollectionText | scripts/generate_rest.py:739-765 | the operation on the collection itself is the member alone |
| PathExamples.CollectionIs | scripts/generate_rest.py:337-344 | a collection named in the markup is taken as it is, else it is the anchor up to its first parameter |
| PathExamples.RelativeText | scripts/generate_rest.py:757-764 | for instance, `/things/{id}` becomes `base_path_ + "/" + id` |
| PathExamples.AbsoluteText | scripts/generate_rest.py:768-795 | for instance, `/other/{id}` beside it becomes `std::string("/api/other/") + id` |
| PathExamples.LiteralThenParamText | scripts/generate_rest.py:768-795 | any literal with a parameter behind it becomes that literal as a string object and the argument |
| PathExamples.SpecialNames | scripts/generate_rest.py:434-435 | `e164_number` has a name of its own, and a parameter without a name is called field |
| PathEmitter.DistinctArg | scripts/generate_rest.py:747-749 | the loop that appends `2` until the argument is new |
| PathEmitter.NameSegments | scripts/generate_rest.py:743-753 | the loop over the segments collects the arguments and the pieces |
| PathEmitter.ScanPath | scripts/generate_rest.py:769-787 | the index loop over the full path emits the pieces of the scan, and ends within so many turns exactly if the scan does: where no brace closes, find gives -1 and the loop starts over |
| PathEmitter.ScanEndsIffCloses | scripts/generate_rest.py:773-783 | the loop ends, within any number of turns, if and only if every brace it opens is closed, and then within as many turns as there are characters |
| PathEmitter.OpenBraceGoesOn | scripts/generate_rest.py:773-783 | for instance, it never ends on `/a/{id` |
| PathEmitter.AbsCppPath | scripts/generate_rest.py:768-795 | the expression for an absolute path, the first literal wrapped, no argument mistaken for a literal; none if the scan does not end in time |
| PathEmitter.MethodCallPath | scripts/generate_rest.py:739-765 | arguments and expression are those of the pure compiler, for every path; no expression if the scan of an absolute path does not end in time |
| RouteTemplates.FindSlash | tools/route_registry.cpp:123 | the search for the next slash |
| RouteTemplates.TemplatizePath | tools/route_registry.cpp:118-132 | the loop replaces every sentinel segment and drops the query |
| RouteTemplates.QueryIsDropped | tools/route_registry.cpp:119 | a query makes no difference to the template |
| RouteTemplates.TemplateOfFilled | tools/route_registry.cpp:118-132 | templating a path filled with sentinels renames every parameter to `{id}` and changes nothing else, if and only if no literal segment is the sentinel |
| RouteTemplates.RouteRecovered | tools/route_registry.cpp:118-132 | end to end: evaluating the emitted expression with the sentinel for every argument and templating the result recovers the joined path with every parameter renamed, if and only if no literal segment is the sentinel, no parameter hides `base_path_` and no slashes are dropped |
| RouteTemplates.HiddenRouteLost | tools/route_registry.cpp:118-132 | where a parameter hides `base_path_`, another template comes out |
| RouteTemplates.ShorterRouteLost | tools/route_registry.cpp:118-132 | where slashes are dropped, the template has another number of segments |
| RouteTemplates.LiteralSentinelIsRenamed | tools/route_registry.cpp:118-132 | for instance, the literal segment `__ID__` comes out as `{id}` |
| Qualifiers.StripQualifiers | scripts/enumerate_signatures.py:296-306 | the loop strips qualifiers and marks until a pass changes nothing |
| Qualifiers.StripQualsIsBare | scripts/enumerate_signatures.py:296-306 | the result has no prefix and no mark left, and text is left alone exactly if it has none |
| Qualifiers.QualifiersStrip | scripts/enumerate_signatures.py:296-306 | any qualifiers before and any marks and blanks behind an unqualified spelling are stripped, and no more |
| Qualifiers.StripsToCore | scripts/enumerate_signatures.py:296-306 | an unqualified spelling is reached from any qualifiers before it and any text behind it that starts with a mark, if and only if that text is marks and blanks only |
| Qualifiers.ConstTailStays | scripts/enumerate_signatures.py:296-306 | for instance, `const int *const` is stripped to `int *const` |
| TypeTranslate.Generic | scripts/enumerate_signatures.py:268 | head and inside of an instantiation, put back with their two angle brackets, are the whole text; the head is of path characters, neither is empty |
| TypeTranslate.LastSegmentIs | scripts/enumerate_signatures.py:368-374 | the last segment is what stands behind the last `::` |
| TypeTranslate.TranslateAll | scripts/enumerate_signatures.py:319-321 | the arguments are translated one for one; the recursion ends on every text |
| TypeTranslate.TranslateOfNest | scripts/enumerate_signatures.py:290-379 | translating the spelling of any nest, of names known or not and of templates of any head, aliased, known, SDK or unknown, with qualifiers and marks at any level, gives what the nest denotes piece by piece, or raises where it denotes nothing |
| TypeTranslate.TranslatesIffKnown | scripts/enumerate_signatures.py:290-379 | a nest translates if and only if it is aliased in full, or every name in it is known and every head is aliased, SDK or a known template; one unknown name anywhere raises |
| TypeTranslate.ArgumentRaises | scripts/enumerate_signatures.py:317-321 | an argument that raises makes the instantiation raise, whatever the head, even an aliased one |
| TypeTranslate.SizedArray | scripts/enumerate_signatures.py:319-323 | an array with its size translates if and only if it is aliased in full, or its element translates and the size is an alias |
| TypeTranslate.ArrayOfFiveRaises | scripts/enumerate_signatures.py:319-323 | for instance, `std::array<int, 5>` raises with `int` alone aliased |
| TypeTranslate.FunctionRaises | scripts/enumerate_signatures.py:319-351 | for instance, `std::function<void (int)>` raises with `int` and `void` alone aliased |
| TypeTranslate.TranslateOfSpell | scripts/enumerate_signatures.py:290-379 | in particular, a nest of vector, list, deque, map, set, optional, smart pointer, pair, tuple and variant over names that are aliased in full or by their last segment, SDK names, or names whose last segment starts with an upper-case letter gives the canonical nest |
| TypeHeads.Maps | scripts/enumerate_signatures.py:325-328 | a map of translated arguments is `dict<key,value>` in their order, or `dict<string,any>` with one argument |
| TypeHeads.Lists | scripts/enumerate_signatures.py:323-330 | vector, list, deque, array and set are `list<>` of their first argument |
| TypeHeads.Optionals | scripts/enumerate_signatures.py:331-332 | both optionals are `optional<>` |
| TypeHeads.Pointers | scripts/enumerate_signatures.py:333-335 | a smart pointer is what it points to |
| TypeHeads.TuplesAndUnions | scripts/enumerate_signatures.py:351-354 | pair and tuple are `tuple<>`, variant is `union<>`, of all results in order |
| TypeHeads.Functions | scripts/enumerate_signatures.py:336-349 | a function whose signature passes for a type is `callable<list<parameters>,result>` with the parameters in order |
| TypeHeads.FunctionsOfNames | scripts/enumerate_signatures.py:336-350 | and one whose argument is no signature is `callable<list<any>,any>` |
| TypeHeads.EmptyTemplates | scripts/enumerate_signatures.py:321-354 | what the known templates become with a blank between their brackets |
| TypeHeads.OtherTemplates | scripts/enumerate_signatures.py:355-361 | any other template is a class of the SDK if its head is in one of the two namespaces, and raises otherwise |
| TypeHeads.AliasedTemplates | scripts/enumerate_signatures.py:316-320 | an aliased template is its alias |
| TypeHeads.Names | scripts/enumerate_signatures.py:308-379 | a name is its alias, a class of the SDK, the alias of its last segment, a class if that starts with a capital, or an error, in this order |
| TypeHeads.NoType | scripts/enumerate_signatures.py:291-292 | the empty text is `any` |
| TypeHeads.MapOfStrings | scripts/enumerate_signatures.py:325-328 | for instance, `std::map<std::string, int>` is `dict<string,int>` |
| TypeHeads.PairOfStrings | scripts/enumerate_signatures.py:351-352 | for instance, `std::pair<std::string, int>` is `tuple<string,int>` |
| TidyCache.MultiIsCached | scripts/clang_tidy_cache.py:1022-1027 | the loop over the remotes stops at the first that has the digest or raises |
| TidyCache.MultiGetCacheData | scripts/clang_tidy_cache.py:1030-1036 | the loop over the remotes stops at the first that gives data or raises |
| TidyCache.NewCache | scripts/clang_tidy_cache.py:1118-1144 | the tiers the environment names, in order, Redis passed over without its module, and a local one if it is asked for or there is nothing else; no cache at all if and only if the constructor of one of them raises |
| TidyCache.BuildsMeans | scripts/clang_tidy_cache.py:1126-1136 | the cache is built if and only if no tier that is named, Redis only with its module, raises |
| TidyCache.AssembledMeans | scripts/clang_tidy_cache.py:1124-1144 | every named tier is there once, in the order server, Redis, S3, GCS, with what its service holds; a local one if it is asked for or there is no other |
| TidyCache.NextRunFinds | scripts/clang_tidy_cache.py:1118-1144 | the next run in the same environment finds the tiers as this one left them |
| TidyCache.ClangTidyCache.constructor | scripts/clang_tidy_cache.py:1118-1144 | the object holds those tiers and the write-back switch |
| TidyCache.ClangTidyCache.PutBack | scripts/clang_tidy_cache.py:1161-1162 | write-back changes the local tier only, and only if there is one and it is not switched off |
| TidyCache.ClangTidyCache.IsCached | scripts/clang_tidy_cache.py:1154-1165 | local, then remotes, with counters and write-back, in any combination of failures |
| TidyCache.ClangTidyCache.GetCacheData | scripts/clang_tidy_cache.py:1168-1181 | the same for data |
| TidyCache.ClangTidyCache.StoreInCache | scripts/clang_tidy_cache.py:1184-1197 | local, then each remote, up to the first that raises |
| TidyCache.StoreReachesRemotes | scripts/clang_tidy_cache.py:1184-1197 | whatever fails, each remote that is reached, and takes the item, holds afterwards what belongs there, and every other is as it was; a store raises exactly if the local tier or a remote that is reached does |
| TidyCache.StoreReachesLocal | scripts/clang_tidy_cache.py:775-787 | the local tier holds the data, an empty file for the fact, or of a failed write nothing, all or the first bytes |
| TidyCache.CalmStore | scripts/clang_tidy_cache.py:1184-1197 | without failures every tier that is not read-only, and is not S3 with data, holds the data afterwards, or for a mark nothing (server, Redis) or the bytes of the digest (S3, GCS) |
| TidyCache.DigestBytesAre | scripts/clang_tidy_cache.py:910-915 | the bytes of a digest, stored as an object, are its characters |
| TidyCache.FirstOf | scripts/clang_tidy_cache.py:1168-1181 | the first layer that holds the digest answers, and nothing does if none holds it |
| TidyCache.FetchIsView | scripts/clang_tidy_cache.py:1168-1181 | without failures a get answers what the first of local and remotes in order holds, as a get shows it: S3 gives nothing, and what a server holds goes through the decoding of its replies |
| TidyCache.FetchIsFromALayer | scripts/clang_tidy_cache.py:1168-1181 | whatever fails, data comes from a layer that holds it, and every earlier layer lacks it or failed |
| TidyCache.WriteBackKeepsView | scripts/clang_tidy_cache.py:1174-1179 | write-back changes the view of no digest if and only if it changed no file, or the first remote that holds the digest did not fail, or holds the value written; without failures it never changes one |
| TidyCache.PassedOverIsHidden | scripts/clang_tidy_cache.py:1174-1179 | for instance, a server that fails is passed over, and the value behind it, written back, hides the one it holds |
| TidyCache.AskIsPresence | scripts/clang_tidy_cache.py:1154-1165 | without failures is_cached is true if and only if some tier holds the digest; whatever fails, true is never wrong; write-back changes this for no digest |
| TidyCache.LookUpAnswers | scripts/clang_tidy_cache.py:1154-1181 | which faults leave a lookup an answer: the local read and counters succeed and it holds the digest, or a remote answers before one raises, with counters and write-back succeeding |
| TidyCache.LookUpsRaise | scripts/clang_tidy_cache.py:1154-1181 | a lookup raises if and only if the local read or its counters do, or, of a digest the local tier lacks, a remote before one answers, the counters of the remotes, or the write-back |
| TidyCache.CalmWriteBack | scripts/clang_tidy_cache.py:1154-1181 | without failures an answer of a remote is left in the local tier, data by a get and an empty file by is_cached, if write-back is on; nothing else changes |
| TidyCache.LookUpChangesLittle | scripts/clang_tidy_cache.py:1154-1181 | whatever fails, a lookup changes the local tier only, at its digest only, and only if write-back is on |
| TidyCache.MixedModesLoseData | scripts/clang_tidy_cache.py:1159-1163 | asking both ways over one cache is not safe: an is_cached answer is written back as an empty file that hides the data |
| TidyCache.StoreIsLocalToItsDigest | scripts/clang_tidy_cache.py:1184-1197 | a store changes the view of one digest only, whatever fails |
| TidyDriver.RunClangTidyCached | scripts/clang_tidy_cache.py:1428-1485 | the whole call: the cache is built outside the `try`, and if that raises the process ends before the tool is run; otherwise the driver on that cache |
| TidyDriver.RunWith | scripts/clang_tidy_cache.py:1430-1485 | the driver behind the construction, branch for branch, on the tiers it mutates |
| TidyDriver.FailOpen | scripts/clang_tidy_cache.py:1428-1459 | over the faults of the call: with no digest, or if they leave no tier able to answer, the answer is the real run's; if one answers, a mark means success and saved data of some layer is replayed, or, if it cannot be, the tool is run |
| TidyDriver.RealRunStatus | scripts/clang_tidy_cache.py:1449-1456 | without a cache too, the driver ends with the status of the tool if and only if what the tool said is text, or that status is 1 |
| TidyDriver.UndecodableOutputFails | scripts/clang_tidy_cache.py:1449-1456 | for instance, a tool that succeeds with output that is no text ends in status 1 |
| TidyDriver.BrokenTierStopsTheRun | scripts/clang_tidy_cache.py:1428-1429 | a cache that cannot be built ends the run with status 1 and no run of the tool: as uncached if and only if the tool ends in status 1 too |
| TidyDriver.ServerWithoutRequests | scripts/clang_tidy_cache.py:525-529 | for instance, one server tier without the requests module, where the tool finds nothing wrong |
| TidyHistory.CallHonest | scripts/clang_tidy_cache.py:1428-1485 | one run on truthful tiers leaves them truthful, and answers as uncached if its cache is built and not at all if not |
| TidyHistory.CachedRunsAgree | scripts/clang_tidy_cache.py:1428-1485 | over any history of runs in any environments, with any failures and entries vanishing at any time, from truthful tiers, every run whose cache is built answers as uncached and every other never asks the tool, provided the tool is a function of the digest, no local file is left in a part that can be replayed, and decoding a server's replies does no harm |
| TidyHistory.RunsFromNothingAgree | scripts/clang_tidy_cache.py:1428-1485 | in particular from empty tiers |
| TidyHistory.StatusAgreesIffBuilt | scripts/clang_tidy_cache.py:1428-1485 | over the same histories, every run ends with the status of the tool if and only if each has its cache built or a tool that ends in status 1 |
| TidyHistory.SecondCallReplays | scripts/clang_tidy_cache.py:1428-1485 | from empty tiers, of two calls on one input the second reports success without the tool if the first could be stored and a tier took it in, and asks the tool again if the entry was lost in between |
| TidyHistory.EvictedMeans | scripts/clang_tidy_cache.py:1116-1221 | the same between runs |
| TidyHistory.ReplyExact | scripts/clang_tidy_cache.py:549-556 | out of a server that holds the truth, an undisturbed run answers as uncached if and only if the decoded reply is what is held, or is empty, or shows no text and so sends the run to the tool |
| TidyHistory.LatinByteIs | scripts/clang_tidy_cache.py:549-556 | a byte from 128 up, read as Latin-1, becomes the two bytes of its UTF-8 form |
| TidyHistory.LatinReplyExact | scripts/clang_tidy_cache.py:549-556 | a reply read as Latin-1 comes back as it is held if and only if it is ASCII |
| TidyHistory.LatinIsFaithful | scripts/clang_tidy_cache.py:549-556 | so replies read as Latin-1 do no harm to a tool that only ever says ASCII |
| TidyHistory.LatinReplyIsReplayed | scripts/clang_tidy_cache.py:549-556 | for instance, an accented letter of the output is shown as two others |
| TidyDriver.AsUncachedMeans | scripts/clang_tidy_cache.py:1470-1485 | the exit status of the process is always the uncached one; the whole answer is, in save-output mode for codes 0 to 255 and in the other mode unless output is ignored |
| TidyDriver.SecondRunExact | scripts/clang_tidy_cache.py:1470-1485 | in save-output mode the second of two undisturbed runs answers with the low byte of the code and the same output: as the tool, if and only if the exit code is in 0 to 255 |
| TidyDriver.SecondRunRemote | scripts/clang_tidy_cache.py:1428-1485 | without a local tier, the second of two undisturbed runs replays what the first remote that takes data gives back: the low byte of the code and the output, or, of a server, the decoded reply |
| TidyDriver.SecondRunMarked | scripts/clang_tidy_cache.py:1428-1485 | without saved output, the second of two undisturbed runs reports success without the tool if and only if the first succeeded with nothing to show that is not ignored and some tier took the mark in; otherwise it is a real run |
| TidyDriver.RunsFollow | scripts/clang_tidy_cache.py:1428-1485 | two runs in one environment: the second goes on with the tiers, local and remote, as the first left them |
| TidyDriver.KilledToolReplayed | scripts/clang_tidy_cache.py:1470-1485 | for instance, code -9 is replayed as 247 |
| TidyDriver.CachedIffSavable | scripts/clang_tidy_cache.py:1460-1483 | an undisturbed run that was not cached is cached afterwards if and only if some tier takes it in, the local one or a remote that may be written, and output is saved or the tool succeeded with nothing to show that is not ignored |
| TidyDriver.TornStoreExact | scripts/clang_tidy_cache.py:783-787 | a local store that leaves n bytes of a file: the next run answers as the tool if and only if n is 0, or the n - 1 bytes of output are no text, or the file is whole and the code is in 0 to 255 |
| TidyDriver.TornStoreIsReplayed | scripts/clang_tidy_cache.py:783-787 | for instance, two of three bytes are replayed as if they were all |
| TidyRace.InterleavedRunsAgree | scripts/clang_tidy_cache.py:1428-1485 | with any number of processes, interleaved tier operation by tier operation and piece of a write by piece, in every execution that cuts no write in pieces: whoever finishes with a cache built answers as the tool would, and an answer out of the cache was stored before, under the same digest, by a real run |
| TidyRace.PartIsReplayed | scripts/clang_tidy_cache.py:783-787 | the first n bytes of a file, read in between, send the reader to the tool if the part cannot be replayed, and are replayed otherwise |
| TidyPieces.AlwaysAgreeExactly | scripts/clang_tidy_cache.py:783-787 | in all executions, writes cut in pieces anywhere, whoever finishes with a cache built answers as the tool would, if and only if no output is saved or no run that can be stored has any output |
| TidyPieces.ReadInBetween | scripts/clang_tidy_cache.py:783-787 | for every other tool: two runs of one input over an empty local tier, where the second reads the file after its first byte is written and shows nothing of the output |
| TidyRace.OnlyBuildingRefuses | scripts/clang_tidy_cache.py:1428-1429 | a process ends without an answer if and only if it is building its cache and that raises |
| TidyRace.ExecuteInv | scripts/clang_tidy_cache.py:1116-1221 | every entry and every value in flight is true of the tool, or a part that cannot be replayed, and was set out to be stored before, in every state reached without cutting a write in pieces |
| TidyRace.OnlyRealRunsPut | scripts/clang_tidy_cache.py:1472-1483 | only a real run of a digest makes a record of it |
| TidyRace.MovesEnd | scripts/clang_tidy_cache.py:1428-1485 | each move of an unfinished process brings it closer to its end, whatever the others did: a write in pieces comes closer to its last byte |
| TidyRace.WriteAtMeans | scripts/clang_tidy_cache.py:783-787 | a write at an offset: what stands before and behind it stays, and a gap before it is filled with zeros |
| TidyRace.PiecesAddUp | scripts/clang_tidy_cache.py:783-787 | pieces written one behind the other add up to the data |
| TidyRace.LossesMean | scripts/clang_tidy_cache.py:1116-1221 | an entry that vanishes is one entry of one tier |
| TidyAlone.AloneIsRunCached | scripts/clang_tidy_cache.py:1428-1485 | a process that is not interleaved gives the same answer and leaves the same tiers as the driver in one piece, failures and files left in part included |
| TidyAlone.AloneIsAnExecution | scripts/clang_tidy_cache.py:1428-1485 | and it is one of the interleaved executions |
| StatsText.ReadOfText | scripts/clang_tidy_cache.py:703-717 | reading the text of two counters gives the counters |
| StatsText.NewTextCovers | scripts/clang_tidy_cache.py:726-731 | counters only grow, so the new text covers the old and the truncation removes nothing |
| StatsLock.ExecuteInv | scripts/clang_tidy_cache.py:625-740 | the invariant of lock files, counter files and processes in every reachable state |
| StatsLock.MutualExclusion | scripts/clang_tidy_cache.py:633-668 | at most one process is in the critical section of a shard, and the lock file exists if and only if one is, or the close or unlink of one that was there has failed |
| StatsLock.NoLostUpdate | scripts/clang_tidy_cache.py:720-739 | at any moment every counter file reads as the number of updates taken in, and an update that ended without an error was |
| StatsLock.CountersSumToUpdates | scripts/clang_tidy_cache.py:683-692 | hits and misses over the 256 shards sum to the updates taken in |
| StatsLock.QueryIsExact | scripts/clang_tidy_cache.py:695-709 | a query that reads a file gets the exact counts of that moment |
| StatsRead.ReadIsBetween | scripts/clang_tidy_cache.py:683-709 | a whole read over 256 shards, interleaved in any way with updates: its sum of hits, and that of misses, lies between those taken in when it began and when it was done |
| StatsRead.ReadIsBetweenTotals | scripts/clang_tidy_cache.py:683-709 | so does its whole, between what the files add up to at the two moments |
| StatsLock.QueryReads | scripts/clang_tidy_cache.py:695-709 | what a query gets is what the file reads as at that moment |
| StatsLock.HolderMovesOn | scripts/clang_tidy_cache.py:652-661 | a holder of a lock is never stuck: whatever fails, each of its calls brings it closer to its end; only waiting for a lock repeats itself |
| StatsLock.ErrorsAreLogged | scripts/clang_tidy_cache.py:720-739 | a call that fails on the counter file changes nothing, and the process goes on to give the lock back |
| StatsLock.MissingFileFails | scripts/clang_tidy_cache.py:720-739 | so it does where the file is gone when it is opened or read |
| StatsLock.LockGivenBack | scripts/clang_tidy_cache.py:652-661 | a process that leaves the critical section takes its lock file along, if and only if neither the close nor the unlink failed |
| StatsLock.LeakedShardIsDead | scripts/clang_tidy_cache.py:633-661 | a lock file left behind stops its shard for good: over any continuation nobody gets in and its counters stay as they are |
| StatsLock.LockCanLeak | scripts/clang_tidy_cache.py:652-661 | for instance, an update that fails to open its file and then to close the lock leaves the lock file behind |
| Stats.ClangTidyCacheStats.Acquire | scripts/clang_tidy_cache.py:633-650 | acquiring, until the time is up |
| Stats.ClangTidyCacheStats.Update | scripts/clang_tidy_cache.py:720-739 | one update adds one to one counter of its shard and leaves no lock behind |
| Stats.ClangTidyCacheStats.Read | scripts/clang_tidy_cache.py:683-692 | the sum over all shards, or an error if a lock is not given back or a file does not parse |
| Stats.ReadIsTallies | scripts/clang_tidy_cache.py:683-692 | after any interleaving of any number of processes that leaves no lock behind, a read returns exactly the hits and the misses taken in over the 256 shards, together all updates taken in |
| Stats.SumOfIsTotal | scripts/clang_tidy_cache.py:683-692 | a read raises if and only if a shard that has a file is locked or does not parse; otherwise hits and misses are together what the files add up to |
| Stats.ReadTwo | scripts/clang_tidy_cache.py:683-692 | for instance, nothing is counted without files, and two files are added up hits and misses apart |
| Stats.UpdateAddsOne | scripts/clang_tidy_cache.py:683-739 | an update that does not raise adds one to one of the two sums over any number of shards |
| Stats.UpdateRaises | scripts/clang_tidy_cache.py:720-739 | an update raises if and only if its shard is locked or its file does not parse, and then changes nothing |
| Stats.AloneIsUpdate | scripts/clang_tidy_cache.py:720-739 | an undisturbed process of the interleaved machine updates as the method does |
| Stats.AloneIsQuery | scripts/clang_tidy_cache.py:695-701 | an undisturbed query gets what the file reads as and leaves everything as it was |

## Left out

- WireDump.TokenInterop: the signature is any byte string without a dot; the HMAC behind it is not modelled.
- FlattenUnion.Flatten: Python's recursion limit is a parameter; the model counts nested calls of the walk only.
- MemberNames.NameMembers: keys hidden by the overlay are not in the list of keys; types and comments of the members are not modelled.
- PathEmitter.ScanPath: the number of turns is a parameter, as a loop that never ends has no result; the list of pieces such a loop keeps building is not modelled.
- PathCompiler.CompiledMeans: is stated for paths without newlines, with braces around whole segments of the operation only, and for a brace-free server path and collection: braces around part of a segment have no meaning of their own in the source, and a newline breaks the literal it is in (`CppLiterals.ReadOfCppStr`).
- BinPack.PlusStageOptimal: compares splits at ` + ` only; lines broken at other places are not considered. ` + ` inside a string literal counts as an operator, as in the source, so for `_binpack` as a whole only white space is known to change, not that it stays out of literals.
- ReflowComments.ReflowCommentLines: lines hold no newline, which is how the caller makes them.
- TypeTranslate.TranslateOfNest: what a `std::function` denotes, once its argument translates, is said by the translation of that text (`TranslateCallable`), not by a nest of its own.
- TypeTranslate.TranslateAll: `\w` and `isupper` are ASCII; error messages are one value; the class-name mapping is a parameter.
- TidyDriver.RunClangTidyCached: hashing, the clang-tidy process, UTF-8 and logging are parameters or left out; a tool that cannot be started is not modelled, nor is what was shown before an exception; a hit does not replay what the tool wrote to stderr.
- TidyCache.NewCache: which constructor raises is a parameter; parsing the command line, which raises before any cache is built, is not modelled.
- TidyCache.ClangTidyCache.GetCacheData: how a server's replies are decoded is a parameter, one for each run; expiry in Redis is an entry that vanishes.
- TidyRace.InterleavedRunsAgree: is about the executions that cut no write of a local file in pieces, except by a failure that leaves a harmless part; `TidyPieces.AlwaysAgreeExactly` is about all of them. Both, and `TidyHistory.CachedRunsAgree`, take servers' replies to be decoded without harm.
- StatsLock.MutualExclusion: a failing close or unlink is modelled; a process killed while it holds a lock, somebody else unlinking its lock file, `clear()` and a counter file written in part are not.
- StatsRead.ReadIsBetween: a read that gives up on a lock or fails to open a file has no sum and is not considered.
- Stats.ClangTidyCacheStats.Update: the sequential class makes every file call succeed, the release too; failing calls are in the state machine of `StatsLock`. Making the directory of a shard is not modelled.
- `resolve_schema` and `load_bases.resolve`: follow one chain of references each and would add only easy members beside the two walks.
- `_wrap_line`, `_collapse_short_functions` and the passes of `format_generated_cpp` before the last two: regular expressions over generated text, with no promise beyond matching an external formatter.
- `url_encode`, `timing_safe_compare`, `generate_uuid`, `generate_random_password`: easy or random.
- Switching save-output mode over one populated cache: only the reason not to is shown (`TidyCache.MixedModesLoseData`).
- The RELAY client, agents, REST runtime, examples, dump programs and the traversals of libclang: input and output, or outside the scope of the algorithms above.
