# SealStack, modelled and proved in Dafny

This project models the algorithms of SealStack that carry the hardest promises, and proves what they
promise: access policies evaluated by two interpreters, the CSL expression parser, the filter language and
its translation to Qdrant, OAuth and HTTP retry state machines, pagination, keyset paging, the in-memory
vector store, rank fusion, and the text algorithms around them. `dafny verify dfyconfig.toml` checks it.

Code that works step by step is written step by step here: classes with fields, arrays and loops, each
method proved against a specification function; the lemmas then say what the specification functions mean.
Network, database, clock and randomness are arguments: a reply, clock reading or random draw is whatever
the environment gives, so the results hold against every endpoint and every clock.

## The parts

**Policies** (`JsonText`, `JsonReader`, `JsonReaderProofs`, `JsonValue`, `PolicyIr`, `PolicyHost`,
`PolicyRuntime`, `PolicyInterp`, `PolicyRefinement`, `PolicySimulation`, `PolicyExact`, `PolicyStatic`,
`PolicyDivergence`, `PolicyMeaning`, `PolicyCompiler`, `PolicyDecoding`, `PolicyCompiled`, `PolicyEnforced`,
`PolicyDecisions`, `PolicyLevels`, `JsonNumbers`, `Utf8Exact`). A JSON document is a concrete syntax tree with its white space, so printing it gives
every text the grammar of RFC 8259 (sections 2 to 7) allows for it. The pull reader is proved to land exactly
on printed sub-values. The host interpreter runs on trees, the runtime on byte offsets of the printed text.
In the fragment `SectionShared`, which is told step by step of the host's run, they take equal steps and reach
equal verdicts (`VerdictsAgree`); `SectionPasses` is a condition of one pass over the opcodes with kinds in
place of values, without a run, that leads into it (`PassingVerdictsAgree`).
Outside it, `StepsAgreeExactly` gives for each opcode the condition under which one step from equal stacks
agrees, in both directions, and `RunsAgreeExactly` the same for keeping step over a whole run: the eight-segment
cap, segments that are not UTF-8, a missing key before the last and float values (`LoadExactly`, `CapParts`),
text literals that are not UTF-8 (`LiteralExactly`), membership (`MembershipExactly`, with its cases in
`InExactCases`), the operand under a role and the shape of `roles` (`RoleCallExactly`); all other opcodes agree
always. An unknown action is an error to the host; the runtime denies it when the action table is empty
(`UnknownActionVerdict`). `VerdictsPart` is a rule and a family of requests on which the verdicts differ.
All of this asks for keys and strings without backslashes and unique keys (`Faithful`). Floating-point
operations and their text are a parameter (`Floats`), the same for both machines; the exact conditions further
ask that every numeral has a float and that of a negative zero truncates to zero (`TextFloats`), as Rust's
reading of numbers gives.

`PolicyMeaning` says what a predicate of the policy language means on the caller's and record's trees, without
bytecode or stack, and `PolicyCompiler` is the compiler from predicates to bytecode. What it emits for a whole
policy decides, on the host (`HostDecides`) and on the runtime over the request's bytes (`RuntimeDecides`),
exactly as the first rule for the action means: allow, deny, or an error when that rule has no truth value or
needs more than 32 operands at once. The host's half asks that only the last key of a path may be missing; the
runtime's half asks for no key at all, but for paths of at most eight keys that do not end on a float, and for
`in` and `has_role` on values both machines read alike (`Reads`). `PolicyLevels` is one policy byte by byte.

**CSL expressions** (`CslSyntax`, `CslLayout`, `CslParser`, `CslPrinter`, `CslLexing`, `CslFollow`,
`CslRoundTrip`, `CslOutputs`). The layered parser is a set of functions on the remaining input, with prefix matching of
keywords, ordered choice, backtracking and cuts as the source has them. `Printable` says which expressions
have a text; it is exactly the range of the parser. Notable consequences of prefix matching: a path that
starts with `true`, `false` or `null` has no text, and one that starts with `not` has none where a negation
may stand; an argument such as `x == 1` is printed in parentheses because bare it is a keyword
argument; an integer beyond 64 bits cuts the parse. Printing takes a layout, which puts a gap of its own between
any two tokens: blanks, line comments and block comments in any number. Only words are kept apart, and a comment
does not follow a division sign directly, where it would read as another comment.

**Filters** (`FilterDsl`, `FilterProofs`, `FilterOperators`, `QdrantFilter`, `QdrantWire`, `QdrantPayload`). Wire
JSON to a typed filter to a list of Qdrant conditions, each step preserving meaning; `FilterOperators.Asks` says of
the values themselves what each operator asks, and `QdrantWire.Sent` of the wire form which filters get to Qdrant.

**Retry and OAuth** (`OAuth`, `OAuthOutcomes`, `HttpRetry`, `HttpOutcomes`, `ConnectorShims`, `ShimReplies`). The
credential cache (refresh grant, section 6 of RFC 6749), the client's send loop and the 403 handling of two
connectors; `OAuthOutcomes`, `HttpOutcomes` and `ShimReplies` tell the results from status numbers, error codes,
headers and bodies.

**Text** (`SqlSplit`, `SqlSplitProofs`, `SqlScripts`, `Base64`, `Base64Alphabet`, `LinkHeader`, `Chunking`,
`ChunkOverlap`, `Glob`). A SQL script is a list of pieces; its statements are the texts between its semicolons
(`SplitMeans`), and every input is a script (`EveryInputIsScript`).

**Data and runs** (`Pagination`, `KeysetPaging`, `KeysetSql`, `VectorStore`, `Similarities`, `Ranking`,
`RankFusion`). `KeysetSql` reads the page statement from its text.

**Shared** (`Wrappers`, `Numbers`, `Text`, `Utf8`): options, 64-bit bounds and decimals, white space and
trimming, UTF-8 lengths and bytes.

## Where code and documentation differ

The models follow the code.

- The host interpreter's documentation says it mirrors the runtime; the conditions above say exactly which steps do (`StepsAgreeExactly`), and `caller.a.b == null`, asked of a caller without `a`, is allowed by the runtime and an error to the host (`VerdictsPart`, `SmallestParts`).
- A string with a `\u` escape is refused when the reader meets it directly and passes inside a skipped container (`SkipsExactly`).
- The refresh comment lists pauses of 200, 400 and 800 ms; the third never happens (`RefreshEnds`).
- The Qdrant comments promise an in-memory filter for `$or` and `$not`; every filter with one of them is dropped (`ChoiceIsDropped`, `NegationIsDropped`). A wire filter is honoured if and only if it is `Sent` or means every point (`QdrantWire.HonouredExactly`).
- The in-memory store says unsupported filters are rejected; they select everything (`RejectedFilterSelectsAll`, `UnknownOperatorSelectsAll`). A filter is honoured if and only if it is well formed or means every chunk (`VectorStore.HonouredExactly`).
- The statement counter and the splitter can differ on markers that are not words (`CountCanDiffer`): between two dollar signs without quotes and comments they do exactly when a semicolon stands there (`MarkersAgreeExactly`).
- The glob comment says `?` matches one character; it matches one byte. `?` misses `é` (`MarkMissesAccent`); on ASCII values bytes and characters match alike (`AsciiAgrees`), and on a value without a slash all patterns of question marks do if and only if it is ASCII (`AllMarksAgreeExactly`).
- The Link reader gives up at a URL with a comma or semicolon, which RFC 8288 allows (`FindsNext`).
- The base64 decoder ignores everything after padding, which section 3.3 of RFC 4648 does not foresee (`IgnoresAfterPadding`).

## Model

| member | source | states |
|---|---|---|
| JsonReader.ScanStr | crates/sealstack-policy-runtime/src/json.rs:63-82 | The cursor loop returns the bytes between the quotes, and refuses a string with a `\u` escape or without an end; it agrees with the reader function the lemmas below are about. |
| JsonReader.ScanContainer | crates/sealstack-policy-runtime/src/json.rs:183-212 | The depth-counting loop agrees with the container function, whatever depth, string state and second bracket kind it meets. |
| JsonReader.ScanNumber | crates/sealstack-policy-runtime/src/json.rs:214-236 | The number loop takes the longest run and refuses an empty one. |
| JsonReader.ScanValue | crates/sealstack-policy-runtime/src/json.rs:159-181 | Skipping dispatches on the first byte exactly as the reader function does. |
| JsonReader.ScanKeyInObject | crates/sealstack-policy-runtime/src/json.rs:125-157 | The member loop finds the value of the first member with the key, or nothing at the closing brace, or an error. |
| JsonReader.ScanPath | crates/sealstack-policy-runtime/src/json.rs:18-31 | The path loop narrows to one value per key and returns a byte range. |
| JsonReader.EachElement | crates/sealstack-policy-runtime/src/json.rs:84-112 | The element loop calls the visitor with each element's start and end until it stops; the visitor may decide by all the calls it has had. The calls made and the outcome are those of the specified visit. |
| JsonReader.FindPath | crates/sealstack-policy-runtime/src/json.rs:18-31 | Every offset a lookup returns lies inside the buffer, start before end. |
| JsonReaderProofs.PassesDoc | crates/sealstack-policy-runtime/src/json.rs:183-212 | Inside a container, scanning over any printed value leaves depth and string state as they were, although only one bracket kind is counted. |
| JsonReaderProofs.SkipsExactly | crates/sealstack-policy-runtime/src/json.rs:159-181 | On any printed value followed by a delimiter or the end, skipping stops exactly behind it; it fails if and only if the value is a string with a `\u` escape, which it accepts inside a container. |
| JsonReaderProofs.ReadsNumber | crates/sealstack-policy-runtime/src/json.rs:214-236 | Any numeral followed by a delimiter is taken whole. |
| JsonReaderProofs.FindsMember | crates/sealstack-policy-runtime/src/json.rs:125-157 | Among printed members the search hits exactly the first member with the key; it errs exactly when it has to read a key or value it cannot. |
| JsonReaderProofs.FindsPathFrom | crates/sealstack-policy-runtime/src/json.rs:18-31 | Path lookup returns exactly the byte range of the sub-value the keys name, nothing exactly when the path does not resolve, an error exactly when it must read a `\u` escape. |
| JsonReaderProofs.FindsPath | crates/sealstack-policy-runtime/src/json.rs:18-31 | The same for a document with any white space around it. |
| JsonReaderProofs.FindsPathInSlice | crates/sealstack-policy-runtime/src/json.rs:18-31 | The same for a lookup that starts inside a buffer, whose offsets count from there. |
| JsonReaderProofs.VisitsArray | crates/sealstack-policy-runtime/src/json.rs:84-112 | For every visitor, the calls over a printed array are exactly the places of its elements, in order from the first; they end behind the last element, at the call that stops them, or with an error in front of the first element that is itself a string with a `\u` escape. |
| JsonReaderProofs.SearchesArray | crates/sealstack-policy-runtime/src/interp.rs:402-424 | A visitor that looks for an element and stops at the first finds one if and only if some element of the printed array passes. |
| PolicyIr.FindRule | crates/sealstack-policy-ir/src/host.rs:59-115 | The action table loop finds the first entry with the action bit and refuses a truncated table. |
| PolicyIr.ReadWord64 | crates/sealstack-policy-ir/src/host.rs:274-290 | Eight little-endian bytes are read at the instruction pointer, or none when they do not fit. |
| PolicyHost.ReadPath | crates/sealstack-policy-ir/src/host.rs:299-315 | The host walks a path operand segment by segment and stops at the first missing key, before the remaining segments. |
| PolicyHost.StepAt | crates/sealstack-policy-ir/src/host.rs:126-265 | Every step moves the instruction pointer strictly forward within the section and keeps the stack at 32 entries at most, so every run ends. |
| PolicyHost.Run | crates/sealstack-policy-ir/src/host.rs:126-265 | The loop over opcodes computes the run of specified steps. |
| PolicyHost.Interpret | crates/sealstack-policy-ir/src/host.rs:59-115 | Header, dispatch and run give the specified verdict. |
| PolicyInterp.Interp.Push | crates/sealstack-policy-runtime/src/interp.rs:230-237 | Push appends below 32 entries and refuses the thirty-third, in a fixed array. |
| PolicyInterp.Interp.Pop | crates/sealstack-policy-runtime/src/interp.rs:239-245 | Pop removes the top entry or reports an empty stack. |
| PolicyInterp.Interp.ReadSegments | crates/sealstack-policy-runtime/src/interp.rs:279-290 | A path operand is read whole, up to eight segments, or fails. |
| PolicyInterp.Interp.Locate | crates/sealstack-policy-runtime/src/interp.rs:311-321 | Segment by segment, the lookup narrows to the byte offset of the value. |
| PolicyInterp.Interp.ExecLoad | crates/sealstack-policy-runtime/src/interp.rs:279-345 | A load pushes the classified value at the end of its path, or null. |
| PolicyInterp.Interp.CmpEq | crates/sealstack-policy-runtime/src/interp.rs:347-360 | Equality pops two values, compares by kind and pushes a Boolean, or fails. |
| PolicyInterp.Interp.CmpOrd | crates/sealstack-policy-runtime/src/interp.rs:362-379 | Ordering pops two values, compares numbers and strings and pushes a Boolean, or fails. |
| PolicyInterp.Interp.InOp | crates/sealstack-policy-runtime/src/interp.rs:393-429 | Membership pops an array and a needle and pushes whether some element equals it, ignoring null and float needles. |
| PolicyInterp.Interp.CallHasRole | crates/sealstack-policy-runtime/src/interp.rs:431-474 | The role call looks the role up in the caller's array of roles on the byte buffer. |
| PolicyInterp.Interp.CallTenantMatch | crates/sealstack-policy-runtime/src/interp.rs:476-502 | The tenant call compares the tenant texts of caller and record. |
| PolicyInterp.Interp.Run | crates/sealstack-policy-runtime/src/interp.rs:164-228 | The interpreter loop over its fields `ip`, `sp` and `stack` computes the run of specified steps and ends on every bytecode. |
| PolicyInterp.Evaluate | crates/sealstack-policy-runtime/src/interp.rs:71-162 | From the request bytes to the verdict: lookups, dispatch and run as specified. |
| PolicyRuntime.StepAt | crates/sealstack-policy-runtime/src/interp.rs:164-228 | A step that goes on moves the instruction pointer forward and keeps the stack within 32 entries. |
| PolicyRefinement.MemberIsField | crates/sealstack-policy-runtime/src/json.rs:125-157 | The first printed member with a key is the field of the parsed tree. |
| PolicyRefinement.NumbersAgree | crates/sealstack-policy-runtime/src/json.rs:45-52 | Both machines hold the same number if and only if the numeral is a 64-bit integer spelled as one; the runtime truncates every other number. |
| PolicyRefinement.Classifies | crates/sealstack-policy-runtime/src/interp.rs:323-345 | The value the runtime classifies at an offset is the one the host holds for the tree. |
| PolicyRefinement.ResolvesPath | crates/sealstack-policy-runtime/src/interp.rs:311-321 | Following keys over the bytes ends at the value following them over the tree names. |
| PolicyRefinement.WalksPath | crates/sealstack-policy-ir/src/host.rs:299-315 | When only the last key may be missing, the host walk and the runtime's segments consume the same operand and follow the same keys. |
| PolicyRefinement.HostStopsShort | crates/sealstack-policy-ir/src/host.rs:309-312 | The host consumes the whole path operand if and only if no key before the last is missing; otherwise it goes on reading the rest as opcodes. |
| PolicySimulation.MembershipAgrees | crates/sealstack-policy-runtime/src/interp.rs:402-417 | `IN` agrees for string, integer and Boolean needles, and in arrays without floats for no others. |
| PolicySimulation.RolesAgree | crates/sealstack-policy-runtime/src/interp.rs:463-472 | The role call agrees if and only if `roles` is absent or an array; otherwise the runtime faults and the host says no. |
| PolicySimulation.TenantsAgree | crates/sealstack-policy-runtime/src/interp.rs:476-502 | The tenant call agrees for every caller and record. |
| PolicySimulation.StepsAgree | crates/sealstack-policy-ir/src/host.rs:126-265 | One step from equal stacks in the shared fragment fails on both machines, halts with one verdict on both, or leaves equal stacks and instruction pointers. |
| PolicySimulation.RunsAgree | crates/sealstack-policy-ir/src/host.rs:126-265 | A run in the shared fragment allows, denies or fails on both machines alike. |
| PolicySimulation.VerdictsAgree | crates/sealstack-policy-ir/src/host.rs:3-115 | For every section, request layout, known action and rule in the shared fragment, the runtime on the printed bytes and the host on the trees reach one verdict: the mirroring the host's documentation promises. |
| PolicyExact.LoadExactly | crates/sealstack-policy-ir/src/host.rs:299-315 | A load agrees exactly when both run out of stack or operand, or every segment is UTF-8, at most eight, no key before the last is missing and the value is no float. |
| PolicyExact.CapParts | crates/sealstack-policy-runtime/src/interp.rs:279-290 | A path of more than eight segments, which only the runtime refuses, parts the machines unless the host too fails while reading it. |
| PolicyExact.LiteralExactly | crates/sealstack-policy-ir/src/host.rs:126-165 | A text literal parts the machines exactly when it is not UTF-8 and there is room for it; all other literals agree. |
| PolicyExact.FindsExactly | crates/sealstack-policy-runtime/src/interp.rs:402-417 | `IN` on the bytes finds text, truth values and integers among the elements, comparing integers with truncated floats, and never null or a float. |
| PolicyExact.InExactCases | crates/sealstack-policy-runtime/src/interp.rs:402-417 | Per kind of needle, exactly the arrays for which both machines find it alike. |
| PolicyExact.MembershipExactly | crates/sealstack-policy-runtime/src/interp.rs:393-429 | A membership step agrees if and only if both machines find the needle alike or the haystack is no array. |
| PolicyExact.RoleCallExactly | crates/sealstack-policy-runtime/src/interp.rs:431-474 | A role call with a text role agrees if and only if what lies under the role is neither text nor array and the caller's roles are absent or an array. |
| PolicyExact.StepsAgreeExactly | crates/sealstack-policy-ir/src/host.rs:126-265 | From equal stacks within the cap one step fails, halts or goes on alike on both machines if and only if the condition for its opcode holds; eighteen opcodes have none. |
| PolicyExact.RunsAgreeExactly | crates/sealstack-policy-ir/src/host.rs:126-265 | Two runs keep step to the end if and only if every step of the host's run meets its condition, and then allow, deny or fail alike. |
| PolicyStatic.StepCovered | crates/sealstack-policy-ir/src/host.rs:126-265 | An instruction accepted on kinds alone lies in the shared fragment whatever the values, and the kinds after it describe the stack after it. |
| PolicyStatic.PassingVerdictsAgree | crates/sealstack-policy-ir/src/host.rs:3-115 | Where one pass over the selected rule's opcodes refuses none, and caller and record hold no float and no null or object inside an array, both machines reach one verdict. |
| PolicyDivergence.VerdictsPart | crates/sealstack-policy-ir/src/host.rs:299-315 | For every layout of every read request whose caller lacks `a`, the rule `caller.a.b == null` is an unknown opcode to the host and allowed by the runtime. |
| PolicyDivergence.SmallestParts | crates/sealstack-policy-ir/src/host.rs:299-315 | In particular for empty caller and record objects. |
| PolicyCompiler.EmitExpr | crates/sealstack-csl/src/codegen/policy.rs:260-401 | The recursion that pushes onto `out` appends the code of the predicate, operands before operator, or refuses it. |
| PolicyCompiler.EmitPath | crates/sealstack-csl/src/codegen/policy.rs:305-334 | A path on `caller` or `self` becomes a load with its keys, each behind its length; any other root, more than 255 keys or a key beyond 65535 bytes is refused. |
| PolicyCompiler.EmitRules | crates/sealstack-csl/src/codegen/policy.rs:200-245 | Both passes: the code of each rule, the table of masks and offsets, and the limits of 255 rules and 64 KiB. |
| PolicyDecoding.MaskSelects | crates/sealstack-csl/src/codegen/policy.rs:247-258 | The mask folded from a rule's actions selects exactly those actions. |
| PolicyDecoding.SignedReads | crates/sealstack-policy-ir/src/host.rs:274-281 | A 64-bit integer written low byte first in two's complement reads back. |
| PolicyDecoding.BlobReads | crates/sealstack-policy-ir/src/host.rs:170-177 | A text behind its two-byte length reads back, from where it stands. |
| Utf8Exact.Utf8Exactly | crates/sealstack-policy-ir/src/host.rs:170-177 | The bytes the host accepts as text are exactly the UTF-8 encodings of texts. |
| PolicyCompiled.BinaryStep | crates/sealstack-policy-ir/src/host.rs:180-235 | On two operands each binary opcode pushes what its operator means for them, or fails when it means nothing. |
| PolicyCompiled.CodeRuns | crates/sealstack-policy-ir/src/host.rs:126-265 | Run on a predicate's code, the host comes to its end with the predicate's value on top of the stack, and fails exactly when there is no value or no room; only the last key of a path may be missing. |
| PolicyEnforced.CodeEnforced | crates/sealstack-policy-runtime/src/interp.rs:164-228 | Run on the same code over the request's bytes, the runtime does so too, whichever keys of a path are missing. |
| PolicyDecisions.EntersRule | crates/sealstack-policy-ir/src/host.rs:82-112 | Dispatch on a compiled policy enters the code of the first rule that speaks of the action. |
| PolicyDecisions.HostDecides | crates/sealstack-policy-ir/src/host.rs:59-115 | What the compiler emits for a policy, run by the host interpreter, allows, denies or errs as the first rule for the action means of caller and record. |
| PolicyDecisions.RuntimeDecides | crates/sealstack-policy-runtime/src/interp.rs:71-162 | And so does the runtime on the bytes of any request with an object caller and record, in any layout. |
| PolicyDecisions.IntegersCompare | crates/sealstack-policy-ir/src/host.rs:180-211 | On integers of up to 53 bits `==`, `!=`, `<`, `<=`, `>` and `>=` are those of the integers. |
| PolicyLevels.LevelsDecide | crates/sealstack-csl/src/codegen/policy.rs:173-189 | The 32 bytes emitted for `caller.level < 5` let a caller below five read and nobody do anything else. |
| JsonNumbers.WholeMeans | crates/sealstack-policy-ir/src/host.rs:317-336 | A decimal numeral within 64 bits is the integer it spells; minus zero and larger ones are floats. |
| JsonNumbers.WholeReads | crates/sealstack-policy-runtime/src/json.rs:45-52 | The runtime reads it as that integer too. |
| CslParser.ParseOr | crates/sealstack-csl/src/parser.rs:366-374 | The loop that folds `or` to the left computes the parser function. |
| CslParser.ParseAnd | crates/sealstack-csl/src/parser.rs:376-384 | The same for `and`. |
| CslParser.ParseAdd | crates/sealstack-csl/src/parser.rs:419-432 | The same for `+` and `-`. |
| CslParser.ParseMul | crates/sealstack-csl/src/parser.rs:434-447 | The same for `*` and `/`. |
| CslParser.ExprOr | crates/sealstack-csl/src/parser.rs:362-374 | Parsing consumes input: what is left is strictly shorter. |
| CslLexing.SkipsLineComment | crates/sealstack-csl/src/parser.rs:95-99 | A line comment is skipped up to and with its line break, and nothing behind it. |
| CslLexing.SkipsBlockComment | crates/sealstack-csl/src/parser.rs:101-103 | A block comment is skipped up to its first end mark. |
| CslLexing.ClosesExactly | crates/sealstack-csl/src/parser.rs:101-103 | The end mark found is the first one, and none is found exactly when there is none. |
| CslLexing.GapSkipped | crates/sealstack-csl/src/parser.rs:105-110 | Any sequence of blanks, line comments and block comments between tokens is skipped, and nothing behind it. |
| CslLexing.StringReads | crates/sealstack-csl/src/parser.rs:206-227 | A quoted, escaped string reads back as that string. |
| CslLexing.LiteralReads | crates/sealstack-csl/src/parser.rs:511-524 | Every printable literal reads back as itself through the ordered choice of literals, although keywords match by prefix. |
| CslLexing.PathReads | crates/sealstack-csl/src/parser.rs:193-204 | A dotted path reads back segment by segment and ends where it should. |
| CslRoundTrip.MoreRead | crates/sealstack-csl/src/parser.rs:471-509 | The elements behind the first, with their separators, read back up to the closing bracket. |
| CslRoundTrip.RoundTrip | crates/sealstack-csl/src/parser.rs:362-524 | Printing an expression in any layout, with blanks and comments between its tokens and the parentheses its place needs, and parsing it gives back the same tree and consumes exactly the text. |
| CslOutputs.OrOut | crates/sealstack-csl/src/parser.rs:366-374 | Every expression the parser returns is printable. |
| CslOutputs.Normalizes | crates/sealstack-csl/src/parser.rs:362-524 | Parsing, printing in any layout and parsing again changes nothing. |
| CslOutputs.PrintableIsExpressible | crates/sealstack-csl/src/parser.rs:362-524 | The printable expressions are exactly those some input parses to; in particular no path starting with `true`, `false` or `null` is. |
| SqlSplit.SplitSql | crates/sealstack-engine/src/store.rs:233-306 | The scanner with its string, dollar-tag and comment states returns the statements that `SplitMeans` tells from the pieces. |
| SqlSplit.CountDdlStatements | crates/sealstack-gateway/src/rest.rs:469-530 | The independent counter returns the count that `CountMeans` tells from the pieces. |
| SqlScripts.SplitMeans | crates/sealstack-engine/src/store.rs:233-306 | Splitting a script of characters, quoted and dollar-quoted texts, line comments and semicolons, closed or not at its end, gives the texts between the semicolons, without comments, trimmed, and without the blank ones. |
| SqlScripts.EveryInputIsScript | crates/sealstack-engine/src/store.rs:233-306 | Every input is the text of such a script. |
| SqlScripts.CommentIsDropped | crates/sealstack-engine/src/store.rs:244-250 | A line comment takes the rest of its line and nothing more, from the splitter and from the counter. |
| SqlScripts.CountMeans | crates/sealstack-gateway/src/rest.rs:469-530 | In a script without lone dollar signs the counter counts those statements. |
| SqlSplitProofs.CollectedIsStable | crates/sealstack-engine/src/store.rs:233-306 | Scanning what the scanner has collected collects the same again, in every mode. |
| SqlSplitProofs.SplitIsStable | crates/sealstack-engine/src/store.rs:233-306 | Splitting any statement the splitter returned gives exactly that one statement, despite removed comments, dollar tags and quotes. |
| SqlSplitProofs.CountsStatements | crates/sealstack-gateway/src/rest.rs:469-530 | Where every top-level `$...$` marker is word-shaped, the counter counts the splitter's statements. |
| SqlSplitProofs.CountCanDiffer | crates/sealstack-gateway/src/rest.rs:469-530 | Elsewhere it need not: `$ ; $` splits into two statements and counts as one. |
| SqlSplitProofs.MarkersAgreeExactly | crates/sealstack-gateway/src/rest.rs:469-530 | Of any text between two dollar signs, without further dollar signs, quotes or comments, the counter sees one statement; the splitter agrees if and only if the text has no semicolon. |
| FilterDsl.BuildFieldOps | crates/sealstack-vectorstore/src/filter.rs:267-309 | The operator loop with its range builder returns the specified filter or error. |
| FilterDsl.BuildFilter | crates/sealstack-vectorstore/src/filter.rs:136-154 | The entry loop unwraps a single part and conjoins several. |
| FilterProofs.AddOpsMean | crates/sealstack-vectorstore/src/filter.rs:267-309 | Adding operators one by one, range bounds merged into one node, means each operator on its own. |
| FilterProofs.FromJsonMeans | crates/sealstack-vectorstore/src/filter.rs:136-309 | A wire filter is accepted if and only if it is well formed, and the typed filter then matches exactly the metadata the wire filter means, operator by operator, whatever the order of keys. |
| FilterOperators.OperatorsMatch | crates/sealstack-vectorstore/src/filter.rs:267-309 | Operators on one field, any number in any order, parse exactly when each has an operand it takes, and match exactly the metadata each asks for, on the values themselves; with `$ne` and `$nin` a missing field matches. |
| FilterOperators.ValueMatches | crates/sealstack-vectorstore/src/filter.rs:252-258 | A field with a plain value matches exactly the metadata with that value. |
| FilterOperators.RangesCompare | crates/sealstack-vectorstore/src/filter.rs:181-207 | The range operators compare integers and floats as numbers, in all four combinations, and admit no text, truth value, null, list, object or missing field. |
| FilterOperators.Adults | crates/sealstack-vectorstore/src/filter.rs:181-207 | For instance `$gte 18` refuses 17 and admits 18 and 20. |
| FilterOperators.UnknownRefused | crates/sealstack-vectorstore/src/filter.rs:292 | Any other key with a dollar sign among the operators is refused. |
| QdrantFilter.PushConditions | crates/sealstack-vectorstore/src/qdrant.rs:382-474 | The recursive builder that appends to its output pushes the specified conditions or gives up. |
| QdrantFilter.ConditionsMean | crates/sealstack-vectorstore/src/qdrant.rs:382-474 | Whenever translation succeeds, scalar metadata satisfies all conditions, with nested should and must-not, if and only if the filter matches it, at any nesting depth. |
| QdrantFilter.TranslatesExactly | crates/sealstack-vectorstore/src/qdrant.rs:347-474 | Translation succeeds on exactly the translatable filters, and all of them are native. |
| QdrantWire.SendsExactly | crates/sealstack-vectorstore/src/qdrant.rs:341-474 | For every order of keys, a native filter is sent if and only if the wire filter is well formed, has no `$or` or `$not` at any depth, matches only text, truth values and 64-bit integers, lists for `$in` are not empty and of one kind, and it asks for something. |
| QdrantFilter.NativeFilterMeans | crates/sealstack-vectorstore/src/qdrant.rs:347-380 | A filter that is sent admits exactly the scalar metadata the wire filter means. |
| FilterOperators.PointsAsked | crates/sealstack-vectorstore/src/qdrant.rs:382-474 | For operators Qdrant can express, a point with scalar fields satisfies the native filter exactly when each asks for its value. |
| QdrantWire.HonouredExactly | crates/sealstack-vectorstore/src/qdrant.rs:341-380 | The points considered, all of them when no filter is sent, are those the wire filter means if and only if a filter is sent or the wire filter means every point. |
| QdrantWire.ChoiceIsDropped | crates/sealstack-vectorstore/src/qdrant.rs:341-373 | The comments promise an in-memory filter for `$or` and `$not`; with either of them anywhere, through conjunctions, no filter is sent and every point is considered. |
| QdrantWire.NegationIsDropped | crates/sealstack-vectorstore/src/qdrant.rs:341-373 | For instance the negation of the empty filter, which means no point, has every point considered. |
| QdrantPayload.ValueRoundTrip | crates/sealstack-vectorstore/src/qdrant.rs:284-335 | A JSON value reads back from the payload unchanged if and only if it has no integer beyond 64 signed bits. |
| QdrantPayload.IdRoundTrip | crates/sealstack-vectorstore/src/qdrant.rs:241-273 | Every 128-bit chunk id reads back from its UUID-shaped text. |
| QdrantPayload.IdsDiffer | crates/sealstack-vectorstore/src/qdrant.rs:241-263 | Distinct chunk ids have distinct point ids. |
| OAuth.OAuth2Credential.RefreshWithRetry | crates/sealstack-connector-sdk/src/auth.rs:189-207 | The retry loop over `last_err` performs the specified refresh. |
| OAuth.OAuth2Credential.AuthorizationHeader | crates/sealstack-connector-sdk/src/auth.rs:291-338 | The call updates the three cache fields exactly as specified. |
| OAuth.OAuth2Credential.Invalidate | crates/sealstack-connector-sdk/src/auth.rs:340-347 | Token and expiry go together; the negative cache stays. |
| OAuth.RefreshEnds | crates/sealstack-connector-sdk/src/auth.rs:189-207 | A refresh sends one to three requests, all but the last failing transiently, and pauses 200 ms and 400 ms between them, never after the last (the comment speaks of 800 ms as well). |
| OAuth.HeaderIsFresh | crates/sealstack-connector-sdk/src/auth.rs:291-338 | A returned header comes from a cached token valid for more than 60 s, without any request, or from the last reply to this very call; at most three requests and 600 ms of sleep. |
| OAuth.NegativeOnlyTransient | crates/sealstack-connector-sdk/src/auth.rs:317-337 | The negative cache is set exactly by a call that ends in a transient failure, for five seconds; permanent failures are never cached; only a live entry fails a call without a request. |
| OAuth.RunKeepsSound | crates/sealstack-connector-sdk/src/auth.rs:291-347 | Over any run of calls and invalidations, token and expiry are set together and are an issued token with its own expiry. |
| OAuth.NegativeWindow | crates/sealstack-connector-sdk/src/auth.rs:291-347 | While the negative entry lives, no call of any run contacts the endpoint, even after invalidation, and all fail alike. |
| OAuth.QuietAfterTransient | crates/sealstack-connector-sdk/src/auth.rs:291-347 | For five seconds after a transient failure no call contacts the endpoint. |
| OAuth.CallersShare | crates/sealstack-connector-sdk/src/auth.rs:303-315 | While the cached token outlives the skew, all callers get its header without a request. |
| OAuth.RefreshIsShared | crates/sealstack-connector-sdk/src/auth.rs:291-316 | Callers serialised behind one refresh whose token outlives the skew share that refresh. |
| OAuthOutcomes.RefreshDecides | crates/sealstack-connector-sdk/src/auth.rs:189-282 | Told from status numbers and error codes: up to two replies may fail in passing; then a 2xx with a token gives `Bearer` and that token and caches it for its lifetime, `invalid_grant` is Unauthorized, `invalid_client` and `invalid_scope` are configuration errors, and a third passing failure is remembered for 5000 ms; with the number of requests and the sleep. |
| OAuthOutcomes.CallDecides | crates/sealstack-connector-sdk/src/auth.rs:291-316 | A live failure answers a call, a token with more than 60000 ms left answers it, and everything else refreshes. |
| HttpRetry.SendRequest | crates/sealstack-connector-sdk/src/http.rs:209-325 | The loop over `attempt` and `invalidated_once` performs the specified turns. |
| HttpRetry.TakeTurn | crates/sealstack-connector-sdk/src/http.rs:234-315 | One turn asks the credential, sends, and handles the reply as specified, with every effect on the wire. |
| HttpRetry.RetryAfterReads | crates/sealstack-connector-sdk/src/retry.rs:44-53 | A decimal number of seconds with white space around it reads back when it fits 64 bits; a negative one only when it is zero. |
| HttpRetry.DelayAllowed | crates/sealstack-connector-sdk/src/http.rs:356-382 | A delay never exceeds `max_delay`; it honours Retry-After to within a second, and otherwise stays within the exponential ceiling. |
| HttpRetry.SendBudget | crates/sealstack-connector-sdk/src/http.rs:209-325 | For every sequence of responses a call ends after at most n requests plus one for its single invalidation, and sleeps at most n-1 times. |
| HttpRetry.SendWaits | crates/sealstack-connector-sdk/src/http.rs:299-315 | Each sleep follows a transient reply, is allowed by the policy, and each request carries a header asked for that request. |
| HttpRetry.SendExplained | crates/sealstack-connector-sdk/src/http.rs:234-325 | Success is the first 2xx; Unauthorized comes on the second 401 and only then; HttpStatus is the last reply, a 4xx other than 401, 408 and 429; RetryExhausted reports exactly the attempts used up. |
| HttpOutcomes.CallEnds | crates/sealstack-connector-sdk/src/http.rs:234-325 | Told from status numbers: after k replies that are missing, 408, 429 or neither 2xx nor 4xx, a 2xx is returned after k+1 requests and k sleeps, any other 4xx but 401 is an error at once, and the last attempt's failure exhausts the budget. |
| HttpOutcomes.CallEndsAfterRefusal | crates/sealstack-connector-sdk/src/http.rs:254-265 | One 401 anywhere before costs a request and the one invalidation, but no attempt and no sleep; a second one is Unauthorized. |
| HttpOutcomes.FirstSleep | crates/sealstack-connector-sdk/src/http.rs:356-382 | The first sleep is what Retry-After asks in seconds and less than a second more, or at most the base delay, and never above the maximum. |
| HttpOutcomes.JitterReaches | crates/sealstack-connector-sdk/src/http.rs:356-382 | Without Retry-After every whole number of milliseconds up to the doubling ceiling is some draw's delay. |
| HttpRetry.ReadBody | crates/sealstack-connector-sdk/src/http.rs:332-348 | A body is too large if and only if what arrived exceeds the cap, however it was cut into chunks; otherwise it is returned whole or the stream broke. |
| ConnectorShims.SendWithDriveShim | connectors/google-drive/src/retry_shim.rs:79-143 | The loop over `attempt` performs the specified calls and pauses. |
| ConnectorShims.DriveBounded | connectors/google-drive/src/retry_shim.rs:79-143 | At most five calls, with pauses of 500 ms, 1 s, 2 s and 4 s in that order and at most 7500 ms in all. |
| ConnectorShims.DriveResult | connectors/google-drive/src/retry_shim.rs:79-143 | No 403 leaves the shim; it reports a rate limit only on exhausted quota or on the fifth rate-limited call, and a permission failure with its reasons otherwise. |
| ShimReplies.DriveReplies | connectors/google-drive/src/retry_shim.rs:36-69 | From the error body's reasons: a quota reason ends the call, failing that a rate reason is tried again, and anything else is denied with its reasons. |
| ConnectorShims.SendWithGhShim | connectors/github/src/lib.rs:89-128 | The two-turn loop performs the specified calls, and the end marked unreachable is never reached. |
| ConnectorShims.GithubBounded | connectors/github/src/lib.rs:89-128 | At most two calls and one pause, spent only on a reply that signals a rate limit; no 403 leaves the shim. |
| ConnectorShims.GithubWaits | connectors/github/src/retry_shim.rs:30-51 | A named reset time always means a wait of at least a second that outlasts it; headers win over the body. |
| ConnectorShims.GithubRetriesAfterReset | connectors/github/src/lib.rs:89-128 | The retry never starts before the reset time the first reply named; otherwise it waits what Retry-After says, or half a second. |
| ShimReplies.ResetIsWaitedOut | connectors/github/src/retry_shim.rs:30-43 | With no calls left and a reset time in the headers the wait lasts until that time and a second more, a second at least. |
| ShimReplies.WithoutReset | connectors/github/src/retry_shim.rs:44-53 | Otherwise Retry-After is waited, the secondary rate limit in the body is worth one more try, and everything else is denied. |
| Base64.Decode | connectors/github/src/lib.rs:411-440 | The loop with its wrapping, never cleared 32-bit accumulator decodes every text as the groups of four digits mean. |
| Base64.DecodeContent | connectors/github/src/lib.rs:399-406 | White space is filtered out first, and what cannot be decoded is empty. |
| Base64.DecodesEncoded | connectors/github/src/lib.rs:411-440 | Decoding the encoding of any bytes (section 4 of RFC 4648) returns them. |
| Base64.RoundTrip | connectors/github/src/lib.rs:399-440 | So does decoding it with any white space put in anywhere. |
| Base64.IgnoresAfterPadding | connectors/github/src/lib.rs:420-424 | After padding the rest of the text is ignored, whatever it is. |
| Base64.Accepts | connectors/github/src/lib.rs:411-440 | Exactly the texts of whole groups whose characters before any padding are in the alphabet are accepted. |
| Base64Alphabet.SymbolsAreAlphabet | connectors/github/src/lib.rs:411-413 | The 64 symbols are the characters of the alphabet in its order. |
| Base64Alphabet.VectorsDecode | connectors/github/src/lib.rs:411-440 | The test vectors of section 10 of RFC 4648 decode to their texts. |
| Pagination.Paginate | crates/sealstack-connector-sdk/src/paginate.rs:73-102 | The adapter loop yields the items of the specified stream of pages. |
| Pagination.DriveInOrder | crates/sealstack-connector-sdk/src/paginate.rs:73-102 | Pages come in cursor order, nothing is fetched after an error or the end, and a repeated cursor stops the stream, whatever the paginator answers. |
| Pagination.OffsetPaginator.FetchPage | crates/sealstack-connector-sdk/src/paginate.rs:322-365 | One fetch updates the offset and the total as specified. |
| Pagination.OffsetExact | crates/sealstack-connector-sdk/src/paginate.rs:322-365 | Against a server that slices a fixed list, with or without a total, the stream yields exactly that list and finishes. |
| Pagination.OffsetEnds | crates/sealstack-connector-sdk/src/paginate.rs:322-365 | Against any server whose first response reports a total, the stream ends after at most one fetch more than that total. |
| LinkHeader.NextLink | crates/sealstack-connector-sdk/src/paginate.rs:190-212 | The loop over parts and attributes returns what the split text says. |
| LinkHeader.FindsNext | crates/sealstack-connector-sdk/src/paginate.rs:190-212 | On a rendered Link header the reader finds exactly the first link with a next relation, and nothing when a URL up to it has a comma or a semicolon. |
| KeysetPaging.BuildFacetWhere | crates/sealstack-engine/src/engine.rs:658-689 | The clause loop numbers its placeholders so that each receives its own bind: with the values in place, the clause is the conjunction of the filter's conditions. |
| KeysetPaging.BuildQuery | crates/sealstack-engine/src/engine.rs:249-281 | Every placeholder of the page query receives its intended bind, although the cursor's comes first in the text and has the higher number. |
| KeysetPaging.FetchMany | crates/sealstack-engine/src/engine.rs:242-315 | An unsafe table name is refused; otherwise the page and its cursor are those of the intended statement. |
| KeysetPaging.MaskPage | crates/sealstack-engine/src/engine.rs:504-519 | The policy mask keeps the allowed rows and leaves the cursor alone. |
| KeysetPaging.FilterMeans | crates/sealstack-engine/src/engine.rs:658-689 | A row passes the conditions if and only if it agrees with every declared, safe, scalar entry of the filter. |
| KeysetPaging.FollowVisitsAll | crates/sealstack-engine/src/engine.rs:242-520 | For any limit of at least one, following the cursors visits every row that matches and passes the policy exactly once, in id order, in one fetch per full page and one more. |
| KeysetSql.StatementRead | crates/sealstack-engine/src/engine.rs:249-281 | Read from its text, the page statement asks for the rows that have every facet value, behind the cursor, in order of id, and for so many of them. |
| KeysetSql.DatabaseServes | crates/sealstack-engine/src/engine.rs:242-315 | A database that runs the statements by their text is one the paging results are about, for every ordered table. |
| KeysetSql.PageHolds | crates/sealstack-engine/src/engine.rs:249-281 | A page holds the next matching rows, at most the limit and at most 1000 of them. |
| VectorStore.InMemoryStore.EnsureCollection | crates/sealstack-vectorstore/src/memory.rs:38-57 | A collection is created once; other dimensions are refused. |
| VectorStore.InMemoryStore.UpsertChunks | crates/sealstack-vectorstore/src/memory.rs:75-95 | Chunks are placed one by one, up to the first of the wrong dimension. |
| VectorStore.InMemoryStore.DeleteChunks | crates/sealstack-vectorstore/src/memory.rs:161-171 | The loop over the chunks and a set of ids leaves exactly the chunks whose id is not named, in this collection only; an unknown collection is an error unless no ids are named. |
| VectorStore.InMemoryStore.Search | crates/sealstack-vectorstore/src/memory.rs:97-159 | The linear scan returns the specified best matches. |
| VectorStore.Refines | crates/sealstack-vectorstore/src/memory.rs:38-183 | Every operation keeps ids unique and embeddings at the collection's dimension, and does to the list what the map operation does, an upsert that fails keeping the chunks before the bad one. |
| VectorStore.RunRefines | crates/sealstack-vectorstore/src/memory.rs:38-183 | Over any sequence of operations the lists stand for the maps. |
| VectorStore.CountIsSize | crates/sealstack-vectorstore/src/memory.rs:173-178 | The count is the number of distinct ids. |
| VectorStore.SearchIsBest | crates/sealstack-vectorstore/src/memory.rs:97-159 | In a valid collection the hits are distinct chunks that pass the wire filter, each with its own similarity, best first; they are as many as asked for or all there are, and no passing chunk left out scores higher than one returned. |
| VectorStore.SelectedMeans | crates/sealstack-vectorstore/src/memory.rs:112-124 | A chunk is selected if and only if the wire filter means it or is not well formed. |
| VectorStore.HonouredExactly | crates/sealstack-vectorstore/src/memory.rs:112-124 | The search honours the wire filter on every chunk if and only if the filter is well formed or means every chunk. |
| VectorStore.ExactMatchScoresHighest | crates/sealstack-vectorstore/src/memory.rs:190-214 | Under cosine and Euclidean distance no chunk scores above one that equals the query; under cosine that one scores 1. |
| VectorStore.NearerScoresHigher | crates/sealstack-vectorstore/src/memory.rs:134-140 | Under Euclidean distance the nearer chunk scores higher, so descending order is nearest first. |
| Similarities.DotIsLinear | crates/sealstack-vectorstore/src/memory.rs:190-192 | The dot similarity is linear and reads off a coordinate at each unit vector, which leaves no other function. |
| Similarities.EuclideanIsDistance | crates/sealstack-vectorstore/src/memory.rs:207-213 | The Euclidean similarity is the negated length of the difference. |
| Similarities.CosineIgnoresLength | crates/sealstack-vectorstore/src/memory.rs:198-205 | Stretching a vector by a positive factor leaves its cosine as it is. |
| Similarities.CosineOfUnits | crates/sealstack-vectorstore/src/memory.rs:198-205 | The cosine of vectors of length one is their dot product. |
| VectorStore.RejectedFilterSelectsAll | crates/sealstack-vectorstore/src/memory.rs:112-124 | The module comment says unsupported filters are rejected; one that is not well formed in fact selects like no filter at all. |
| VectorStore.UnknownOperatorSelectsAll | crates/sealstack-vectorstore/src/memory.rs:112-124 | For instance `$like`, an unknown operator, means no chunk and selects every chunk. |
| Ranking.SortedSorts | crates/sealstack-engine/src/retrieval.rs:368-372 | The sort returns the same elements in descending order. |
| Ranking.SortedStable | crates/sealstack-engine/src/retrieval.rs:368-372 | Equal scores keep their order. |
| RankFusion.RrfFuse | crates/sealstack-engine/src/retrieval.rs:340-374 | The two accumulating loops and the sort compute the specified list. |
| RankFusion.FuseExact | crates/sealstack-engine/src/retrieval.rs:340-374 | Each id of the two lists occurs exactly once, descending, with the closed-form weighted sum as its score. |
| RankFusion.ScoreOfRanks | crates/sealstack-engine/src/retrieval.rs:340-374 | An id at place i of the one list and place j of the other scores alpha/(60+i) + (1-alpha)/(60+j). |
| RankFusion.ScoreOfOne | crates/sealstack-engine/src/retrieval.rs:340-374 | An id in one list only has that list's share. |
| RankFusion.VectorHitWins | crates/sealstack-engine/src/retrieval.rs:350-359 | An id in both lists keeps the text and date of its first vector hit. |
| RankFusion.BothAboveScoresMore | crates/sealstack-engine/src/retrieval.rs:340-374 | For alpha in [0,1] and lists without repeats, an id both lists put above another scores strictly higher. |
| RankFusion.BothAboveComesFirst | crates/sealstack-engine/src/retrieval.rs:340-374 | And it comes first in the fused list. |
| Chunking.RecursiveChunks | crates/sealstack-engine/src/ingest.rs:361-384 | The recursion with its piece loop returns the specified pieces and ends on the remaining depth. |
| Chunking.RecursiveParts | crates/sealstack-engine/src/ingest.rs:361-384 | The pieces, in order, are the input with only separator occurrences removed, for any token counter. |
| Chunking.RecursiveFits | crates/sealstack-engine/src/ingest.rs:361-384 | With non-empty separators, each piece is within the budget or contains none of them. |
| Chunking.SemanticChunks | crates/sealstack-engine/src/ingest.rs:293-322 | The paragraph loop over `current` and `chunks` returns the specified chunks. |
| Chunking.Suffix | crates/sealstack-engine/src/ingest.rs:329-347 | The overlap is the longest end of the text, at a character boundary, within its byte budget. |
| Chunking.SemanticExactly | crates/sealstack-engine/src/ingest.rs:293-322 | The fallback to the whole body is taken exactly for a blank body, whatever budget, overlap and token counter. |
| Chunking.SemanticFits | crates/sealstack-engine/src/ingest.rs:293-347 | Under the four-bytes counter every chunk returned has at most max(4*max_tokens, 4*overlap + 2 + longest paragraph) bytes; a blank body comes back as it is. |
| Chunking.SemanticPartition | crates/sealstack-engine/src/ingest.rs:293-322 | Without overlap the chunks returned for a body that is not blank are the trimmed joins of consecutive runs that partition the non-blank paragraphs, and a run of several paragraphs is within the budget. |
| ChunkOverlap.SemanticOverlaps | crates/sealstack-engine/src/ingest.rs:293-347 | For any overlap the chunks are the trimmed texts of consecutive runs that partition the paragraphs, each behind the longest end of the text before it within four bytes for each token of overlap; a text of several paragraphs is within the budget. |
| Glob.Sound | connectors/s3/src/lib.rs:360-371 | A match comes with pieces, slash-free for each star and one symbol for each question mark, that rebuild the value. |
| Glob.Complete | connectors/s3/src/lib.rs:360-371 | Any pieces that rebuild the value are found. |
| Glob.Exact | connectors/s3/src/lib.rs:360-371 | The matcher accepts exactly the values some choice of pieces rebuilds. |
| Glob.AsciiAgrees | connectors/s3/src/lib.rs:352-371 | On ASCII values every pattern matches the same whether bytes or characters are matched. |
| Glob.MarksAgreeExactly | connectors/s3/src/lib.rs:352-371 | A pattern of question marks matches bytes and characters alike if and only if the value is ASCII, has a slash, or has neither as many bytes nor as many characters as the pattern. |
| Glob.AllMarksAgreeExactly | connectors/s3/src/lib.rs:352-371 | For a value without a slash, all patterns of question marks match bytes and characters alike if and only if the value is ASCII. |
| Glob.MarkMissesAccent | connectors/s3/src/lib.rs:352-371 | The comment speaks of one character: `?` does not match `é`. |
| Glob.SlashNeedsSlash | connectors/s3/src/lib.rs:352-371 | A pattern without a slash matches no value with one. |

## Left out

- JsonReaderProofs.FindsPathFrom: duplicate keys resolve to the first member, as in the code; agreement with a parsed tree is stated for unique keys only, because the tree keeps the last one.
- PolicyExact.StepsAgreeExactly: stated, like `VerdictsAgree`, for documents without escapes and with unique keys, and for float operations that read every numeral.
- PolicySimulation.VerdictsAgree: float arithmetic and number text are a parameter shared by both machines, not IEEE arithmetic; the WASM memory of the runtime and its bump allocator are not modelled.
- PolicyInterp.Interp.Run: buffer lengths and the bracket depth are unbounded; the 32-bit limits of the WASM target are not modelled.
- CslRoundTrip.RoundTrip: source spans, file names and error texts are not modelled, identifiers are ASCII, and a float literal is its text.
- CslParser.ExprOr: types, declarations, policies and the other top-level forms of the grammar are not modelled.
- SqlSplitProofs.SplitIsStable: the model works on characters; the code works on bytes and rewrites non-ASCII text, which is not modelled.
- SqlSplit.CountDdlStatements: the 32-bit width of the count is not modelled.
- FilterProofs.FromJsonMeans: numbers in filters are integers or reals, so the rounding of 64-bit floats is not modelled.
- QdrantFilter.ConditionsMean: what Qdrant does with a condition is modelled for scalar payload values only; array payloads match element-wise there.
- QdrantPayload.ValueRoundTrip: a double that is not a number, which reads back as null, is not a JSON value and is not modelled.
- OAuth.OAuth2Credential.AuthorizationHeader: concurrent callers are modelled as calls in the order they take the lock; details of transport errors and of the HTTP status text are omitted from messages.
- HttpRetry.SendRequest: the total duration in `RetryExhausted`, tracing, and building the request are not modelled; header values that are not visible ASCII count as absent.
- ConnectorShims.DriveResult: reading the body text as JSON is a parameter.
- Base64.DecodeContent: the lossy reading of the decoded bytes as UTF-8 is not modelled.
- Pagination.Paginate: the stream is lazy; the model gives what a consumer sees who lets it fetch any fixed number of pages. The adapter does not end on its own against a paginator that alternates two cursors.
- Pagination.OffsetEnds: offsets are unbounded, so the 64-bit limit of the offset is not modelled.
- LinkHeader.FindsNext: stated for attributes without commas and semicolons and URLs without a closing angle bracket.
- KeysetPaging.FollowVisitsAll: the table does not change between pages, ids are compared in one fixed order, and the database runs the intended statement; SQL type errors and the columns other than id and facets are not modelled.
- KeysetPaging.BuildFacetWhere: number text is a parameter.
- VectorStore.SearchIsBest: similarity is computed in reals with the square root as a parameter, so rounding and NaN scores are not modelled.
- RankFusion.FuseExact: scores are reals; freshness decay, reranking and the final truncation of retrieval are not modelled.
- Chunking.SemanticChunks: the byte walk back to a character boundary is stated on characters with their UTF-8 lengths; the fixed-size strategy and the BPE token counter are not modelled.
- Glob.Exact: listing, downloading and the other S3 operations are not modelled.
- The engine's search and ingest pipelines, receipts, schema registry, JWT and principal handling, the CLI, the console, the SDKs and the axum routing are plumbing around these parts.
- PolicyCompiler.EmitRules: the native self-check of emitted bytecode and the patching of the WASM asset, with its 64 KiB slot, are not modelled; padding behind the section is.
- The Cedar adapter, the WASM loader and the other targets of the CSL code generator.
