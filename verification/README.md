# hax: a verified model of its hard cores

hax translates Rust to proof assistants. Its difficult logic sits in a dozen
self-contained places: a compressor, an importer, a code generator, a
serialiser of shared nodes, a crawler, example programs that are themselves
meant to be verified, a message protocol and a few small stateful tools. Each is
modelled here in Dafny and the property it exists for is proved, on every
input, every run or every reachable state.

| files | what they model |
|---|---|
| `LzBits`, `LzCodec`, `LzString`, `LzWrappers`, `LzWidth`, `LzFormat` | the adaptive-width string compressor behind the playground links |
| `ThirSyntax`, `ThirRules`, `Importer`, `CastOfEnum` | the import of typed Rust blocks, conditionals, matches and enum casts |
| `Decimal`, `Schema`, `SchemaRoundTrip` | the OCaml parsers and printers generated from a JSON schema |
| `IdTable` | shared nodes written as a sorted table and bare identifiers |
| `Crawl` | the worker pool that crawls the documentation |
| `OrderBook` | the limit order book |
| `Words`, `WordBits`, `ChaCha20`, `ChaCha20Standard`, `Primes`, `Sha256`, `Sha256Standard` | the two cryptographic examples, against RFC 8439 and FIPS 180-4 |
| `EngineProtocol` | the engine, its proxy and cargo-hax as processes over channels |
| `Interning` | global interning |
| `Quote`, `QuoteSplit` | quotations: antiquotations taken out by the macro, and split and woven together again by the engine |
| `Wrappers`, `Arithmetic` | shared options, results, powers of two and quotients |
| `TextLines`, `LeanBlocks`, `LeanRelocate` | moving blocks inside generated Lean files |
| `Directives`, `PromoteSave` | queueing directives and writing them into source files |

Code that changes state is a method or a class here, proved against a
specification function, and the properties are lemmas about that function.
`dafny verify dfyconfig.toml` checks everything.

Eight places where the code does less than one might expect have their exact
condition proved, and a concrete input that fails:

- Importing a block of type `!` without a tail drops a final `let`. Meaning is
  kept if and only if the statements before it exit early (`Importer.BlockExact`,
  with `LostLetExample`).
- A schema value survives its round trip if and only if it is clean: every zeroed
  `index` is zero and no present option holds something that stands for nothing,
  such as an absent option (`SchemaRoundTrip.SurvivesIffClean`, with
  `NestedOptionLost`).
- Of Rust's integer formats only `isize` has values the generated parser
  refuses, because it is given OCaml's 63-bit integers
  (`SchemaRoundTrip.FormatsReadBack`, with `IsizeRefused`).
- The matching loop of the order book runs once less than there are resting
  orders, so a book can become crossed (`OrderBook.CrossedExample`). Say that an
  order swamps a side but for `w` when it crosses `w` and exceeds all other resting
  quantity. For every book, the book becomes crossed only if the order swamps the
  side but for some worst resting order, and it does if that holds of every worst
  one (`BookCrossed`). The two agree, an exact condition, unless worst orders of one
  price and identifier differ in quantity (`BookCrossedExactly`); then the heap's
  choice decides (`TieRuns`). What always holds is that one order is to blame for
  every crossing pair.
- Saving promoted directives keeps every line, to a later reader, if and only if no
  line of the file ends in a carriage return and the file's last line is not empty
  or a directive is queued past its end (`PromoteSave.SavedFile`, with
  `BlankLineLost`).
- The engine finds the literal segments of a quotation, all of them, if and only if
  its payload does not end with an antiquotation; otherwise an empty last segment is
  dropped (`QuoteSplit.EngineSplits`, with `LostSegment`). It does no harm: the
  contents woven together still render the payload (`EngineRebuilds`).
- An error code is the same as its normalised spelling unless dropping leading
  zeros uncovers the prefix `HAX` with a zero after it
  (`Directives.NormalisedIsSame`, with `CodeExample`).
- Walking the blocks of a Lean file raises exactly when a headed documentation
  comment is never closed (`LeanRelocate.WalksIffClosed`, with `UnclosedExample`).
  The docstring of `_find_block_end` does not mention this; the model follows the
  code.

## Model

| member | source | states |
|---|---|---|
| `LzBits.ReadLowBits` | docs/javascripts/lz-string.js:1 | A number written least significant bit first is read back from any surrounding stream. |
| `LzBits.UnpackBitAt` | docs/javascripts/lz-string.js:1 | Bit j of symbol k is bit k times width plus j of the stream the symbols carry. |
| `LzBits.BitHere` | docs/javascripts/lz-string.js:1 | Masking the current symbol yields the next bit of the stream, and 0 past its end. |
| `LzBits.BitWriter.PutBit` | docs/javascripts/lz-string.js:1 | One bit is appended to what the accumulator and the pushed symbols stand for. |
| `LzBits.BitWriter.PutBits` | docs/javascripts/lz-string.js:1 | A code of any width is appended, least significant bit first. |
| `LzBits.BitWriter.Finish` | docs/javascripts/lz-string.js:1 | The symbols carry what was written and between 1 and width zero bits of padding, each symbol in range. |
| `LzBits.BitReader.AtEnd` | docs/javascripts/lz-string.js:1 | The end-of-input check fires exactly when every bit of every symbol has been read. |
| `LzBits.BitReader.GetBit` | docs/javascripts/lz-string.js:1 | The cursor moves on by one bit of the whole stream and returns it. |
| `LzBits.BitReader.GetBits` | docs/javascripts/lz-string.js:1 | The loop over a power of two returns the number at the cursor. |
| `LzBits.CodeReadsBack` | docs/javascripts/lz-string.js:1 | In any sequence of codes of any widths each is read back where the codes before it end. |
| `LzBits.WriteThenRead` | docs/javascripts/lz-string.js:1 | Codes written in a row through the writer, padded, and read in a row through the reader are the same, for every symbol width. |
| `LzCodec.ReadTokenBits` | docs/javascripts/lz-string.js:1 | A literal (8 or 16 bit), a reference or the end marker is read back at the width it was written with. |
| `LzCodec.ApplyPhrase` | docs/javascripts/lz-string.js:1 | The decoder resolves the encoder's token, also one naming the entry it is only about to add, and ends with the encoder's width. |
| `LzCodec.PhraseFits` | docs/javascripts/lz-string.js:1 | A code in use is below two to the current width. |
| `LzCodec.SyncFirst` | docs/javascripts/lz-string.js:1 | The first character puts encoder and decoder in step. |
| `LzCodec.SyncGrow` | docs/javascripts/lz-string.js:1 | A unit that lengthens the phrase keeps them in step, nothing being sent. |
| `LzCodec.SyncSend` | docs/javascripts/lz-string.js:1 | A sent phrase keeps dictionaries, countdown and width in step, the decoder one entry behind. |
| `LzCodec.DecodePrefix` | docs/javascripts/lz-string.js:1 | After any prefix the decoder has produced all of it but the current phrase and goes on with any rest. |
| `LzCodec.DecodeMarker` | docs/javascripts/lz-string.js:1 | With the marker still ahead the end-of-input check does not fire. |
| `LzCodec.RoundTrip` | docs/javascripts/lz-string.js:1 | Decoding the stream of any string of UTF-16 code units, followed by any bits, returns the string. |
| `LzFormat.LowBitsAt` | docs/javascripts/lz-string.js:1 | Bit j of a code is its binary digit of weight 2^j. |
| `LzFormat.PackedStandard` | docs/javascripts/lz-string.js:1 | Symbol k carries the bits from k times the width on, the most significant one first. |
| `LzFormat.TokenStandard` | docs/javascripts/lz-string.js:1 | A first occurrence costs 8 bits after code 0 below 256, and 16 after code 1 from there on; the end marker is code 2. |
| `LzFormat.GrowStandard` | docs/javascripts/lz-string.js:1 | As long as the phrase is known it grows, and nothing is sent. |
| `LzFormat.FeedStandard` | docs/javascripts/lz-string.js:1 | New units and phrases get consecutive numbers; an unknown phrase makes the one before it be sent, as a literal if it is a unit never sent. |
| `LzFormat.WidthStandard` | docs/javascripts/lz-string.js:1 | The width of codes is the least that holds every code the decoder knows and the one it is about to learn. |
| `LzFormat.StreamExample` | docs/javascripts/lz-string.js:1 | `aaa` is code 0 and the letter in 8 bits, code 4 and the marker in 3 bits each. |
| `LzFormat.EndsEarly` | docs/javascripts/lz-string.js:1 | Input that ends before the marker yields the empty string. |
| `LzFormat.UnknownCode` | docs/javascripts/lz-string.js:1 | A code beyond the next entry yields null. |
| `LzFormat.UnknownFirst` | docs/javascripts/lz-string.js:1 | A first code from 3 on leaves the first character undefined. |
| `LzString.Compressor.Send` | docs/javascripts/lz-string.js:1 | Writes the current phrase and advances the countdown as specified. |
| `LzString.Compressor.Feed` | docs/javascripts/lz-string.js:1 | One loop iteration is one step of the encoder's specification. |
| `LzString.Compress` | docs/javascripts/lz-string.js:1 | The output symbols carry exactly the specified stream and at least one padding bit. |
| `LzString.Decompress` | docs/javascripts/lz-string.js:1 | The loop computes the specified decoding, including its null, undefined and empty outcomes. |
| `LzString.DecodeWithSuffix` | docs/javascripts/lz-string.js:1 | Padding and any appended symbols do not change what is decoded. |
| `LzString.CompressThenDecompress` | docs/javascripts/lz-string.js:1 | For every string, symbol width and suffix the two loops together return the string. |
| `LzWrappers.ReadSpell` | docs/javascripts/lz-string.js:1 | Looking up the characters of an alphabet restores the symbols. |
| `LzWrappers.Base64Key` | docs/javascripts/lz-string.js:1 | The alphabet is the source's 65-character Base64 key, written out. |
| `LzWrappers.UriKey` | docs/javascripts/lz-string.js:1 | The same for the key of links, whose last characters are `+`, `-` and `$`. |
| `LzWrappers.SpellsBase64` | docs/javascripts/lz-string.js:1 | Character i is the Base64 key's character at symbol i, whatever is appended. |
| `LzWrappers.SpellsUri` | docs/javascripts/lz-string.js:1 | Character i is the link key's character at symbol i. |
| `LzWrappers.CompressToBase64` | docs/javascripts/lz-string.js:1 | The text spells, in the written-out key, symbols that carry the stream and 1 to 6 zero bits, and at most three `=` fill it to a multiple of four. |
| `LzWrappers.CompressToEncodedURIComponent` | docs/javascripts/lz-string.js:1 | The text spells such symbols in the link key, and has no blank. |
| `LzWrappers.CompressToUTF16` | docs/javascripts/lz-string.js:1 | Each character is 32 more than a 15-bit symbol of the stream and its padding; a blank ends the text. |
| `LzWrappers.Base64RoundTrip` | docs/javascripts/lz-string.js:1 | The Base64 form decompresses to the string. |
| `LzWrappers.PlusesSurvive` | docs/javascripts/hax_playground.js:86 | A link whose `+` arrive as blanks is read as the same link. |
| `LzWrappers.LinkRoundTrip` | docs/javascripts/hax_playground.js:86 | A playground link spells the stream in the link key and restores its program, also after `+` became blanks. |
| `LzWrappers.Utf16RoundTrip` | docs/javascripts/lz-string.js:1 | The UTF-16 form, shifted by 32, decompresses to the string. |
| `LzWrappers.Uint8ArrayRoundTrip` | docs/javascripts/lz-string.js:1 | The byte array form, two bytes a symbol, decompresses to the string. |
| `LzWidth.WidthBound` | docs/javascripts/lz-string.js:1 | Below 2^29 code units the width of codes stays within 30 bits, so no shift or mask meets JavaScript's sign bit. |
| `LzWidth.MarkerWidthBound` | docs/javascripts/lz-string.js:1 | The width of the end marker, which may have grown once more, does too. |
| `Importer.ImportBlockExpr` | rust-engine/src/import_thir.rs:706-817 | Popping a tail and folding the statements in reverse builds the nested term of the specification. |
| `Importer.WrapPreserved` | rust-engine/src/import_thir.rs:739-815 | One folded statement runs the statement and then the body exactly if the statement completes, for `let`, `let-else` and expressions. |
| `Importer.StmtsPreserved` | rust-engine/src/import_thir.rs:739-815 | From any statement on, the nested term runs as the statements in sequence. |
| `Importer.BlockPreserved` | rust-engine/src/import_thir.rs:706-817 | A block that may not complete when typed `!` without a tail keeps its meaning. |
| `Importer.IfLetPreserved` | rust-engine/src/import_thir.rs:924-970 | `if let` as a two-armed match has the same value, effects and exits. |
| `Importer.GuardPreserved` | rust-engine/src/import_thir.rs:1113-1152 | The right-hand side of an `if` or `if let` guard runs as before. |
| `Importer.ArmsPreserved` | rust-engine/src/import_thir.rs:1113-1152 | Trying the imported arms from any one on gives what the source arms give. |
| `Importer.ImportPreserves` | rust-engine/src/import_thir.rs:819-1260 | Every supported expression keeps value, calls and their order, early exits and variables. |
| `Importer.LostLetRun` | rust-engine/src/import_thir.rs:723-730 | A block whose last `let` was popped runs only the statements before it. |
| `Importer.BlockExact` | rust-engine/src/import_thir.rs:706-817 | A block keeps its meaning if and only if no kept `let` lacks an initialiser and a lost last `let` comes after an early exit. |
| `Importer.SureExitsFirst` | rust-engine/src/import_thir.rs:723-730 | An expression statement or initialiser that cannot complete, before the last statement, makes a lost last `let` unreachable, so that `ImportPreserves` covers the block wherever it stands. |
| `Importer.LostLetUnreached` | rust-engine/src/import_thir.rs:723-730 | `{ return e; let p = e'; }` is such a block. |
| `Importer.LostLetExample` | rust-engine/src/import_thir.rs:723-730 | `{ let x = return 1; }` at type `!` returns 1 in Rust and completes after the import. |
| `ThirRules.MatchFills` | rust-engine/src/import_thir.rs:1113-1152 | A pattern that matches yields the frame that fills it and differs only in its variables; one that does not is filled by no frame. |
| `ThirRules.Conditional` | rust-engine/src/import_thir.rs:924-970 | A true condition runs the first branch, a false one the second or nothing, an exit goes on. |
| `ThirRules.CallsInOrder` | rust-engine/src/import_thir.rs:819-1260 | Arguments run from left to right; the call is recorded with their values and yields what the function makes of them and of earlier calls. |
| `ThirRules.LoopOnce` | rust-engine/src/import_thir.rs:819-1260 | A loop runs its body again until that breaks, returns or panics. |
| `ThirRules.StatementsInOrder` | rust-engine/src/import_thir.rs:706-817 | Statements that complete run in order, and then the tail. |
| `ThirRules.LetElse` | rust-engine/src/import_thir.rs:739-815 | `let-else` binds its variables or runs its block, which must not complete. |
| `ThirRules.FirstArm` | rust-engine/src/import_thir.rs:1113-1152 | The first arm that matches gives the value. |
| `ThirRules.GuardedArm` | rust-engine/src/import_thir.rs:1113-1152 | A guard runs in the frame its pattern fills; if it is false the next arm is tried. |
| `ThirRules.TargetConditional` | rust-engine/src/import_thir.rs:924-970 | The engine's conditional follows the same rule. |
| `ThirRules.TargetLet` | rust-engine/src/import_thir.rs:739-815 | Its `let` runs the body in the frame the pattern fills. |
| `ThirRules.TargetArm` | rust-engine/src/import_thir.rs:1113-1152 | Its `match` takes the first arm that matches and whose `if let`, if any, matches too. |
| `ThirRules.TargetLoop` | rust-engine/src/import_thir.rs:819-1260 | Its loop follows the same rule. |
| `ThirRules.TargetCall` | rust-engine/src/import_thir.rs:819-1260 | And so do its calls. |
| `CastOfEnum.RustFromLastExplicit` | rust-engine/src/import_thir.rs:2044-2090 | Rust's implicit discriminant is the last explicit one plus the distance to it. |
| `CastOfEnum.CastArms` | rust-engine/src/import_thir.rs:2044-2090 | Every arm of the generated cast computes the discriminant Rust gives its variant. |
| `Decimal.ReadShow` | engine/utils/ocaml_of_json_schema/ocaml_of_json_schema.js:153-175 | A printed integer literal of any size is read back. |
| `Decimal.ShowStandard` | engine/utils/ocaml_of_json_schema/ocaml_of_json_schema.js:153-175 | The notation is decimal, the last digit the least, with a minus for negative numbers. |
| `SchemaRoundTrip.WireArrives` | engine/utils/ocaml_of_json_schema/ocaml_of_json_schema.js:153-175 | Re-reading printed text only turns integer literals into integers where they fit. |
| `SchemaRoundTrip.ParseWired` | engine/utils/ocaml_of_json_schema/ocaml_of_json_schema.js:153-226 | Every JSON related to a value, from whichever end it comes, is parsed to what the round trip keeps of it. The relation stands apart from both functions: booleans, strings and numerals for themselves, cases tagged by their Rust name, fields found by name in any order. |
| `SchemaRoundTrip.ArrivesWired` | engine/utils/ocaml_of_json_schema/ocaml_of_json_schema.js:153-226 | What the printer writes for a typed value, and what may arrive of it, is related to it. |
| `SchemaRoundTrip.PrintWires` | engine/utils/ocaml_of_json_schema/ocaml_of_json_schema.js:362-376 | So the output of the printer is, and its text read again. |
| `SchemaRoundTrip.WiresNull` | engine/utils/ocaml_of_json_schema/ocaml_of_json_schema.js:153-226 | Only null stands for what stands for nothing. |
| `SchemaRoundTrip.Scalars` | engine/utils/ocaml_of_json_schema/ocaml_of_json_schema.js:153-226 | Booleans and strings are written and read as they are, small integers as numbers and others as numerals. |
| `SchemaRoundTrip.KeptOption` | engine/utils/ocaml_of_json_schema/ocaml_of_json_schema.js:153-226 | A present option of what stands for nothing is lost, another keeps what is kept of its content. |
| `SchemaRoundTrip.VariantNames` | engine/utils/ocaml_of_json_schema/ocaml_of_json_schema.js:71-76 | Constructors are capitalised, and kept apart from `Some` and `None`. |
| `SchemaRoundTrip.EmptyStructRead` | engine/utils/ocaml_of_json_schema/ocaml_of_json_schema.js:378-522 | An empty struct is read from any JSON. |
| `SchemaRoundTrip.WrongKind` | engine/utils/ocaml_of_json_schema/ocaml_of_json_schema.js:153-226 | JSON of another kind is refused for booleans, strings, integers and units. |
| `SchemaRoundTrip.MissingRefused` | engine/utils/ocaml_of_json_schema/ocaml_of_json_schema.js:378-522 | A record that lacks a field is refused by that field. |
| `SchemaRoundTrip.ParsePrint` | engine/utils/ocaml_of_json_schema/ocaml_of_json_schema.js:153-226 | For every schema and typed value the generated parser returns, from whatever may arrive of the printed value, what the round trip keeps. |
| `SchemaRoundTrip.RoundTrip` | engine/utils/ocaml_of_json_schema/ocaml_of_json_schema.js:362-522 | The same directly and over the wire, through recursive definitions, records, variants, tuples and arrays. |
| `SchemaRoundTrip.NullIffVacant` | engine/utils/ocaml_of_json_schema/ocaml_of_json_schema.js:153-175 | A typed value prints as `Null` exactly if it is an absent option, a unit, an empty struct, or a present option or newtype of these. |
| `SchemaRoundTrip.KeptIffClean` | engine/utils/ocaml_of_json_schema/ocaml_of_json_schema.js:153-226 | What is kept is the value itself exactly for clean values. |
| `SchemaRoundTrip.SurvivesIffClean` | engine/utils/ocaml_of_json_schema/ocaml_of_json_schema.js:362-522 | A typed value comes back if and only if it is clean. |
| `SchemaRoundTrip.NestedOptionLost` | engine/utils/ocaml_of_json_schema/ocaml_of_json_schema.js:153-226 | `Some None` at a nested option comes back as `None`. |
| `SchemaRoundTrip.NullFreePrints` | engine/utils/ocaml_of_json_schema/ocaml_of_json_schema.js:153-175 | A type found free of null never prints as `Null`. |
| `SchemaRoundTrip.SoundClean` | engine/utils/ocaml_of_json_schema/ocaml_of_json_schema.js:153-226 | In a schema whose options hold null-free types and nothing is zeroed every value is clean. |
| `SchemaRoundTrip.SoundRoundTrip` | engine/utils/ocaml_of_json_schema/ocaml_of_json_schema.js:362-522 | For such a schema every value of every type comes back. |
| `SchemaRoundTrip.FormatsReadBack` | engine/utils/ocaml_of_json_schema/ocaml_of_json_schema.js:234-237 | All values of a Rust integer format are read back, for every format but `isize`. |
| `SchemaRoundTrip.IsizeRefused` | engine/utils/ocaml_of_json_schema/ocaml_of_json_schema.js:234-237 | `isize` has a value that is not read back. |
| `SchemaRoundTrip.ReprByName` | engine/utils/ocaml_of_json_schema/ocaml_of_json_schema.js:234-237 | Formats `int128`, `uint128`, `uint64` and `uint` are kept as strings, `int64` and `uint32` as 64-bit integers. |
| `IdTable.Session.NewNode` | frontend/exporter/src/id_table.rs:193-207 | A new node gets the next identifier, unused so far, and a table entry, others stay; past 32 bits no node is made. |
| `IdTable.Written` | frontend/exporter/src/id_table.rs:309-321 | A constructor is written as it is, each node in it by its identifier, with its value unless identifiers are to do. |
| `IdTable.BareIdentifier` | frontend/exporter/src/id_table.rs:323-350 | A bare identifier without an entry is not found, one whose entry is of another kind has the wrong type, any other takes the value of its entry. |
| `IdTable.BareExact` | frontend/exporter/src/id_table.rs:323-350 | Any constructor over bare identifiers, typed or not, decodes if and only if each is an entry of the kind expected at its place. |
| `IdTable.Globals.Serialize` | frontend/exporter/src/id_table.rs:238-275 | The document lists entries by identifier and bare identifiers only, and the mode is put back; nesting panics. |
| `IdTable.Globals.Deserialize` | frontend/exporter/src/id_table.rs:278-291 | The previous global table is put back, also on error, and nesting is refused. |
| `IdTable.ContentResolves` | frontend/exporter/src/id_table.rs:323-350 | Identifiers-only content decodes, to itself, if and only if every mentioned identifier is known. |
| `IdTable.OrderExact` | frontend/exporter/src/id_table.rs:351-383 | A listing of entries decodes if and only if it is a dependency order, and then to those entries. |
| `IdTable.SortedIsDependencyOrder` | frontend/exporter/src/id_table.rs:366-375 | Sorting by identifier is a dependency order. |
| `IdTable.RoundTrip` | frontend/exporter/src/id_table.rs:261-291 | The identifiers-only form of a value of one session rebuilds value and table. |
| `IdTable.InlineRoundTrip` | frontend/exporter/src/id_table.rs:309-350 | Nodes shipped with their values decode under any table. |
| `IdTable.WriteThenRead` | frontend/exporter/src/id_table.rs:240-291 | Writing and reading through the globals returns table and value and leaves the globals as they were. |
| `Crawl.Site.ClosedHoldsReachable` | docs/.test/global-setup.ts:58-67 | A set with the root and closed under admitted links holds every reachable page. |
| `Crawl.IgnoredAre` | docs/.test/global-setup.ts:59 | Links that are empty or begin with `mailto:`, `tel:` or `javascript:` are passed over. |
| `Crawl.Followed` | docs/.test/global-setup.ts:6-67 | A link leads on exactly if it resolves to the host `localhost:8000` and `/livereload` occurs nowhere in it. |
| `Crawl.GoodAre` | docs/.test/global-setup.ts:45-61 | A page is good if its status is from 200 to 399 and every link not passed over resolves. |
| `Crawl.Crawler.Spawn` | docs/.test/global-setup.ts:18-20 | A free worker takes the first queued page, or reports that there is none; a queued page is never already visited. |
| `Crawl.Crawler.QueueLinks` | docs/.test/global-setup.ts:58-67 | Afterwards every admitted link is visited or queued, once, unless a link cannot be resolved. |
| `Crawl.Crawler.Finish` | docs/.test/global-setup.ts:45-70 | A page is recorded and its links queued, or the job throws exactly for a bad page. |
| `Crawl.Crawler.Control` | docs/.test/global-setup.ts:21-22 | Spawning all free workers restores that a non-empty queue has a worker at work. |
| `Crawl.Crawler.Step` | docs/.test/global-setup.ts:12-29 | Every step of any worker keeps the invariant and leaves less work; it throws only for a bad reachable page. |
| `Crawl.AllRecorded` | docs/.test/global-setup.ts:24-28 | When no worker runs exactly the reachable pages are recorded. |
| `Crawl.CrawlSite` | docs/.test/global-setup.ts:32-74 | Under every interleaving the crawl ends; it yields each reachable page once, with its own playground flag and links, if and only if all are good. |
| `OrderBook.AddKeeps` | examples/limited-order-book/src/lib.rs:104-119 | A remainder that crosses nothing, or faces one resting order, leaves one order to blame for all crossing pairs. |
| `OrderBook.TradeKeeps` | examples/limited-order-book/src/lib.rs:144-163 | A trade keeps that, and takes exactly its quantity off the resting side. |
| `OrderBook.ProgressOneMore` | examples/limited-order-book/src/lib.rs:142-165 | Best-first order, used-up resting orders, volume and both sides' quantities are kept by one iteration. |
| `OrderBook.Fill` | examples/limited-order-book/src/lib.rs:144-163 | The best order is popped and its rest pushed back; nothing underflows, no empty heap is popped. |
| `OrderBook.ProcessOrder` | examples/limited-order-book/src/lib.rs:135-172 | Quantity is conserved, trades run best first at resting prices, all but the last resting order are used up, and a remainder crosses nothing or faces one order. |
| `OrderBook.BestFirst` | examples/limited-order-book/src/lib.rs:68-72 | Of two asks the one of lower price, at one price of smaller identifier, trades first; of two bids the one of higher price, or larger identifier; and so what trades compared with what is left. |
| `OrderBook.PricesKept` | examples/limited-order-book/src/lib.rs:31-60 | A trade names its two orders and is made at the resting price, which the incoming order accepts. |
| `OrderBook.RemainderRefused` | examples/limited-order-book/src/lib.rs:135-172 | What is left of an order faces one resting order, or only prices it refuses. |
| `OrderBook.Book.AddOrder` | examples/limited-order-book/src/lib.rs:101-120 | Keeps that all crossing pairs of the book share one order; invalid orders panic and change nothing. |
| `OrderBook.WorstStays` | examples/limited-order-book/src/lib.rs:142 | In every book one of the worst resting orders stays as it was. |
| `OrderBook.CrossedOnlyIf` | examples/limited-order-book/src/lib.rs:135-172 | A remainder that crosses faces a single resting order, one of the worst, and the incoming order swamped the side but for it. |
| `OrderBook.CrossedIf` | examples/limited-order-book/src/lib.rs:135-172 | If the order swamps the side but for any one of the worst resting orders, its remainder crosses. |
| `OrderBook.CrossedExactly` | examples/limited-order-book/src/lib.rs:135-172 | Unless tied worst orders differ in quantity, a remainder crosses if and only if the order swamps the side but for its worst order. |
| `OrderBook.BookCrossed` | examples/limited-order-book/src/lib.rs:101-120 | For every uncrossed book: crossed afterwards only if some worst order meets the condition, and surely if all do. |
| `OrderBook.DistinctTiesAgree` | examples/limited-order-book/src/lib.rs:68-72 | Distinct prices or identifiers leave no ties. |
| `OrderBook.BookCrossedExactly` | examples/limited-order-book/src/lib.rs:101-120 | Without such ties an uncrossed book becomes crossed exactly under the condition. |
| `OrderBook.TieExample` | examples/limited-order-book/src/lib.rs:135-172 | With such a tie a crossed and an uncrossed outcome both meet what is promised of a call. |
| `OrderBook.TieRuns` | examples/limited-order-book/src/lib.rs:135-172 | Calls on two heaps of the same tied orders reach both outcomes, by which order they show. |
| `OrderBook.LoneOrderUntouched` | examples/limited-order-book/src/lib.rs:135-172 | A lone resting order never trades. |
| `OrderBook.CrossedExample` | examples/limited-order-book/src/lib.rs:101-120 | An ask of 10 and then a bid of 20 make a crossed book. |
| `Words.XorCancels` | examples/chacha20/src/lib.rs:13-19 | Exclusive or twice with the same word is the identity. |
| `Words.RotateCancels` | examples/chacha20/src/lib.rs:13-19 | Rotations by the same amount in both directions cancel. |
| `Words.ByteOfXor` | examples/chacha20/src/hacspec_helper.rs:29-46 | A byte of an exclusive or of words is the exclusive or of their bytes. |
| `Words.ByteOfLeWord` | examples/chacha20/src/hacspec_helper.rs:12-37 | Bytes read as little-endian words and written again are the same bytes. |
| `WordBits.BitIsDigit` | examples/chacha20/src/lib.rs:13-19 | Bit j of a word is its binary digit of weight 2^j. |
| `WordBits.BitsDetermine` | examples/chacha20/src/lib.rs:13-19 | Numbers of as many bits are the same when their bits are. |
| `WordBits.XorBit` | examples/chacha20/src/lib.rs:13-19 | Bit j of an exclusive or is the sum of the two bits modulo 2. |
| `WordBits.RotateLeftBit` | examples/chacha20/src/lib.rs:13-19 | Bit j of a word rotated left by n is its bit j - n modulo 32. |
| `WordBits.BytesWeigh` | examples/chacha20/src/hacspec_helper.rs:29-40 | The bytes of a word weigh powers of 256, the first the least. |
| `WordBits.LeWordWeighs` | examples/chacha20/src/hacspec_helper.rs:14-24 | So they do in a little-endian word. |
| `ChaCha20.QuarterRoundIsQuarter` | examples/chacha20/src/lib.rs:13-34 | On distinct positions only those four words change, as section 2.1 of RFC 8439 says. |
| `ChaCha20.QuarterRoundInverse` | examples/chacha20/src/lib.rs:21-34 | The quarter round on distinct positions has an explicit two-sided inverse. |
| `ChaCha20.DoubleRoundInverse` | examples/chacha20/src/lib.rs:36-94 | So has the double round. |
| `ChaCha20Standard.QuarterStandard` | examples/chacha20/src/lib.rs:13-34 | The four operations of section 2.1 of RFC 8439 in their order, with rotations by 16, 12, 8 and 7. |
| `ChaCha20Standard.ShiftedColumn` | examples/chacha20/src/lib.rs:79-93 | Rotating row r of the state left by r turns the four diagonals into columns, written out word by word. |
| `ChaCha20Standard.DoubleRoundStandard` | examples/chacha20/src/lib.rs:36-94 | A double round applies the quarter round to each column of the state, and then to each column of it with row r rotated left by r: section 2.3 of RFC 8439. |
| `ChaCha20Standard.PermuteStandard` | examples/chacha20/src/lib.rs:96-102 | The permutation is ten double rounds. |
| `ChaCha20.RoundsInverse` | examples/chacha20/src/lib.rs:96-102 | So has any number of double rounds, the ten of the loop among them. |
| `ChaCha20.Rounds` | examples/chacha20/src/lib.rs:96-102 | The loop computes ten double rounds. |
| `ChaCha20.ChaCha20Core` | examples/chacha20/src/lib.rs:104-109 | The counter is added to word 12 and the input state to the permuted one. |
| `ChaCha20.InitLayout` | examples/chacha20/src/lib.rs:111-132 | Constants, key, counter and nonce stand where section 2.3 of RFC 8439 puts them. |
| `ChaCha20Standard.InitStandard` | examples/chacha20/src/lib.rs:111-132 | The four constants, key and nonce as little-endian words, and the counter in word 12. |
| `ChaCha20Standard.BlockStandard` | examples/chacha20/src/lib.rs:104-109 | Each word of a block is the sum modulo 2^32 of the input state, its counter advanced, and its permutation. |
| `ChaCha20Standard.BlockBytesStandard` | examples/chacha20/src/hacspec_helper.rs:29-40 | The bytes of a block are its words in little-endian order. |
| `ChaCha20.EncryptBlock` | examples/chacha20/src/lib.rs:144-150 | Output bytes are message bytes xored with the key stream block. |
| `ChaCha20.EncryptLast` | examples/chacha20/src/lib.rs:152-157 | The same for a short block, despite zero padding and cutting. |
| `ChaCha20.Update` | examples/chacha20/src/lib.rs:159-177 | The loops over full blocks and the rest compute the stream cipher of the message. |
| `ChaCha20.CipherAt` | examples/chacha20/src/lib.rs:159-177 | Byte p is xored with byte p mod 64 of key stream block p div 64, section 2.4 of RFC 8439. |
| `ChaCha20.CipherTwice` | examples/chacha20/src/lib.rs:159-177 | Enciphering twice returns the message. |
| `ChaCha20.SplitAtBlock` | examples/chacha20/src/lib.rs:159-177 | A message split at a block boundary enciphers as its parts, the counter advanced modulo 2^32. |
| `ChaCha20.EncryptThenDecrypt` | examples/chacha20/src/lib.rs:179-183 | For every key, nonce, counter and message, lengths agree and the second call returns the message. |
| `Primes.AreFirstPrimes` | examples/sha256/src/sha256.rs:24-50 | The 64 numbers behind the tables are all primes up to 311, in order. |
| `Sha256.Constants` | examples/sha256/src/sha256.rs:24-50 | The tables are the root bits of the first 64 and the first 8 primes, sections 4.2.2 and 5.3.3 of FIPS 180-4. |
| `Sha256.MajIsMajSpec` | examples/sha256/src/sha256.rs:18-20 | The nested form of `maj` is the standard's. |
| `WordBits.AndBit` | examples/sha256/src/sha256.rs:14-20 | Bit j of an and is 1 exactly if both bits are. |
| `WordBits.NotBit` | examples/sha256/src/sha256.rs:14-16 | Bit j of a complement is the other one. |
| `WordBits.RotateRightBit` | examples/sha256/src/sha256.rs:52-61 | Bit j of a word rotated right by n is its bit j + n modulo 32. |
| `WordBits.ShiftRightBit` | examples/sha256/src/sha256.rs:52-61 | Bit j of a word shifted right by n is its bit j + n. |
| `Sha256Standard.ChBit` | examples/sha256/src/sha256.rs:14-16 | `ch` takes the bit of y where the bit of x is 1, and of z elsewhere. |
| `Sha256Standard.MajBit` | examples/sha256/src/sha256.rs:18-20 | `maj` is the majority of three bits. |
| `Sha256.SigmaTable` | examples/sha256/src/sha256.rs:52-61 | The table rows are the four functions of section 4.1.2. |
| `Sha256Standard.BigSigmaBits` | examples/sha256/src/sha256.rs:52-61 | The two functions of the rounds add three bits modulo 2, 2, 13 and 22, and 6, 11 and 25 places on. |
| `Sha256Standard.SmallSigmaBits` | examples/sha256/src/sha256.rs:52-61 | Those of the schedule 7, 18 and 3, and 17, 19 and 10 places on, the last without wrapping around. |
| `Sha256.ScheduleOf` | examples/sha256/src/sha256.rs:73-91 | The array holds the message schedule recurrence of section 6.2.2. |
| `Sha256Standard.ScheduleStandard` | examples/sha256/src/sha256.rs:64-91 | The first 16 words of the schedule are those of the block in big-endian order, the others sums modulo 2^32. |
| `Sha256Standard.FirstTemporary` | examples/sha256/src/sha256.rs:93-120 | The first temporary word of section 6.2.2 is a sum of five terms modulo 2^32. |
| `Sha256Standard.SecondTemporary` | examples/sha256/src/sha256.rs:93-120 | The second is a sum of two. |
| `Sha256Standard.RoundStandard` | examples/sha256/src/sha256.rs:93-120 | A round moves six working variables on; the first becomes the sum of the temporary words, and the fifth adds the first of them to the fourth. |
| `Sha256Standard.TwoTerms` | examples/sha256/src/sha256.rs:93-120 | Words are added modulo 2^32. |
| `Sha256Standard.RoundsStandard` | examples/sha256/src/sha256.rs:93-120 | Round t of 64 uses constant t and schedule word t. |
| `Sha256.ShuffleOnce` | examples/sha256/src/sha256.rs:93-120 | One iteration, in place, is one round on the eight working variables. |
| `Sha256.Shuffle` | examples/sha256/src/sha256.rs:93-120 | The loop is the 64 rounds. |
| `Sha256.Compress` | examples/sha256/src/sha256.rs:122-129 | The hash becomes the sum of itself and the rounds' result. |
| `Sha256Standard.CompressedStandard` | examples/sha256/src/sha256.rs:122-129 | Each word of the new hash is the sum modulo 2^32 of the old one and the result of the rounds. |
| `Sha256.FewestZeros` | examples/sha256/src/sha256.rs:144-178 | No shorter zero padding fills the last block, section 5.1.1. |
| `Sha256.PaddedLength` | examples/sha256/src/sha256.rs:144-178 | The last 8 bytes of the padding are the bit length, big-endian. |
| `Sha256Standard.PaddingStandard` | examples/sha256/src/sha256.rs:144-178 | The padded message is the message, a 1 bit, zeros and the bit length in 8 big-endian bytes, in whole blocks and no more than needed. |
| `Sha256.OneBlock` | examples/sha256/src/sha256.rs:156-175 | With fewer than 56 bytes left, one last block completes the padding. |
| `Sha256.TwoBlocks` | examples/sha256/src/sha256.rs:156-175 | Otherwise two last blocks do. |
| `Sha256.FoldPush` | examples/sha256/src/sha256.rs:146-154 | Hashing one more block compresses it into the hash so far. |
| `Sha256Standard.FoldStandard` | examples/sha256/src/sha256.rs:146-154 | The fold starts from the initial hash and takes the blocks in order. |
| `Sha256Standard.DigestReads` | examples/sha256/src/sha256.rs:144-178 | The digest's bytes are the hash's words in big-endian order. |
| `Sha256.HashRest` | examples/sha256/src/sha256.rs:156-175 | The branch on the rest's length ends at the fold over the padded message. |
| `Sha256.HashOf` | examples/sha256/src/sha256.rs:144-178 | For every message the digest is the fold of the compression over the padded message. |
| `EngineProtocol.StepKeepsPlace` | rust-engine/src/ocaml_engine.rs:151-182 | Every step of every process moves the one outstanding request or reply along its way. |
| `EngineProtocol.StepDelivers` | rust-engine/src/ocaml_engine.rs:151-182 | Every step keeps that nothing is lost, reordered or added on the way to cargo-hax. |
| `EngineProtocol.RunInv` | rust-engine/src/ocaml_engine.rs:151-182 | The invariant holds in every state of every run. |
| `EngineProtocol.OneOutstanding` | hax-types/src/engine_api.rs:106-115 | One request or reply is under way exactly while the engine waits, else none. |
| `EngineProtocol.CanMove` | engine/lib/hax_io.ml:46-62 | An engine that waits or has stopped finds another process that can move, until all is finished. |
| `EngineProtocol.RunSafe` | rust-engine/src/ocaml_engine.rs:151-182 | In every reachable state at most one request is outstanding, replies have the kind asked for, cargo-hax has seen a prefix, and there is no deadlock. |
| `EngineProtocol.RunComplete` | rust-engine/src/ocaml_engine.rs:151-182 | At the end cargo-hax has seen exactly the messages minus `Response` and `Exit`, and the last response is returned. |
| `EngineProtocol.WaitingProgress` | rust-engine/src/ocaml_engine.rs:151-182 | While the engine waits every step uses up work, so its reply comes under every schedule. |
| `EngineProtocol.ReplyComes` | rust-engine/src/ocaml_engine.rs:151-182 | In every run a waiting engine has received a reply of the kind it asked for before more steps are taken than there is work. |
| `EngineProtocol.CountMessage` | cli/subcommands/src/cargo_hax.rs:252-340 | One message keeps the per-item diagnostics counts right. |
| `EngineProtocol.RunEngine` | cli/subcommands/src/cargo_hax.rs:252-340 | The error flag and the counts are those of the messages up to `Exit`; every request among them is answered in order, by the formatted diagnostic, the pretty-printed code or its error, or a pong. |
| `EngineProtocol.ThreeKinds` | hax-types/src/engine_api.rs:106-115 | Exactly the requests to print a diagnostic, to print Rust and to ping ask for a reply, each of its own kind. |
| `EngineProtocol.QuestionsAre` | hax-types/src/engine_api.rs:106-115 | The questions are all messages of these kinds. |
| `EngineProtocol.ForwardedAre` | rust-engine/src/ocaml_engine.rs:151-182 | What cargo-hax is meant to see is every message but responses and the exit, each as often as it was sent. |
| `EngineProtocol.InOrder` | rust-engine/src/ocaml_engine.rs:151-182 | Both keep the order of the messages: those of a prefix come first. |
| `Interning.Table.TryInternKeeps` | rust-engine/src/interning.rs:154-167 | Handles and values stay in one-to-one correspondence, issued handles are kept, a new value gets the next number, and none is issued exactly from 2^32 items on. |
| `Interning.InterningTable.TryIntern` | rust-engine/src/interning.rs:154-167 | The in-place version is that step, also when an item is pushed without a handle. |
| `Interning.RunKeeps` | rust-engine/src/interning.rs:246-263 | Over every run of interns each issued handle resolves forever to its value. |
| `Interning.HandlesAreValues` | rust-engine/src/interning.rs:246-263 | Two handles of a run are equal exactly when their values are. |
| `Interning.BuildTable` | rust-engine/src/interning.rs:192-211 | The lazily built table holds the values at their positions, or panics on duplicates. |
| `Interning.ConstantsAgree` | rust-engine/src/interning.rs:179-213 | The constant handles resolve in that table to their values, forever. |
| `Quote.ProcessString` | hax-lib/macros/src/quote.rs:64-126 | The character loop yields output, antiquotations, error or panic of the specification. |
| `Quote.AntiShape` | hax-lib/macros/src/quote.rs:64-107 | After a dollar come the kind's prefix and the payload, bare or in braces; those inside a closed group match, and none closes too early in one left open. |
| `Quote.BareUpTo` | hax-lib/macros/src/quote.rs:96-102 | Without a brace after the prefix the payload holds none of blank, tab, line break, `(`, `{`, `)`, `;`, `!`, `?`, and what follows it is nothing or one of these. |
| `Quote.BracedUpTo` | hax-lib/macros/src/quote.rs:82-95 | With one it goes up to the matching brace, or is the rest of the text. |
| `Quote.LevelsCount` | hax-lib/macros/src/quote.rs:84-93 | The level of a text is the number of its opening braces less that of its closing ones. |
| `Quote.Kinds` | hax-lib/macros/src/quote.rs:72-80 | `?` begins a pattern, `$` a constructor, `:` a type, and anything else an expression. |
| `Quote.DollarsTaken` | hax-lib/macros/src/quote.rs:68-70 | Every dollar begins an antiquotation: no literal segment holds one. |
| `Quote.PayloadsParse` | hax-lib/macros/src/quote.rs:103-120 | Every returned payload is not empty and parses. |
| `Quote.StopsAt` | hax-lib/macros/src/quote.rs:103-119 | Scanning fails only at a dollar with an empty payload, reporting what comes after, or at one whose payload does not parse. |
| `Quote.WeaveRebuilds` | hax-lib/macros/src/quote.rs:64-126 | Literal segments and antiquotation texts interleaved are the payload. |
| `Quote.Rebuilds` | hax-lib/macros/src/quote.rs:64-126 | Literal segments and the returned kinds and payloads, each bare or braced, rebuild the payload; only a last group left open gains its brace. |
| `Quote.OutputIsWeave` | hax-lib/macros/src/quote.rs:105-124 | The output is the literal segments with one mark for each antiquotation. |
| `Quote.NoSpuriousMark` | hax-lib/macros/src/quote.rs:18 | No mark can form across a splice. |
| `QuoteSplit.Expression` | hax-lib/macros/src/quote.rs:183-222 | A payload with the mark is refused, scanning errors are passed on, the last antiquotation using `future` is reported, and otherwise the text is wrapped in one `let` for each antiquotation, in order. |
| `QuoteSplit.SplitListDrops` | engine/lib/utils.ml:42-56 | For every text the engine's parts are those between the marks, without an empty last one. |
| `QuoteSplit.EngineSplits` | engine/lib/utils.ml:75-77 | For every payload free of the mark the engine finds the literal segments but for an empty last one, and all of them if and only if the payload does not end with an antiquotation. |
| `QuoteSplit.LostSegment` | engine/lib/utils.ml:42-56 | The payload `$x` has two segments, of which the engine sees one. |
| `QuoteSplit.CollectsLets` | engine/lib/ast_utils.ml:1144-1149 | Collecting the nested `let`s gives the antiquotations in order, and the text. |
| `QuoteSplit.AcceptsIff` | engine/lib/phases/phase_transform_hax_lib_inline.ml:141-157 | Weaving accepts exactly as many segments as antiquotations, or one more. |
| `QuoteSplit.InterleavedAt` | engine/lib/phases/phase_transform_hax_lib_inline.ml:141-157 | Then segments and antiquotations alternate, each in order. |
| `QuoteSplit.EngineRebuilds` | engine/lib/phases/phase_transform_hax_lib_inline.ml:88-157 | Every emitted quotation is accepted; its contents are the segments, but for an empty last one, and the antiquotations in turn, and render the payload. |
| `QuoteSplit.QuoteThrough` | hax-lib/macros/src/quote.rs:183-222 | The macro and the engine together do that for every payload that is not refused. |
| `TextLines.JoinSplit` | hax-lib/core-models/patch_lean.py:517-538 | Splitting a text at line breaks and joining the lines is the identity. |
| `TextLines.SplitJoin` | hax-lib/core-models/patch_lean.py:517-538 | Joining lines without breaks and splitting gives the lines. |
| `TextLines.RFind` | hax-lib/core-models/patch_lean.py:599 | The search from the right returns the last occurrence, or none. |
| `TextLines.RFindLine` | hax-lib/core-models/patch_lean.py:598-599 | Searching for a break and the marker finds the last line, not the first of all, that starts with it. |
| `LeanBlocks.BlockShape` | hax-lib/core-models/patch_lean.py:443-479 | A block has an end exactly if its comment closes; then no line from its head to there is a top-level line, blank lines are set aside, and a top-level line or the end of the file comes next. |
| `LeanBlocks.DocEndsIff` | hax-lib/core-models/patch_lean.py:454-457 | A line closes a comment if `-/` is the last of it that is not white space. |
| `LeanBlocks.TopLevelIff` | hax-lib/core-models/patch_lean.py:466-474 | A body ends before a comment, an attribute, a definition, or an `end` that stands alone or has a blank after it. |
| `LeanBlocks.HeadShape` | hax-lib/core-models/patch_lean.py:458-463 | All attributes are in the head, and of the keyword lines one at most. |
| `LeanBlocks.FindBlockEnd` | hax-lib/core-models/patch_lean.py:443-479 | The cursor loops compute that end, and the exception. |
| `LeanRelocate.TransformBlocks` | hax-lib/core-models/patch_lean.py:506-538 | The walk always advances and returns the lines of its segments. |
| `LeanRelocate.NothingLost` | hax-lib/core-models/patch_lean.py:506-538 | The segments are the file's lines in order; only headed blocks the callback accepts are replaced. |
| `LeanRelocate.EachSegment` | hax-lib/core-models/patch_lean.py:520-538 | Every segment begins where those before it end, and is the block the callback replaces there or, where there is none, one line. |
| `LeanRelocate.WalksIffClosed` | hax-lib/core-models/patch_lean.py:443-538 | The walk succeeds exactly on files whose headed comments are closed, whatever the callback. |
| `LeanRelocate.UnclosedExample` | hax-lib/core-models/patch_lean.py:443-538 | A file of one headed comment that is never closed raises. |
| `LeanRelocate.NoChange` | hax-lib/core-models/patch_lean.py:506-538 | A callback that replaces nothing returns the text unchanged, or raises on an unclosed comment. |
| `LeanRelocate.RelocateBlocksToEnd` | hax-lib/core-models/patch_lean.py:565-603 | Captured blocks are placed at the last marker, or appended without one; a text without such blocks is as the walk left it. |
| `LeanRelocate.Relocated` | hax-lib/core-models/patch_lean.py:565-603 | With a marker the non-blank lines are permuted: kept lines in order, moved blocks in order right before the last marked line. |
| `LeanRelocate.RelocatedToEnd` | hax-lib/core-models/patch_lean.py:598-602 | Without a marker the kept non-blank lines stay in order, the last without trailing white space, and the moved blocks follow in order. |
| `LeanRelocate.CommentsOut` | hax-lib/core-models/patch_lean.py:541-562 | Commenting out puts one line before and one after each chosen block and changes nothing else. |
| `Directives.SameUpToZeros` | cli/test-driver/src/directives.rs:289-315 | Two error codes with the prefix are equal if and only if they differ in leading zeros only. |
| `Directives.SamePlainUpToZeros` | cli/test-driver/src/directives.rs:289-315 | The same for codes without it. |
| `Directives.NormalisedIsSame` | cli/test-driver/src/directives.rs:289-315 | A code equals its normalised spelling unless dropping zeros uncovers a prefix followed by a zero. |
| `Directives.CodeExample` | cli/test-driver/src/directives.rs:289-315 | `0HAX01` differs from its normalised spelling. |
| `Directives.MergeErrors` | cli/test-driver/src/directives.rs:334-343 | The two loops yield every backend of either side with both sides' codes, in order. |
| `Directives.Merge` | cli/test-driver/src/directives.rs:323-346 | Directives merge exactly when both are failures of one kind, else nothing changes. |
| `Directives.JoinedKeeps` | cli/test-driver/src/promote_directives.rs:62-80 | Two queued lines join that number the same line and expect the same kind of failure; the first keeps all but its backends, which are those of both. |
| `Directives.Queue.PushLine` | cli/test-driver/src/promote_directives.rs:62-80 | The first line that takes the directive is merged in place, else the line is appended; other files are untouched. |
| `Directives.RunOfPushes` | cli/test-driver/src/promote_directives.rs:62-80 | After any run of pushes no line number holds two failures of a kind, and for every line, kind and backend the codes are those pushed, in order. |
| `PromoteSave.SortUnique` | cli/test-driver/src/promote_directives.rs:45 | A stable sort by the order of lines has only one result. |
| `PromoteSave.StableSort` | cli/test-driver/src/promote_directives.rs:45 | Lines are sorted and lines of equal rank keep their order. |
| `PromoteSave.Erased` | cli/test-driver/src/promote_directives.rs:27-57 | Without the directives the sorted lines are the file's; each directive stands right before the line with its number, in queue order. |
| `PromoteSave.Save` | cli/test-driver/src/promote_directives.rs:27-57 | The new contents are the sorted lines, printed and ended by a line break. |
| `PromoteSave.ReadWritten` | cli/test-driver/src/promote_directives.rs:47-54 | A reader finds the written lines without carriage returns, and without an empty last one. |
| `PromoteSave.SavedExactly` | cli/test-driver/src/promote_directives.rs:47-54 | Of any printed lines all survive if and only if the last of several is not empty and none ends with a carriage return. |
| `PromoteSave.EndOfSorted` | cli/test-driver/src/promote_directives.rs:33-45 | The sorted lines end with an empty line exactly if the file does and no directive is queued past its end. |
| `PromoteSave.SavedFile` | cli/test-driver/src/promote_directives.rs:27-57 | Of the queue and the file given: a reader finds every line, and so the old file once directives are erased, if and only if no old line ends in a carriage return and the end stays. |
| `PromoteSave.SaveThenRead` | cli/test-driver/src/promote_directives.rs:27-57 | Saving and reading back does that. |
| `PromoteSave.BlankLineLost` | cli/test-driver/src/promote_directives.rs:47-54 | A file ending in a blank line loses it when a directive is promoted. |

## Left out

- LZ codec: a first code of 3, which leaves the first character undefined, is an outcome of its own; null inputs and byte arrays of odd length are not modelled.
- LZ codec: integers are unbounded; `LzWidth.WidthBound` shows when JavaScript's 32-bit shifts agree.
- Importer.ImportPreserves: of the cited arms it does not model labels, logical operators, op-assign, assignments through field or index places, borrows, closures and types; a function call stands for the arms that become one. Local variables have unique identifiers, as in THIR. Loops run on fuel: a run that uses it up exits with a timeout on both sides, which the lemma covers; stuck runs (a failed irrefutable match, a missing variable) are excluded, as Rust's type checker excludes them.
- Schema: recognising definitions (`is_type`, `clean`), mangling names and `ensureUnique` are left out, as are the cached node table and the node ids read through it; the field names of a record and the cases of an enum are assumed distinct, as the generated OCaml requires.
- SchemaRoundTrip.ParseWired: an empty struct is related to null only, which is what Rust writes; `EmptyStructRead` covers any other JSON.
- SchemaRoundTrip.ParsePrint: chains of newtype definitions are unfolded on fuel; the depth of the value suffices.
- IdTable: counting past 32 bits panics, as in a build with overflow checks; mutex poisoning is left out, and serde's token stream is a tree.
- Crawl: URL parsing and the browser are parameters; pages do not change during a crawl.
- OrderBook: a heap is a multiset with a best element, of which any may surface; candid and the canister are left out.
- ChaCha20: `chacha20_key_block` and `chacha20_key_block0` add nothing to `ChaCha20Core`.
- Sha256.HashOf: messages whose bit length exceeds 64 bits are excluded, by the precondition on line 143.
- EngineProtocol: one query; crashes, JSON and the requests the proxy itself sends after the engine's exit are left out, and pipes are unbounded.
- Interning: the mutex and the `'static` transmute of `get` are left out.
- Quote: the Rust parser on an antiquotation is a parameter; texts are sequences of characters, while the engine splits the bytes of their UTF-8 encoding, in which the ASCII mark occurs at the same places.
- QuoteSplit: the `future` check is a parameter; how an antiquotation's tokens are wrapped by kind, and how the engine extracts patterns and types from them, is left out.
- LeanRelocate: the header's regular expression and the choice of identifiers are parameters; a callback returns a replacement and the captured blocks are collected beside it; the regular-expression rewrites of the script and the matching of identifiers by `_ident_matches` are left out.
- Directives: parsing and printing directives are left out.
- PromoteSave: file access and the mutex are left out; the library's sort is an insertion sort, whose result `SortUnique` shows to be the only one.
