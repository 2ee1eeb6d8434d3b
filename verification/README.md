# Verification model of the CH3 repository

A Dafny model of the parts of CH3 whose correctness is a matter of algorithm and
protocol rather than of input and output: the update-manifest format, the
keybindings service, release-tag resolution, a JSON-RPC client, and several
byte- and character-level encoders. Code that loops or updates objects is modelled
by methods and classes, each proved equal to a specification function or a step of
a state machine; what the code is for is then proved about those functions and
about every run of those machines.

| files | subject |
|---|---|
| `Sequences`, `Text`, `Alphabets` | searching sequences, the JavaScript string operations used below, and the character classes |
| `UpdateManifest`, `ManifestLoops` | the update-manifest parser, printer and merge, and their loops |
| `ManifestScalars`, `ManifestLexis`, `ManifestGrammar` | what any text parses to or is refused for: values, lines, and lists of lines |
| `ManifestText`, `ManifestPrinting`, `ManifestRoundTrip`, `ManifestMerge` | what is printed, what it reads back as, and merging |
| `WhenSyntax`, `WhenLexis`, `WhenGrammar`, `WhenRoundTrip` | when-expressions of keybinding rules: parser, spelling, grammar, encoder |
| `ShortcutSyntax`, `ShortcutRoundTrip`, `KeybindingEncoding` | shortcuts of keybinding rules, and writing bindings back |
| `KeybindingRules`, `KeybindingRuleLaws`, `KeybindingProtocol`, `KeybindingCache`, `KeybindingReload`, `KeybindingMeaning`, `KeybindingService` | the rule list, the interleaved service steps, the cache, its revalidation, whole operations and the service object |
| `ReleaseOrder`, `ReleaseTags`, `TagGrammar`, `ReleaseResolver`, `NightlyTags` | version order, tag parsers and what they accept, the previous-release resolver, nightly tags |
| `StableTags`, `SemVerOrder` | what stable tags can hold, and agreement with Semantic Versioning |
| `JsonRpcProtocol`, `JsonRpcSafety`, `JsonRpcLines` | the JSON-RPC client as an object and as interleaved steps, and the lines it sends |
| `DataUrl`, `DataUrlGrammar`, `ImageExtensions`, `IcoFile`, `QrTerminal` | base64 data URLs, image extensions, ICO files and the terminal QR code |
| `AttachmentIds`, `AttachmentSegments`, `AttachmentPaths`, `AttachmentPathLaws` | attachment ids, the paths made from them and path normalisation |
| `LifecycleLog`, `LifecycleDelivery`, `LifecycleOrder` | the lifecycle event log, and what of it reaches clients in which order |
| `ProviderSessions`, `ProviderSessionLaws`, `ProviderTurns` | the test provider adapter's sessions, and what turns record and emit |

## What the proofs found

- **Manifests.** The `files:` line has no effect on what a text parses to, and a top-level
  `path` or `sha512` is skipped: `ManifestLexis.ParseMeaning`. Printing and parsing is the identity exactly on the manifests of
  `ManifestRoundTrip.WellFormed`. A url wrapped in single quotes comes back without
  them, a blank one does not parse, and a number that JavaScript prints with an
  exponent comes back as a string: `ManifestText.SmallNumberBecomesText`.
- **When-expressions and keys.** A binding can be written back as a rule and read again
  exactly when its condition nests at most 64 deep and its texts fit 256 and 64
  characters (`KeybindingEncoding.WrittenBack`). Accepted rules violate each of these
  alone: `WhenRoundTrip.DeepNegation`, `WhenRoundTrip.LongChain` and
  `KeybindingEncoding.LongKeyRefused`.
- **Keybinding cache.** `start` invalidates the cache without taking the permit
  (`keybindings.ts:621`). An edit of the file and that invalidation, falling between
  another operation's write and its cache update, can leave a filled cache that does not
  agree with the file: `KeybindingCache.UnguardedInvalidation`, and exactly when in
  `KeybindingCache.EditSlipsBy`. So can an interruption between write and cache update,
  without any edit: `KeybindingCache.InterruptedWriteUnseen`, and exactly when in
  `KeybindingCache.InterruptedUpsert` and `KeybindingCache.InterruptedRemove`.
  An upsert of a rule that does not compile leaves the cache without the issue a reload
  would report: `KeybindingCache.UpsertCacheExact`, `KeybindingCache.UncompiledUpsert`.
  The watcher's revalidation ends all of these: `KeybindingReload.RevalidationHeals`.
- **Release order.** `compareStableVersions` compares text identifiers with
  `localeCompare`; on tags it follows section 11 of Semantic Versioning 2.0.0, which asks
  for ASCII order, exactly when the locale orders tag texts as ASCII does:
  `SemVerOrder.SemVerAgreement`, with a failing pair in `SemVerOrder.LocaleReverses`.
- **Lifecycle events.** A client that takes its snapshot first and subscribes afterwards,
  as `ws.ts:3287-3293` does, can miss an event for good (`LifecycleDelivery.SnapshotFirstMisses`);
  it misses none exactly when nothing newer was broadcast before it subscribed
  (`LifecycleDelivery.CompleteMeaning`). Two publishers can deliver out of order
  (`LifecycleOrder.OutOfOrder`); delivery is in order exactly when, while the client is
  subscribed, the publisher with the lowest number always broadcasts first:
  `LifecycleOrder.InOrderMeaning`, and with events still to come
  `LifecycleOrder.OrderOfRun`.
- **Provider sessions.** Turn ids stay unique as long as each rollback keeps turns numbered
  by their positions (`ProviderSessionLaws.IdsUniqueOnRuns`). A rollback after a failed
  send need not, and then two turns share an id: `ProviderSessionLaws.UnalignedRollbackRepeats`,
  `ProviderSessionLaws.FailedSendRepeatsId`.

## Model

| member | source | states |
|---|---|---|
| ManifestLoops.ParseUpdateManifest | ch3/scripts/lib/update-manifest.ts:67-186 | the line loop with its `inFiles` and `currentFile` variables computes the state machine `Parse`, with the same error at the same line |
| ManifestLexis.ParseMeaning | ch3/scripts/lib/update-manifest.ts:67-186 | a text parses to a manifest if and only if its lines spell that manifest: no line is at fault, the last version, date and extra of each name count, top-level `path` and `sha512` and blank lines are skipped, and each url line stands for a file with the last hash and the last size of its entry, in either order |
| ManifestLexis.ParseFailure | ch3/scripts/lib/update-manifest.ts:29-186 | a text is refused with an error if and only if that is its first fault, with the number of its line, or the fault left at the end |
| ManifestGrammar.LinesMeaning | ch3/scripts/lib/update-manifest.ts:73-186 | the same said of a list of classified lines, by the positions of the lines and not by reading them in turn |
| ManifestLexis.LineMeaning | ch3/scripts/lib/update-manifest.ts:80-138 | each line says exactly one thing: prefix, whitespace, value and whitespace for the four patterns, `files:`, a blank line, or nothing known |
| ManifestLexis.SplitMeaning | ch3/scripts/lib/update-manifest.ts:72-72 | the lines are those between line feeds, each with a carriage return in front or not |
| ManifestScalars.ScalarMeaning | ch3/scripts/lib/update-manifest.ts:54-65 | a value is quoted text, `true`, `false`, a number as spelled, or the text as it stands |
| ManifestScalars.UndoubleMeaning | ch3/scripts/lib/update-manifest.ts:22-27 | unescaping pairs quote marks from the left |
| ManifestLoops.MergeUpdateManifests | ch3/scripts/lib/update-manifest.ts:208-237 | the insertion-ordered file map and the extras loop compute `Merge` |
| ManifestMerge.MergedValue | ch3/scripts/lib/update-manifest.ts:208-237 | a merge keeps the version, has one of the two dates and neither is later, lists the first entry of each url in order, and has the extras of both |
| ManifestMerge.MergeErrors | ch3/scripts/lib/update-manifest.ts:188-237 | a merge fails with an error if and only if that fault is there: other versions, then the url of the first entry that disagrees with an earlier one, then an extra with two values |
| ManifestLoops.MergeExtras | ch3/scripts/lib/update-manifest.ts:188-206 | succeeds exactly when no shared key has two values, with the union, whatever order the entries come in |
| ManifestLoops.SerializeUpdateManifest | ch3/scripts/lib/update-manifest.ts:250-277 | pushing lines one by one prints `Serialize` |
| ManifestPrinting.PrintedInOrder | ch3/scripts/lib/update-manifest.ts:250-277 | the printed lines are version, `files:`, three lines for each file in order, the extras in ascending order of their keys, each once, release date and an empty line |
| ManifestScalars.PositionalMeaning | ch3/scripts/lib/update-manifest.ts:243-248 | a number is printed without an exponent if and only if it is 0 or its magnitude is at least 10^-6 and below 10^21 |
| ManifestScalars.ScientificMeaning | ch3/scripts/lib/update-manifest.ts:243-248 | any other number is printed as one digit, perhaps more behind a point and none of them a trailing 0, and a power of ten with its sign, of the same value |
| ManifestText.QuotedScalar | ch3/scripts/lib/update-manifest.ts:54-65 | a quoted value with doubled quotes is read back whole, for any embedded quotes |
| ManifestText.StripFacts | ch3/scripts/lib/update-manifest.ts:22-27 | quote stripping changes exactly the texts wrapped in quotes |
| ManifestText.NumberRoundTrip | ch3/scripts/lib/update-manifest.ts:54-65 | a printed number reads back as that number if and only if it is printed without an exponent |
| ManifestText.ScalarRoundTrip | ch3/scripts/lib/update-manifest.ts:243-248 | a one-line string, number or boolean is printed to text that reads back as it, type included, if and only if it is no number with an exponent |
| ManifestText.ScalarReadsBack | ch3/scripts/lib/update-manifest.ts:243-248 | what every printed scalar reads back as; a number with an exponent becomes a string |
| ManifestText.SmallNumberBecomesText | ch3/scripts/lib/update-manifest.ts:61-64 | the value 0.0000001 is read as a number, printed as 1e-7 and then read as a string |
| ManifestText.SizeKind | ch3/scripts/lib/update-manifest.ts:105-114 | a printed size is read back, or its line is refused when it has an exponent |
| ManifestRoundTrip.RunManifest | ch3/scripts/lib/update-manifest.ts:80-163 | the reader's run over a printed manifest succeeds exactly when no url or hash is blank and no size has an exponent, and then holds all fields |
| ManifestRoundTrip.ReadBack | ch3/scripts/lib/update-manifest.ts:67-277 | what any printable manifest reads back as, including those that lose quotes, turn a number into a string, or fail |
| ManifestRoundTrip.RoundTrip | ch3/scripts/lib/update-manifest.ts:67-277 | parsing the serialization gives the manifest back if and only if it is well formed, which includes that no number prints with an exponent; for any number of files and extras |
| ManifestRoundTrip.ParsedIsPrintable | ch3/scripts/lib/update-manifest.ts:67-186 | whatever text parses, its manifest is printable: non-empty fields, one-line values, no reserved extra |
| ManifestMerge.AddFilesMeaning | ch3/scripts/lib/update-manifest.ts:219-228 | the file loop succeeds exactly when no url has two entries, and keeps each url at its first place |
| ManifestMerge.MergeMeaning | ch3/scripts/lib/update-manifest.ts:208-237 | merge succeeds exactly on equal versions, consistent files and agreeing extras, and what it then holds |
| ManifestMerge.MergeAssociative | ch3/scripts/lib/update-manifest.ts:188-237 | both groupings of three manifests fail together or give the same manifest, file order included |
| ManifestMerge.MergeCommutative | ch3/scripts/lib/update-manifest.ts:188-237 | swapping the arguments fails together and changes nothing but file order |
| ManifestMerge.MergeIdempotent | ch3/scripts/lib/update-manifest.ts:188-237 | a manifest merged with itself is itself if and only if no url is repeated |
| ManifestMerge.MergedFiles | ch3/scripts/lib/update-manifest.ts:219-234 | output urls are unique and the entries are exactly those of the inputs |
| ManifestMerge.MergedRoundTrip | ch3/scripts/lib/update-manifest.ts:188-277 | what two well-formed manifests merge to survives printing and parsing |
| WhenParser.TokenizeWhenExpression | ch3/packages/shared/src/keybindings.ts:133-180 | the index loop computes `Tokenize` |
| WhenParser.Reader.ParsePrimary | ch3/packages/shared/src/keybindings.ts:187-211 | on the shared index, reads what the grammar function reads from the rest, with the depth limit |
| WhenParser.Reader.ParseUnary | ch3/packages/shared/src/keybindings.ts:213-232 | as above, with its own limit on repeated negation |
| WhenParser.Reader.ParseAnd | ch3/packages/shared/src/keybindings.ts:234-246 | as above, associating to the left |
| WhenParser.Reader.ParseOr | ch3/packages/shared/src/keybindings.ts:248-260 | as above, associating to the left |
| WhenParser.ParseKeybindingWhenExpression | ch3/packages/shared/src/keybindings.ts:182-265 | tokenizing, the closures over one index and the check that all tokens are used compute `Parse` |
| WhenGrammar.ParserIsGrammar | ch3/packages/shared/src/keybindings.ts:182-265 | the parser accepts exactly the texts whose tokens are written by a grammar of names, groups, at most 64 negations, conjunctions and disjunctions, both left-associated, at most 64 groups deep, and returns the tree they mean |
| WhenLexis.TokenizerIsSpelling | ch3/packages/shared/src/keybindings.ts:133-180 | the tokenizer accepts exactly the texts made of whitespace and token spellings in which every name is followed by a character no name has, or by the end, and gives those tokens |
| WhenLexis.ParserIsGrammarOfTexts | ch3/packages/shared/src/keybindings.ts:133-265 | the parser accepts exactly those texts whose tokens the grammar writes, with the tree they mean |
| Alphabets.NameCharacters | ch3/packages/shared/src/keybindings.ts:171-171 | which characters start a name and which it may hold, listed one by one |
| WhenGrammar.Unambiguous | ch3/packages/shared/src/keybindings.ts:182-265 | no token list within the depth limit is written by two expressions with different trees |
| WhenRoundTrip.UniqueReadability | ch3/apps/server/src/keybindings.ts:159-170 | two encodings followed by a delimiter are equal only if trees and rests are |
| WhenRoundTrip.EncodeInjective | ch3/apps/server/src/keybindings.ts:159-170 | `encodeWhenAst` is injective on trees whose names hold no punctuation of the encoder |
| WhenRoundTrip.TokenizeEncoding | ch3/packages/shared/src/keybindings.ts:133-180 | an encoded tree tokenizes to its own tokens |
| WhenRoundTrip.ParseEncoding | ch3/packages/shared/src/keybindings.ts:182-265 | parsing an encoded tree gives it back if it nests at most 64 deep and fails otherwise |
| WhenRoundTrip.CanonicalForm | ch3/packages/contracts/src/keybindings.ts:97-100 | an accepted expression can be stored in its canonical form and read back if and only if its tree nests at most 64 deep and its encoding has at most 256 characters |
| WhenRoundTrip.LongChain | ch3/packages/shared/src/keybindings.ts:234-246 | a concrete accepted expression whose canonical form is too long to be stored, though not too deep |
| WhenRoundTrip.DeepNegation | ch3/packages/shared/src/keybindings.ts:213-232 | a concrete accepted expression whose canonical form is short enough but too deep to be read |
| WhenRoundTrip.DeepChain | ch3/packages/shared/src/keybindings.ts:234-246 | 65 chained operators are accepted, and their encoding is not |
| ShortcutSyntax.ParseKeybindingShortcut | ch3/packages/shared/src/keybindings.ts:69-131 | the token loops compute `Parse` |
| ShortcutSyntax.AcceptedKeys | ch3/packages/shared/src/keybindings.ts:63-131 | a key text is accepted if and only if no token is empty and exactly one is no modifier word; that one is the key, and each modifier is set if and only if one of its words is among the tokens |
| ShortcutSyntax.KeyTokensMeaning | ch3/packages/shared/src/keybindings.ts:70-82 | the tokens are the texts between plus signs, in lower case and trimmed; empty ones at the end make one plus key |
| ShortcutSyntax.EncodeMeaning | ch3/apps/server/src/keybindings.ts:146-157 | a shortcut is encoded as its modifiers in the order mod, meta, ctrl, alt, shift and then its key, unless the key is empty or holds a plus sign with more |
| ShortcutRoundTrip.EncodeInjective | ch3/apps/server/src/keybindings.ts:146-157 | equal encodings mean equal shortcuts, but for the key " " and the key "space" |
| ShortcutRoundTrip.RoundTrip | ch3/apps/server/src/keybindings.ts:146-157 | parsing an encoded shortcut gives it back if and only if its key is canonical |
| ShortcutRoundTrip.ParsedIsCanonical | ch3/packages/shared/src/keybindings.ts:63-131 | every parsed shortcut has a canonical key |
| ShortcutRoundTrip.NormalForm | ch3/apps/server/src/keybindings.ts:146-157 | `encodeShortcut` writes out every parsed shortcut as a text that parses to it; its length is the subject of `KeybindingEncoding.Encoded` |
| KeybindingEncoding.Encoded | ch3/apps/server/src/keybindings.ts:78-95 | a compiled rule can be written back exactly when its key has at most 64 characters and its condition at most 256 |
| KeybindingEncoding.WrittenBack | ch3/apps/server/src/keybindings.ts:62-98 | writing a binding back and reading it again gives the same binding if and only if neither text is too long and the condition nests at most 64 deep |
| KeybindingEncoding.LongKeyRefused | ch3/packages/contracts/src/keybindings.ts:92-95 | a key value of 64 characters that is accepted and whose binding cannot be written back |
| KeybindingRuleLaws.ExcludingInOrder | ch3/apps/server/src/keybindings.ts:650-657 | filtering keeps exactly the rules not dropped, at ascending positions |
| KeybindingMeaning.RemoveInOrder | ch3/apps/server/src/keybindings.ts:685-691 | a remove leaves exactly the rules other than the target, at ascending positions |
| KeybindingMeaning.UpsertInOrder | ch3/apps/server/src/keybindings.ts:646-663 | an upsert leaves the last 255 of the rules that are neither the new nor the replaced one, at ascending positions, and then the new rule |
| KeybindingMeaning.CompileMeaning | ch3/packages/shared/src/keybindings.ts:267-285 | a rule compiles to a binding if and only if its key parses to the shortcut and its condition, if any, is a text of the grammar that means the expression |
| KeybindingMeaning.CompileAllInOrder | ch3/packages/shared/src/keybindings.ts:287-298 | compiling keeps the rules that compile, in order, and of their bindings the last 256 |
| KeybindingMeaning.MergeInOrder | ch3/apps/server/src/keybindings.ts:209-226 | the runtime bindings are the last 256 of the defaults that no custom binding overrides, in order, and the custom bindings |
| KeybindingMeaning.LoadMeaning | ch3/apps/server/src/keybindings.ts:327-424 | a missing file is empty, a malformed one is an issue and stops any change, and of any other the valid entries are read in order, with one issue for the index of each other |
| KeybindingRuleLaws.UpsertMeaning | ch3/apps/server/src/keybindings.ts:643-664 | the rule is last and once, the replaced rule is gone, only the oldest of the others are evicted, within the cap |
| KeybindingRuleLaws.UpsertIdempotent | ch3/apps/server/src/keybindings.ts:643-664 | upserting twice is upserting once |
| KeybindingRuleLaws.RemoveUndoesUpsert | ch3/apps/server/src/keybindings.ts:685-691 | removing a rule just added restores the list if and only if nothing was evicted |
| KeybindingRuleLaws.MergeKeepsCustom | ch3/apps/server/src/keybindings.ts:209-226 | a custom list within the cap is kept whole, in order and last, after defaults it does not override |
| KeybindingRuleLaws.MergeKeepsDefaults | ch3/apps/server/src/keybindings.ts:209-226 | below the cap exactly the overridden defaults are missing |
| KeybindingRuleLaws.UpsertTakesEffect | ch3/apps/server/src/keybindings.ts:643-673 | an upserted rule that compiles is the last, strongest runtime binding |
| KeybindingRuleLaws.SameShortcutSameContext | ch3/apps/server/src/keybindings.ts:112-125 | differently spelled keys of one shortcut have one context |
| KeybindingRuleLaws.SameContextMeaning | ch3/apps/server/src/keybindings.ts:112-125 | rules that compile share a context if and only if they share shortcut and condition |
| KeybindingRuleLaws.BackfillMeaning | ch3/apps/server/src/keybindings.ts:496-568 | user rules stay in front, the cap is kept, and exactly the non-clashing missing defaults that fit are added, in order |
| KeybindingRuleLaws.BackfillOnce | ch3/apps/server/src/keybindings.ts:496-568 | a second backfill adds nothing |
| KeybindingCache.WrittenAgrees | ch3/apps/server/src/keybindings.ts:670-677 | the state put in the cache after a write equals a reload if and only if every rule written compiles |
| KeybindingCache.UpsertCompiles | ch3/apps/server/src/keybindings.ts:646-663 | what an upsert writes compiles throughout if and only if the new rule does |
| KeybindingCache.RemoveCompiles | ch3/apps/server/src/keybindings.ts:688-691 | what a remove writes always compiles |
| KeybindingCache.StepKeepsInv | ch3/apps/server/src/keybindings.ts:456-473 | every step, of whatever fiber and including the interruption of the one with the permit, keeps the agreement of slot, lookup in flight and file |
| KeybindingCache.CacheAgrees | ch3/apps/server/src/keybindings.ts:449-569 | on every run: permit free, no edit since, no uncompiled rule and no interrupted write behind the slot, then a filled cache equals a reload from disk |
| KeybindingCache.OwnRunsAgree | ch3/apps/server/src/keybindings.ts:643-705 | on every run whose upserted rules compile, whose file only the service changes and whose operations are not interrupted, a filled cache with the permit free equals a reload |
| KeybindingCache.UpsertCacheExact | ch3/apps/server/src/keybindings.ts:643-684 | an uninterrupted upsert writes, caches and publishes one state, right if and only if the rule compiles |
| KeybindingMeaning.RemoveExact | ch3/apps/server/src/keybindings.ts:685-705 | an uninterrupted remove writes the other rules in order, caches and publishes what a reload gives and frees the permit, or changes nothing if the list is too long |
| KeybindingMeaning.MalformedStays | ch3/apps/server/src/keybindings.ts:330-348 | on a malformed file neither an upsert nor a remove changes anything |
| KeybindingCache.UncompiledUpsert | ch3/apps/server/src/keybindings.ts:670-677 | upserting a rule for the key `a+b` leaves a cache that disagrees with the file |
| KeybindingCache.InterruptedUpsert | ch3/apps/server/src/keybindings.ts:670-677 | an upsert interrupted between its write and its cache update keeps the old slot, right if and only if the file had exactly the issues that the new rule makes and the upsert changes no runtime binding |
| KeybindingCache.InterruptedRemove | ch3/apps/server/src/keybindings.ts:685-696 | the same for a remove: the old slot is right if and only if the file had no issue and the remove changes no runtime binding, or the list was too long to be written |
| KeybindingCache.InterruptedWriteUnseen | ch3/apps/server/src/keybindings.ts:643-684 | a run without edits, with a rule that compiles, whose interruption leaves a filled cache that disagrees with the file |
| KeybindingCache.EditSlipsBy | ch3/apps/server/src/keybindings.ts:611-623 | what an edit and the unguarded invalidation between a write and its cache update lead to, and that the cache then agrees if and only if the edited file has no issue and gives the bindings of the rules written before |
| KeybindingCache.UnguardedInvalidation | ch3/apps/server/src/keybindings.ts:617-623 | a concrete run after which a filled cache disagrees with the file |
| KeybindingReload.RevalidationHeals | ch3/apps/server/src/keybindings.ts:467-473 | however wrong the slot was, after a revalidation has begun a filled cache with the permit free equals a reload, on runs without edits, interruptions and uncompiled upserts |
| KeybindingReload.RevalidationPublishes | ch3/apps/server/src/keybindings.ts:467-473 | a revalidation that completes publishes exactly one state, that of the file at a moment since it began, whatever lookups, invalidations and edits come in between |
| KeybindingReload.RevalidationExact | ch3/apps/server/src/keybindings.ts:467-473 | without an edit in between it publishes the state of the file it began with, and leaves that file |
| KeybindingCache.SyncOnce | ch3/apps/server/src/keybindings.ts:475-570 | after what startup wrote, the next startup writes nothing |
| KeybindingCache.SyncKeepsUserRules | ch3/apps/server/src/keybindings.ts:475-570 | startup writes only over a file without issues, all of whose rules stay in front, within the cap |
| KeybindingMeaning.SyncPlanMeaning | ch3/apps/server/src/keybindings.ts:475-566 | startup plans all defaults for a missing file, nothing for one that is malformed or has an invalid entry, and else the rules followed by as many of the missing, non-clashing defaults as fit, in order, if any |
| KeybindingMeaning.SyncExact | ch3/apps/server/src/keybindings.ts:475-570 | an uninterrupted startup sync leaves the planned file, an empty slot, the feed and a free permit |
| KeybindingService.DecodeEntries | ch3/apps/server/src/keybindings.ts:389-423 | the loading loop keeps the valid rules in order and reports each invalid index |
| KeybindingService.CollectMissingDefaults | ch3/apps/server/src/keybindings.ts:497-522 | the defaults loop collects `MissingDefaults` |
| KeybindingService.Keybindings.UpsertKeybindingRule | ch3/apps/server/src/keybindings.ts:643-684 | one call is the four protocol steps, on success and on a failed write |
| KeybindingService.Keybindings.RemoveKeybindingRule | ch3/apps/server/src/keybindings.ts:685-705 | one call is the four protocol steps, on success and on a failed write |
| KeybindingService.Keybindings.SyncDefaultKeybindingsOnStartup | ch3/apps/server/src/keybindings.ts:475-570 | one call is the three protocol steps, failing exactly when a planned write fails |
| KeybindingService.Keybindings.GetSnapshot | ch3/apps/server/src/keybindings.ts:456-465 | a filled cache answers unchanged; an empty one is filled from the file |
| KeybindingService.Keybindings.RevalidateAndEmit | ch3/apps/server/src/keybindings.ts:467-473 | whatever was cached, the file's state is cached and published |
| ReleaseOrder.CompareStableVersions | ch3/scripts/resolve-previous-release-tag.ts:121-144 | the position loop computes the lexicographic comparison |
| ReleaseOrder.StablePreorder | ch3/scripts/resolve-previous-release-tag.ts:102-144 | a total preorder over mixed identifiers and unequal lengths, for any text comparison that is one |
| ReleaseOrder.StableMeaning | ch3/scripts/resolve-previous-release-tag.ts:102-144 | negative exactly on lower precedence as section 11 of Semantic Versioning 2.0.0 words it |
| StableTags.StableTagRoundTrip | ch3/scripts/resolve-previous-release-tag.ts:146-165 | every version with tag identifiers, the first not `nightly`, is held by a tag that parses to it |
| StableTags.ParsedIsTagVersion | ch3/scripts/resolve-previous-release-tag.ts:146-165 | a parsed tag holds no other version |
| TagGrammar.StableTagMeaning | ch3/scripts/resolve-previous-release-tag.ts:146-165 | a tag is stable with this version if and only if it is `v`, three numbers, perhaps a pre-release not headed `nightly` and perhaps build metadata, which counts for nothing |
| TagGrammar.NightlyTagMeaning | ch3/scripts/resolve-previous-release-tag.ts:175-191 | a tag is nightly with this version if and only if it is `v`, three numbers, `-nightly.`, eight digits and a run number, perhaps behind `nightly-` |
| SemVerOrder.PairAgreement | ch3/scripts/resolve-previous-release-tag.ts:121-144 | on two versions whose first difference is between two texts, the code follows section 11 if and only if its verdict there is that of ASCII order |
| SemVerOrder.SemVerAgreement | ch3/scripts/resolve-previous-release-tag.ts:102-165 | the code follows section 11 on all pairs of tags if and only if the locale orders non-numeric tag identifiers as ASCII |
| SemVerOrder.LocaleReverses | ch3/scripts/resolve-previous-release-tag.ts:118-118 | a locale that puts `a` before `B` orders the tags v1.0.0-a and v1.0.0-B against section 11 |
| ReleaseOrder.NightlyOrder | ch3/scripts/resolve-previous-release-tag.ts:167-173 | a total order in which only equal versions compare equal |
| TagGrammar.NightlyMeaning | ch3/scripts/resolve-previous-release-tag.ts:167-173 | a nightly version is lower if and only if the first of major, minor, patch, date and run number that differs is |
| ReleaseResolver.SortFacts | ch3/scripts/resolve-previous-release-tag.ts:205-211 | the sort is descending and keeps every candidate |
| ReleaseResolver.PreviousMeaning | ch3/scripts/resolve-previous-release-tag.ts:205-213 | the result is a listed lower tag with nothing strictly between; nothing exactly when none is lower |
| ReleaseResolver.PreviousIsFirstListed | ch3/scripts/resolve-previous-release-tag.ts:205-213 | among equally high tags the first listed wins |
| ReleaseResolver.ResolverMeaning | ch3/scripts/resolve-previous-release-tag.ts:193-230 | both channels, with the error exactly on an unparsable current tag |
| ReleaseResolver.TrailDescends | ch3/scripts/resolve-previous-release-tag.ts:193-230 | repeated application goes strictly down through listed tags and ends |
| ReleaseResolver.TrailVisitsOnce | ch3/scripts/resolve-previous-release-tag.ts:193-230 | repeated application visits every lower version class exactly once |
| NightlyTags.ChannelsDisjoint | ch3/scripts/resolve-previous-release-tag.ts:146-191 | no tag is both a nightly and a stable tag |
| TagGrammar.BaseVersionMeaning | ch3/scripts/resolve-nightly-release.ts:86-86 | the base version is cut at the first sign with nothing but its own line behind it |
| TagGrammar.TargetMeaning | ch3/scripts/resolve-nightly-release.ts:88-97 | a desktop version has a target if and only if its base version is three numbers; the target has the patch number raised by one |
| NightlyTags.NightlyRoundTrip | ch3/scripts/resolve-nightly-release.ts:86-114 | a generated tag, also with the legacy prefix, parses back to version, date and run, and is no stable tag |
| NightlyTags.LaterNightlyIsHigher | ch3/scripts/resolve-nightly-release.ts:99-114 | for one base the parsed tags compare higher exactly for a later date, or the same date and a later run |
| JsonRpcClient.JsonRpcChild.constructor | ch3/apps/server/scripts/cursor-acp-model-mismatch-probe.ts:126-131 | the table is empty and ids start at 1 |
| JsonRpcClient.JsonRpcChild.WriteMessage | ch3/apps/server/scripts/cursor-acp-model-mismatch-probe.ts:169-180 | sends unless the process is closed |
| JsonRpcClient.JsonRpcChild.Request | ch3/apps/server/scripts/cursor-acp-model-mismatch-probe.ts:182-212 | takes the next id and registers entry and timer before writing |
| JsonRpcClient.JsonRpcChild.HandleStdoutLine | ch3/apps/server/scripts/cursor-acp-model-mismatch-probe.ts:238-286 | a line is the protocol's line step: reply, permission request, unhandled request or nothing |
| JsonRpcLines.WrittenOnRuns | ch3/apps/server/scripts/cursor-acp-model-mismatch-probe.ts:169-285 | on every run the lines sent are, in order, one for each event before exit or error that asks for one, and for no other: a call with the next id and its method, a notification, an allowance exactly for a permission request, a refusal exactly for another named request whose id is not empty |
| JsonRpcLines.NamesOnRuns | ch3/apps/server/scripts/cursor-acp-model-mismatch-probe.ts:185-203 | on every run each waiting entry and each settlement names the method its request was made with |
| JsonRpcClient.JsonRpcChild.OnTimer | ch3/apps/server/scripts/cursor-acp-model-mismatch-probe.ts:187-190 | removes the entry and rejects it |
| JsonRpcClient.JsonRpcChild.OnExit | ch3/apps/server/scripts/cursor-acp-model-mismatch-probe.ts:141-148 | closes and rejects every entry in order |
| JsonRpcClient.JsonRpcChild.OnError | ch3/apps/server/scripts/cursor-acp-model-mismatch-probe.ts:150-156 | closes and rejects every entry in order |
| JsonRpcSafety.RunKeepsInv | ch3/apps/server/scripts/cursor-acp-model-mismatch-probe.ts:126-286 | on every interleaving: unique ids, each issued id waiting with a live timer or settled once, never both, and no other timer |
| JsonRpcSafety.SettledOnlyByOwnId | ch3/apps/server/scripts/cursor-acp-model-mismatch-probe.ts:253-267 | a request ends with an outcome if and only if some event of the run caused it with the request's own id while it waited |
| JsonRpcSafety.SettledOnce | ch3/apps/server/scripts/cursor-acp-model-mismatch-probe.ts:185-203 | no request has two outcomes, and a settled one no longer waits |
| JsonRpcSafety.CloseSettlesAll | ch3/apps/server/scripts/cursor-acp-model-mismatch-probe.ts:141-156 | after exit or error every request issued before is settled and no timer runs |
| JsonRpcSafety.RunKeepsWriteInv | ch3/apps/server/scripts/cursor-acp-model-mismatch-probe.ts:169-212 | on every run a request's line was sent if and only if its write was not refused |
| JsonRpcSafety.ClosedIsSilent | ch3/apps/server/scripts/cursor-acp-model-mismatch-probe.ts:169-172 | on every run, once the client is closed it stays closed, sends nothing more, and refuses the write of every later request |
| DataUrl.CollectRuns | ch3/apps/server/src/imageMime.ts:79-97 | collecting maximal runs gives the filtered payload, and refuses exactly a foreign character |
| DataUrl.CheckPadding | ch3/apps/server/src/imageMime.ts:98-110 | accepts exactly non-empty multiples of four with at most two final padding characters (section 4 of RFC 4648) |
| DataUrl.ParseBase64DataUrl | ch3/apps/server/src/imageMime.ts:53-113 | the run-collecting parser refines the simple form: header, filter, padding |
| DataUrlGrammar.DataUrlMeaning | ch3/apps/server/src/imageMime.ts:53-113 | a text is accepted with a type and a payload if and only if it is, trimmed, `data:` in any case, a header whose parts begin with the type and end in `base64`, a comma and a payload of allowed characters that is well padded without its white space |
| Alphabets.Base64Characters | ch3/apps/server/src/imageMime.ts:34-47 | the payload alphabet is that of section 4 of RFC 4648 with its padding, and the white space allowed in between is CR, LF and space |
| DataUrl.WhitespaceIgnored | ch3/apps/server/src/imageMime.ts:53-113 | CR, LF and spaces inserted anywhere after the comma change nothing |
| IcoFile.Validate | ch3/scripts/lib/icon-export.ts:34-46 | the loop with its set of seen sizes reports the first complaint |
| IcoFile.ComplaintMeaning | ch3/scripts/lib/icon-export.ts:34-46 | the complaint is that of the first faulty image: its size, then a repetition, then missing contents |
| IcoFile.WriteEntry | ch3/scripts/lib/icon-export.ts:58-67 | writes one directory entry in place and nothing else |
| IcoFile.EncodePngIco | ch3/scripts/lib/icon-export.ts:29-72 | succeeds exactly on encodable images whose lengths and offsets fit 32 bits, with the file's exact bytes; otherwise which error |
| IcoFile.ValidationMeaning | ch3/scripts/lib/icon-export.ts:34-46 | no complaint if and only if sizes are in 1..256 and distinct and no image is empty |
| IcoFile.CountFits | ch3/scripts/lib/icon-export.ts:53-53 | distinct sizes bound the count by 256, so the 16-bit count reads back |
| IcoFile.EntrySelects | ch3/scripts/lib/icon-export.ts:56-69 | directory entry i selects exactly image i, the 256-as-0 size included |
| IcoFile.EntryBytes | ch3/scripts/lib/icon-export.ts:58-67 | the bytes of directory entry i: width and height, no palette, one plane, 32 bits, length and offset |
| IcoFile.RangesTile | ch3/scripts/lib/icon-export.ts:56-71 | the image ranges follow the header, never overlap, leave no gap and end with the file |
| IcoFile.ReadInvertsEncode | ch3/scripts/lib/icon-export.ts:29-72 | a directory reader gives all images back, in order |
| IcoFile.EncodeInjective | ch3/scripts/lib/icon-export.ts:29-72 | different image lists never give the same file |
| QrTerminal.RenderTerminalQrCode | ch3/apps/server/src/startupAccess.ts:100-120 | the nested loops, two pixel rows a line, draw exactly the specified rows |
| QrTerminal.PixelReadsBack | ch3/apps/server/src/startupAccess.ts:103-115 | every canvas pixel reads back as drawn, so the whole margin is light |
| QrTerminal.Recovers | ch3/apps/server/src/startupAccess.ts:100-120 | reading the text gives the matrix back, for every size, odd or even, and every margin |
| QrTerminal.Shape | ch3/apps/server/src/startupAccess.ts:106-119 | the text has one line for two pixel rows, rounded up, and all lines have the full width |
| QrTerminal.RenderInjective | ch3/apps/server/src/startupAccess.ts:100-120 | different matrices never give one text under one margin, even when their sizes differ |
| QrTerminal.SamePicture | ch3/apps/server/src/startupAccess.ts:100-120 | two pictures of one width are equal if and only if every dark module has the same place |
| ImageExtensions.InferImageExtension | ch3/apps/server/src/imageMime.ts:115-137 | the extension is a safe image extension or `.bin`, whatever the MIME library answers |
| ImageExtensions.InferenceMeaning | ch3/apps/server/src/imageMime.ts:115-137 | a known type gives its own extension, else a safe answer of the library counts, else a safe extension of the file name, else `.bin` |
| ImageExtensions.FileNameExtensionMeaning | ch3/apps/server/src/imageMime.ts:130-132 | the text after the last dot decides, if it is one to eight letters or digits |
| AttachmentPaths.PlainNameKept | ch3/apps/server/src/attachmentPaths.ts:4-10 | a plain file name passes normalisation unchanged |
| AttachmentPathLaws.NormalizeMeaning | ch3/apps/server/src/attachmentPaths.ts:4-5 | from any directory the normalised path leads where the path leads |
| AttachmentPathLaws.NormalizeShape | ch3/apps/server/src/attachmentPaths.ts:4-5 | the normalised path has no empty component and no dot, and goes up only at the start, if at all |
| AttachmentPathLaws.AcceptedPaths | ch3/apps/server/src/attachmentPaths.ts:4-10 | a path is let through, without slashes in front and with backslashes turned, if and only if something is left that does not start with two dots and holds no NUL |
| AttachmentIds.SanitizedIsCanonical | ch3/apps/server/src/attachmentStore.ts:22-35 | a segment has at most 80 segment characters, no double dash, and a letter or digit at both ends |
| AttachmentSegments.SegmentMeaning | ch3/apps/server/src/attachmentStore.ts:22-35 | the segment is the trimmed lower-case thread id with each run of characters other than letters, digits and underscores made one dash, without dashes and underscores at the ends, cut to 80 |
| AttachmentSegments.OnePass | ch3/apps/server/src/attachmentStore.ts:26-27 | replacing runs of foreign characters and then runs of dashes is replacing runs of both at once |
| AttachmentIds.FixedPoints | ch3/apps/server/src/attachmentStore.ts:22-35 | sanitising leaves a text alone if and only if it is canonical |
| AttachmentIds.SanitizeIdempotent | ch3/apps/server/src/attachmentStore.ts:22-35 | sanitising twice is sanitising once |
| AttachmentIds.SegmentSpellsThread | ch3/apps/server/src/attachmentStore.ts:22-35 | the segment spells the thread id's letters and digits in order, all of them unless cut |
| AttachmentIds.NoSegment | ch3/apps/server/src/attachmentStore.ts:31-43 | no id can be made if and only if the thread id has no ASCII letter or digit |
| AttachmentIds.SegmentMatchesGrammar | ch3/apps/server/src/attachmentStore.ts:15-20 | every segment matches the id grammar |
| Alphabets.IdCharacters | ch3/apps/server/src/attachmentStore.ts:15-16 | the characters of a segment's words and of a UUID, listed one by one |
| AttachmentIds.ParseMeaning | ch3/apps/server/src/attachmentStore.ts:45-55 | any id parses to a segment if and only if its normalised form is that segment, a dash and a UUID, in any letter case |
| AttachmentIds.PrefixIgnored | ch3/apps/server/src/attachmentPaths.ts:4-10 | `./` or `/` in front of a plain id makes no difference to the parser |
| AttachmentIds.CreatedIdParses | ch3/apps/server/src/attachmentStore.ts:37-55 | parsing a created id returns exactly the segment of its thread |
| AttachmentIds.PathLeadsBack | ch3/apps/server/src/attachmentStore.ts:99-110 | an attachment's path gives its id back if and only if the id has no dot, slash, backslash or NUL |
| AttachmentIds.CreatedPathLeadsBack | ch3/apps/server/src/attachmentStore.ts:57-67 | a created id survives the way through its file name |
| LifecycleLog.LifecycleEvents.Publish | ch3/apps/server/src/serverLifecycleEvents.ts:35-48 | one uninterrupted publish updates the state, then broadcasts the event it numbered |
| LifecycleDelivery.RunKeepsInv | ch3/apps/server/src/serverLifecycleEvents.ts:35-49 | on every interleaving the log and every snapshot hold the latest event of each kind, newest first, and no event is lost between publishing and broadcast |
| LifecycleDelivery.PublishedOnRuns | ch3/apps/server/src/serverLifecycleEvents.ts:35-48 | on every run the events are the inputs published, kind and payload, in order and numbered from 1 |
| LifecycleDelivery.SubscribedFirst | ch3/apps/server/src/serverLifecycleEvents.ts:48-52 | a client that subscribed before its snapshot has every later event once its broadcast has run |
| LifecycleDelivery.CompleteMeaning | ch3/apps/server/src/ws.ts:3284-3296 | with all broadcasts run, a client misses nothing if and only if no event above its snapshot was broadcast before it subscribed |
| LifecycleDelivery.DeliveredOnce | ch3/apps/server/src/serverLifecycleEvents.ts:48-52 | no event is delivered twice |
| LifecycleDelivery.Converges | ch3/apps/server/src/ws.ts:3284-3296 | a client that misses nothing ends with the server's latest event of each kind |
| LifecycleDelivery.SnapshotFirstMisses | ch3/apps/server/src/ws.ts:3287-3293 | a concrete run in which the snapshot-first client misses an event for good |
| LifecycleOrder.OrderOfRun | ch3/apps/server/src/serverLifecycleEvents.ts:35-52 | on every run the client's events ascend and lie below all that are still to be broadcast if and only if, while it was subscribed, the publisher with the lowest number always broadcast first |
| LifecycleOrder.InOrderMeaning | ch3/apps/server/src/serverLifecycleEvents.ts:35-52 | with all broadcasts run, the client has its events in ascending order if and only if that was so |
| LifecycleOrder.OutOfOrder | ch3/apps/server/src/serverLifecycleEvents.ts:35-48 | a concrete run in which event 2 arrives before event 1 |
| ProviderSessions.TestProviderAdapter.StartSession | ch3/apps/server/integration/TestProviderAdapter.integration.ts:258-298 | a session starts empty with all responses queued for the next session, unless the provider differs |
| ProviderSessions.TestProviderAdapter.EmitTurn | ch3/apps/server/integration/TestProviderAdapter.integration.ts:321-351 | the event loop emits all but completions at once, holds completions back and collects the text |
| ProviderSessions.TestProviderAdapter.SendTurn | ch3/apps/server/integration/TestProviderAdapter.integration.ts:300-401 | a send counts a turn even without a response; with one it emits, records and completes the turn |
| ProviderTurns.SendRecords | ch3/apps/server/integration/TestProviderAdapter.integration.ts:307-379 | an answered send uses the first queued response and records a turn that starts with the input and has the text of the delta events behind it if and only if there is any |
| ProviderTurns.TurnEmits | ch3/apps/server/integration/TestProviderAdapter.integration.ts:321-395 | what a turn emits, event by event and in order: each fixture event renamed, with its delta, in the thread and, if and only if it names a turn, in this turn; completions last, or one of the turn's own |
| ProviderTurns.FailureMeaning | ch3/apps/server/integration/TestProviderAdapter.integration.ts:258-484 | an operation fails for exactly which reason, and only a send without a response leaves a trace |
| ProviderTurns.SessionsOnRuns | ch3/apps/server/integration/TestProviderAdapter.integration.ts:258-484 | on every run a session exists if and only if the last operation that starts or stops it starts it, and starts are counted |
| ProviderTurns.QueuedInOrder | ch3/apps/server/integration/TestProviderAdapter.integration.ts:510-522 | responses queued for a session wait behind those already queued, in order |
| ProviderSessions.TestProviderAdapter.RollbackThread | ch3/apps/server/integration/TestProviderAdapter.integration.ts:457-484 | drops the last turns and resets the count, or refuses a number out of range |
| ProviderSessionLaws.CountNeverBelow | ch3/apps/server/integration/TestProviderAdapter.integration.ts:300-484 | on every run a session's turn count is at least its number of turns |
| ProviderSessionLaws.ExactRuns | ch3/apps/server/integration/TestProviderAdapter.integration.ts:300-484 | on runs where every send had a response, the count is the number of turns and the ids are turn-1 to turn-n |
| ProviderSessionLaws.SendAlignment | ch3/apps/server/integration/TestProviderAdapter.integration.ts:307-309 | a send keeps ids numbered by position if and only if the count equalled the number of turns |
| ProviderSessionLaws.IdsUniqueOnRuns | ch3/apps/server/integration/TestProviderAdapter.integration.ts:300-484 | on every run, failed sends included, whose rollbacks kept turns numbered by position, the turn ids of each session are unique |
| ProviderSessionLaws.SendKeepsFresh | ch3/apps/server/integration/TestProviderAdapter.integration.ts:307-318 | a send, answered or not, keeps ids unique and the next one new |
| ProviderSessionLaws.RollbackFreshness | ch3/apps/server/integration/TestProviderAdapter.integration.ts:475-482 | a rollback keeps the next ids new if and only if the turns it keeps are numbered by position |
| ProviderSessionLaws.UniqueAfterSends | ch3/apps/server/integration/TestProviderAdapter.integration.ts:307-379 | after any number of answered sends ids are unique if and only if no earlier turn has one of the numbers used |
| ProviderSessionLaws.UnalignedRollbackRepeats | ch3/apps/server/integration/TestProviderAdapter.integration.ts:475-482 | a rollback that keeps a last turn numbered above its position makes two turns share an id after enough answered sends |
| ProviderSessionLaws.FailedSendRepeatsId | ch3/apps/server/integration/TestProviderAdapter.integration.ts:307-318 | a run from an empty adapter after which two turns of a session share an id |
| ProviderSessionLaws.SendsMeaning | ch3/apps/server/integration/TestProviderAdapter.integration.ts:311-379 | the i-th of several sends records the turn made of the i-th input and the i-th queued response |
| ProviderSessionLaws.RollbackUndoesSends | ch3/apps/server/integration/TestProviderAdapter.integration.ts:457-484 | rolling back as many turns as were sent restores the snapshot, and the count if and only if it was exact |
| ProviderSessionLaws.RollbacksAdd | ch3/apps/server/integration/TestProviderAdapter.integration.ts:475-482 | any rollbacks in a row all succeed if and only if none is negative and their sum is at most the number of turns, and then drop that many and record each |
| ProviderSessionLaws.CompletionsComeLast | ch3/apps/server/integration/TestProviderAdapter.integration.ts:345-395 | a turn emits all other events in order, none lost, before at least one completion |
| ProviderSessionLaws.EventsAreStamped | ch3/apps/server/integration/TestProviderAdapter.integration.ts:321-332 | every emitted event carries the thread, and the turn's id if it names a turn |
| ProviderSessionLaws.OthersUntouched | ch3/apps/server/integration/TestProviderAdapter.integration.ts:258-484 | on every run a thread's session and events are those of the run of the operations that concern it alone: its own, all starts and stops of everything, and what is queued for the next session |
| ProviderSessionLaws.NextSessionTakesQueue | ch3/apps/server/integration/TestProviderAdapter.integration.ts:288-295 | the next session takes all responses queued for it, in order, and leaves none |

## Left out

- Text: a `char` is a code unit; lower-casing and letters are ASCII, and Unicode case rules and surrogate pairs are not modelled.
- Numbers: a number is identified with its shortest decimal text, so numerals with more digits than a double holds are not rounded when read, infinities do not occur, and 0 and -0 are one value.
- Error messages: errors are distinguished by kind, line, url, size or index, not by their texts.
- ManifestLoops.MergeExtras: does not name the conflicting key, because the order of object entries decides which one is reported first; inherited object keys are not modelled either.
- KeybindingProtocol: reading the file never fails here, JSON encoding is taken as an identity, and Effect's cache and semaphore are assumed to work: one slot, filled by a lookup only while that lookup still owns it, and one permit, which an interrupted fiber gives back. An interrupted write has either happened or not, and a failed one leaves the file unchanged; a failure after the rename, while the temporary directory is removed (`ch3/apps/server/src/atomicWrite.ts:16-24`), leaves the state of the run `WriteConfig(true)`, `Interrupt`.
- KeybindingService: one method is one uninterrupted operation; the interleavings are those of `KeybindingProtocol`. The watcher's debounce and the `start` deferred are not modelled; the list of defaults is a parameter and the cap is the real 256.
- ReleaseOrder: `localeCompare` is a parameter, any total preorder.
- ReleaseTags: listing the tags with git and writing the outputs; the display name and the short hash of a nightly release are computed, and no law is stated about them.
- JsonRpcProtocol: spawning and killing the process, logging, and lines whose JSON is not an object; an event source may run any step at any time, so the order in which Node delivers events is not restricted. A request made after close is registered and refused, and settles by its timer.
- IcoFile: `readPngDimensions` and non-integer sizes; image contents are arbitrary bytes.
- QrTerminal: the QR code generator; any square of modules is drawn. Margins are natural numbers.
- ImageExtensions.InferImageExtension: the MIME library's answer is a parameter.
- AttachmentPaths: path normalisation is the POSIX one; resolving against the file system and `resolveAttachmentPathById` are not modelled.
- AttachmentIds: the random UUID is a parameter.
- LifecycleDelivery: the broadcast channel delivers in order and without loss to those subscribed; one client stands for each of them, since clients do not affect each other.
- ProviderSessions: one send runs without interruption; `mutateWorkspace`, event ids, timestamps, interrupts and approvals are not modelled.
- The port-offset search of the development runner, the lint rule, the PNG comparison, the output collector of the process runner and the waitlist paging are not modelled: their properties are easy next to those above.
- User interface, build configuration, file and network input and output.
