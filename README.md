# Source-mapped exception traces (StackExchange.Exceptional.SourceLink), modelled in Dafny

`ExceptionalTrace` writes an exception's stack trace in the same format as
`Exception.ToString()`. For each frame, the file path is replaced by the
URL or path the module's debug information gives for it:

- the Source Link table of a Portable PDB, when the module has one;
- otherwise, the source-server path DbgHelp resolves.

When the runtime itself knew no file for a frame, the file and line are
taken from the PDB's sequence points.

The model has seven modules, one per concern of `ExceptionalTrace.cs`:

- `TraceBasics` holds shared values: `Option`, `Outcome`, the exceptions
  that escape as `Error`, `string.Join`, `Int32.ToString` and the
  one-character `String.Replace`.
- `Metadata` holds what the code reads from outside. These are abstract
  values:
  - the Portable PDB metadata reader (method debug information table,
    document table, module-level custom debug information);
  - the module;
  - the DbgHelp answers for a module (load result, files enumerated,
    source-server paths, and whether enumeration and unload succeed).
- `SourceLineInfo` holds `GetSourceLineInfo`, an imperative method over the
  four parallel arrays the C# code fills. It is proved equal to the function
  `LookupSourceLine`, and the index rules are proved as lemmas about that
  function.
- `SourceLinkMap` holds `SourceLink.Deserialize` and `SourceLink.GetUrl`.
  - The wildcard regular expression `Regex.Escape(key)` with `\*` turned into
    `(?<path>.+)` is modelled by a backtracking matcher.
  - The matcher is proved to find the leftmost match with the longest
    captures, as characterised by the predicate `IsMatchAt`.
- `ModuleCache` holds `SymLoadedModules` and `SourceMappedPaths` as the value
  `Caches`. `Resolve` says what `ResolveAllPathsInModule` does to them.
- `TraceRender` holds `GetMethodSignature`, an imperative method proved
  equal to `MethodSignature`. It also holds the text of a frame, of a stack
  trace and of an exception chain as functions of the caches
  (`RenderFrame`, `RenderFrames`, `RenderException`).
- `SourceMappedTrace` holds the class `ExceptionalTrace`.
  - Its fields are the three static dictionaries and a ghost count of loader
    calls.
  - Its methods append to a `StringBuilder` and update the fields step by
    step.
  - Each method is proved to produce exactly the text, caches, outcome and
    loader count of the corresponding function.

An exception that the C# code lets escape is modelled as `Fail(error)`. The
output stays as written up to that point, and the caches stay as the code
had changed them.

Points of the code's behaviour that the model keeps exactly:

- A literal Source Link key is compared ordinally, so case matters
  (`ExceptionalTrace.cs:348-351`).
- A key may hold any number of `*`. Every `*` becomes a group named `path`,
  and the URL receives that group's last capture (`ExceptionalTrace.cs:338-346`).
- Failures while loading a module's symbols are not demoted to "no debug
  information". The following propagate out of `ResolveAllPathsInModule` and
  end the trace at that frame:
  - a probe exception other than the tolerated "Invalid COR20 header
    signature." (`ExceptionalTrace.cs:227`);
  - a PDB with no Source Link record: `FirstOrDefault` yields the default
    record, and reading its `Value` throws (`ExceptionalTrace.cs:246-251`);
  - a malformed Source Link blob (`ExceptionalTrace.cs:250-253`);
  - a `SymLoadModule64` result of 0 (`ExceptionalTrace.cs:297-300`);
  - a failing `SymEnumSourceFiles` or `SymUnloadModule64`
    (`ExceptionalTrace.cs:307-312`).
- `GetMethodDebugInformation` and the read of its `SequencePointsBlob` both
  run before the `try` block of `GetSourceLineInfo`
  (`ExceptionalTrace.cs:458-460`). A method row outside the table therefore
  escapes as `MetadataReadFailed`. Every exception inside the
  `try` is swallowed.
- When every sequence point up to the selected one is hidden, line and
  column stay 0, but the file is still read from point 0's document
  (`ExceptionalTrace.cs:513-524`).
- `Shutdown` clears `SymLoadedModules` and `SourceMappedPaths` but not
  `MethodSignatures` (`ExceptionalTrace.cs:74-79`).

## Model

| member | source | states |
|---|---|---|
| TraceBasics.ReplaceAll | StackExchange.Exceptional.SourceLink/ExceptionalTrace.cs:345-346 | Replacing a character that does not occur changes nothing; the result holds only characters of the input or of the replacement, and none equal to c when the replacement has none |
| SourceLinkMap.ReplaceAllConcat | StackExchange.Exceptional.SourceLink/ExceptionalTrace.cs:346 | String.Replace of one character distributes over concatenation |
| SourceLineInfo.FirstAtLeast | StackExchange.Exceptional.SourceLink/ExceptionalTrace.cs:491-497 | The scan stops at the first offset at or past ilOffset: every earlier offset is below it; it stops at the count when none reaches it |
| SourceLineInfo.WalkBack | StackExchange.Exceptional.SourceLink/ExceptionalTrace.cs:513-516 | The walk stops at or before its start, on a visible line or at index 0, and every index it passed is hidden |
| SourceLineInfo.SelectIndexCases | StackExchange.Exceptional.SourceLink/ExceptionalTrace.cs:489-511 | With k the first index whose offset is at least ilOffset, the index chosen is k on an exact hit, max(k - 1, 0) on an overshoot, and the last index when there is no such k |
| SourceLineInfo.SelectIndexAscending | StackExchange.Exceptional.SourceLink/ExceptionalTrace.cs:489-511 | For strictly ascending offsets the chosen entry is the greatest one at or below ilOffset, or entry 0 when ilOffset precedes them all |
| SourceLineInfo.LookupNeverHidden | StackExchange.Exceptional.SourceLink/ExceptionalTrace.cs:513-524 | The reported line is never HiddenLine; when all points up to the selected one are hidden, line and column are 0 and the file is point 0's document |
| SourceLineInfo.LookupVisibleLine | StackExchange.Exceptional.SourceLink/ExceptionalTrace.cs:513-524 | The reported file, line and column are those of the last visible point at or before the selected one |
| SourceLineInfo.LookupSourceLine | StackExchange.Exceptional.SourceLink/ExceptionalTrace.cs:445-533 | The reported line is never HiddenLine; a failed lookup reports null, 0, 0 with the MetadataReadFailed exception; a reported file is always a document of the reader |
| SourceLineInfo.GetSourceLineInfo | StackExchange.Exceptional.SourceLink/ExceptionalTrace.cs:445-533 | The out parameters and the escaping exception are exactly LookupSourceLine's: no reader, a non-method handle, a nil or undecodable blob or no points give null, 0, 0; a row outside the table escapes |
| SourceLineInfo.CopySequencePoints | StackExchange.Exceptional.SourceLink/ExceptionalTrace.cs:474-487 | Four fresh arrays hold, index by index, the points' offsets, start lines, start columns and documents |
| SourceLineInfo.ScanForOffset | StackExchange.Exceptional.SourceLink/ExceptionalTrace.cs:489-511 | The forward scan with its step back and its default to the last point settles on SelectIndex |
| SourceLineInfo.SkipHiddenPoints | StackExchange.Exceptional.SourceLink/ExceptionalTrace.cs:513-516 | The backward walk over hidden lines settles on WalkBack |
| SourceLinkMap.Deserialize | StackExchange.Exceptional.SourceLink/ExceptionalTrace.cs:320-327 | A null or empty blob gives an empty object; the only failure is a malformed Source Link blob |
| SourceLinkMap.FindSourceLinkRecord | StackExchange.Exceptional.SourceLink/ExceptionalTrace.cs:219-253 | The first module-level custom debug information record whose kind is the Source Link GUID, or none when no record has that kind |
| SourceLinkMap.ReadSourceLink | StackExchange.Exceptional.SourceLink/ExceptionalTrace.cs:246-253 | With no Source Link record among the module's custom debug information the read throws (SourceLinkMissing); a successful read is the deserialised blob of some Source Link record |
| SourceLinkMap.SplitStars | StackExchange.Exceptional.SourceLink/ExceptionalTrace.cs:338-340 | A key splits into star-free pieces that joined with "*" give the key back; there is more than one piece exactly when the key holds a '*' |
| SourceLinkMap.SplitStarsAt | StackExchange.Exceptional.SourceLink/ExceptionalTrace.cs:340 | A key with a single '*' splits into the text before it and the text after it |
| SourceLinkMap.MatchFromSound | StackExchange.Exceptional.SourceLink/ExceptionalTrace.cs:340-343 | Whatever the matcher returns at a position is a match there |
| SourceLinkMap.TryCapturesSound | StackExchange.Exceptional.SourceLink/ExceptionalTrace.cs:340-343 | A greedy capture that succeeds is a non-empty, newline-free slice of the path followed by a match of the rest of the pattern |
| SourceLinkMap.MatchFromGreedy | StackExchange.Exceptional.SourceLink/ExceptionalTrace.cs:340-343 | Every match at a position is found, and none has longer captures, compared from the left, than the one returned |
| SourceLinkMap.TryCapturesGreedy | StackExchange.Exceptional.SourceLink/ExceptionalTrace.cs:340-343 | Trying capture lengths from the longest down finds a capture no shorter than any capture that leads to a match |
| SourceLinkMap.SearchSpec | StackExchange.Exceptional.SourceLink/ExceptionalTrace.cs:340-343 | Regex.Match on the unanchored pattern finds the leftmost match with the longest captures, and finds nothing only when no position matches |
| SourceLinkMap.WildcardUrlSpec | StackExchange.Exceptional.SourceLink/ExceptionalTrace.cs:338-347 | A wildcard key yields a URL exactly when its pattern matches somewhere in the path |
| SourceLinkMap.WildcardUrlCapture | StackExchange.Exceptional.SourceLink/ExceptionalTrace.cs:338-347 | The URL is the template with every '*' replaced by the last capture of the leftmost, longest match, its '\' turned into '/' |
| SourceLinkMap.GetUrl | StackExchange.Exceptional.SourceLink/ExceptionalTrace.cs:331-356 | The URL is the path itself or the URL that some entry of the document table gives for that path |
| SourceLinkMap.FirstMatch | StackExchange.Exceptional.SourceLink/ExceptionalTrace.cs:336-355 | The key loop returns the path itself or the URL some entry gives for it |
| SourceLinkMap.EmptyTableIsIdentity | StackExchange.Exceptional.SourceLink/ExceptionalTrace.cs:320-333 | A null or empty blob, or a null or empty document table, maps every path to itself |
| SourceLinkMap.GetUrlFirstHit | StackExchange.Exceptional.SourceLink/ExceptionalTrace.cs:331-353 | The first entry in enumeration order that matches decides the URL, whatever later entries say |
| SourceLinkMap.FirstMatchHit | StackExchange.Exceptional.SourceLink/ExceptionalTrace.cs:336-353 | The loop over the keys returns the URL of the first matching entry |
| SourceLinkMap.GetUrlNoHit | StackExchange.Exceptional.SourceLink/ExceptionalTrace.cs:336-355 | A path no entry matches is returned unchanged, so it is a fixed point of GetUrl |
| SourceLinkMap.FirstMatchNoHit | StackExchange.Exceptional.SourceLink/ExceptionalTrace.cs:336-355 | The loop falls through to the path itself when no entry matches |
| SourceLinkMap.LiteralKeyIsOrdinal | StackExchange.Exceptional.SourceLink/ExceptionalTrace.cs:348-351 | A key without '*' maps a path exactly when the two agree character by character (so a difference in letter case is no match), and then gives the entry's URL |
| SourceLinkMap.TrailingWildcardUrl | StackExchange.Exceptional.SourceLink/ExceptionalTrace.cs:338-347 | A key ending in its only '*' maps a path that starts with the key's text to the template with the rest of the path in place of the '*' |
| SourceLinkMap.TrailingWildcardSearch | StackExchange.Exceptional.SourceLink/ExceptionalTrace.cs:340-343 | Such a key matches at position 0, capturing the remainder of the path |
| SourceLinkMap.CaptureRemainder | StackExchange.Exceptional.SourceLink/ExceptionalTrace.cs:340-343 | A trailing greedy group captures the whole remainder of the path |
| SourceLinkMap.ReplaceStarAtEnd | StackExchange.Exceptional.SourceLink/ExceptionalTrace.cs:346 | Replacing the '*' of a template that ends in its only '*' appends the capture to the template's text |
| SourceLinkMap.TrailingWildcardExample | StackExchange.Exceptional.SourceLink/ExceptionalTrace.cs:338-347 | "/src/*" with template "https://example.org/test1234/*" maps "/src/a/b.cs" to "https://example.org/test1234/a/b.cs" |
| ModuleCache.Resolve | StackExchange.Exceptional.SourceLink/ExceptionalTrace.cs:268-315 | Resolution never drops a recorded module and records at most the module itself; when it passes, the module is dynamic or recorded |
| ModuleCache.MapDocumentsSpec | StackExchange.Exceptional.SourceLink/ExceptionalTrace.cs:255-263 | The document loop writes GetUrl(doc) under (HINSTANCE, doc) for every document and leaves every other key as it was |
| ModuleCache.EnumSourceFilesSpec | StackExchange.Exceptional.SourceLink/ExceptionalTrace.cs:396-408 | The enumeration writes each reported file's source path under (ModBase, FileName) and leaves every other key as it was |
| ModuleCache.ResolvePreservesCoherent | StackExchange.Exceptional.SourceLink/ExceptionalTrace.cs:268-315 | Resolution keeps every cache entry one the code can have stored, and never changes or drops a recorded module |
| ModuleCache.ResolveAtMostOnce | StackExchange.Exceptional.SourceLink/ExceptionalTrace.cs:268-292 | After a resolution that passed, the module is dynamic or recorded, and resolving it again changes nothing and calls no loader |
| ModuleCache.ResolveFailure | StackExchange.Exceptional.SourceLink/ExceptionalTrace.cs:282-313 | A failure leaves the module recorded only after a successful SymLoadModule64; a failing probe, Source Link read or load leaves both caches untouched |
| ModuleCache.ResolvePortable | StackExchange.Exceptional.SourceLink/ExceptionalTrace.cs:282-291 | With a portable PDB whose Source Link record reads successfully the module is recorded with its reader, every document maps to its Source Link URL, other paths keep their entries, and DbgHelp is not consulted |
| ModuleCache.ResolveWithoutSourceLink | StackExchange.Exceptional.SourceLink/ExceptionalTrace.cs:246-253 | A portable PDB with no Source Link record makes resolution throw SourceLinkMissing with both caches untouched after one loader call, so the module stays unrecorded and is probed again next time |
| ModuleCache.ResolveNative | StackExchange.Exceptional.SourceLink/ExceptionalTrace.cs:294-313 | Without one, after a successful load the module is recorded with its base and every enumerated file maps to its source path; the outcome passes exactly when enumeration and unload succeed |
| TraceRender.MethodSignatureIsJoin | StackExchange.Exceptional.SourceLink/ExceptionalTrace.cs:132-159 | The signature is the declaring type's full name, '.', the method name, then the parameters' "Type name" texts joined with ", " in parentheses |
| TraceRender.GetMethodSignature | StackExchange.Exceptional.SourceLink/ExceptionalTrace.cs:132-159 | The builder loop produces "DeclType.Name(Type name, ...)" as MethodSignature states it |
| TraceRender.ParameterListIsJoin | StackExchange.Exceptional.SourceLink/ExceptionalTrace.cs:144-156 | The delimiter loop writes the parameters' "Type name" texts joined with ", " |
| TraceRender.SignatureParameters | StackExchange.Exceptional.SourceLink/ExceptionalTrace.cs:140-157 | No parameters give "Name()"; one more parameter adds ", " (except after none) and its text before the ")" |
| TraceRender.ExceptionHeadMessage | StackExchange.Exceptional.SourceLink/ExceptionalTrace.cs:112-116 | ": message" follows the type name exactly when the message is not null or empty |
| TraceRender.FrameLine | StackExchange.Exceptional.SourceLink/ExceptionalTrace.cs:184-213 | A frame's line starts with its head; when resolution passes and the runtime knew the file, that file, mapped through SourceMappedPaths under the module's HINSTANCE, and the runtime's line follow |
| TraceRender.RenderFrame | StackExchange.Exceptional.SourceLink/ExceptionalTrace.cs:184-213 | A frame's text starts with its head and is only the head when resolution throws; it calls the loader at most twice, keeps every recorded module, and when it passes the frame's module is dynamic or recorded |
| TraceRender.RenderFrames | StackExchange.Exceptional.SourceLink/ExceptionalTrace.cs:179-217 | Rendering frames calls the loader at most twice per frame and never drops a recorded module |
| TraceRender.Extend | StackExchange.Exceptional.SourceLink/ExceptionalTrace.cs:182-216 | One more frame after a prefix calls the loader at most twice more and never drops a recorded module |
| TraceRender.FrameLocation | StackExchange.Exceptional.SourceLink/ExceptionalTrace.cs:193-200 | Only the metadata lookup can throw, and only for a frame with no runtime file in a module cached as a metadata reader; a reported file is the runtime's own or a document of that reader |
| TraceRender.FrameLineFromMetadata | StackExchange.Exceptional.SourceLink/ExceptionalTrace.cs:193-213 | For a frame with no runtime file in a module whose cached symbols are a metadata reader, the outcome is the sequence-point lookup's, and the text is the head followed by " in <mapped file>:line <n>" of that lookup, or the head alone when it throws |
| TraceRender.FrameLineThroughSourceLink | StackExchange.Exceptional.SourceLink/ExceptionalTrace.cs:195-213 | End to end: the first frame of an unrecorded module with a portable PDB whose Source Link reads, with no runtime file, renders the head, " in ", the Source Link URL of the file the sequence points give, ":line " and their line; a lookup that throws or finds no file leaves the head alone |
| TraceRender.RenderFramesStep | StackExchange.Exceptional.SourceLink/ExceptionalTrace.cs:182-216 | Each iteration appends one frame's line, rendered against the caches the earlier frames left |
| TraceRender.RenderFramesStopsAtFailure | StackExchange.Exceptional.SourceLink/ExceptionalTrace.cs:182-216 | Once a frame's resolution throws, the later frames add nothing |
| TraceRender.RenderFramesCoherent | StackExchange.Exceptional.SourceLink/ExceptionalTrace.cs:195 | Rendering frames keeps the caches coherent and never changes or drops a recorded module |
| TraceRender.RenderFramesWarms | StackExchange.Exceptional.SourceLink/ExceptionalTrace.cs:182-216 | After frames render without an exception, every module they run in is resolved |
| TraceRender.ExtendPassed | StackExchange.Exceptional.SourceLink/ExceptionalTrace.cs:182-216 | When a prefix followed by one more frame passes, the prefix passed, the frame passed against the caches the prefix left, and those are the caches the whole leaves |
| TraceRender.WarmFramesKeepCaches | StackExchange.Exceptional.SourceLink/ExceptionalTrace.cs:270-273 | Frames whose modules are all resolved leave the caches as they were and call no loader |
| TraceRender.RenderException | StackExchange.Exceptional.SourceLink/ExceptionalTrace.cs:107-127 | Rendering an exception chain calls the loader at most twice per frame of the chain and never drops a recorded module |
| TraceRender.ResolvedChainSplit | StackExchange.Exceptional.SourceLink/ExceptionalTrace.cs:118-126 | An exception chain's modules are resolved exactly when the inner chain's and the exception's own frames' modules are |
| TraceRender.RenderExceptionWarms | StackExchange.Exceptional.SourceLink/ExceptionalTrace.cs:107-127 | After an exception renders without an exception escaping, every module of its chain is resolved |
| TraceRender.WarmExceptionKeepsCaches | StackExchange.Exceptional.SourceLink/ExceptionalTrace.cs:107-127 | An exception chain whose modules are all resolved renders without changing the caches or calling a loader |
| TraceRender.SecondRenderIsStable | StackExchange.Exceptional.SourceLink/ExceptionalTrace.cs:268-273 | Rendering the same exception a second time calls no loader and changes no cache |
| TraceRender.DynamicFramesRenderSignatures | StackExchange.Exceptional.SourceLink/ExceptionalTrace.cs:185-202 | Frames of dynamic modules with no runtime file render as their signature lines alone (the reference Heads text), pass, load nothing and leave the caches unchanged |
| SourceMappedTrace.StringBuilder.Append | StackExchange.Exceptional.SourceLink/ExceptionalTrace.cs:188-191 | Appending adds the text at the end of the content |
| SourceMappedTrace.ExceptionalTrace.constructor | StackExchange.Exceptional.SourceLink/ExceptionalTrace.cs:106-131 | The three dictionaries start empty |
| SourceMappedTrace.ExceptionalTrace.Shutdown | StackExchange.Exceptional.SourceLink/ExceptionalTrace.cs:74-79 | SymCleanup succeeding clears both module caches; failing, it throws before anything is cleared; the signature cache is kept |
| SourceMappedTrace.ExceptionalTrace.TryMapPortablePdb | StackExchange.Exceptional.SourceLink/ExceptionalTrace.cs:221-266 | A probe counts as one loader call; no PDB returns false; a probe exception, a missing Source Link record or a malformed blob escapes before any path is written; otherwise every document path maps to its URL and the reader is returned |
| SourceMappedTrace.ExceptionalTrace.SymEnumSourceFiles | StackExchange.Exceptional.SourceLink/ExceptionalTrace.cs:396-408 | The callback records the file's source path under (ModBase, FileName) and asks for the next file |
| SourceMappedTrace.ExceptionalTrace.EnumerateSourceFiles | StackExchange.Exceptional.SourceLink/ExceptionalTrace.cs:307 | The callback runs for each reported file in order, giving EnumSourceFiles |
| SourceMappedTrace.ExceptionalTrace.ResolveAllPathsInModule | StackExchange.Exceptional.SourceLink/ExceptionalTrace.cs:268-273 | The caches, outcome and loader count afterwards are Resolve's, and the caches stay coherent |
| SourceMappedTrace.ExceptionalTrace.ResolveUnderLock | StackExchange.Exceptional.SourceLink/ExceptionalTrace.cs:275-314 | The re-check, portable probe, load, enumeration and unload give Resolve's caches and outcome |
| SourceMappedTrace.ExceptionalTrace.CachedMethodSignature | StackExchange.Exceptional.SourceLink/ExceptionalTrace.cs:191 | GetOrAdd returns the method's signature, and the cache holds it afterwards |
| SourceMappedTrace.ExceptionalTrace.AppendFrameHead | StackExchange.Exceptional.SourceLink/ExceptionalTrace.cs:188-191 | A new line, "   at " and the signature are appended, and the signature cache gains (or keeps) the method's signature, nothing else |
| SourceMappedTrace.ExceptionalTrace.AppendLocation | StackExchange.Exceptional.SourceLink/ExceptionalTrace.cs:193-213 | The runtime's file is preferred; the metadata lookup runs only for an empty file and a metadata-reader entry; its exception escapes |
| SourceMappedTrace.ExceptionalTrace.AppendMappedLocation | StackExchange.Exceptional.SourceLink/ExceptionalTrace.cs:202-213 | " in <mapped path>:line <n>" is appended only when a file is known, the path replaced by its SourceMappedPaths entry when one exists |
| SourceMappedTrace.ExceptionalTrace.DumpFrame | StackExchange.Exceptional.SourceLink/ExceptionalTrace.cs:184-213 | One iteration appends RenderFrame's text and leaves its caches, outcome and loader count; the signature cache gains the frame's method |
| SourceMappedTrace.ExceptionalTrace.DumpNextFrame | StackExchange.Exceptional.SourceLink/ExceptionalTrace.cs:182-216 | One more frame extends the rendering of the frames before it, and the signature cache gains that frame's method |
| SourceMappedTrace.ExceptionalTrace.DumpStackTrace | StackExchange.Exceptional.SourceLink/ExceptionalTrace.cs:179-217 | The appended text, caches, outcome and loader count are those of rendering the frames in order, null frames being none; the signature cache gains exactly the rendered frames' methods |
| SourceMappedTrace.ExceptionalTrace.AppendExceptionHead | StackExchange.Exceptional.SourceLink/ExceptionalTrace.cs:112-116 | The type's full name is appended, then ": message" when the message is not null or empty |
| SourceMappedTrace.ExceptionalTrace.DumpExceptionStackTrace | StackExchange.Exceptional.SourceLink/ExceptionalTrace.cs:107-127 | Null appends nothing; otherwise head, the inner section, then the frames, as RenderException states, with the signature cache gaining exactly the rendered methods |
| SourceMappedTrace.ExceptionalTrace.DumpInnerException | StackExchange.Exceptional.SourceLink/ExceptionalTrace.cs:118-123 | " ---> " and the inner exception's rendering are appended, then, unless it threw, a new line and the end-of-inner marker; caches, outcome, loader count and signature cache follow RenderException |
| SourceMappedTrace.ExceptionalTrace.ExceptionTrace | StackExchange.Exceptional.SourceLink/ExceptionalTrace.cs:165-170 | The returned string is the exception's rendering written to a fresh builder; the signature cache gains exactly the rendered methods |
| SourceMappedTrace.ExceptionalTrace.StackTraceText | StackExchange.Exceptional.SourceLink/ExceptionalTrace.cs:172-177 | The returned string is the stack trace's rendering written to a fresh builder; the signature cache gains exactly the rendered methods |

## Left out

- The DbgHelp calls are values stored in the `Module` datatype, not foreign
  calls. These are `SymLoadModule64`, `SymEnumSourceFiles`,
  `SymGetSourceFile` and `SymUnloadModule64`.
- `SymCleanup`'s result is a parameter of `Shutdown`.
- `Init`, `SymDebugCallback` (including its 32-bit calling-convention
  workaround), `TraceSourceLink` and the static constructor's
  `SetDllDirectory` are left out: they are native set-up and diagnostics.
  None of them changes the modelled state.
- `ErrorStoreOnOnBeforeLog` is left out. It depends on the hosting
  library's `Error` type, its hashing and `#if DEBUG` text.
- `GetMetadataReaderProvider` is left out: PE parsing, the embedded PDB and
  file reads are I/O. Its answer is the `PortableProbe` value of the
  module.
- `DataContractJsonSerializer` is left out. A non-empty blob is paired with
  the parse result it gives (`JsonResult`).
- `SourceLinkMap.Deserialize` and `SourceLinkMap.GetUrl` do not represent a
  JSON `null`, neither as the whole blob nor as a URL value. The document
  table is a sequence of (key, URL) string pairs. The model therefore leaves
  out three code paths:
  - a blob that is the literal `null` makes `Deserialize` return null, and
    the document loop then throws on `sourceLink.GetUrl`
    (`ExceptionalTrace.cs:325`, `:262`);
  - a null URL under a matching wildcard key throws at `url.Replace`
    (`:346`);
  - a null URL under a matching literal key is returned, stored in
    `SourceMappedPaths` and rendered as `" in :line n"` (`:351`, `:203-212`).
- `MetadataTokens.Handle` is not decoded. A method's token is given as its
  `Handle` (kind and row).
- `GetDocument` and `GetString` are not modelled separately. A document
  handle is a row of the Document table, and `DocumentName` gives that row's
  name, or none for a handle outside the table.
- Document handles are the rows of the Document table, so no handle is
  nil. The `IsNil` skip in the document loop is therefore not modelled.
- The disposal of the metadata reader provider is not modelled. Disposal
  changes no modelled state.
- Concurrency is not modelled.
  - The synchronized `Hashtable`, the `lock` and the concurrent dictionaries
    are modelled sequentially.
  - The check outside the lock and the re-check under it are kept as
    `ResolveAllPathsInModule` and `ResolveUnderLock`.
- `DumpStackTrace` is modelled with its default arguments only: prefix
  `"   at "` and no frames skipped. Every caller in the file uses them.
- A frame whose `GetMethod()` is null is not modelled. The C# code would
  throw a `NullReferenceException` there.
- Dictionary enumeration order is not modelled. The Source Link documents
  are taken in the order the dictionary enumerates them, given as a
  sequence.
- `Environment.NewLine` is fixed to `"\r\n"`, since DbgHelp exists only on
  Windows.
- `SourceMappedTrace.ExceptionalTrace.ResolveUnderLock`: when
  `SymEnumSourceFiles` reports failure, every file in the module's
  `sourceFiles` is assumed to have reached the callback already. The list
  is what the callback saw, whatever the failure.
- `MethodSignature` treats a `null` type `FullName` or parameter name as
  appending nothing, as `StringBuilder.Append(null)` does.
- Types from outside this file (`Native.DbgHelp.cs`, `Native.cs`, the
  `SymOptions` and `SymActionCode` tables) are not part of this model.
  Neither are the benchmark and test programs.
