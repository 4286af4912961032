/**
 * ExceptionalTrace's static state and the methods that change it, step by
 * step: the module caches filled by ResolveAllPathsInModule, the signature
 * cache filled by DumpStackTrace, and the StringBuilder the trace is written
 * to. Each method is proved to do what the functions of TraceRender and
 * ModuleCache say.
 */
module SourceMappedTrace {
  import opened TraceBasics
  import opened Metadata
  import opened SourceLineInfo
  import opened SourceLinkMap
  import opened ModuleCache
  import opened TraceRender

  /** The StringBuilder the trace text is appended to. */
  class StringBuilder {
    var content: string

    constructor ()
      ensures content == ""
    {
      content := "";
    }

    method Append(s: string)
      modifies this
      ensures content == old(content) + s
    {
      content := content + s;
    }
  }

  /**
   * The static fields of ExceptionalTrace: SymLoadedModules,
   * SourceMappedPaths and MethodSignatures. loaderCalls counts the portable
   * PDB probes and SymLoadModule64 calls made so far.
   */
  class ExceptionalTrace {
    var symLoadedModules: map<Module, LoadedSymbols>
    var sourceMappedPaths: map<PathKey, string>
    var methodSignatures: map<MethodBase, string>
    ghost var loaderCalls: nat

    function State(): Caches
      reads this
    {
      Caches(symLoadedModules, sourceMappedPaths)
    }

    /** Every module entry is one the code can have stored, and every cached signature is the method's signature. */
    ghost predicate Valid()
      reads this
    {
      && Coherent(State())
      && forall mb :: mb in methodSignatures ==> methodSignatures[mb] == MethodSignature(mb)
    }

    constructor ()
      ensures Valid()
      ensures State() == EmptyCaches && methodSignatures == map[] && loaderCalls == 0
    {
      symLoadedModules := map[];
      sourceMappedPaths := map[];
      methodSignatures := map[];
      loaderCalls := 0;
    }

    /**
     * Shutdown: SymCleanup, then both module caches are cleared. A failing
     * SymCleanup throws before anything is cleared. The signature cache is
     * kept.
     */
    method Shutdown(cleanupOk: bool) returns (outcome: Outcome)
      requires Valid()
      modifies this
      ensures Valid()
      ensures methodSignatures == old(methodSignatures) && loaderCalls == old(loaderCalls)
      ensures cleanupOk ==> outcome == Pass && State() == EmptyCaches
      ensures !cleanupOk ==> outcome == Fail(CleanupFailed) && State() == old(State())
    {
      if !cleanupOk {
        return Fail(CleanupFailed);
      }
      symLoadedModules := map[];
      sourceMappedPaths := map[];
      outcome := Pass;
    }

    /**
     * TryMapPortablePdb: probes the module for a portable PDB; when there is
     * one, reads its Source Link object and maps every document path of the
     * PDB to its URL under the module's HINSTANCE. A probe or Source Link
     * exception escapes before any path is written.
     */
    method TryMapPortablePdb(m: Module) returns (mapped: bool, provider: Option<MetadataReader>, outcome: Outcome)
      modifies this`sourceMappedPaths, this`loaderCalls
      ensures loaderCalls == old(loaderCalls) + 1
      ensures mapped <==> provider.Some?
      ensures m.portable.ProbeThrows? ==>
        outcome == Fail(PdbProbeFailed) && !mapped && sourceMappedPaths == old(sourceMappedPaths)
      ensures m.portable.NoPortablePdb? ==>
        outcome == Pass && !mapped && sourceMappedPaths == old(sourceMappedPaths)
      ensures m.portable.PortablePdb? ==>
        match ReadSourceLink(m.portable.reader)
        case Err(e) => outcome == Fail(e) && !mapped && sourceMappedPaths == old(sourceMappedPaths)
        case Ok(sourceLink) =>
          && outcome == Pass && provider == Some(m.portable.reader)
          && sourceMappedPaths == MapDocuments(old(sourceMappedPaths), m.hinstance, m.portable.reader.documents, sourceLink)
    {
      mapped, provider, outcome := false, None, Pass;
      loaderCalls := loaderCalls + 1;
      match m.portable
      case ProbeThrows =>
        outcome := Fail(PdbProbeFailed);
      case NoPortablePdb =>
      case PortablePdb(rd) =>
        var read := ReadSourceLink(rd);
        if read.Err? {
          outcome := Fail(read.error);
          return;
        }
        var sourceLink := read.value;
        var hinstance := m.hinstance;
        ghost var before := sourceMappedPaths;
        for i := 0 to |rd.documents|
          invariant loaderCalls == old(loaderCalls) + 1
          invariant sourceMappedPaths == MapDocuments(before, hinstance, rd.documents[..i], sourceLink)
        {
          var file := rd.documents[i];
          assert rd.documents[..i + 1][..i] == rd.documents[..i];
          sourceMappedPaths := sourceMappedPaths[(hinstance, file) := GetUrl(sourceLink, file)];
        }
        assert rd.documents[..|rd.documents|] == rd.documents;
        mapped, provider := true, Some(rd);
    }

    /** The SymEnumSourceFiles callback: records the path SymGetSourceFile gives for the file, else its own name, and asks for the next file. */
    method SymEnumSourceFiles(sourceFile: SourceFile, sourceServer: map<SourceFile, string>) returns (continueEnumeration: bool)
      modifies this`sourceMappedPaths
      ensures sourceMappedPaths == old(sourceMappedPaths)[(sourceFile.modBase, sourceFile.fileName) := SourcePath(sourceFile, sourceServer)]
      ensures continueEnumeration
    {
      var sourcePath := sourceFile.fileName;
      if sourceFile in sourceServer {
        sourcePath := sourceServer[sourceFile];
      }
      sourceMappedPaths := sourceMappedPaths[(sourceFile.modBase, sourceFile.fileName) := sourcePath];
      continueEnumeration := true;
    }

    /** DbgHelp's enumeration of a module's source files: the callback for each file in turn (it always asks to continue). */
    method EnumerateSourceFiles(files: seq<SourceFile>, sourceServer: map<SourceFile, string>)
      modifies this`sourceMappedPaths
      ensures sourceMappedPaths == EnumSourceFiles(old(sourceMappedPaths), files, sourceServer)
    {
      ghost var before := sourceMappedPaths;
      for i := 0 to |files|
        invariant sourceMappedPaths == EnumSourceFiles(before, files[..i], sourceServer)
      {
        assert files[..i + 1][..i] == files[..i];
        var _ := SymEnumSourceFiles(files[i], sourceServer);
      }
      assert files[..|files|] == files;
    }

    /**
     * ResolveAllPathsInModule: the check outside the lock. A dynamic or
     * recorded module is left alone; otherwise the locked part runs.
     */
    method ResolveAllPathsInModule(m: Module) returns (outcome: Outcome)
      requires Valid()
      modifies this`symLoadedModules, this`sourceMappedPaths, this`loaderCalls
      ensures Valid()
      ensures (State(), outcome) == Resolve(old(State()), m)
      ensures loaderCalls == old(loaderCalls) + LoaderCalls(old(State()), m)
    {
      if m.isDynamic || m in symLoadedModules {
        return Pass;
      }
      outcome := ResolveUnderLock(m);
    }

    /**
     * The part of ResolveAllPathsInModule under the lock: the check again,
     * then the portable PDB, then DbgHelp. The native module is recorded
     * before its files are enumerated, and unloaded whatever the enumeration
     * reports.
     */
    method ResolveUnderLock(m: Module) returns (outcome: Outcome)
      requires Valid() && !m.isDynamic
      modifies this`symLoadedModules, this`sourceMappedPaths, this`loaderCalls
      ensures Valid()
      ensures (State(), outcome) == Resolve(old(State()), m)
      ensures loaderCalls == old(loaderCalls) + LoaderCalls(old(State()), m)
    {
      ResolvePreservesCoherent(State(), m);
      if m in symLoadedModules {
        return Pass;
      }
      var mapped, provider;
      mapped, provider, outcome := TryMapPortablePdb(m);
      if outcome.Fail? {
        return;
      }
      if mapped {
        symLoadedModules := symLoadedModules[m := MetadataProvider(provider.value)];
        return;
      }
      // SymLoadModule64
      loaderCalls := loaderCalls + 1;
      var result := m.native.loadResult;
      if result == 0 {
        return Fail(NativeLoadFailed);
      }
      symLoadedModules := symLoadedModules[m := NativeModuleBase(result)];
      EnumerateSourceFiles(m.native.sourceFiles, m.native.sourceServer);
      var enumerated := m.native.enumOk;
      // SymUnloadModule64 runs in the finally block
      var unloaded := m.native.unloadOk;
      outcome := if enumerated && unloaded then Pass else Fail(NativeCallFailed);
    }

    /** MethodSignatures.GetOrAdd(methodBase, GetMethodSignature). */
    method CachedMethodSignature(methodBase: MethodBase) returns (signature: string)
      requires Valid()
      modifies this`methodSignatures
      ensures Valid()
      ensures signature == MethodSignature(methodBase)
      ensures methodSignatures == old(methodSignatures)[methodBase := signature]
    {
      if methodBase in methodSignatures {
        signature := methodSignatures[methodBase];
      } else {
        signature := GetMethodSignature(methodBase);
        methodSignatures := methodSignatures[methodBase := signature];
      }
    }

    /**
     * One iteration of DumpStackTrace's loop: the signature line, the
     * module's resolution, the metadata lookup when the runtime had no file,
     * and the location mapped through SourceMappedPaths.
     */
    method DumpFrame(output: StringBuilder, frame: StackFrame) returns (outcome: Outcome)
      requires Valid()
      modifies this, output
      ensures Valid()
      ensures var r := RenderFrame(old(State()), frame);
        && output.content == old(output.content) + r.text && State() == r.caches && outcome == r.outcome
        && loaderCalls == old(loaderCalls) + r.loads
        && methodSignatures.Keys == old(methodSignatures).Keys + r.methods
    {
      var methodBase := frame.methodBase;
      var m := methodBase.methodModule;
      ghost var c0, text0 := State(), output.content;
      AppendFrameHead(output, methodBase);

      outcome := ResolveAllPathsInModule(m);
      ghost var c1 := State();
      assert Resolve(c0, m) == (c1, outcome);
      if outcome.Fail? {
        assert RenderFrame(c0, frame) == Rendered(FrameHead(methodBase), c1, outcome, LoaderCalls(c0, m), {methodBase});
        return;
      }
      ghost var text1 := output.content;
      outcome := AppendLocation(output, frame);
      AppendTwice(text0, FrameHead(methodBase), output.content[|text1|..]);
      assert RenderFrame(c0, frame) ==
        Rendered(FrameHead(methodBase) + (if outcome.Fail? then "" else LocationSuffix(c1, m.hinstance, FrameLocation(c1, frame).info)), c1, outcome, LoaderCalls(c0, m), {methodBase});
    }

    /** A new line, the frame prefix "   at " and the method's signature, taken from MethodSignatures or computed and cached. */
    method AppendFrameHead(output: StringBuilder, methodBase: MethodBase)
      requires Valid()
      modifies this`methodSignatures, output
      ensures Valid()
      ensures output.content == old(output.content) + FrameHead(methodBase)
      ensures methodSignatures == old(methodSignatures)[methodBase := MethodSignature(methodBase)]
    {
      ghost var text0 := output.content;
      output.Append(NewLine);
      output.Append(FramePrefix);
      var signature := CachedMethodSignature(methodBase);
      output.Append(signature);
      AppendTwice(text0, NewLine, FramePrefix);
      AppendTwice(text0, NewLine + FramePrefix, signature);
    }

    /**
     * The rest of a DumpStackTrace iteration once the module is resolved: the
     * runtime's file and line, or GetSourceLineInfo's when the runtime had no
     * file and the module's symbols are a metadata reader, then " in <path>
     * :line <n>" with the path mapped through SourceMappedPaths.
     */
    method AppendLocation(output: StringBuilder, frame: StackFrame) returns (outcome: Outcome)
      modifies output
      ensures var location := FrameLocation(State(), frame);
        && outcome == location.outcome
        && output.content == old(output.content) +
             if outcome.Fail? then "" else LocationSuffix(State(), frame.methodBase.methodModule.hinstance, location.info)
    {
      var m := frame.methodBase.methodModule;
      var resolved := LineInfo(frame.fileName, frame.fileLineNumber, 0);
      outcome := Pass;
      if IsNullOrEmpty(frame.fileName) && m in symLoadedModules && symLoadedModules[m].MetadataProvider? {
        var resolvedFileName, resolvedFileLine, column;
        resolvedFileName, resolvedFileLine, column, outcome :=
          GetSourceLineInfo(Some(symLoadedModules[m].reader), frame.methodBase.metadataToken, frame.ilOffset);
        if outcome.Fail? {
          return;
        }
        resolved := LineInfo(resolvedFileName, resolvedFileLine, column);
      }
      assert FrameLocation(State(), frame) == LineLookup(resolved, Pass);
      AppendMappedLocation(output, m.hinstance, resolved);
    }

    /** " in " + the file mapped through SourceMappedPaths + ":line " + the line, when the file is not null or empty. */
    method AppendMappedLocation(output: StringBuilder, hinstance: int, resolved: LineInfo)
      modifies output
      ensures output.content == old(output.content) + LocationSuffix(State(), hinstance, resolved)
    {
      if !IsNullOrEmpty(resolved.file) {
        var key := (hinstance, resolved.file.value);
        var mappedFileName := if key in sourceMappedPaths then sourceMappedPaths[key] else resolved.file.value;
        output.Append(" in ");
        output.Append(mappedFileName);
        output.Append(":line ");
        output.Append(IntToString(resolved.line));
      }
    }

    /** One iteration of DumpStackTrace's loop, stated against the rendering of the frames before it. */
    method DumpNextFrame(output: StringBuilder, frames: seq<StackFrame>, f: nat, ghost c0: Caches, ghost start: string,
                         ghost calls0: nat, ghost signed0: set<MethodBase>, ghost done: Rendered)
      returns (outcome: Outcome, ghost next: Rendered)
      requires Valid() && f < |frames|
      requires done == RenderFrames(c0, frames[..f]) && done.outcome == Pass
      requires output.content == start + done.text && State() == done.caches && loaderCalls == calls0 + done.loads
      requires methodSignatures.Keys == signed0 + done.methods
      modifies this, output
      ensures Valid()
      ensures next == RenderFrames(c0, frames[..f + 1]) && outcome == next.outcome
      ensures output.content == start + next.text && State() == next.caches && loaderCalls == calls0 + next.loads
      ensures methodSignatures.Keys == signed0 + next.methods
    {
      RenderFramesStep(c0, frames, f);
      ghost var step := RenderFrame(done.caches, frames[f]);
      outcome := DumpFrame(output, frames[f]);
      AppendTwice(start, done.text, step.text);
      next := RenderFrames(c0, frames[..f + 1]);
      assert next == Rendered(done.text + step.text, step.caches, step.outcome, done.loads + step.loads, done.methods + step.methods);
    }

    /**
     * DumpStackTrace with its default prefix "   at " and no frames skipped:
     * each frame in turn, stopping at the first exception.
     */
    method DumpStackTrace(output: StringBuilder, stackTrace: StackTrace) returns (outcome: Outcome)
      requires Valid()
      modifies this, output
      ensures Valid()
      ensures var r := RenderStackTrace(old(State()), stackTrace);
        && output.content == old(output.content) + r.text && State() == r.caches && outcome == r.outcome
        && loaderCalls == old(loaderCalls) + r.loads
        && methodSignatures.Keys == old(methodSignatures).Keys + r.methods
    {
      var frames := if stackTrace.frames.None? then [] else stackTrace.frames.value;
      ghost var c0 := State();
      ghost var start := output.content;
      ghost var calls0 := loaderCalls;
      ghost var signed0 := methodSignatures.Keys;
      ghost var done := Rendered("", c0, Pass, 0, {});
      outcome := Pass;
      for f := 0 to |frames|
        invariant Valid()
        invariant done == RenderFrames(c0, frames[..f]) && done.outcome == Pass
        invariant output.content == start + done.text && State() == done.caches && loaderCalls == calls0 + done.loads
        invariant methodSignatures.Keys == signed0 + done.methods
        invariant outcome == Pass
      {
        outcome, done := DumpNextFrame(output, frames, f, c0, start, calls0, signed0, done);
        if outcome.Fail? {
          RenderFramesStopsAtFailure(c0, frames, f + 1);
          return;
        }
      }
      assert frames[..|frames|] == frames;
    }

    /**
     * DumpExceptionStackTrace: nothing for null; otherwise the type name, the
     * message when there is one, the inner exception between " ---> " and the
     * end-of-inner marker, then this exception's frames.
     */
    method DumpExceptionStackTrace(output: StringBuilder, ex: Option<Exception>) returns (outcome: Outcome)
      requires Valid()
      modifies this, output
      ensures Valid()
      ensures var r := RenderException(old(State()), ex);
        && output.content == old(output.content) + r.text && State() == r.caches && outcome == r.outcome
        && loaderCalls == old(loaderCalls) + r.loads
        && methodSignatures.Keys == old(methodSignatures).Keys + r.methods
      decreases ex, 0
    {
      if ex.None? {
        return Pass;
      }
      var e := ex.value;
      ghost var text0 := output.content;
      AppendExceptionHead(output, e);
      ghost var text := ExceptionHead(e);
      if e.innerException.Some? {
        ghost var inner := RenderException(State(), e.innerException);
        outcome := DumpInnerException(output, e.innerException);
        AppendTwice(text0, text, InnerExceptionSection(inner));
        text := text + InnerExceptionSection(inner);
        if outcome.Fail? {
          return;
        }
      }
      ghost var r := RenderStackTrace(State(), e.stackTrace);
      outcome := DumpStackTrace(output, e.stackTrace);
      AppendTwice(text0, text, r.text);
    }

    /**
     * The inner-exception part of DumpExceptionStackTrace: " ---> ", the inner
     * exception's trace, then a new line and the end-of-inner marker unless an
     * exception escaped from it.
     */
    method DumpInnerException(output: StringBuilder, inner: Option<Exception>) returns (outcome: Outcome)
      requires Valid()
      modifies this, output
      ensures Valid()
      ensures var r := RenderException(old(State()), inner);
        && output.content == old(output.content) + InnerExceptionSection(r) && State() == r.caches && outcome == r.outcome
        && loaderCalls == old(loaderCalls) + r.loads
        && methodSignatures.Keys == old(methodSignatures).Keys + r.methods
      decreases inner, 1
    {
      ghost var text0 := output.content;
      output.Append(InnerExceptionArrow);
      ghost var r := RenderException(State(), inner);
      outcome := DumpExceptionStackTrace(output, inner);
      AppendTwice(text0, InnerExceptionArrow, r.text);
      if outcome.Fail? {
        return;
      }
      output.Append(NewLine);
      output.Append(EndOfInnerException);
      AppendTwice(text0, InnerExceptionArrow + r.text, NewLine);
      AppendTwice(text0, InnerExceptionArrow + r.text + NewLine, EndOfInnerException);
      AppendTwice(InnerExceptionArrow + r.text, NewLine, EndOfInnerException);
    }

    /** The type's full name, then ": " and the message unless it is null or empty. */
    method AppendExceptionHead(output: StringBuilder, e: Exception)
      modifies output
      ensures output.content == old(output.content) + ExceptionHead(e)
    {
      output.Append(e.typeFullName);
      if !IsNullOrEmpty(e.message) {
        output.Append(": ");
        output.Append(e.message.value);
      }
    }

    /** SourceMappedTrace(this Exception): the exception's trace in a fresh StringBuilder. */
    method ExceptionTrace(ex: Option<Exception>) returns (trace: string, outcome: Outcome)
      requires Valid()
      modifies this
      ensures Valid()
      ensures var r := RenderException(old(State()), ex);
        && trace == r.text && State() == r.caches && outcome == r.outcome
        && loaderCalls == old(loaderCalls) + r.loads
        && methodSignatures.Keys == old(methodSignatures).Keys + r.methods
    {
      var sb := new StringBuilder();
      outcome := DumpExceptionStackTrace(sb, ex);
      trace := sb.content;
    }

    /** SourceMappedTrace(this StackTrace): the frames' lines in a fresh StringBuilder. */
    method StackTraceText(stackTrace: StackTrace) returns (trace: string, outcome: Outcome)
      requires Valid()
      modifies this
      ensures Valid()
      ensures var r := RenderStackTrace(old(State()), stackTrace);
        && trace == r.text && State() == r.caches && outcome == r.outcome
        && loaderCalls == old(loaderCalls) + r.loads
        && methodSignatures.Keys == old(methodSignatures).Keys + r.methods
    {
      var sb := new StringBuilder();
      outcome := DumpStackTrace(sb, stackTrace);
      trace := sb.content;
    }
  }
}
