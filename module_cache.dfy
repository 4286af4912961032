/**
 * The per-module caches behind ResolveAllPathsInModule, as values:
 * SymLoadedModules (which modules have had their debug information loaded,
 * and from where) and SourceMappedPaths (what each (module base, build path)
 * pair is shown as). The functions here say what one resolution does to
 * them; the class in SourceMappedTrace performs it step by step.
 */
module ModuleCache {
  import opened TraceBasics
  import opened Metadata
  import opened SourceLinkMap

  /** What SymLoadedModules holds for a module: the Portable PDB's metadata reader, or the base address SymLoadModule64 returned. */
  datatype LoadedSymbols = MetadataProvider(reader: MetadataReader) | NativeModuleBase(base: int)

  /** A SourceMappedPaths key: module base address (the HINSTANCE, or DbgHelp's ModBase) and the path recorded at build time. */
  type PathKey = (int, string)

  datatype Caches = Caches(symLoadedModules: map<Module, LoadedSymbols>, sourceMappedPaths: map<PathKey, string>)

  const EmptyCaches := Caches(map[], map[])

  /** Whether a cache entry is what the code stores for m: only non-dynamic modules, the portable reader when the probe found one, the native base only when it did not and the load succeeded. */
  predicate RecordedAs(m: Module, s: LoadedSymbols)
  {
    && !m.isDynamic
    && match s
       case MetadataProvider(rd) => m.portable == PortablePdb(rd)
       case NativeModuleBase(b) => m.portable.NoPortablePdb? && b == m.native.loadResult && b != 0
  }

  /** The invariant of SymLoadedModules: every entry is one the code can have stored. */
  predicate Coherent(c: Caches)
  {
    forall m :: m in c.symLoadedModules ==> RecordedAs(m, c.symLoadedModules[m])
  }

  /** The document loop of TryMapPortablePdb: each document path of the PDB, in table order, is mapped to its Source Link URL under the module's HINSTANCE. */
  function MapDocuments(paths: map<PathKey, string>, hinstance: int, docs: seq<string>, sourceLink: SourceLink): map<PathKey, string>
    decreases |docs|
  {
    if docs == [] then paths
    else
      var doc := docs[|docs| - 1];
      MapDocuments(paths, hinstance, docs[..|docs| - 1], sourceLink)[(hinstance, doc) := GetUrl(sourceLink, doc)]
  }

  /** SymEnumSourceFiles' value for one file: the path SymGetSourceFile produced, else the raw file name. */
  function SourcePath(file: SourceFile, sourceServer: map<SourceFile, string>): string
  {
    if file in sourceServer then sourceServer[file] else file.fileName
  }

  /** The callbacks SymEnumSourceFiles makes, in enumeration order: each file's (ModBase, FileName) key gets its SourcePath. */
  function EnumSourceFiles(paths: map<PathKey, string>, files: seq<SourceFile>, sourceServer: map<SourceFile, string>): map<PathKey, string>
    decreases |files|
  {
    if files == [] then paths
    else
      var f := files[|files| - 1];
      EnumSourceFiles(paths, files[..|files| - 1], sourceServer)[(f.modBase, f.fileName) := SourcePath(f, sourceServer)]
  }

  /**
   * ResolveAllPathsInModule as a function of the caches: nothing happens for
   * a dynamic or already recorded module; otherwise the portable PDB is tried
   * first and DbgHelp only when there is none. An exception that escapes is
   * the Fail outcome, with the caches as far as the code had changed them.
   */
  function Resolve(c: Caches, m: Module): (r: (Caches, Outcome))
    ensures c.symLoadedModules.Keys <= r.0.symLoadedModules.Keys <= c.symLoadedModules.Keys + {m}
    ensures r.1.Pass? ==> m.isDynamic || m in r.0.symLoadedModules
  {
    if m.isDynamic || m in c.symLoadedModules then (c, Pass)
    else match m.portable
      case ProbeThrows => (c, Fail(PdbProbeFailed))
      case PortablePdb(rd) =>
        (match ReadSourceLink(rd)
         case Err(e) => (c, Fail(e))
         case Ok(sourceLink) =>
           (Caches(c.symLoadedModules[m := MetadataProvider(rd)],
                   MapDocuments(c.sourceMappedPaths, m.hinstance, rd.documents, sourceLink)), Pass))
      case NoPortablePdb =>
        var native := m.native;
        if native.loadResult == 0 then (c, Fail(NativeLoadFailed))
        else
          var c1 := Caches(c.symLoadedModules[m := NativeModuleBase(native.loadResult)],
                           EnumSourceFiles(c.sourceMappedPaths, native.sourceFiles, native.sourceServer));
          (c1, if native.enumOk && native.unloadOk then Pass else Fail(NativeCallFailed))
  }

  /** How many loaders one resolution invokes: none for a dynamic or recorded module, the portable probe, and SymLoadModule64 after a probe that found no PDB. */
  function LoaderCalls(c: Caches, m: Module): nat
  {
    if m.isDynamic || m in c.symLoadedModules then 0
    else if m.portable.NoPortablePdb? then 2
    else 1
  }

  /** The document loop writes GetUrl(doc) under (hinstance, doc) for every document and leaves every other key as it was. */
  lemma {:induction false} MapDocumentsSpec(paths: map<PathKey, string>, hinstance: int, docs: seq<string>, sourceLink: SourceLink)
    ensures var r := MapDocuments(paths, hinstance, docs, sourceLink);
      && (forall k :: k in r <==> k in paths || (k.0 == hinstance && k.1 in docs))
      && (forall d :: d in docs ==> r[(hinstance, d)] == GetUrl(sourceLink, d))
      && (forall k :: k in paths && !(k.0 == hinstance && k.1 in docs) ==> r[k] == paths[k])
    decreases |docs|
  {
    if docs != [] {
      var init := docs[..|docs| - 1];
      MapDocumentsSpec(paths, hinstance, init, sourceLink);
      assert docs == init + [docs[|docs| - 1]];
    }
  }

  /** The enumeration writes SourcePath(f) under (f.modBase, f.fileName) for every file reported and leaves every other key as it was. */
  lemma {:induction false} EnumSourceFilesSpec(paths: map<PathKey, string>, files: seq<SourceFile>, sourceServer: map<SourceFile, string>)
    ensures var r := EnumSourceFiles(paths, files, sourceServer);
      && (forall k :: k in r <==> k in paths || SourceFile(k.0, k.1) in files)
      && (forall f :: f in files ==> r[(f.modBase, f.fileName)] == SourcePath(f, sourceServer))
      && (forall k :: k in paths && SourceFile(k.0, k.1) !in files ==> r[k] == paths[k])
    decreases |files|
  {
    if files != [] {
      var init := files[..|files| - 1];
      EnumSourceFilesSpec(paths, init, sourceServer);
      assert files == init + [files[|files| - 1]];
    }
  }

  /** Resolution keeps the cache coherent, never changes or drops a recorded module, and calls no loader for a dynamic or recorded module. */
  lemma ResolvePreservesCoherent(c: Caches, m: Module)
    requires Coherent(c)
    ensures Coherent(Resolve(c, m).0)
    ensures forall k :: k in c.symLoadedModules ==>
      k in Resolve(c, m).0.symLoadedModules && Resolve(c, m).0.symLoadedModules[k] == c.symLoadedModules[k]
  {
  }

  /**
   * A module is loaded at most once: after a resolution that passed, the
   * module is dynamic or recorded, and resolving it again changes nothing
   * and invokes no loader.
   */
  lemma ResolveAtMostOnce(c: Caches, m: Module)
    ensures var (c1, outcome) := Resolve(c, m);
      outcome.Pass? ==> && (m.isDynamic || m in c1.symLoadedModules)
                        && LoaderCalls(c1, m) == 0
                        && Resolve(c1, m) == (c1, Pass)
  {
  }

  /**
   * Which failures leave the module recorded: only those after a successful
   * SymLoadModule64 (a failing enumeration or unload), since the module is
   * stored before those calls. A failing probe, a malformed Source Link blob
   * or a failing load leave both caches untouched, so the next frame retries.
   */
  lemma ResolveFailure(c: Caches, m: Module)
    ensures var (c1, outcome) := Resolve(c, m);
      outcome.Fail? ==>
        && !m.isDynamic && m !in c.symLoadedModules
        && (m in c1.symLoadedModules <==> m.portable.NoPortablePdb? && m.native.loadResult != 0)
        && (m !in c1.symLoadedModules ==> c1 == c)
  {
  }

  /** A portable PDB is preferred: when its Source Link reads, the module is recorded with its reader and every document maps to its Source Link URL; DbgHelp is not consulted. */
  lemma ResolvePortable(c: Caches, m: Module, rd: MetadataReader, sourceLink: SourceLink)
    requires !m.isDynamic && m !in c.symLoadedModules
    requires m.portable == PortablePdb(rd) && ReadSourceLink(rd) == Ok(sourceLink)
    ensures var (c1, outcome) := Resolve(c, m);
      && outcome == Pass
      && c1.symLoadedModules == c.symLoadedModules[m := MetadataProvider(rd)]
      && (forall k :: k in c1.sourceMappedPaths <==> k in c.sourceMappedPaths || (k.0 == m.hinstance && k.1 in rd.documents))
      && (forall d :: d in rd.documents ==> c1.sourceMappedPaths[(m.hinstance, d)] == GetUrl(sourceLink, d))
      && (forall k :: k in c.sourceMappedPaths && !(k.0 == m.hinstance && k.1 in rd.documents) ==>
            c1.sourceMappedPaths[k] == c.sourceMappedPaths[k])
  {
    MapDocumentsSpec(c.sourceMappedPaths, m.hinstance, rd.documents, sourceLink);
  }

  /**
   * A portable PDB without a Source Link record makes TryMapPortablePdb throw
   * before anything is written: the module stays unrecorded, so the next
   * frame in it probes again.
   */
  lemma ResolveWithoutSourceLink(c: Caches, m: Module)
    requires !m.isDynamic && m !in c.symLoadedModules && m.portable.PortablePdb?
    requires forall i :: 0 <= i < |m.portable.reader.moduleCustomDebugInformation| ==>
      m.portable.reader.moduleCustomDebugInformation[i].kind != SourceLinkId
    ensures Resolve(c, m) == (c, Fail(SourceLinkMissing))
    ensures LoaderCalls(c, m) == 1 && Resolve(Resolve(c, m).0, m) == Resolve(c, m)
  {
  }

  /** The native path runs only without a portable PDB; after a successful load every enumerated file maps to the path DbgHelp resolved, else to its own name. */
  lemma ResolveNative(c: Caches, m: Module)
    requires !m.isDynamic && m !in c.symLoadedModules
    requires m.portable.NoPortablePdb? && m.native.loadResult != 0
    ensures var (c1, outcome) := Resolve(c, m);
      && (outcome.Pass? <==> m.native.enumOk && m.native.unloadOk)
      && c1.symLoadedModules == c.symLoadedModules[m := NativeModuleBase(m.native.loadResult)]
      && (forall k :: k in c1.sourceMappedPaths <==> k in c.sourceMappedPaths || SourceFile(k.0, k.1) in m.native.sourceFiles)
      && (forall f :: f in m.native.sourceFiles ==>
            c1.sourceMappedPaths[(f.modBase, f.fileName)] == SourcePath(f, m.native.sourceServer))
      && (forall k :: k in c.sourceMappedPaths && SourceFile(k.0, k.1) !in m.native.sourceFiles ==>
            c1.sourceMappedPaths[k] == c.sourceMappedPaths[k])
  {
    EnumSourceFilesSpec(c.sourceMappedPaths, m.native.sourceFiles, m.native.sourceServer);
  }
}
