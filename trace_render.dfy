/**
 * The text DumpExceptionStackTrace and DumpStackTrace build, as functions of
 * the exception and of the module caches they consult and fill: one line per
 * frame with the method signature and, when a file is known, " in <path>:line
 * <n>", with the path replaced by its Source Link URL or DbgHelp path.
 */
module TraceRender {
  import opened TraceBasics
  import opened Metadata
  import opened SourceLineInfo
  import opened ModuleCache
  import opened SourceLinkMap

  /** A System.Type as the signature uses it: its FullName, which is null for generic type parameters. */
  datatype TypeRef = TypeRef(fullName: Option<string>)

  /** A ParameterInfo: the parameter type's Name and the parameter's Name (null for some compiler-generated methods). */
  datatype Parameter = Parameter(typeName: string, name: Option<string>)

  /** A MethodBase: declaring type (null for global methods), name, GetParameters() (null stands for none), module and metadata token. */
  datatype MethodBase = MethodBase(
    declaringType: Option<TypeRef>,
    name: string,
    parameters: Option<seq<Parameter>>,
    methodModule: Module,
    metadataToken: Handle)

  /** A StackFrame: its method, IL offset, and the file name and line the runtime itself resolved. */
  datatype StackFrame = StackFrame(methodBase: MethodBase, ilOffset: int, fileName: Option<string>, fileLineNumber: int)

  /** A StackTrace: GetFrames(), which is null for an exception that was never thrown. */
  datatype StackTrace = StackTrace(frames: Option<seq<StackFrame>>)

  /** An exception: its type's FullName, Message, InnerException and the stack trace new StackTrace(ex, true) gives. */
  datatype Exception = Exception(
    typeFullName: string,
    message: Option<string>,
    innerException: Option<Exception>,
    stackTrace: StackTrace)

  const FramePrefix: string := "   at "
  const InnerExceptionArrow: string := " ---> "
  const EndOfInnerException: string := "   --- End of inner exception stack trace ---"

  /** StringBuilder.Append of a string that may be null: null appends nothing. */
  function OrEmpty(s: Option<string>): string
  {
    if s.None? then "" else s.value
  }

  function ParameterText(p: Parameter): string
  {
    p.typeName + " " + OrEmpty(p.name)
  }

  /** The parameter list as GetMethodSignature appends it: each "Type name" after a delimiter that is empty before the first and ", " afterwards. */
  function ParameterList(ps: seq<Parameter>): string
    decreases |ps|
  {
    if ps == [] then ""
    else ParameterList(ps[..|ps| - 1]) + (if |ps| == 1 then "" else ", ") + ParameterText(ps[|ps| - 1])
  }

  /** Each parameter's "Type name" text, in order. */
  function ParameterTexts(ps: seq<Parameter>): seq<string>
  {
    seq(|ps|, i requires 0 <= i < |ps| => ParameterText(ps[i]))
  }

  /** GetParameters() ?? new ParameterInfo[0]. */
  function ParametersOf(methodBase: MethodBase): seq<Parameter>
  {
    if methodBase.parameters.None? then [] else methodBase.parameters.value
  }

  /** "DeclaringType.FullName." when there is a declaring type, then the method name. */
  function QualifiedName(methodBase: MethodBase): string
  {
    (if methodBase.declaringType.Some? then OrEmpty(methodBase.declaringType.value.fullName) + "." else "") + methodBase.name
  }

  /** The signature GetMethodSignature builds: the qualified name, then "(Type name, Type name)". */
  function MethodSignature(methodBase: MethodBase): string
  {
    QualifiedName(methodBase) + "(" + ParameterList(ParametersOf(methodBase)) + ")"
  }

  /**
   * GetMethodSignature: appends the declaring type and name, then each
   * parameter after a delimiter that is empty before the first and ", "
   * afterwards, then ")".
   */
  method GetMethodSignature(methodBase: MethodBase) returns (signature: string)
    ensures signature == MethodSignature(methodBase)
  {
    var output := "";
    if methodBase.declaringType.Some? {
      output := output + OrEmpty(methodBase.declaringType.value.fullName) + ".";
    }
    output := output + methodBase.name + "(";
    ghost var head := output;
    assert head == QualifiedName(methodBase) + "(";
    var delimiter := "";
    var parameters := if methodBase.parameters.None? then [] else methodBase.parameters.value;
    for p := 0 to |parameters|
      invariant delimiter == if p == 0 then "" else ", "
      invariant output == head + ParameterList(parameters[..p])
    {
      var param := parameters[p];
      assert parameters[..p + 1][..p] == parameters[..p];
      var piece := delimiter + (param.typeName + " " + OrEmpty(param.name));
      AppendTwice(ParameterList(parameters[..p]), delimiter, ParameterText(param));
      AppendTwice(head, ParameterList(parameters[..p]), piece);
      output := output + piece;
      delimiter := ", ";
    }
    assert parameters[..|parameters|] == parameters;
    signature := output + ")";
  }

  /** The parameter list is the parameters' "Type name" texts joined with ", ", as string.Join would write them. */
  lemma {:induction false} ParameterListIsJoin(ps: seq<Parameter>)
    ensures ParameterList(ps) == Join(ParameterTexts(ps), ", ")
    decreases |ps|
  {
    var texts := ParameterTexts(ps);
    if |ps| == 1 {
      assert texts == [ParameterText(ps[0])];
    } else if |ps| > 1 {
      var init := ps[..|ps| - 1];
      var initTexts := ParameterTexts(init);
      ParameterListIsJoin(init);
      assert texts == initTexts + [ParameterText(ps[|ps| - 1])];
      JoinSnoc(initTexts, ParameterText(ps[|ps| - 1]), ", ");
    }
  }

  /** The signature is the qualified name, then the parameters' "Type name" texts joined with ", " between parentheses. */
  lemma MethodSignatureIsJoin(methodBase: MethodBase)
    ensures MethodSignature(methodBase) ==
      QualifiedName(methodBase) + "(" + Join(ParameterTexts(ParametersOf(methodBase)), ", ") + ")"
  {
    ParameterListIsJoin(ParametersOf(methodBase));
  }

  /** The signature with no parameters ends in "()"; one more parameter adds ", " (except after none) and its text before the ")". */
  lemma SignatureParameters(methodBase: MethodBase, p: Parameter)
    ensures |ParametersOf(methodBase)| == 0 ==> MethodSignature(methodBase) == QualifiedName(methodBase) + "()"
    ensures var ps := ParametersOf(methodBase);
      var longer := methodBase.(parameters := Some(ps + [p]));
      MethodSignature(longer) ==
        QualifiedName(methodBase) + "(" + ParameterList(ps) + (if |ps| == 0 then "" else ", ") + ParameterText(p) + ")"
  {
    var ps := ParametersOf(methodBase);
    var open := QualifiedName(methodBase) + "(";
    assert (ps + [p])[..|ps|] == ps;
    AppendTwice(QualifiedName(methodBase), "(", ")");
    AppendTwice(open, ParameterList(ps), if |ps| == 0 then "" else ", ");
    AppendTwice(open, ParameterList(ps) + (if |ps| == 0 then "" else ", "), ParameterText(p));
  }

  /**
   * What one DumpStackTrace step or DumpExceptionStackTrace call appends, the
   * caches afterwards, whether an exception escaped, how many symbol loaders
   * it invoked, and the methods whose signatures it wrote (and so cached).
   */
  datatype Rendered = Rendered(text: string, caches: Caches, outcome: Outcome, loads: nat, methods: set<MethodBase>)

  /** The first part of a frame's line: a new line, "   at " and the method signature. */
  function FrameHead(methodBase: MethodBase): string
  {
    NewLine + FramePrefix + MethodSignature(methodBase)
  }

  /** SourceMappedPaths.TryGetValue((hinstance, file)), falling back to file. */
  function MappedPath(paths: map<PathKey, string>, hinstance: int, file: string): string
  {
    if (hinstance, file) in paths then paths[(hinstance, file)] else file
  }

  /** The file and line of a frame: the runtime's, unless its file is empty and the module's cached symbols are a metadata reader, in which case GetSourceLineInfo's. */
  function FrameLocation(c: Caches, frame: StackFrame): (r: LineLookup)
    ensures var m := frame.methodBase.methodModule;
      r.outcome.Fail? ==> IsNullOrEmpty(frame.fileName) && m in c.symLoadedModules && c.symLoadedModules[m].MetadataProvider?
    ensures var m := frame.methodBase.methodModule;
      r.info.file.Some? ==>
        r.info.file == frame.fileName ||
        (m in c.symLoadedModules && c.symLoadedModules[m].MetadataProvider? && r.info.file.value in c.symLoadedModules[m].reader.documents)
  {
    var m := frame.methodBase.methodModule;
    if IsNullOrEmpty(frame.fileName) && m in c.symLoadedModules && c.symLoadedModules[m].MetadataProvider? then
      LookupSourceLine(Some(c.symLoadedModules[m].reader), frame.methodBase.metadataToken, frame.ilOffset)
    else LineLookup(LineInfo(frame.fileName, frame.fileLineNumber, 0), Pass)
  }

  /** " in <mapped path>:line <n>" when a file is known, else nothing. */
  function LocationSuffix(c: Caches, hinstance: int, info: LineInfo): string
  {
    if IsNullOrEmpty(info.file) then ""
    else " in " + MappedPath(c.sourceMappedPaths, hinstance, info.file.value) + ":line " + IntToString(info.line)
  }

  /** One iteration of DumpStackTrace's loop. The head is appended before the module is resolved, so it stays when resolution throws. */
  function RenderFrame(c: Caches, frame: StackFrame): (r: Rendered)
    ensures FrameHead(frame.methodBase) <= r.text
    ensures r.outcome.Fail? ==> r.text == FrameHead(frame.methodBase)
    ensures r.loads <= 2
    ensures c.symLoadedModules.Keys <= r.caches.symLoadedModules.Keys
    ensures r.outcome.Pass? ==> frame.methodBase.methodModule.isDynamic || frame.methodBase.methodModule in r.caches.symLoadedModules
  {
    var m := frame.methodBase.methodModule;
    var (c1, resolved) := Resolve(c, m);
    var location := FrameLocation(c1, frame);
    var outcome := if resolved.Fail? then resolved else location.outcome;
    var head := FrameHead(frame.methodBase);
    var tail := if outcome.Fail? then "" else LocationSuffix(c1, m.hinstance, location.info);
    assert (head + tail)[..|head|] == head;
    Rendered(head + tail, c1, outcome, LoaderCalls(c, m), {frame.methodBase})
  }

  /** DumpStackTrace's loop over the frames (skip 0): each frame in turn, stopping at the first exception. */
  function RenderFrames(c: Caches, frames: seq<StackFrame>): (r: Rendered)
    ensures r.loads <= 2 * |frames|
    ensures c.symLoadedModules.Keys <= r.caches.symLoadedModules.Keys
    decreases |frames|, 1
  {
    if frames == [] then Rendered("", c, Pass, 0, {})
    else Extend(c, frames[..|frames| - 1], frames[|frames| - 1])
  }

  /** The frames init followed by last: init's rendering, then, unless it ended in an exception, last's line against the caches init left. */
  function Extend(c: Caches, init: seq<StackFrame>, last: StackFrame): (r: Rendered)
    ensures r.loads <= 2 * (|init| + 1)
    ensures c.symLoadedModules.Keys <= r.caches.symLoadedModules.Keys
    decreases |init| + 1, 0
  {
    var r := RenderFrames(c, init);
    if r.outcome.Fail? then r
    else
      var step := RenderFrame(r.caches, last);
      Rendered(r.text + step.text, step.caches, step.outcome, r.loads + step.loads, r.methods + step.methods)
  }

  /** Rendering one more frame after a prefix that passed appends that frame's line, rendered against the prefix's caches. */
  lemma RenderFramesStep(c: Caches, frames: seq<StackFrame>, f: nat)
    requires f < |frames| && RenderFrames(c, frames[..f]).outcome.Pass?
    ensures var done := RenderFrames(c, frames[..f]);
      var step := RenderFrame(done.caches, frames[f]);
      RenderFrames(c, frames[..f + 1]) ==
        Rendered(done.text + step.text, step.caches, step.outcome, done.loads + step.loads, done.methods + step.methods)
  {
    assert frames[..f + 1][..f] == frames[..f];
  }

  /** Once a prefix of the frames ends in an exception, the later frames add nothing. */
  lemma {:induction false} RenderFramesStopsAtFailure(c: Caches, frames: seq<StackFrame>, n: nat)
    requires n <= |frames|
    ensures RenderFrames(c, frames[..n]).outcome.Fail? ==> RenderFrames(c, frames) == RenderFrames(c, frames[..n])
    decreases |frames| - n
  {
    if n == |frames| {
      assert frames[..n] == frames;
    } else if RenderFrames(c, frames[..n]).outcome.Fail? {
      assert frames[..n + 1][..n] == frames[..n];
      assert RenderFrames(c, frames[..n + 1]) == Extend(c, frames[..n], frames[n]);
      RenderFramesStopsAtFailure(c, frames, n + 1);
    }
  }

  /** GetFrames() ?? new StackFrame[0]. */
  function FramesOf(stackTrace: StackTrace): seq<StackFrame>
  {
    if stackTrace.frames.None? then [] else stackTrace.frames.value
  }

  function RenderStackTrace(c: Caches, stackTrace: StackTrace): Rendered
  {
    RenderFrames(c, FramesOf(stackTrace))
  }

  /** The type's full name, then ": message" only when the message is not empty. */
  function ExceptionHead(e: Exception): string
  {
    e.typeFullName + (if IsNullOrEmpty(e.message) then "" else ": " + e.message.value)
  }

  /**
   * DumpExceptionStackTrace: nothing for null; otherwise the head, then " ---> ",
   * the inner exception's rendering, a new line and the end-of-inner marker
   * when there is an inner exception, then this exception's frames.
   */
  function RenderException(c: Caches, ex: Option<Exception>): (r: Rendered)
    ensures r.loads <= 2 * |AllFrames(ex)|
    ensures c.symLoadedModules.Keys <= r.caches.symLoadedModules.Keys
    decreases ex
  {
    if ex.None? then Rendered("", c, Pass, 0, {})
    else
      var e := ex.value;
      var head := ExceptionHead(e);
      if e.innerException.None? then
        var r := RenderStackTrace(c, e.stackTrace);
        Rendered(head + r.text, r.caches, r.outcome, r.loads, r.methods)
      else
        var inner := RenderException(c, e.innerException);
        var text := head + InnerExceptionSection(inner);
        if inner.outcome.Fail? then Rendered(text, inner.caches, inner.outcome, inner.loads, inner.methods)
        else
          var r := RenderStackTrace(inner.caches, e.stackTrace);
          Rendered(text + r.text, r.caches, r.outcome, inner.loads + r.loads, inner.methods + r.methods)
  }

  /** " ---> ", the inner exception's rendering, then, unless it ended in an exception, a new line and the end-of-inner marker. */
  function InnerExceptionSection(inner: Rendered): string
  {
    InnerExceptionArrow + inner.text + if inner.outcome.Fail? then "" else NewLine + EndOfInnerException
  }

  /** The message part appears exactly when the message is not null or empty. */
  lemma ExceptionHeadMessage(e: Exception)
    ensures ExceptionHead(e) == e.typeFullName <==> IsNullOrEmpty(e.message)
    ensures !IsNullOrEmpty(e.message) ==> ExceptionHead(e) == e.typeFullName + ": " + e.message.value
  {
    if !IsNullOrEmpty(e.message) {
      assert |ExceptionHead(e)| > |e.typeFullName|;
    }
  }

  /**
   * A frame's line always starts with its head. When resolution passes and the
   * runtime knew the file, that file is used (mapped through SourceMappedPaths
   * under the module's HINSTANCE) with the runtime's line; the metadata reader
   * is consulted only for an empty runtime file.
   */
  lemma FrameLine(c: Caches, frame: StackFrame)
    ensures FrameHead(frame.methodBase) <= RenderFrame(c, frame).text
    ensures var (c1, resolved) := Resolve(c, frame.methodBase.methodModule);
      var r := RenderFrame(c, frame);
      var m := frame.methodBase.methodModule;
      resolved.Pass? && !IsNullOrEmpty(frame.fileName) ==>
        r == Rendered(FrameHead(frame.methodBase) + (" in " + MappedPath(c1.sourceMappedPaths, m.hinstance, frame.fileName.value)
                        + ":line " + IntToString(frame.fileLineNumber)), c1, Pass, LoaderCalls(c, m), {frame.methodBase})
  {
    var head, m := FrameHead(frame.methodBase), frame.methodBase.methodModule;
    var (c1, resolved) := Resolve(c, m);
    var location := FrameLocation(c1, frame);
    var outcome := if resolved.Fail? then resolved else location.outcome;
    var tail := if outcome.Fail? then "" else LocationSuffix(c1, m.hinstance, location.info);
    assert RenderFrame(c, frame).text == head + tail;
    assert (head + tail)[..|head|] == head;
  }

  /**
   * A frame the runtime gave no file, in a module whose cached symbols are a
   * metadata reader: the line and file come from the PDB's sequence points,
   * the file mapped through SourceMappedPaths; a failed lookup leaves the head
   * alone and escapes.
   */
  lemma FrameLineFromMetadata(c: Caches, frame: StackFrame)
    ensures var m := frame.methodBase.methodModule;
      var (c1, resolved) := Resolve(c, m);
      var r := RenderFrame(c, frame);
      resolved.Pass? && IsNullOrEmpty(frame.fileName) && m in c1.symLoadedModules && c1.symLoadedModules[m].MetadataProvider? ==>
        var look := LookupSourceLine(Some(c1.symLoadedModules[m].reader), frame.methodBase.metadataToken, frame.ilOffset);
        && r.outcome == look.outcome && r.caches == c1
        && r.text == FrameHead(frame.methodBase) + (if look.outcome.Pass? then LocationSuffix(c1, m.hinstance, look.info) else "")
  {
  }

  /**
   * End to end: the first frame in a module with a portable PDB whose Source
   * Link reads, the runtime knowing no file, renders the file the sequence
   * points give as the URL Source Link maps it to, with their line.
   */
  lemma FrameLineThroughSourceLink(c: Caches, frame: StackFrame, rd: MetadataReader, sourceLink: SourceLink)
    requires var m := frame.methodBase.methodModule;
      !m.isDynamic && m !in c.symLoadedModules && m.portable == PortablePdb(rd)
    requires ReadSourceLink(rd) == Ok(sourceLink)
    requires IsNullOrEmpty(frame.fileName)
    ensures var look := LookupSourceLine(Some(rd), frame.methodBase.metadataToken, frame.ilOffset);
      var r := RenderFrame(c, frame);
      && r.outcome == look.outcome
      && (look.outcome.Pass? && !IsNullOrEmpty(look.info.file) ==>
            r.text == FrameHead(frame.methodBase) +
              (" in " + GetUrl(sourceLink, look.info.file.value) + ":line " + IntToString(look.info.line)))
      && (look.outcome.Fail? || IsNullOrEmpty(look.info.file) ==> r.text == FrameHead(frame.methodBase))
  {
    var m := frame.methodBase.methodModule;
    ResolvePortable(c, m, rd, sourceLink);
    FrameLineFromMetadata(c, frame);
    var look := LookupSourceLine(Some(rd), frame.methodBase.metadataToken, frame.ilOffset);
    if look.info.file.Some? {
      assert look.info.file.value in rd.documents;
    }
  }

  /** Rendering frames keeps the caches coherent and never changes or drops a recorded module. */
  lemma {:induction false} RenderFramesCoherent(c: Caches, frames: seq<StackFrame>)
    requires Coherent(c)
    ensures var r := RenderFrames(c, frames);
      && Coherent(r.caches)
      && forall k :: k in c.symLoadedModules ==>
           k in r.caches.symLoadedModules && r.caches.symLoadedModules[k] == c.symLoadedModules[k]
    decreases |frames|
  {
    if frames != [] {
      var r := RenderFrames(c, frames[..|frames| - 1]);
      RenderFramesCoherent(c, frames[..|frames| - 1]);
      if r.outcome.Pass? {
        ResolvePreservesCoherent(r.caches, frames[|frames| - 1].methodBase.methodModule);
      }
    }
  }

  /** Every module the frames run in is dynamic or recorded. */
  ghost predicate FramesResolved(c: Caches, frames: seq<StackFrame>)
  {
    forall i :: 0 <= i < |frames| ==> frames[i].methodBase.methodModule.isDynamic || frames[i].methodBase.methodModule in c.symLoadedModules
  }

  /** With every module already resolved, rendering frames leaves the caches exactly as they were. */
  lemma {:induction false} WarmFramesKeepCaches(c: Caches, frames: seq<StackFrame>)
    requires FramesResolved(c, frames)
    ensures RenderFrames(c, frames).caches == c && RenderFrames(c, frames).loads == 0
    decreases |frames|
  {
    if frames != [] {
      var init := frames[..|frames| - 1];
      assert FramesResolved(c, init) by {
        forall i | 0 <= i < |init| ensures init[i] == frames[i] { }
      }
      WarmFramesKeepCaches(c, init);
    }
  }

  /** After rendering frames without an exception, every module they run in is resolved. */
  lemma {:induction false} RenderFramesWarms(c: Caches, frames: seq<StackFrame>)
    ensures var r := RenderFrames(c, frames);
      r.outcome.Pass? ==> FramesResolved(r.caches, frames)
    decreases |frames|
  {
    if frames != [] {
      var init, last := frames[..|frames| - 1], frames[|frames| - 1];
      assert init + [last] == frames;
      RenderFramesWarms(c, init);
      ExtendPassed(c, init, last);
      if Extend(c, init, last).outcome.Pass? {
        FramesResolvedSnoc(RenderFrames(c, init).caches, Extend(c, init, last).caches, init, last);
      }
    }
  }

  /** When init followed by last passes, init passed and last's line passed against the caches init left, which are the caches the whole leaves. */
  lemma ExtendPassed(c: Caches, init: seq<StackFrame>, last: StackFrame)
    ensures var r := Extend(c, init, last);
      var done := RenderFrames(c, init);
      r.outcome.Pass? ==>
        done.outcome.Pass? && RenderFrame(done.caches, last).outcome.Pass? && r.caches == RenderFrame(done.caches, last).caches
  {
  }

  /** Frames stay resolved when caches only grow, and one more frame whose module is resolved keeps them so. */
  lemma FramesResolvedSnoc(c: Caches, c1: Caches, frames: seq<StackFrame>, last: StackFrame)
    requires FramesResolved(c, frames)
    requires c.symLoadedModules.Keys <= c1.symLoadedModules.Keys
    requires last.methodBase.methodModule.isDynamic || last.methodBase.methodModule in c1.symLoadedModules
    ensures FramesResolved(c1, frames + [last])
  {
    var all := frames + [last];
    forall i | 0 <= i < |all|
      ensures all[i].methodBase.methodModule.isDynamic || all[i].methodBase.methodModule in c1.symLoadedModules
    {
      if i < |frames| {
        assert all[i] == frames[i];
      }
    }
  }

  /** The frames of an exception and of all its inner exceptions. */
  function AllFrames(ex: Option<Exception>): seq<StackFrame>
    decreases ex
  {
    if ex.None? then [] else AllFrames(ex.value.innerException) + FramesOf(ex.value.stackTrace)
  }

  /** The modules of an exception chain are resolved exactly when those of the inner chain and those of the exception's own frames are. */
  lemma ResolvedChainSplit(c: Caches, e: Exception)
    ensures FramesResolved(c, AllFrames(Some(e))) <==>
      FramesResolved(c, AllFrames(e.innerException)) && FramesResolved(c, FramesOf(e.stackTrace))
  {
    var inner, own := AllFrames(e.innerException), FramesOf(e.stackTrace);
    var all := AllFrames(Some(e));
    assert all == inner + own;
    if FramesResolved(c, all) {
      forall i | 0 <= i < |inner| ensures inner[i] == all[i] { }
      forall i | 0 <= i < |own| ensures own[i] == all[|inner| + i] { }
    }
  }

  /** With every module of the exception chain already resolved, rendering the exception leaves the caches as they were. */
  lemma {:induction false} WarmExceptionKeepsCaches(c: Caches, ex: Option<Exception>)
    requires FramesResolved(c, AllFrames(ex))
    ensures RenderException(c, ex).caches == c && RenderException(c, ex).loads == 0
    decreases ex
  {
    if ex.Some? {
      var e := ex.value;
      var inner, own := AllFrames(e.innerException), FramesOf(e.stackTrace);
      assert AllFrames(ex) == inner + own;
      assert FramesResolved(c, own) by {
        forall i | 0 <= i < |own| ensures own[i] == AllFrames(ex)[|inner| + i] { }
      }
      if e.innerException.Some? {
        assert FramesResolved(c, inner) by {
          forall i | 0 <= i < |inner| ensures inner[i] == AllFrames(ex)[i] { }
        }
        WarmExceptionKeepsCaches(c, e.innerException);
      }
      WarmFramesKeepCaches(c, own);
    }
  }

  /**
   * Rendering an exception twice: once the first rendering passed, every
   * module of the exception chain is resolved, so the second rendering calls
   * no loader and changes no cache, and every later one repeats it exactly.
   */
  lemma {:induction false} SecondRenderIsStable(c: Caches, ex: Option<Exception>)
    ensures var r1 := RenderException(c, ex);
      r1.outcome.Pass? ==> && FramesResolved(r1.caches, AllFrames(ex))
                           && RenderException(r1.caches, ex).caches == r1.caches
                           && RenderException(r1.caches, ex).loads == 0
    decreases ex
  {
    var r1 := RenderException(c, ex);
    if r1.outcome.Pass? {
      RenderExceptionWarms(c, ex);
      WarmExceptionKeepsCaches(r1.caches, ex);
    }
  }

  /** After rendering an exception without an exception escaping, every module of its chain is resolved. */
  lemma {:induction false} RenderExceptionWarms(c: Caches, ex: Option<Exception>)
    ensures var r := RenderException(c, ex);
      r.outcome.Pass? ==> FramesResolved(r.caches, AllFrames(ex))
    decreases ex
  {
    var r := RenderException(c, ex);
    if ex.Some? && r.outcome.Pass? {
      var e := ex.value;
      var inner, own := AllFrames(e.innerException), FramesOf(e.stackTrace);
      assert AllFrames(ex) == inner + own;
      var start := c;
      if e.innerException.Some? {
        var ri := RenderException(c, e.innerException);
        RenderExceptionWarms(c, e.innerException);
        start := ri.caches;
      }
      assert FramesResolved(start, inner);
      RenderFramesWarms(start, own);
      forall i | 0 <= i < |AllFrames(ex)|
        ensures AllFrames(ex)[i].methodBase.methodModule.isDynamic || AllFrames(ex)[i].methodBase.methodModule in r.caches.symLoadedModules
      {
        if i < |inner| {
          assert AllFrames(ex)[i] == inner[i];
        } else {
          assert AllFrames(ex)[i] == own[i - |inner|];
        }
      }
    }
  }

  /** The frame heads one after the other, built from the front: the reference text of a trace with nothing to resolve. */
  function Heads(frames: seq<StackFrame>): string
    decreases |frames|
  {
    if frames == [] then "" else FrameHead(frames[0].methodBase) + Heads(frames[1..])
  }

  /**
   * Frames of dynamic modules with no runtime file (code emitted at run time)
   * render as their signature lines alone, load nothing and leave the caches
   * untouched.
   */
  lemma {:induction false} DynamicFramesRenderSignatures(c: Caches, frames: seq<StackFrame>)
    requires Coherent(c)
    requires forall i :: 0 <= i < |frames| ==> frames[i].methodBase.methodModule.isDynamic && IsNullOrEmpty(frames[i].fileName)
    ensures var r := RenderFrames(c, frames);
      r.text == Heads(frames) && r.caches == c && r.outcome == Pass && r.loads == 0
    decreases |frames|
  {
    if frames != [] {
      var init, last := frames[..|frames| - 1], frames[|frames| - 1];
      DynamicFramesRenderSignatures(c, init);
      assert last.methodBase.methodModule !in c.symLoadedModules;
      assert RenderFrame(c, last) == Rendered(FrameHead(last.methodBase), c, Pass, 0, {last.methodBase});
      HeadsSnoc(init, last);
      assert init + [last] == frames;
    }
  }

  lemma {:induction false} HeadsSnoc(frames: seq<StackFrame>, f: StackFrame)
    ensures Heads(frames + [f]) == Heads(frames) + FrameHead(f.methodBase)
    decreases |frames|
  {
    if frames == [] {
      assert [f][1..] == [];
    } else {
      assert (frames + [f])[1..] == frames[1..] + [f];
      HeadsSnoc(frames[1..], f);
    }
  }
}
