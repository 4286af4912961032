/**
 * What the modelled code reads from outside: the Portable PDB metadata
 * reader of System.Reflection.Metadata, the module being traced, and the
 * DbgHelp symbol handler. Each is an abstract value handed to the model; the
 * parsing and the native calls behind them are not modelled.
 */
module Metadata {
  import opened TraceBasics

  /** SequencePoint.HiddenLine of System.Reflection.Metadata. */
  const HiddenLine: int := 0xFEEFEE

  /** Kind GUID of the Portable PDB custom debug information record holding Source Link JSON. */
  const SourceLinkId: Guid := "CC110556-A091-4D38-9FEC-25AB9A351A6A"

  /** A GUID in its canonical upper-case "D" form; two GUIDs are equal when their forms are. */
  type Guid = string

  /** A row number of the Document table; 0 is the nil handle. */
  type DocumentHandle = int

  datatype SequencePoint = SequencePoint(offset: int, startLine: int, startColumn: int, document: DocumentHandle)

  /**
   * A method's sequence-points blob: the nil blob, or a blob that either
   * decodes to its points (Some) or makes GetSequencePoints' enumeration
   * throw (None).
   */
  datatype SequencePointsBlob = NilBlob | Blob(decoded: Option<seq<SequencePoint>>)

  /** What MetadataTokens.Handle makes of a method's metadata token. */
  datatype HandleKind = MethodDefinitionKind | OtherKind
  datatype Handle = Handle(kind: HandleKind, row: int)

  /** What DataContractJsonSerializer makes of a Source Link blob: its "documents" object in enumeration order (None when absent), or an exception. */
  datatype JsonResult = JsonParsed(documents: Option<seq<(string, string)>>) | JsonMalformed

  datatype CustomDebugInformation = CustomDebugInformation(kind: Guid, blob: seq<bv8>, json: JsonResult)

  /**
   * A Portable PDB metadata reader: the MethodDebugInformation table (row r
   * at index r - 1), the Document table's names (row r at index r - 1) and the
   * custom debug information attached to the module definition.
   */
  datatype MetadataReader = MetadataReader(
    methodDebugInformation: seq<SequencePointsBlob>,
    documents: seq<string>,
    moduleCustomDebugInformation: seq<CustomDebugInformation>)

  /** reader.GetString(reader.GetDocument(h).Name), or None where GetDocument throws. */
  function DocumentName(reader: MetadataReader, h: DocumentHandle): Option<string>
  {
    if 1 <= h <= |reader.documents| then Some(reader.documents[h - 1]) else None
  }

  /**
   * What probing a module for a portable PDB yields: no PDB (null provider, or
   * the "Invalid COR20 header signature." exception that is caught), a reader,
   * or any other exception.
   */
  datatype PortableProbe = NoPortablePdb | PortablePdb(reader: MetadataReader) | ProbeThrows

  /** One file reported by SymEnumSourceFiles. */
  datatype SourceFile = SourceFile(modBase: int, fileName: string)

  /**
   * What DbgHelp answers for a module: SymLoadModule64's result (0 is
   * failure), the files SymEnumSourceFiles reports in order, the paths
   * SymGetSourceFile succeeds with, and whether the enumeration and the
   * unload calls report success.
   */
  datatype NativeSymbols = NativeSymbols(
    loadResult: int,
    sourceFiles: seq<SourceFile>,
    sourceServer: map<SourceFile, string>,
    enumOk: bool,
    unloadOk: bool)

  /** A loaded module, with what its debug information sources will answer. */
  datatype Module = Module(
    name: string,
    hinstance: int,
    isDynamic: bool,
    portable: PortableProbe,
    native: NativeSymbols)
}
