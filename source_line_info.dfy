/**
 * GetSourceLineInfo: the file, line and column a method's sequence points
 * give an IL offset, found by a forward scan with a boundary adjustment and a
 * backward walk over hidden points.
 */
module SourceLineInfo {
  import opened TraceBasics
  import opened Metadata

  datatype LineInfo = LineInfo(file: Option<string>, line: int, column: int)

  /** The result of GetSourceLineInfo: its three out parameters, and whether an exception escaped. */
  datatype LineLookup = LineLookup(info: LineInfo, outcome: Outcome)

  const NoLineInfo := LineInfo(None, 0, 0)

  function Offsets(points: seq<SequencePoint>): seq<int>
  {
    seq(|points|, i requires 0 <= i < |points| => points[i].offset)
  }

  function Lines(points: seq<SequencePoint>): seq<int>
  {
    seq(|points|, i requires 0 <= i < |points| => points[i].startLine)
  }

  /** The first index whose offset is at least ilOffset, or |offsets| when there is none. */
  function FirstAtLeast(offsets: seq<int>, ilOffset: int): (k: nat)
    ensures k <= |offsets|
    ensures forall t :: 0 <= t < k ==> offsets[t] < ilOffset
    ensures k < |offsets| ==> offsets[k] >= ilOffset
  {
    if offsets == [] then 0
    else if offsets[0] >= ilOffset then 0
    else 1 + FirstAtLeast(offsets[1..], ilOffset)
  }

  /**
   * The index the forward scan settles on: k when offsets[k] == ilOffset,
   * k - 1 when offsets[k] > ilOffset and k > 0, and the last index when no
   * offset reaches ilOffset.
   */
  function SelectIndex(offsets: seq<int>, ilOffset: int): (j: nat)
    requires |offsets| > 0
    ensures j < |offsets|
  {
    var k := FirstAtLeast(offsets, ilOffset);
    if k == |offsets| then |offsets| - 1
    else if offsets[k] > ilOffset && k > 0 then k - 1
    else k
  }

  /** The index the walk over hidden points stops at: the last non-hidden index at or before j, else 0. */
  function WalkBack(lines: seq<int>, j: nat): (r: nat)
    requires j < |lines|
    ensures r <= j
    ensures lines[r] != HiddenLine || r == 0
    ensures forall t :: r < t <= j ==> lines[t] == HiddenLine
  {
    if lines[j] == HiddenLine && j > 0 then WalkBack(lines, j - 1) else j
  }

  /** What GetSourceLineInfo yields for the decoded, non-empty points of a method. */
  function PointInfo(reader: MetadataReader, points: seq<SequencePoint>, ilOffset: int): LineInfo
    requires |points| > 0
  {
    var j := WalkBack(Lines(points), SelectIndex(Offsets(points), ilOffset));
    var visible := points[j].startLine != HiddenLine;
    LineInfo(DocumentName(reader, points[j].document),
             if visible then points[j].startLine else 0,
             if visible then points[j].startColumn else 0)
  }

  /**
   * GetSourceLineInfo as a function. A missing reader, a handle that is not a
   * method definition, a nil blob, a blob that fails to decode and an empty
   * point list all give no file and line 0; a document that GetDocument
   * cannot resolve leaves the line and column set but the file null, since
   * that exception is swallowed after they were assigned. A method row outside
   * the table is read before the try block, so that exception escapes.
   */
  function LookupSourceLine(reader: Option<MetadataReader>, methodHandle: Handle, ilOffset: int): (r: LineLookup)
    ensures r.info.line != HiddenLine
    ensures r.outcome.Fail? ==> r == LineLookup(NoLineInfo, Fail(MetadataReadFailed))
    ensures r.info.file.Some? ==> reader.Some? && r.info.file.value in reader.value.documents
  {
    if reader.None? || methodHandle.kind != MethodDefinitionKind then LineLookup(NoLineInfo, Pass)
    else if !(1 <= methodHandle.row <= |reader.value.methodDebugInformation|) then LineLookup(NoLineInfo, Fail(MetadataReadFailed))
    else match reader.value.methodDebugInformation[methodHandle.row - 1]
      case NilBlob => LineLookup(NoLineInfo, Pass)
      case Blob(None) => LineLookup(NoLineInfo, Pass)
      case Blob(Some(points)) =>
        if |points| == 0 then LineLookup(NoLineInfo, Pass)
        else
          LookupNeverHidden(reader.value, points, ilOffset);
          LineLookup(PointInfo(reader.value, points, ilOffset), Pass)
  }

  /**
   * For offsets in strictly ascending order the scan finds the greatest entry
   * at or below ilOffset, or entry 0 when ilOffset precedes every entry.
   */
  lemma SelectIndexAscending(offsets: seq<int>, ilOffset: int)
    requires |offsets| > 0
    requires forall a, b :: 0 <= a < b < |offsets| ==> offsets[a] < offsets[b]
    ensures ilOffset < offsets[0] ==> SelectIndex(offsets, ilOffset) == 0
    ensures offsets[0] <= ilOffset ==>
      var j := SelectIndex(offsets, ilOffset);
      offsets[j] <= ilOffset && (j + 1 == |offsets| || offsets[j + 1] > ilOffset)
  {
    var k := FirstAtLeast(offsets, ilOffset);
    if k < |offsets| && k > 0 {
      assert offsets[k - 1] < ilOffset;
    }
  }

  /** The scan as the source states it: an exact hit is kept, an overshoot steps back one (never below 0), a miss takes the last entry. */
  lemma SelectIndexCases(offsets: seq<int>, ilOffset: int, k: nat)
    requires |offsets| > 0 && k <= |offsets|
    requires forall t :: 0 <= t < k ==> offsets[t] < ilOffset
    requires k < |offsets| ==> offsets[k] >= ilOffset
    ensures k == |offsets| ==> SelectIndex(offsets, ilOffset) == |offsets| - 1
    ensures k < |offsets| && offsets[k] == ilOffset ==> SelectIndex(offsets, ilOffset) == k
    ensures k < |offsets| && offsets[k] > ilOffset ==> SelectIndex(offsets, ilOffset) == if k > 0 then k - 1 else 0
  {
  }

  /**
   * The reported line is never the hidden marker. When every point from the
   * first up to the selected one is hidden, line and column stay 0 and the
   * file is still that of point 0.
   */
  lemma LookupNeverHidden(reader: MetadataReader, points: seq<SequencePoint>, ilOffset: int)
    requires |points| > 0
    ensures PointInfo(reader, points, ilOffset).line != HiddenLine
    ensures var j := SelectIndex(Offsets(points), ilOffset);
      (forall t :: 0 <= t <= j ==> points[t].startLine == HiddenLine) ==>
        PointInfo(reader, points, ilOffset) == LineInfo(DocumentName(reader, points[0].document), 0, 0)
  {
    var j := SelectIndex(Offsets(points), ilOffset);
    var r := WalkBack(Lines(points), j);
    if forall t :: 0 <= t <= j ==> points[t].startLine == HiddenLine {
      assert Lines(points)[r] == HiddenLine;
    }
  }

  /** The reported line, when there is one, is the line of the last visible point at or before the selected one. */
  lemma LookupVisibleLine(reader: MetadataReader, points: seq<SequencePoint>, ilOffset: int, t: nat)
    requires |points| > 0
    requires t <= SelectIndex(Offsets(points), ilOffset)
    requires points[t].startLine != HiddenLine
    requires forall u :: t < u <= SelectIndex(Offsets(points), ilOffset) ==> points[u].startLine == HiddenLine
    ensures PointInfo(reader, points, ilOffset) ==
      LineInfo(DocumentName(reader, points[t].document), points[t].startLine, points[t].startColumn)
  {
    var j := SelectIndex(Offsets(points), ilOffset);
    var r := WalkBack(Lines(points), j);
    assert Lines(points)[t] == points[t].startLine;
    assert Lines(points)[r] == points[r].startLine;
  }

  /**
   * GetSourceLineInfo: copies the points into four parallel arrays, scans for
   * the IL offset, walks back over hidden points and reads the document name.
   */
  method GetSourceLineInfo(reader: Option<MetadataReader>, methodHandle: Handle, ilOffset: int)
    returns (sourceFile: Option<string>, sourceLine: int, sourceColumn: int, outcome: Outcome)
    ensures LineLookup(LineInfo(sourceFile, sourceLine, sourceColumn), outcome) == LookupSourceLine(reader, methodHandle, ilOffset)
  {
    sourceFile, sourceLine, sourceColumn, outcome := None, 0, 0, Pass;
    if reader.None? || methodHandle.kind != MethodDefinitionKind {
      return;
    }
    var rd := reader.value;
    if !(1 <= methodHandle.row <= |rd.methodDebugInformation|) {
      outcome := Fail(MetadataReadFailed);
      return;
    }
    var methodInfo := rd.methodDebugInformation[methodHandle.row - 1];
    if methodInfo.NilBlob? || methodInfo.decoded.None? {
      // a nil blob is skipped; a blob that fails to decode throws inside the try block, and the catch swallows it
      return;
    }
    var sequencePoints := methodInfo.decoded.value;
    var sequencePointCount := |sequencePoints|;
    if sequencePointCount == 0 {
      return;
    }

    var offsets, lines, columns, documents := CopySequencePoints(sequencePoints);
    var j := ScanForOffset(offsets, ilOffset);
    j := SkipHiddenPoints(lines, j);
    assert j == WalkBack(Lines(sequencePoints), SelectIndex(Offsets(sequencePoints), ilOffset));

    if lines[j] != HiddenLine {
      sourceLine := lines[j];
      sourceColumn := columns[j];
    }
    sourceFile := DocumentName(rd, documents[j]);
  }

  /** The four parallel arrays GetSourceLineInfo fills from the points: offsets, start lines, start columns and documents. */
  method CopySequencePoints(sequencePoints: seq<SequencePoint>)
    returns (offsets: array<int>, lines: array<int>, columns: array<int>, documents: array<DocumentHandle>)
    ensures fresh(offsets) && fresh(lines) && fresh(columns) && fresh(documents)
    ensures offsets[..] == Offsets(sequencePoints) && lines[..] == Lines(sequencePoints)
    ensures columns.Length == documents.Length == |sequencePoints|
    ensures forall t :: 0 <= t < |sequencePoints| ==>
      columns[t] == sequencePoints[t].startColumn && documents[t] == sequencePoints[t].document
  {
    var sequencePointCount := |sequencePoints|;
    offsets := new int[sequencePointCount];
    lines := new int[sequencePointCount];
    columns := new int[sequencePointCount];
    documents := new DocumentHandle[sequencePointCount];
    for i := 0 to sequencePointCount
      invariant forall t :: 0 <= t < i ==> offsets[t] == sequencePoints[t].offset
      invariant forall t :: 0 <= t < i ==> lines[t] == sequencePoints[t].startLine
      invariant forall t :: 0 <= t < i ==> columns[t] == sequencePoints[t].startColumn
      invariant forall t :: 0 <= t < i ==> documents[t] == sequencePoints[t].document
    {
      offsets[i] := sequencePoints[i].offset;
      lines[i] := sequencePoints[i].startLine;
      columns[i] := sequencePoints[i].startColumn;
      documents[i] := sequencePoints[i].document;
    }
    assert offsets[..] == Offsets(sequencePoints);
    assert lines[..] == Lines(sequencePoints);
  }

  /**
   * The forward scan of GetSourceLineInfo: stops at the first offset at or
   * past ilOffset, steps back one when it overshot (unless at index 0), and
   * defaults to the last point when no offset reaches ilOffset.
   */
  method ScanForOffset(offsets: array<int>, ilOffset: int) returns (j: nat)
    requires offsets.Length > 0
    ensures j == SelectIndex(offsets[..], ilOffset)
  {
    j := 0;
    while j < offsets.Length
      invariant 0 <= j <= offsets.Length
      invariant forall t :: 0 <= t < j ==> offsets[t] < ilOffset
    {
      if offsets[j] >= ilOffset {
        SelectIndexCases(offsets[..], ilOffset, j);
        if offsets[j] > ilOffset && j > 0 {
          j := j - 1;
        }
        return;
      }
      j := j + 1;
    }
    // no match: default to the last sequence point
    SelectIndexCases(offsets[..], ilOffset, j);
    j := j - 1;
  }

  /** The backward walk of GetSourceLineInfo: steps back while the line is the hidden marker, stopping at index 0. */
  method SkipHiddenPoints(lines: array<int>, start: nat) returns (j: nat)
    requires start < lines.Length
    ensures j == WalkBack(lines[..], start)
  {
    j := start;
    while lines[j] == HiddenLine && j > 0
      invariant j < lines.Length
      invariant WalkBack(lines[..], j) == WalkBack(lines[..], start)
    {
      j := j - 1;
    }
  }
}
