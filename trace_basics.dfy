/**
 * Small value types and string helpers shared by the model of
 * StackExchange.Exceptional.SourceLink: optional values, the exceptions the
 * C# code lets propagate (as an Outcome), joining, integer formatting and
 * the single-character String.Replace calls the code makes.
 */
module TraceBasics {

  datatype Option<T> = None | Some(value: T)

  /** The exceptions that escape the modelled code, one case per origin. */
  datatype Error =
    | PdbProbeFailed       // reading the module or its PDB threw something other than the tolerated BadImageFormatException
    | SourceLinkMalformed  // the JSON serializer rejected a non-empty Source Link blob
    | SourceLinkMissing    // the PDB has no Source Link record, so reading the default record's Value throws NullReferenceException
    | NativeLoadFailed     // SymLoadModule64 returned 0, so Marshal.ThrowExceptionForHR threw
    | NativeCallFailed     // SymEnumSourceFiles or SymUnloadModule64 reported failure to WINAPI
    | MetadataReadFailed   // GetMethodDebugInformation was asked for a method row the table does not hold
    | CleanupFailed        // SymCleanup reported failure to WINAPI

  /** Whether a statement sequence ran to its end or an exception escaped it. */
  datatype Outcome = Pass | Fail(error: Error)

  datatype Result<T> = Ok(value: T) | Err(error: Error)

  /** Environment.NewLine on Windows, the only platform DbgHelp exists on. */
  const NewLine: string := "\r\n"

  /** string.IsNullOrEmpty, with None standing for null. */
  predicate IsNullOrEmpty(s: Option<string>)
  {
    s.None? || s.value == ""
  }

  /** The items separated by sep: string.Join, or a StringBuilder loop with a delimiter. */
  function Join(items: seq<string>, sep: string): string
  {
    if |items| == 0 then ""
    else if |items| == 1 then items[0]
    else items[0] + sep + Join(items[1..], sep)
  }

  /** Appending in two steps is appending the two parts at once. */
  lemma AppendTwice<T>(a: seq<T>, b: seq<T>, c: seq<T>)
    ensures (a + b) + c == a + (b + c)
  {
  }

  /** Joining one more item appends the separator and the item. */
  lemma {:induction false} JoinSnoc(items: seq<string>, x: string, sep: string)
    requires |items| > 0
    ensures Join(items + [x], sep) == Join(items, sep) + sep + x
  {
    if |items| == 1 {
      assert items + [x] == [items[0], x];
      assert ([items[0], x])[1..] == [x];
    } else {
      assert (items + [x])[1..] == items[1..] + [x];
      JoinSnoc(items[1..], x, sep);
    }
  }

  function DigitChar(d: nat): (c: char)
    requires d < 10
    ensures '0' <= c <= '9'
  {
    "0123456789"[d]
  }

  /** Decimal digits of n, most significant first, as Int32.ToString prints them. */
  function NatToString(n: nat): (s: string)
    ensures |s| >= 1
    ensures forall i :: 0 <= i < |s| ==> '0' <= s[i] <= '9'
    decreases n
  {
    if n < 10 then [DigitChar(n)] else NatToString(n / 10) + [DigitChar(n % 10)]
  }

  function IntToString(n: int): (s: string)
    ensures |s| >= 1
  {
    if n < 0 then "-" + NatToString(-n) else NatToString(n)
  }

  /** String.Replace(old, new) where old is the one character c. */
  function ReplaceAll(s: string, c: char, replacement: string): (r: string)
    ensures c !in s ==> r == s
    ensures c !in replacement ==> c !in r
    ensures forall x :: x in r ==> x in s || x in replacement
  {
    if s == [] then []
    else (if s[0] == c then replacement else [s[0]]) + ReplaceAll(s[1..], c, replacement)
  }
}
