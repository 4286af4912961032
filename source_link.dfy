/**
 * SourceLink: the Source Link document table of a Portable PDB and GetUrl,
 * which maps a build-time document path to a URL. A key without '*' matches
 * by ordinal equality. A key with '*' becomes a regular expression: the key's
 * text taken literally with each '*' turned into the greedy group
 * (?<path>.+), searched for anywhere in the path. Here that regular
 * expression is modelled by a backtracking matcher (MatchFrom, TryCaptures,
 * Search) and characterised by IsMatchAt: leftmost start, then longest
 * captures from the left.
 */
module SourceLinkMap {
  import opened TraceBasics
  import opened Metadata

  /**
   * A deserialised Source Link object: its "documents" dictionary as
   * (pattern, URL) pairs in enumeration order, or None when it is null.
   */
  datatype SourceLink = SourceLink(documents: Option<seq<(string, string)>>)

  /** SourceLink.Deserialize: a null or empty blob gives an empty object; otherwise the serializer's answer. */
  function Deserialize(blob: Option<seq<bv8>>, json: JsonResult): (r: Result<SourceLink>)
    ensures r.Err? ==> r.error == SourceLinkMalformed
  {
    if blob.None? || |blob.value| == 0 then Ok(SourceLink(None))
    else match json
      case JsonParsed(documents) => Ok(SourceLink(documents))
      case JsonMalformed => Err(SourceLinkMalformed)
  }

  /** The index of the first module-level custom debug information record whose kind is SourceLinkId (FirstOrDefault). */
  function FindSourceLinkRecord(records: seq<CustomDebugInformation>): (r: Option<nat>)
    ensures r.Some? ==> r.value < |records| && records[r.value].kind == SourceLinkId
    ensures r.Some? ==> forall i :: 0 <= i < r.value ==> records[i].kind != SourceLinkId
    ensures r.None? ==> forall i :: 0 <= i < |records| ==> records[i].kind != SourceLinkId
  {
    if records == [] then None
    else if records[0].kind == SourceLinkId then Some(0)
    else match FindSourceLinkRecord(records[1..])
      case None => None
      case Some(i) => Some(i + 1)
  }

  /**
   * The Source Link object of a PDB: the blob of the first Source Link record,
   * deserialised. Without such a record FirstOrDefault yields the default
   * CustomDebugInformation, whose Value dereferences a null reader, so the
   * read throws.
   */
  function ReadSourceLink(reader: MetadataReader): (r: Result<SourceLink>)
    ensures var records := reader.moduleCustomDebugInformation;
      (forall i :: 0 <= i < |records| ==> records[i].kind != SourceLinkId) ==> r == Err(SourceLinkMissing)
    ensures var records := reader.moduleCustomDebugInformation;
      r.Ok? ==> exists i :: 0 <= i < |records| && records[i].kind == SourceLinkId && Deserialize(Some(records[i].blob), records[i].json) == r
  {
    match FindSourceLinkRecord(reader.moduleCustomDebugInformation)
    case None => Err(SourceLinkMissing)
    case Some(i) =>
      var record := reader.moduleCustomDebugInformation[i];
      Deserialize(Some(record.blob), record.json)
  }

  /** The literal pieces of a key between its '*' characters. */
  function SplitStars(key: string): (pieces: seq<string>)
    ensures |pieces| >= 1
    ensures forall i :: 0 <= i < |pieces| ==> '*' !in pieces[i]
    ensures Join(pieces, "*") == key
    ensures ('*' in key) <==> |pieces| > 1
  {
    if key == [] then [""]
    else
      var rest := SplitStars(key[1..]);
      if key[0] == '*' then
        assert ([""] + rest)[1..] == rest;
        [""] + rest
      else
        var pieces := [[key[0]] + rest[0]] + rest[1..];
        assert |rest| > 1 ==> pieces[1..] == rest[1..];
        assert key == [key[0]] + key[1..];
        pieces
  }

  /** A regex group (.+) can capture c: at least one character, none of them a newline. */
  predicate ValidCapture(c: string)
  {
    |c| > 0 && '\n' !in c
  }

  /** The pieces with the captures put between them. */
  function Interleave(pieces: seq<string>, caps: seq<string>): string
    requires |caps| + 1 == |pieces|
    decreases |caps|
  {
    if |caps| == 0 then pieces[0] else pieces[0] + caps[0] + Interleave(pieces[1..], caps[1..])
  }

  /** The key's regular expression matches file from position start with the given captures. */
  ghost predicate IsMatchAt(pieces: seq<string>, caps: seq<string>, file: string, start: nat)
  {
    && |pieces| >= 1
    && |caps| + 1 == |pieces|
    && start <= |file|
    && (forall i :: 0 <= i < |caps| ==> ValidCapture(caps[i]))
    && Interleave(pieces, caps) <= file[start..]
  }

  /** Capture list a is not longer than b in the order the greedy groups prefer: compared by length from the left. */
  ghost predicate NoLonger(a: seq<string>, b: seq<string>)
    decreases |a|
  {
    && |a| == |b|
    && (|a| == 0 || |a[0]| < |b[0]| || (|a[0]| == |b[0]| && NoLonger(a[1..], b[1..])))
  }

  /** Tries the regex at one start position. */
  function MatchFrom(pieces: seq<string>, file: string, pos: nat): (r: Option<seq<string>>)
    requires |pieces| >= 1 && pos <= |file|
    ensures r.Some? ==> |r.value| + 1 == |pieces|
    decreases |pieces|, 0
  {
    if !(pieces[0] <= file[pos..]) then None
    else if |pieces| == 1 then Some([])
    else
      var capStart := pos + |pieces[0]|;
      TryCaptures(pieces[1..], file, capStart, |file| - capStart)
  }

  /** Greedy (.+) followed by the rest: tries the capture lengths len, len - 1, ..., 1 in turn. */
  function TryCaptures(rest: seq<string>, file: string, capStart: nat, len: nat): (r: Option<seq<string>>)
    requires |rest| >= 1 && capStart + len <= |file|
    ensures r.Some? ==> |r.value| == |rest|
    decreases |rest|, len + 1
  {
    if len == 0 then None
    else
      var cap := file[capStart .. capStart + len];
      var tail := if ValidCapture(cap) then MatchFrom(rest, file, capStart + len) else None;
      if tail.Some? then Some([cap] + tail.value)
      else TryCaptures(rest, file, capStart, len - 1)
  }

  /** Regex.Match on an unanchored pattern: the first start position at which the pattern matches. */
  function Search(pieces: seq<string>, file: string, start: nat): (r: Option<(nat, seq<string>)>)
    requires |pieces| >= 1 && start <= |file|
    ensures r.Some? ==> start <= r.value.0 <= |file| && |r.value.1| + 1 == |pieces|
    decreases |file| - start
  {
    var m := MatchFrom(pieces, file, start);
    if m.Some? then Some((start, m.value))
    else if start == |file| then None
    else Search(pieces, file, start + 1)
  }

  lemma PrefixConcat(a: string, b: string, s: string)
    ensures a + b <= s <==> a <= s && b <= s[|a|..]
  {
    if a + b <= s {
      assert s[..|a|] == (a + b)[..|a|] == a;
      assert s[|a|..][..|b|] == s[|a|..|a| + |b|] == (a + b)[|a|..] == b;
    }
    if a <= s && b <= s[|a|..] {
      assert s[..|a| + |b|] == s[..|a|] + s[|a|..][..|b|];
    }
  }

  /** A match with two or more pieces is the first piece, a capture, and a match of the remaining pieces after it. */
  lemma IsMatchAtCons(pieces: seq<string>, caps: seq<string>, file: string, pos: nat)
    requires |pieces| >= 2 && |caps| + 1 == |pieces| && pos <= |file|
    ensures IsMatchAt(pieces, caps, file, pos) <==>
      && pieces[0] <= file[pos..]
      && ValidCapture(caps[0])
      && pos + |pieces[0]| + |caps[0]| <= |file|
      && file[pos + |pieces[0]| .. pos + |pieces[0]| + |caps[0]|] == caps[0]
      && IsMatchAt(pieces[1..], caps[1..], file, pos + |pieces[0]| + |caps[0]|)
  {
    var p0, c0 := pieces[0], caps[0];
    var tail := Interleave(pieces[1..], caps[1..]);
    assert Interleave(pieces, caps) == (p0 + c0) + tail;
    PrefixConcat(p0 + c0, tail, file[pos..]);
    PrefixConcat(p0, c0, file[pos..]);
    assert (forall i :: 0 <= i < |caps| ==> ValidCapture(caps[i])) <==>
           ValidCapture(c0) && forall i :: 0 <= i < |caps[1..]| ==> ValidCapture(caps[1..][i]) by {
      if ValidCapture(c0) && forall i :: 0 <= i < |caps[1..]| ==> ValidCapture(caps[1..][i]) {
        forall i | 0 <= i < |caps| ensures ValidCapture(caps[i]) {
          if i > 0 { assert caps[i] == caps[1..][i - 1]; }
        }
      }
    }
    if p0 + c0 <= file[pos..] {
      assert file[pos..][|p0|..] == file[pos + |p0|..];
      assert file[pos..][|p0 + c0|..] == file[pos + |p0| + |c0|..];
      assert c0 <= file[pos + |p0|..] <==> file[pos + |p0| .. pos + |p0| + |c0|] == c0;
    }
    if pieces[0] <= file[pos..] && pos + |p0| + |c0| <= |file| && file[pos + |p0| .. pos + |p0| + |c0|] == c0 {
      assert file[pos..][|p0|..] == file[pos + |p0|..];
      assert file[pos..][|p0 + c0|..] == file[pos + |p0| + |c0|..];
    }
  }

  /** What MatchFrom returns is a match at pos. */
  lemma {:induction false} MatchFromSound(pieces: seq<string>, file: string, pos: nat)
    requires |pieces| >= 1 && pos <= |file|
    ensures MatchFrom(pieces, file, pos).Some? ==> IsMatchAt(pieces, MatchFrom(pieces, file, pos).value, file, pos)
    decreases |pieces|, 0
  {
    var r := MatchFrom(pieces, file, pos);
    if r.Some? {
      if |pieces| == 1 {
        assert Interleave(pieces, r.value) == pieces[0];
      } else {
        var capStart := pos + |pieces[0]|;
        TryCapturesSound(pieces[1..], file, capStart, |file| - capStart);
        IsMatchAtCons(pieces, r.value, file, pos);
      }
    }
  }

  /** What TryCaptures returns is a capture of at most len characters at capStart followed by a match of rest. */
  lemma {:induction false} TryCapturesSound(rest: seq<string>, file: string, capStart: nat, len: nat)
    requires |rest| >= 1 && capStart + len <= |file|
    ensures var r := TryCaptures(rest, file, capStart, len);
      r.Some? ==>
        && |r.value| == |rest|
        && ValidCapture(r.value[0])
        && |r.value[0]| <= len
        && file[capStart .. capStart + |r.value[0]|] == r.value[0]
        && IsMatchAt(rest, r.value[1..], file, capStart + |r.value[0]|)
    decreases |rest|, len + 1
  {
    if len > 0 {
      var cap := file[capStart .. capStart + len];
      var tail := if ValidCapture(cap) then MatchFrom(rest, file, capStart + len) else None;
      if tail.Some? {
        MatchFromSound(rest, file, capStart + len);
        var v := [cap] + tail.value;
        assert TryCaptures(rest, file, capStart, len) == Some(v);
        assert v[0] == cap && v[1..] == tail.value;
      } else {
        TryCapturesSound(rest, file, capStart, len - 1);
      }
    }
  }

  /** Every match at pos is found by MatchFrom, and none has longer captures than the one it returns. */
  lemma {:induction false} MatchFromGreedy(pieces: seq<string>, caps: seq<string>, file: string, pos: nat)
    requires |pieces| >= 1 && pos <= |file|
    ensures IsMatchAt(pieces, caps, file, pos) ==>
      MatchFrom(pieces, file, pos).Some? && NoLonger(caps, MatchFrom(pieces, file, pos).value)
    decreases |pieces|, 0
  {
    if IsMatchAt(pieces, caps, file, pos) {
      if |pieces| == 1 {
        assert Interleave(pieces, caps) == pieces[0];
      } else {
        IsMatchAtCons(pieces, caps, file, pos);
        var capStart := pos + |pieces[0]|;
        TryCapturesGreedy(pieces[1..], caps, file, capStart, |file| - capStart);
      }
    }
  }

  lemma {:induction false} TryCapturesGreedy(rest: seq<string>, caps: seq<string>, file: string, capStart: nat, len: nat)
    requires |rest| >= 1 && capStart + len <= |file|
    requires |caps| == |rest| && ValidCapture(caps[0]) && |caps[0]| <= len
    requires file[capStart .. capStart + |caps[0]|] == caps[0]
    requires IsMatchAt(rest, caps[1..], file, capStart + |caps[0]|)
    ensures TryCaptures(rest, file, capStart, len).Some?
    ensures NoLonger(caps, TryCaptures(rest, file, capStart, len).value)
    decreases |rest|, len + 1
  {
    var cap := file[capStart .. capStart + len];
    if len == |caps[0]| {
      MatchFromGreedy(rest, caps[1..], file, capStart + len);
      var tail := MatchFrom(rest, file, capStart + len).value;
      assert ([cap] + tail)[1..] == tail;
    } else {
      var tail := if ValidCapture(cap) then MatchFrom(rest, file, capStart + len) else None;
      if tail.Some? {
        assert |([cap] + tail.value)[0]| == len;
      } else {
        TryCapturesGreedy(rest, caps, file, capStart, len - 1);
      }
    }
  }

  /**
   * Search finds the leftmost start at or after start where the pattern
   * matches, with the longest captures there; it finds nothing only when the
   * pattern matches nowhere from start on.
   */
  lemma {:induction false} SearchSpec(pieces: seq<string>, file: string, start: nat)
    requires |pieces| >= 1 && start <= |file|
    ensures var r := Search(pieces, file, start);
      r.Some? ==>
        && IsMatchAt(pieces, r.value.1, file, r.value.0)
        && (forall t, caps :: start <= t < r.value.0 ==> !IsMatchAt(pieces, caps, file, t))
        && (forall caps :: IsMatchAt(pieces, caps, file, r.value.0) ==> NoLonger(caps, r.value.1))
    ensures Search(pieces, file, start).None? ==> forall t, caps :: start <= t ==> !IsMatchAt(pieces, caps, file, t)
    decreases |file| - start
  {
    var m := MatchFrom(pieces, file, start);
    forall caps ensures IsMatchAt(pieces, caps, file, start) ==> m.Some? && NoLonger(caps, m.value) {
      MatchFromGreedy(pieces, caps, file, start);
    }
    if m.Some? {
      MatchFromSound(pieces, file, start);
    } else if start < |file| {
      SearchSpec(pieces, file, start + 1);
    }
  }

  /** The URL a wildcard key gives: every '*' of the template replaced by the (last) capture with '\' turned into '/'. */
  function WildcardUrl(key: string, url: string, file: string): Option<string>
    requires '*' in key
  {
    var pieces := SplitStars(key);
    match Search(pieces, file, 0)
    case None => None
    case Some((_, caps)) => Some(ReplaceAll(url, '*', ReplaceAll(caps[|caps| - 1], '\\', "/")))
  }

  /** One iteration of GetUrl's loop: the URL entry (key, url) gives for file, if it matches. */
  function MatchEntry(entry: (string, string), file: string): Option<string>
  {
    var (key, url) := entry;
    if '*' in key then WildcardUrl(key, url, file)
    else if key == file then Some(url)
    else None
  }

  /** GetUrl's loop: the first entry that matches decides; no match returns file. */
  function FirstMatch(documents: seq<(string, string)>, file: string): (r: string)
    ensures r == file || exists i :: 0 <= i < |documents| && MatchEntry(documents[i], file) == Some(r)
  {
    if documents == [] then file
    else match MatchEntry(documents[0], file)
      case Some(url) => url
      case None => FirstMatch(documents[1..], file)
  }

  /** SourceLink.GetUrl: the path itself, or the URL some entry of the table gives for it. */
  function GetUrl(sourceLink: SourceLink, file: string): (r: string)
    ensures r == file || (sourceLink.documents.Some? &&
      exists i :: 0 <= i < |sourceLink.documents.value| && MatchEntry(sourceLink.documents.value[i], file) == Some(r))
  {
    if sourceLink.documents.None? || |sourceLink.documents.value| == 0 then file
    else FirstMatch(sourceLink.documents.value, file)
  }

  /** Whether the pattern's regular expression matches anywhere in file. */
  ghost predicate MatchesSomewhere(pieces: seq<string>, file: string)
  {
    exists t: nat, caps :: IsMatchAt(pieces, caps, file, t)
  }

  /** The wildcard rule: a key with '*' yields a URL exactly when its regular expression matches somewhere in the path. */
  lemma WildcardUrlSpec(key: string, url: string, file: string)
    requires '*' in key
    ensures WildcardUrl(key, url, file).Some? <==> MatchesSomewhere(SplitStars(key), file)
  {
    var pieces := SplitStars(key);
    SearchSpec(pieces, file, 0);
    var r := Search(pieces, file, 0);
    if r.Some? {
      assert IsMatchAt(pieces, r.value.1, file, r.value.0);
    }
  }

  /** The URL a matching wildcard key yields is the template filled with the last capture of the leftmost, longest match. */
  lemma WildcardUrlCapture(key: string, url: string, file: string)
    requires '*' in key
    ensures WildcardUrl(key, url, file).Some? ==>
      exists s, caps :: && IsMatchAt(SplitStars(key), caps, file, s)
                        && (forall t, other :: t < s ==> !IsMatchAt(SplitStars(key), other, file, t))
                        && (forall other :: IsMatchAt(SplitStars(key), other, file, s) ==> NoLonger(other, caps))
                        && |caps| > 0
                        && WildcardUrl(key, url, file).value == ReplaceAll(url, '*', ReplaceAll(caps[|caps| - 1], '\\', "/"))
  {
    var pieces := SplitStars(key);
    SearchSpec(pieces, file, 0);
    var r := Search(pieces, file, 0);
    if r.Some? {
      var s, caps := r.value.0, r.value.1;
      assert WildcardUrl(key, url, file) == Some(ReplaceAll(url, '*', ReplaceAll(caps[|caps| - 1], '\\', "/")));
      assert IsMatchAt(pieces, caps, file, s);
    }
  }

  /** An empty or null document table maps every path to itself. */
  lemma EmptyTableIsIdentity(blob: Option<seq<bv8>>, json: JsonResult, file: string)
    requires blob.None? || |blob.value| == 0 || json == JsonParsed(None) || json == JsonParsed(Some([]))
    ensures Deserialize(blob, json).Ok?
    ensures GetUrl(Deserialize(blob, json).value, file) == file
  {
  }

  /** The first entry that matches decides the URL, whatever the later entries say. */
  lemma {:induction false} GetUrlFirstHit(documents: seq<(string, string)>, file: string, i: nat)
    requires i < |documents|
    requires MatchEntry(documents[i], file).Some?
    requires forall t :: 0 <= t < i ==> MatchEntry(documents[t], file).None?
    ensures GetUrl(SourceLink(Some(documents)), file) == MatchEntry(documents[i], file).value
  {
    FirstMatchHit(documents, file, i);
  }

  lemma {:induction false} FirstMatchHit(documents: seq<(string, string)>, file: string, i: nat)
    requires i < |documents|
    requires MatchEntry(documents[i], file).Some?
    requires forall t :: 0 <= t < i ==> MatchEntry(documents[t], file).None?
    ensures FirstMatch(documents, file) == MatchEntry(documents[i], file).value
  {
    if i > 0 {
      FirstMatchHit(documents[1..], file, i - 1);
    }
  }

  /** A path no entry matches comes back unchanged, so it is a fixed point of GetUrl. */
  lemma {:induction false} GetUrlNoHit(documents: seq<(string, string)>, file: string)
    requires forall t :: 0 <= t < |documents| ==> MatchEntry(documents[t], file).None?
    ensures GetUrl(SourceLink(Some(documents)), file) == file
    ensures GetUrl(SourceLink(Some(documents)), GetUrl(SourceLink(Some(documents)), file)) == file
  {
    FirstMatchNoHit(documents, file);
  }

  lemma {:induction false} FirstMatchNoHit(documents: seq<(string, string)>, file: string)
    requires forall t :: 0 <= t < |documents| ==> MatchEntry(documents[t], file).None?
    ensures FirstMatch(documents, file) == file
  {
    if documents != [] {
      FirstMatchNoHit(documents[1..], file);
    }
  }

  /**
   * A literal key is compared ordinally: it maps exactly the path that equals
   * it character by character, so a path differing from it only in letter case
   * is not mapped.
   */
  lemma LiteralKeyIsOrdinal(key: string, url: string, file: string)
    requires '*' !in key
    ensures MatchEntry((key, url), file).Some? <==> |key| == |file| && forall i :: 0 <= i < |key| ==> key[i] == file[i]
    ensures MatchEntry((key, url), file).Some? ==> MatchEntry((key, url), file).value == url
  {
    if |key| == |file| && forall i :: 0 <= i < |key| ==> key[i] == file[i] {
      assert key == file;
    }
  }

  // Example: key "/src/*" with template "https://example.org/test1234/*".
  lemma TrailingWildcardExample()
    ensures GetUrl(SourceLink(Some([("/src/*", "https://example.org/test1234/*")])), "/src/a/b.cs")
            == "https://example.org/test1234/a/b.cs"
  {
    var prefix, rest, base := "/src/", "a/b.cs", "https://example.org/test1234/";
    assert prefix + "*" == "/src/*" && prefix + rest == "/src/a/b.cs";
    assert base + "*" == "https://example.org/test1234/*" && base + rest == "https://example.org/test1234/a/b.cs";
    assert '*' !in prefix && '*' !in base && '\\' !in rest && ValidCapture(rest);
    TrailingWildcardUrl(prefix, rest, base);
  }

  /** A key whose only '*' is its last character maps a path that starts with the key's text to the template with the rest of the path in place of its '*'. */
  lemma TrailingWildcardUrl(prefix: string, rest: string, base: string)
    requires '*' !in prefix && '*' !in base && '\\' !in rest && ValidCapture(rest)
    ensures GetUrl(SourceLink(Some([(prefix + "*", base + "*")])), prefix + rest) == base + rest
  {
    var key, url, file := prefix + "*", base + "*", prefix + rest;
    assert '*' in key by { assert key[|prefix|] == '*'; }
    TrailingWildcardSearch(prefix, rest);
    assert WildcardUrl(key, url, file) == Some(ReplaceAll(url, '*', ReplaceAll(rest, '\\', "/")));
    ReplaceStarAtEnd(base, rest);
    assert MatchEntry((key, url), file) == Some(base + rest);
  }

  lemma ReplaceStarAtEnd(base: string, x: string)
    requires '*' !in base
    ensures ReplaceAll(base + "*", '*', x) == base + x
  {
    ReplaceAllConcat(base, "*", '*', x);
    assert ReplaceAll("*", '*', x) == x + ReplaceAll("", '*', x);
  }

  /** A key ending in its only '*' matches a path that starts with the key's text at position 0, capturing the remainder. */
  lemma TrailingWildcardSearch(prefix: string, rest: string)
    requires '*' !in prefix && ValidCapture(rest)
    ensures Search(SplitStars(prefix + "*"), prefix + rest, 0) == Some((0, [rest]))
  {
    var key, file := prefix + "*", prefix + rest;
    SplitStarsAt(key, |prefix|);
    assert key[..|prefix|] == prefix && key[|prefix| + 1..] == "";
    var pieces := [prefix, ""];
    assert file[0..] == file && prefix <= file;
    CaptureRemainder(prefix, rest);
    assert pieces[1..] == [""];
    assert MatchFrom(pieces, file, 0) == Some([rest]);
  }

  lemma CaptureRemainder(prefix: string, rest: string)
    requires ValidCapture(rest)
    ensures TryCaptures([""], prefix + rest, |prefix|, |rest|) == Some([rest])
  {
    var file := prefix + rest;
    var cap := file[|prefix| .. |prefix| + |rest|];
    assert cap == rest;
    assert [""][0] <= file[|file|..];
    assert MatchFrom([""], file, |prefix| + |rest|) == Some([]);
    assert [cap] + [] == [rest];
  }

  /** A key with exactly one '*', at index n, splits into the text before and after it. */
  lemma SplitStarsAt(key: string, n: nat)
    requires n < |key| && key[n] == '*'
    requires forall i :: 0 <= i < |key| && i != n ==> key[i] != '*'
    ensures SplitStars(key) == [key[..n], key[n + 1..]]
    decreases n
  {
    if n > 0 {
      SplitStarsAt(key[1..], n - 1);
      assert [key[0]] + key[1..][..n - 1] == key[..n];
    } else {
      assert '*' !in key[1..];
    }
  }

  lemma {:induction false} ReplaceAllConcat(a: string, b: string, c: char, replacement: string)
    ensures ReplaceAll(a + b, c, replacement) == ReplaceAll(a, c, replacement) + ReplaceAll(b, c, replacement)
  {
    if a != [] {
      assert (a + b)[1..] == a[1..] + b;
      assert (a + b)[0] == a[0];
      ReplaceAllConcat(a[1..], b, c, replacement);
      AppendTwice(if a[0] == c then replacement else [a[0]], ReplaceAll(a[1..], c, replacement), ReplaceAll(b, c, replacement));
    } else {
      assert a + b == b;
    }
  }
}
