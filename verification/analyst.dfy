/**
  The text processing of `analyzeBottleneck` (packages/backend/src/ai/analyst.ts)
  once the model's stream has ended: the analysis is the concatenation of the
  streamed deltas, the severity is read from a "## Severity:" line, and the
  issues and recommended actions are the bullet lines of two sections. The
  model call is not modelled: the stream's deltas are a parameter, `None` for
  a chunk without content.
 */
module Analyst {
  import opened Types
  import opened Text

  // ---------------------------------------------------------------------
  // The streamed text

  /** A delta counts when it is a non-empty string. */
  predicate Truthy(d: Option<string>) {
    d.Some? && d.value != []
  }

  /** A delta's text when it counts, nothing otherwise. */
  function TruthyText(d: Option<string>): Option<string> {
    if Truthy(d) then d else None
  }

  /**
    The deltas forwarded to `onToken`: one token per non-empty delta, in
    stream order, and nothing for the others.
   */
  function Forwarded(deltas: seq<Option<string>>): (r: seq<string>)
    ensures var idx := Kept(deltas, TruthyText);
      && |idx| == |r|
      && (forall k :: 0 <= k < |idx| ==> Truthy(deltas[idx[k]]) && r[k] == deltas[idx[k]].value)
      && (forall j, k :: 0 <= j < k < |idx| ==> idx[j] < idx[k])
      && (forall i :: 0 <= i < |deltas| && Truthy(deltas[i]) ==> i in idx)
    ensures forall k :: 0 <= k < |r| ==> r[k] != []
  {
    FilterMapCharacterization(deltas, TruthyText);
    FilterMap(deltas, TruthyText)
  }

  /** `fullText` after the stream: every truthy delta appended in turn. */
  function FullText(deltas: seq<Option<string>>): string {
    if |deltas| == 0 then []
    else FullText(deltas[..|deltas| - 1]) + (if Truthy(deltas[|deltas| - 1]) then deltas[|deltas| - 1].value else [])
  }

  /** The analysed text is exactly what was forwarded token by token, in the same order. */
  lemma {:induction false} FullTextIsForwarded(deltas: seq<Option<string>>)
    ensures FullText(deltas) == Concat(Forwarded(deltas))
  {
    if |deltas| > 0 {
      var init := deltas[..|deltas| - 1];
      var last := deltas[|deltas| - 1];
      FullTextIsForwarded(init);
      assert deltas == init + [last];
      var tail := if Truthy(last) then [last.value] else [];
      ForwardedSnoc(init, last);
      ConcatAppend(Forwarded(init), tail);
      assert Concat(tail) == if Truthy(last) then last.value else [] by {
        if Truthy(last) {
          assert tail[..0] == [];
        }
      }
    }
  }

  /** One more delta forwards its text when it is truthy and nothing otherwise. */
  lemma ForwardedSnoc(init: seq<Option<string>>, last: Option<string>)
    ensures Forwarded(init + [last]) == Forwarded(init) + (if Truthy(last) then [last.value] else [])
  {
    FilterMapAppend(init, [last], TruthyText);
    assert [last][1..] == [];
  }

  /** Streaming in two parts gives the two parts' texts one after the other. */
  lemma {:induction false} FullTextAppend(a: seq<Option<string>>, b: seq<Option<string>>)
    ensures FullText(a + b) == FullText(a) + FullText(b)
  {
    if |b| > 0 {
      var b' := b[..|b| - 1];
      FullTextAppend(a, b');
      assert (a + b)[..|a + b| - 1] == a + b';
    } else {
      assert a + b == a;
    }
  }

  // ---------------------------------------------------------------------
  // Severity: the first "## Severity:" heading, in any letter case, followed
  // by blanks and one of the three severity words

  const SeverityHeader := "## Severity:"

  /** The severity word at the start of `s`, compared without case. */
  function SeverityWord(s: string): Option<Severity> {
    if StartsWithIgnoringCase(s, "HEALTHY") then Some(Healthy)
    else if StartsWithIgnoringCase(s, "WARNING") then Some(Warning)
    else if StartsWithIgnoringCase(s, "CRITICAL") then Some(Critical)
    else None
  }

  /**
    Whether the pattern matches at position `q`: the header, any run of
    whitespace (greedily, which loses nothing since the words begin with a
    letter) and one of the three words.
   */
  function SeverityAt(text: string, q: nat): Option<Severity>
    requires q <= |text|
  {
    if StartsWithIgnoringCase(text[q..], SeverityHeader) then SeverityWord(TrimStart(text[q + |SeverityHeader|..]))
    else None
  }

  /** The least position in [from, last] where `p` holds, if any. */
  function FirstWhere(p: nat -> bool, from: nat, last: nat): (r: Option<nat>)
    decreases last + 1 - from
    ensures r.Some? ==> from <= r.value <= last && p(r.value)
    ensures r.Some? ==> forall q :: from <= q < r.value ==> !p(q)
    ensures r.None? ==> forall q :: from <= q <= last ==> !p(q)
  {
    if from > last then None
    else if p(from) then Some(from)
    else FirstWhere(p, from + 1, last)
  }

  /** The least position in [from, last] where `p` holds is the one before which it never holds. */
  lemma FirstWhereIs(p: nat -> bool, from: nat, last: nat, q: nat)
    requires from <= q <= last && p(q)
    requires forall r :: from <= r < q ==> !p(r)
    ensures FirstWhere(p, from, last) == Some(q)
  {
  }

  lemma FirstWhereNone(p: nat -> bool, from: nat, last: nat)
    requires forall r :: from <= r <= last ==> !p(r)
    ensures FirstWhere(p, from, last) == None
  {
  }

  predicate MatchesAt(text: string, q: nat) {
    q <= |text| && SeverityAt(text, q).Some?
  }

  function Matches(text: string): nat -> bool {
    (q: nat) => MatchesAt(text, q)
  }

  /** The word of the leftmost match; `warning` when nothing matches. */
  function SeverityOf(text: string): Severity {
    match FirstWhere(Matches(text), 0, |text|)
    case None => Warning
    case Some(q) => SeverityAt(text, q).value
  }

  /** The first match decides: whatever follows it, its word is the severity. */
  lemma SeverityIsFirstMatch(text: string, q: nat)
    requires q <= |text| && SeverityAt(text, q).Some?
    requires forall r :: 0 <= r < q ==> SeverityAt(text, r).None?
    ensures SeverityOf(text) == SeverityAt(text, q).value
  {
    var p := Matches(text);
    assert p(q);
    forall r | 0 <= r < q
      ensures !p(r)
    {
      assert SeverityAt(text, r).None?;
    }
    FirstWhereIs(p, 0, |text|, q);
  }

  /** Without a match anywhere the severity is `warning`. */
  lemma SeverityWithoutMatch(text: string)
    requires forall q :: 0 <= q <= |text| ==> SeverityAt(text, q).None?
    ensures SeverityOf(text) == Warning
  {
    var p := Matches(text);
    forall r | 0 <= r <= |text|
      ensures !p(r)
    {
      assert SeverityAt(text, r).None?;
    }
    FirstWhereNone(p, 0, |text|);
  }

  // ---------------------------------------------------------------------
  // Sections: the shortest text after a header that ends at "##" or at the
  // end of the reply

  const IssuesHeader := "## Issues Detected\n"
  const ActionsHeader := "## Recommended Actions\n"

  /** `h` is where `header` first occurs in `text`. */
  predicate FirstAt(text: string, header: string, h: nat) {
    && h <= |text|
    && StartsWith(text[h..], header)
    && forall q :: 0 <= q < h ==> !StartsWith(text[q..], header)
  }

  /**
    `r` is what the lazy group captures from `start`: the text from `start`
    up to the first "##" at or after it, or to the end of the text when no
    "##" follows.
   */
  predicate CapturedAt(text: string, start: nat, r: string) {
    && start + |r| <= |text|
    && text[start..start + |r|] == r
    && (start + |r| == |text| || StartsWith(text[start + |r|..], "##"))
    && forall q :: start <= q < start + |r| ==> !StartsWith(text[q..], "##")
  }

  /**
    The text after the first occurrence of `header` up to the next "##" or
    the end of the text; empty when the header does not occur.
   */
  function Section(text: string, header: string): (r: string)
    ensures forall h: nat :: FirstAt(text, header, h) ==> CapturedAt(text, h + |header|, r)
    ensures (forall q :: 0 <= q <= |text| ==> !StartsWith(text[q..], header)) ==> r == []
    ensures forall q :: 0 <= q <= |r| ==> !StartsWith(r[q..], "##")
  {
    match IndexOf(text, header, 0)
    case None => []
    case Some(h) =>
      FirstAtIsIndex(text, header, h);
      CaptureFrom(text, h + |header|)
  }

  /** The first occurrence that `IndexOf` finds is the only first occurrence. */
  lemma FirstAtIsIndex(text: string, header: string, h: nat)
    requires IndexOf(text, header, 0) == Some(h)
    ensures h + |header| <= |text|
    ensures forall h': nat :: FirstAt(text, header, h') ==> h' == h
  {
  }

  /** What the lazy group captures from `start`: the text up to the next "##", or the rest. */
  function CaptureFrom(text: string, start: nat): (r: string)
    requires start <= |text|
    ensures CapturedAt(text, start, r)
    ensures forall q :: 0 <= q <= |r| ==> !StartsWith(r[q..], "##")
  {
    match IndexOf(text, "##", start)
    case None =>
      NoMarkerInside(text, start, |text|);
      assert text[start..|text|] == text[start..];
      text[start..]
    case Some(end) =>
      NoMarkerInside(text, start, end);
      text[start..end]
  }

  /** A slice that starts no "##" inside the text starts none on its own either. */
  lemma NoMarkerInside(text: string, start: nat, end: nat)
    requires start <= end <= |text|
    requires forall q :: start <= q < end ==> !StartsWith(text[q..], "##")
    requires end == |text| || StartsWith(text[end..], "##")
    ensures forall q :: 0 <= q <= end - start ==> !StartsWith(text[start..end][q..], "##")
  {
    var r := text[start..end];
    forall q | 0 <= q <= |r|
      ensures !StartsWith(r[q..], "##")
    {
      if q + 2 <= |r| {
        assert r[q] == text[start + q] && r[q + 1] == text[start + q + 1];
        assert r[q..][..2] == text[start + q..][..2];
      }
    }
  }

  /** The lazy group captures one text only: it stops at the first "##". */
  lemma CapturedUnique(text: string, start: nat, a: string, b: string)
    requires CapturedAt(text, start, a) && CapturedAt(text, start, b)
    ensures a == b
  {
  }

  /**
    A header followed by a body and then either the next "##" heading or the
    end of the text: the section is exactly that body. This is the usual
    layout of a reply, where "## Issues Detected" is followed by
    "## Recommended Actions".
   */
  lemma SectionBetween(before: string, header: string, body: string, rest: string)
    requires forall q :: 0 <= q < |before| ==> !StartsWith((before + header)[q..], header)
    requires forall q :: 0 <= q < |body| ==> !StartsWith((body + rest)[q..], "##")
    requires rest == [] || StartsWith(rest, "##")
    ensures Section(before + header + body + rest, header) == body
  {
    var text := before + header + body + rest;
    var h := |before|;
    var start := h + |header|;
    assert text[h..][..|header|] == header;
    forall q | 0 <= q < h
      ensures !StartsWith(text[q..], header)
    {
      assert (before + header)[q..][..|header|] == text[q..][..|header|];
    }
    assert FirstAt(text, header, h);
    assert text[start..start + |body|] == body;
    assert text[start + |body|..] == rest;
    forall q | start <= q < start + |body|
      ensures !StartsWith(text[q..], "##")
    {
      assert text[q..] == (body + rest)[q - start..];
    }
    CapturedUnique(text, start, Section(text, header), body);
  }

  // ---------------------------------------------------------------------
  // Bullets

  /** A line is a bullet line when, once trimmed, it starts with a dash. */
  predicate IsBulletLine(l: string) {
    StartsWith(Trim(l), "-")
  }

  /**
    A leading dash and the whitespace after it are removed, then the line is
    trimmed. The dash is removed only when it is the line's very first
    character, so an indented "  - x" keeps its dash.
   */
  function Clean(l: string): string {
    Trim(if |l| > 0 && l[0] == '-' then TrimStart(l[1..]) else l)
  }

  /** A cleaned line has no blanks at either end. */
  lemma CleanIsTrimmed(l: string)
    ensures IsTrimmed(Clean(l))
  {
    TrimCharacterization(if |l| > 0 && l[0] == '-' then TrimStart(l[1..]) else l);
  }

  /** What one line contributes: its cleaned text, when it is a bullet line and that text is not empty. */
  function LineBullet(l: string): Option<string> {
    if IsBulletLine(l) && Clean(l) != [] then Some(Clean(l)) else None
  }

  /** The filter, map and filter over a section's lines, for any per-line step `f`. */
  function FilterMap<A>(lines: seq<A>, f: A -> Option<string>): (r: seq<string>)
    ensures |r| <= |lines|
  {
    if |lines| == 0 then []
    else (if f(lines[0]).Some? then [f(lines[0]).value] else []) + FilterMap(lines[1..], f)
  }

  /** The indices of the lines `f` keeps. */
  function Kept<A>(lines: seq<A>, f: A -> Option<string>): (idx: seq<nat>)
    ensures forall k :: 0 <= k < |idx| ==> idx[k] < |lines|
  {
    if |lines| == 0 then []
    else
      var rest := Kept(lines[1..], f);
      (if f(lines[0]).Some? then [0] else []) + seq(|rest|, k requires 0 <= k < |rest| => rest[k] + 1)
  }

  lemma {:induction false} KeptLength<A>(lines: seq<A>, f: A -> Option<string>)
    ensures |Kept(lines, f)| == |FilterMap(lines, f)|
  {
    if |lines| > 0 {
      KeptLength(lines[1..], f);
    }
  }

  lemma {:induction false} KeptValues<A>(lines: seq<A>, f: A -> Option<string>)
    ensures |Kept(lines, f)| == |FilterMap(lines, f)|
    ensures forall k :: 0 <= k < |Kept(lines, f)| ==>
      f(lines[Kept(lines, f)[k]]).Some? && FilterMap(lines, f)[k] == f(lines[Kept(lines, f)[k]]).value
  {
    KeptLength(lines, f);
    if |lines| > 0 {
      var tail := lines[1..];
      KeptValues(tail, f);
      var rest := Kept(tail, f);
      var out := FilterMap(tail, f);
      var idx := Kept(lines, f);
      var r := FilterMap(lines, f);
      var h := if f(lines[0]).Some? then 1 else 0;
      forall k | h <= k < |idx|
        ensures f(lines[idx[k]]).Some? && r[k] == f(lines[idx[k]]).value
      {
        assert idx[k] == rest[k - h] + 1;
        assert lines[idx[k]] == tail[rest[k - h]];
        assert r[k] == out[k - h];
      }
    }
  }

  lemma {:induction false} KeptIncreasing<A>(lines: seq<A>, f: A -> Option<string>)
    ensures forall j, k :: 0 <= j < k < |Kept(lines, f)| ==> Kept(lines, f)[j] < Kept(lines, f)[k]
  {
    if |lines| > 0 {
      KeptIncreasing(lines[1..], f);
    }
  }

  lemma {:induction false} KeptComplete<A>(lines: seq<A>, f: A -> Option<string>)
    ensures forall i :: 0 <= i < |lines| && f(lines[i]).Some? ==> i in Kept(lines, f)
  {
    if |lines| > 0 {
      var tail := lines[1..];
      KeptComplete(tail, f);
      var rest := Kept(tail, f);
      var idx := Kept(lines, f);
      var h := if f(lines[0]).Some? then 1 else 0;
      forall i | 0 < i < |lines| && f(lines[i]).Some?
        ensures i in idx
      {
        assert tail[i - 1] == lines[i];
        var k :| 0 <= k < |rest| && rest[k] == i - 1;
        assert idx[h + k] == i;
      }
    }
  }

  /**
    The output is the kept lines' values, one for one, in line order, and
    every line with a value is kept.
   */
  lemma FilterMapCharacterization<A>(lines: seq<A>, f: A -> Option<string>)
    ensures var idx := Kept(lines, f);
      && |idx| == |FilterMap(lines, f)|
      && (forall k :: 0 <= k < |idx| ==> f(lines[idx[k]]).Some? && FilterMap(lines, f)[k] == f(lines[idx[k]]).value)
      && (forall j, k :: 0 <= j < k < |idx| ==> idx[j] < idx[k])
      && (forall i :: 0 <= i < |lines| && f(lines[i]).Some? ==> i in idx)
  {
    KeptValues(lines, f);
    KeptIncreasing(lines, f);
    KeptComplete(lines, f);
  }

  /** Two runs of lines one after the other give the two outputs one after the other. */
  lemma {:induction false} FilterMapAppend<A>(a: seq<A>, b: seq<A>, f: A -> Option<string>)
    ensures FilterMap(a + b, f) == FilterMap(a, f) + FilterMap(b, f)
  {
    if |a| > 0 {
      FilterMapAppend(a[1..], b, f);
      assert (a + b)[1..] == a[1..] + b;
      assert (a + b)[0] == a[0];
    } else {
      assert a + b == b;
    }
  }

  /** The bullets of a section: non-empty, trimmed, one per contributing line in order. */
  function Bullets(section: string): (r: seq<string>)
    ensures forall k :: 0 <= k < |r| ==> r[k] != [] && IsTrimmed(r[k])
  {
    var lines := Split(section, '\n');
    var r := FilterMap(lines, LineBullet);
    FilterMapCharacterization(lines, LineBullet);
    forall k | 0 <= k < |r|
      ensures r[k] != [] && IsTrimmed(r[k])
    {
      var l := lines[Kept(lines, LineBullet)[k]];
      assert r[k] == Clean(l) != [];
      CleanIsTrimmed(l);
    }
    r
  }

  /** Sections joined by a line break give their bullets one after the other. */
  lemma BulletsOfJoinedSections(a: string, b: string)
    requires '\n' !in a
    ensures Bullets(a + "\n" + b) == Bullets(a) + Bullets(b)
  {
    SplitPrefix(a, b, '\n');
    SplitFree(a, '\n');
    assert a + "\n" + b == a + ['\n'] + b;
    FilterMapAppend([a], Split(b, '\n'), LineBullet);
  }

  /** A bullet written at the start of its line loses its dash and the blanks after it. */
  lemma DashedLine(s: string)
    requires IsTrimmed(s) && s != []
    ensures IsBulletLine("- " + s) && Clean("- " + s) == s
  {
    var l := "- " + s;
    assert l == ['-'] + ([' '] + s);
    assert l[0] == '-' && l[|l| - 1] == s[|s| - 1];
    TrimmedFixed(l);
    assert l[..1] == "-";
    TrimAfterDash(' ', s);
  }

  /** After a leading dash, a blank and a trimmed text, cleaning leaves the text. */
  lemma TrimAfterDash(c: char, t: string)
    requires IsSpace(c) && IsTrimmed(t)
    ensures Clean(['-'] + ([c] + t)) == t
  {
    assert (['-'] + ([c] + t))[1..] == [c] + t;
    TrimStartSkip(c, t);
    TrimmedFixed(t);
  }

  /** An indented bullet keeps its dash: " - x" is reported as "- x". */
  lemma IndentedDashKept(s: string)
    requires IsTrimmed(s) && s != []
    ensures IsBulletLine(" - " + s) && Clean(" - " + s) == "- " + s
  {
    var l := " - " + s;
    var t := "- " + s;
    assert l == [' '] + t;
    assert t[0] == '-' && t[|t| - 1] == s[|s| - 1];
    TrimAfterBlank(' ', t);
    assert t[..1] == "-";
  }

  // ---------------------------------------------------------------------
  // The result

  /**
    `analyzeBottleneck` once the stream has ended at time `now`: the text is
    what was forwarded token by token, and every issue and suggestion is a
    non-empty, trimmed bullet of its own section.
   */
  function Analyze(sessionId: string, deltas: seq<Option<string>>, now: int): (r: AIAnalysisResult)
    ensures r.sessionId == sessionId && r.analysis == FullText(deltas) && r.generatedAt == now
    ensures r.analysis == Concat(Forwarded(deltas))
    ensures r.severity == SeverityOf(FullText(deltas))
    ensures r.detectedIssues == Bullets(Section(FullText(deltas), IssuesHeader))
    ensures r.suggestions == Bullets(Section(FullText(deltas), ActionsHeader))
    ensures forall k :: 0 <= k < |r.detectedIssues| ==> r.detectedIssues[k] != [] && IsTrimmed(r.detectedIssues[k])
    ensures forall k :: 0 <= k < |r.suggestions| ==> r.suggestions[k] != [] && IsTrimmed(r.suggestions[k])
  {
    FullTextIsForwarded(deltas);
    var text := FullText(deltas);
    AIAnalysisResult(sessionId, text, SeverityOf(text),
      Bullets(Section(text, IssuesHeader)), Bullets(Section(text, ActionsHeader)), now)
  }

  /** Without an "## Issues Detected" header there are no issues. */
  lemma NoIssuesWithoutHeader(sessionId: string, deltas: seq<Option<string>>, now: int)
    requires forall q :: 0 <= q <= |FullText(deltas)| ==> !StartsWith(FullText(deltas)[q..], IssuesHeader)
    ensures Analyze(sessionId, deltas, now).detectedIssues == []
  {
    assert Split([], '\n') == [""];
    assert !IsBulletLine("");
  }
}
