/** Finding an evidence snippet in a document: `_normalized_text_with_map` and
    `_locate_evidence_span` of brainstack/document_pipeline.py. */
module EvidenceSpans {
  import opened Results
  import opened Sequences
  import opened Text

  datatype Mapped = Mapped(chars: string, index: seq<nat>)

  datatype LocateError = BlankSnippet | SnippetNotFound

  /** What the normalising loop writes for one character: nothing for whitespace after whitespace. */
  function Push(m: Mapped, c: char, i: nat): (r: Mapped)
    requires |m.chars| == |m.index|
    ensures |r.chars| == |r.index|
  {
    if !IsSpace(c) then Mapped(m.chars + [c], m.index + [i])
    else if m.chars == "" || m.chars[|m.chars| - 1] == ' ' then m
    else Mapped(m.chars + " ", m.index + [i])
  }

  /** The two lists of the normalising loop after it has read all of `text`. */
  function Collapse(text: string): (m: Mapped)
    ensures |m.chars| == |m.index|
  {
    if text == "" then Mapped("", [])
    else Push(Collapse(text[..|text| - 1]), text[|text| - 1], |text| - 1)
  }

  function DropTrailingSpace(m: Mapped): (r: Mapped)
    requires |m.chars| == |m.index|
    ensures |r.chars| == |r.index|
  {
    var n := |m.chars|;
    if n > 0 && m.chars[n - 1] == ' ' then Mapped(m.chars[..n - 1], m.index[..n - 1]) else m
  }

  function NormalizedWithMap(text: string): (m: Mapped)
    ensures |m.chars| == |m.index|
  {
    DropTrailingSpace(Collapse(text))
  }

  method NormalizedTextWithMap(text: string) returns (normalized: string, indexMap: seq<nat>)
    ensures Mapped(normalized, indexMap) == NormalizedWithMap(text)
  {
    normalized, indexMap := "", [];
    for i := 0 to |text|
      invariant Mapped(normalized, indexMap) == Collapse(text[..i])
    {
      assert text[..i + 1][..i] == text[..i];
      if IsSpace(text[i]) {
        if normalized == "" || normalized[|normalized| - 1] == ' ' {
          continue;
        }
        normalized, indexMap := normalized + " ", indexMap + [i];
        continue;
      }
      normalized, indexMap := normalized + [text[i]], indexMap + [i];
    }
    assert text[..|text|] == text;
    if normalized != "" && normalized[|normalized| - 1] == ' ' {
      normalized, indexMap := normalized[..|normalized| - 1], indexMap[..|indexMap| - 1];
    }
  }

  // ----- the normalised text is split-and-join -----

  lemma {:induction false} CollapseIsJoin(text: string)
    ensures Collapse(text).chars ==
            Normalize(text) + if Normalize(text) != "" && IsSpace(text[|text| - 1]) then " " else ""
  {
    if text != "" {
      var i := |text| - 1;
      var front, c := text[..i], text[i];
      CollapseIsJoin(front);
      assert front + [c] == text;
      if IsSpace(c) {
        SnocSpace(front, c);
        NoTrailingSpace(front);
      } else if i == 0 || IsSpace(front[i - 1]) {
        SnocNewWord(front, c);
      } else {
        SnocSameWord(front, c);
      }
    }
  }

  lemma NoTrailingSpace(text: string)
    ensures var n := |Normalize(text)|; n > 0 ==> Normalize(text)[0] != ' ' && Normalize(text)[n - 1] != ' '
  {
    SpaceFacts(' ');
    if Words(text) != [] {
      JoinEnds(Words(text));
    }
  }

  lemma NormalizedIsSplitJoin(text: string)
    ensures NormalizedWithMap(text).chars == Normalize(text)
  {
    CollapseIsJoin(text);
    NoTrailingSpace(text);
  }

  // ----- the index map -----

  /** Position `k` of the normalised text stands for position `index[k]` of the original. */
  ghost predicate FaithfulMap(text: string, m: Mapped) {
    && |m.chars| == |m.index|
    && (forall k :: 0 <= k < |m.index| ==>
          m.index[k] < |text| && m.chars[k] == if IsSpace(text[m.index[k]]) then ' ' else text[m.index[k]])
    && (forall j, k :: 0 <= j < k < |m.index| ==> m.index[j] < m.index[k])
  }

  lemma {:induction false} CollapseFaithful(text: string)
    ensures FaithfulMap(text, Collapse(text))
  {
    if text != "" {
      CollapseFaithful(text[..|text| - 1]);
    }
  }

  lemma MapFaithful(text: string)
    ensures FaithfulMap(text, NormalizedWithMap(text))
  {
    CollapseFaithful(text);
  }

  lemma {:induction false} CollapsePrefix(text: string, i: nat)
    requires i <= |text|
    ensures Collapse(text[..i]).chars <= Collapse(text).chars
    ensures Collapse(text[..i]).index <= Collapse(text).index
  {
    if i < |text| {
      var front := text[..|text| - 1];
      CollapsePrefix(front, i);
      assert front[..i] == text[..i];
    } else {
      assert text[..i] == text;
    }
  }

  lemma PushAppend(m: Mapped, a: string, n: Mapped, c: char, i: nat, j: nat)
    requires |m.chars| == |m.index| && |n.chars| == |n.index|
    requires m.chars == a + n.chars && n.chars != ""
    ensures Push(m, c, i).chars == a + Push(n, c, j).chars && Push(n, c, j).chars != ""
  {
    assert m.chars[|m.chars| - 1] == n.chars[|n.chars| - 1];
  }

  lemma CollapseOne(c: char)
    requires !IsSpace(c)
    ensures Collapse([c]).chars == [c]
  {
    hide IsSpace;
    assert [c][..0] == "";
  }

  /** A cut just before a non-whitespace character cuts the normalised text in two as well. */
  lemma {:induction false} CollapseCut(text: string, i: nat)
    requires i < |text| && !IsSpace(text[i])
    ensures Collapse(text).chars == Collapse(text[..i]).chars + Collapse(text[i..]).chars
    ensures Collapse(text[i..]).chars != ""
  {
    var n := |text| - 1;
    var front, back := text[..n], text[i..];
    assert front + [text[n]] == text;
    hide IsSpace, Push, Collapse;
    if i == n {
      CollapseOne(text[i]);
      CollapseSnocWord(front, text[i]);
      assert back == [text[i]];
    } else {
      CollapseCut(front, i);
      assert front[..i] == text[..i];
      CutBothEnds(text, i, n);
      assert back == front[i..] + [text[n]];
      CollapseSnoc(front, text[n]);
      CollapseSnoc(front[i..], text[n]);
      PushAppend(Collapse(front), Collapse(text[..i]).chars, Collapse(front[i..]), text[n], n, n - i);
    }
  }

  lemma CollapseSnoc(text: string, c: char)
    ensures Collapse(text + [c]) == Push(Collapse(text), c, |text|)
  {
    hide Push;
    assert (text + [c])[..|text|] == text;
  }

  lemma CollapseSnocWord(text: string, c: char)
    requires !IsSpace(c)
    ensures Collapse(text + [c]).chars == Collapse(text).chars + [c]
  {
    hide IsSpace;
    assert (text + [c])[..|text|] == text;
  }

  /** The character behind position `a` is read when exactly `a` positions have been written. */
  lemma {:induction false} MapPosition(text: string, a: nat)
    requires a < |Collapse(text).index|
    ensures var i := Collapse(text).index[a];
            i < |text| && Written(text, i) == a && Written(text, i + 1) == a + 1
  {
    var n := |text| - 1;
    var front := text[..n];
    if a < |Collapse(front).index| {
      MapPosition(front, a);
      var i := Collapse(front).index[a];
      assert front[..i] == text[..i] && front[..i + 1] == text[..i + 1];
    } else {
      assert Collapse(text).index[a] == n;
      assert text[..n + 1] == text;
    }
  }

  function Written(text: string, i: nat): nat
    requires i <= |text|
  {
    |Collapse(text[..i]).chars|
  }

  /** A stretch with non-whitespace ends occupies, in the normalised text, exactly what it
      normalises to. */
  lemma CollapseSlice(text: string, i: nat, j: nat)
    requires i < j <= |text| && !IsSpace(text[i]) && !IsSpace(text[j - 1])
    ensures Written(text, i) < Written(text, j) <= |NormalizedWithMap(text).chars|
    ensures Collapse(text).chars[Written(text, i)..Written(text, j)] == Normalize(text[i..j])
  {
    hide Collapse, Normalize, IsSpace;
    var head := text[..j];
    CollapseCut(head, i);
    CutBothEnds(text, i, j);
    assert head[..i] == text[..i] && head[i..] == text[i..j];
    CollapseIsJoin(text[i..j]);
    CollapsePrefix(text, j);
    LastWritten(text, j);
    var a, h := Collapse(text[..i]).chars, Collapse(head).chars;
    assert h == a + Normalize(text[i..j]);
    assert Collapse(text).chars[..|h|] == h;
  }

  lemma LastWritten(text: string, j: nat)
    requires 0 < j <= |text| && !IsSpace(text[j - 1])
    ensures Written(text, j) <= |NormalizedWithMap(text).chars|
  {
    CollapsePrefix(text, j);
    SpaceFacts(' ');
    assert text[..j][..j - 1] == text[..j - 1];
    var h := Collapse(text[..j]).chars;
    assert h[|h| - 1] == text[j - 1] != ' ';
    assert h <= Collapse(text).chars;
  }

  /** Mapping a stretch of normalised text back gives an original stretch that normalises to it. */
  lemma MapBack(text: string, a: nat, b: nat, i: nat, j: nat)
    requires a < b <= |Collapse(text).chars|
    requires i == Collapse(text).index[a] && j == Collapse(text).index[b - 1] + 1
    requires Collapse(text).chars[a] != ' ' && Collapse(text).chars[b - 1] != ' '
    ensures i < j <= |text| && !IsSpace(text[i]) && !IsSpace(text[j - 1])
    ensures Normalize(text[i..j]) == Collapse(text).chars[a..b]
  {
    MapEnds(text, a, b, i, j);
    MapWritten(text, a, b, i, j);
    CollapseSlice(text, i, j);
  }

  lemma MapWritten(text: string, a: nat, b: nat, i: nat, j: nat)
    requires a < b <= |Collapse(text).chars|
    requires i == Collapse(text).index[a] && j == Collapse(text).index[b - 1] + 1
    ensures i < |text| && j <= |text| && Written(text, i) == a && Written(text, j) == b
  {
    hide Written, Collapse;
    MapPosition(text, a);
    MapPosition(text, b - 1);
  }

  lemma MapEnds(text: string, a: nat, b: nat, i: nat, j: nat)
    requires a < b <= |Collapse(text).chars|
    requires i == Collapse(text).index[a] && j == Collapse(text).index[b - 1] + 1
    requires Collapse(text).chars[a] != ' ' && Collapse(text).chars[b - 1] != ' '
    ensures i < j <= |text| && !IsSpace(text[i]) && !IsSpace(text[j - 1])
  {
    CollapseFaithful(text);
    if a < b - 1 {
      assert Collapse(text).index[a] < Collapse(text).index[b - 1];
    }
  }

  /** Every stretch with non-whitespace ends shows up in the normalised text, at a position that
      maps back to where it starts. */
  lemma StretchShowsUp(text: string, i: nat, j: nat) returns (a: nat)
    requires i < j <= |text| && !IsSpace(text[i]) && !IsSpace(text[j - 1])
    ensures OccursAt(NormalizedWithMap(text).chars, Normalize(text[i..j]), a)
    ensures a < |NormalizedWithMap(text).index| && NormalizedWithMap(text).index[a] == i
  {
    a := Written(text, i);
    CollapseSlice(text, i, j);
    var b, m, n := Written(text, j), Collapse(text), NormalizedWithMap(text);
    assert n.chars[a..b] == m.chars[a..b];
    MapsTo(text, i);
  }

  lemma MapsTo(text: string, i: nat)
    requires i < |text| && !IsSpace(text[i])
    ensures Written(text, i) < |Collapse(text).index| && Collapse(text).index[Written(text, i)] == i
  {
    var up := text[..i + 1];
    assert up[..i] == text[..i];
    assert Collapse(up).index == Collapse(text[..i]).index + [i];
    CollapsePrefix(text, i + 1);
  }

  // ----- locating a snippet -----

  /** The original span behind `n` characters of normalised text. */
  function MappedBack(m: Mapped, at: nat, n: nat): (nat, nat)
    requires 0 < n && at + n <= |m.index|
  {
    (m.index[at], m.index[at + n - 1] + 1)
  }

  function LocateSpan(content: string, snippet: string): (r: Result<(nat, nat), LocateError>) {
    if Strip(snippet) == "" then Failure(BlankSnippet)
    else
      var direct := Find(content, snippet, 0);
      if direct != -1 then Success((direct, direct + |snippet|))
      else
        var m, p := NormalizedWithMap(content), NormalizedWithMap(snippet).chars;
        var at := Find(m.chars, p, 0);
        if at == -1 then Failure(SnippetNotFound)
        else
          SnippetNotEmpty(snippet);
          Success(MappedBack(m, at, |p|))
  }

  method LocateEvidenceSpan(content: string, snippet: string) returns (r: Result<(nat, nat), LocateError>)
    ensures r == LocateSpan(content, snippet)
  {
    hide NormalizedWithMap, Strip, IsSpace;
    if Strip(snippet) == "" {
      return Failure(BlankSnippet);
    }
    var directStart := Find(content, snippet, 0);
    if directStart != -1 {
      return Success((directStart, directStart + |snippet|));
    }
    var normalizedContent, contentMap := NormalizedTextWithMap(content);
    var normalizedSnippet, _ := NormalizedTextWithMap(snippet);
    var normalizedStart := Find(normalizedContent, normalizedSnippet, 0);
    if normalizedStart == -1 {
      return Failure(SnippetNotFound);
    }
    SnippetNotEmpty(snippet);
    assert |normalizedContent| == |contentMap|;
    var normalizedEnd := normalizedStart + |normalizedSnippet|;
    return Success((contentMap[normalizedStart], contentMap[normalizedEnd - 1] + 1));
  }

  lemma SnippetNotEmpty(snippet: string)
    requires Strip(snippet) != ""
    ensures NormalizedWithMap(snippet).chars == Normalize(snippet) != ""
  {
    NormalizedIsSplitJoin(snippet);
    NormalizeIdempotent(snippet);
    StripBlank(snippet);
  }

  ghost predicate Matches(content: string, snippet: string, i: int, j: int) {
    0 <= i <= j <= |content| && Normalize(content[i..j]) == Normalize(snippet)
  }

  /** Whatever span is returned is in bounds, non-empty and normalises to the normalised snippet. */
  lemma LocateFaithful(content: string, snippet: string)
    requires LocateSpan(content, snippet).Success?
    ensures var (i, j) := LocateSpan(content, snippet).value;
            i < j && Matches(content, snippet, i, j)
  {
    hide Normalize, NormalizedWithMap, IsSpace;
    if Find(content, snippet, 0) == -1 {
      NormalizedMatch(content, snippet);
    }
  }

  lemma NormalizedMatch(content: string, snippet: string)
    requires Strip(snippet) != "" && Find(content, snippet, 0) == -1
    requires LocateSpan(content, snippet).Success?
    ensures var (i, j) := LocateSpan(content, snippet).value;
            i < j && Matches(content, snippet, i, j) && !IsSpace(content[i]) && !IsSpace(content[j - 1])
  {
    SnippetNotEmpty(snippet);
    var m, p := NormalizedWithMap(content), Normalize(snippet);
    var at := Find(m.chars, p, 0);
    var (i, j) := LocateSpan(content, snippet).value;
    assert (i, j) == MappedBack(m, at, |p|);
    NoTrailingSpace(snippet);
    NormalizedHit(content, p, at);
  }

  lemma NormalizedHit(content: string, p: string, at: nat)
    requires p != "" && p[0] != ' ' && p[|p| - 1] != ' '
    requires OccursAt(NormalizedWithMap(content).chars, p, at)
    ensures var (i, j) := MappedBack(NormalizedWithMap(content), at, |p|);
            && i < j <= |content| && !IsSpace(content[i]) && !IsSpace(content[j - 1])
            && Normalize(content[i..j]) == p
  {
    var c, m := Collapse(content), NormalizedWithMap(content);
    hide Collapse, IsSpace, Normalize;
    var (i, j) := MappedBack(m, at, |p|);
    assert c.chars[at..at + |p|] == m.chars[at..at + |p|] == p;
    assert c.chars[at] == p[0] && c.chars[at + |p| - 1] == p[|p| - 1];
    MapBack(content, at, at + |p|, i, j);
  }

  lemma DropFirst(content: string, i: nat, j: nat)
    requires i < j <= |content| && IsSpace(content[i])
    ensures Normalize(content[i + 1..j]) == Normalize(content[i..j])
  {
    DropOuterSpace(content[i..j]);
    assert content[i..j][1..] == content[i + 1..j];
  }

  lemma DropLast(content: string, i: nat, j: nat)
    requires i < j <= |content| && IsSpace(content[j - 1])
    ensures Normalize(content[i..j - 1]) == Normalize(content[i..j])
  {
    DropOuterSpace(content[i..j]);
    assert content[i..j][..j - i - 1] == content[i..j - 1];
  }

  lemma EmptyStretch(content: string, i: nat)
    requires i <= |content|
    ensures Normalize(content[i..i]) == ""
  {
    assert content[i..i] == "";
  }

  /** Trimming a stretch keeps what it normalises to. */
  lemma {:induction false} TrimStretch(content: string, i: nat, j: nat) returns (i': nat, j': nat)
    requires i <= j <= |content| && Normalize(content[i..j]) != ""
    ensures i <= i' < j' <= j && !IsSpace(content[i']) && !IsSpace(content[j' - 1])
    ensures forall k :: i <= k < j && !IsSpace(content[k]) ==> i' <= k
    ensures Normalize(content[i'..j']) == Normalize(content[i..j])
    decreases j - i
  {
    EmptyStretch(content, i);
    hide Normalize, IsSpace;
    if IsSpace(content[i]) {
      DropFirst(content, i, j);
      i', j' := TrimStretch(content, i + 1, j);
    } else if IsSpace(content[j - 1]) {
      DropLast(content, i, j);
      i', j' := TrimStretch(content, i, j - 1);
    } else {
      i', j' := i, j;
    }
  }

  /** The search is complete: a non-blank snippet is located exactly when some stretch of the
      document normalises to the same text. */
  lemma LocateComplete(content: string, snippet: string)
    ensures LocateSpan(content, snippet) == Failure(BlankSnippet) <==> Blank(snippet)
    ensures !Blank(snippet) ==>
              (LocateSpan(content, snippet).Success? <==> exists i, j :: Matches(content, snippet, i, j))
  {
    StripBlank(snippet);
    if !Blank(snippet) {
      if LocateSpan(content, snippet).Success? {
        LocateFaithful(content, snippet);
      }
      forall i, j | Matches(content, snippet, i, j) && Find(content, snippet, 0) == -1
        ensures LocateSpan(content, snippet).Success?
      {
        SnippetNotEmpty(snippet);
        var i', j' := TrimStretch(content, i, j);
        var a := StretchShowsUp(content, i', j');
      }
    }
  }

  /** A snippet that occurs verbatim is located at its first verbatim occurrence. */
  lemma LocateVerbatim(content: string, snippet: string, k: nat)
    requires OccursAt(content, snippet, k) && !Blank(snippet) && forall j :: 0 <= j < k ==> !OccursAt(content, snippet, j)
    ensures LocateSpan(content, snippet) == Success((k, k + |snippet|))
  {
    hide OccursAt, Blank;
    StripBlank(snippet);
    var at := Find(content, snippet, 0);
    assert at == k;
  }

  lemma NormalizedEnds(s: string)
    requires Normalize(s) != ""
    ensures !IsSpace(Normalize(s)[0]) && !IsSpace(Normalize(s)[|Normalize(s)| - 1])
  {
    hide IsSpace;
    assert Words(s) != [];
    JoinEnds(Words(s));
  }

  /** Without a verbatim occurrence the span starts and ends on characters that are not whitespace. */
  lemma LocateTrimmed(content: string, snippet: string)
    requires LocateSpan(content, snippet).Success? && forall at :: !OccursAt(content, snippet, at)
    ensures var (lo, hi) := LocateSpan(content, snippet).value;
            0 <= lo < hi <= |content| && !IsSpace(content[lo]) && !IsSpace(content[hi - 1])
  {
    hide Normalize, NormalizedWithMap, IsSpace, Strip, MappedBack, OccursAt;
    var m, p := NormalizedWithMap(content), NormalizedWithMap(snippet).chars;
    SnippetNotEmpty(snippet);
    NormalizedEnds(snippet);
    MapFaithful(content);
    OccurrenceTrimmed(content, m, p, Find(m.chars, p, 0));
  }

  lemma OccurrenceTrimmed(content: string, m: Mapped, p: string, at: nat)
    requires FaithfulMap(content, m) && p != "" && OccursAt(m.chars, p, at) && !IsSpace(p[0]) && !IsSpace(p[|p| - 1])
    ensures var (lo, hi) := MappedBack(m, at, |p|); 0 <= lo < hi <= |content| && !IsSpace(content[lo]) && !IsSpace(content[hi - 1])
  {
    SpaceFacts(' ');
    hide IsSpace;
    assert m.chars[at] == m.chars[at..at + |p|][0] && m.chars[at + |p| - 1] == m.chars[at..at + |p|][|p| - 1];
  }

  /** Without a verbatim occurrence the span is the leftmost one: it starts at or before the first character that
      is not whitespace of every matching stretch. */
  lemma LocateLeftmost(content: string, snippet: string, i: nat, j: nat, k: nat)
    requires Matches(content, snippet, i, j) && i <= k < j && !IsSpace(content[k]) && !Blank(snippet)
    requires forall at :: !OccursAt(content, snippet, at)
    ensures LocateSpan(content, snippet).Success? && LocateSpan(content, snippet).value.0 <= k
  {
    LocateComplete(content, snippet);
    StripBlank(snippet);
    SnippetNotEmpty(snippet);
    var i', j' := TrimStretch(content, i, j);
    var a := StretchShowsUp(content, i', j');
    hide Normalize, IsSpace, NormalizedWithMap, Blank;
    var m := NormalizedWithMap(content);
    var at := Find(m.chars, Normalize(snippet), 0);
    MapFaithful(content);
    assert at <= a;
    assert at < a ==> m.index[at] < m.index[a];
  }
}
