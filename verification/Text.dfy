/** Strings as the repository uses them: Python's whitespace, `split()`, `" ".join`, `strip()`,
    `find`/`rfind`, `splitlines(keepends=True)` and `str(int)`. */
module Text {

  /** The line terminators of `str.splitlines()`. */
  predicate IsLineBreak(c: char) {
    var n := c as int;
    0x0A <= n <= 0x0D || 0x1C <= n <= 0x1E || n == 0x85 || n == 0x2028 || n == 0x2029
  }

  /** The code point ranges on which `str.isspace()` holds; `split()` and `strip()` use the same ones. */
  const SPACE_RANGES: seq<(int, int)> :=
    [(0x09, 0x0D), (0x1C, 0x20), (0x85, 0x85), (0xA0, 0xA0), (0x1680, 0x1680), (0x2000, 0x200A),
     (0x2028, 0x2029), (0x202F, 0x202F), (0x205F, 0x205F), (0x3000, 0x3000)]

  /** `c.isspace()`. */
  predicate IsSpace(c: char) {
    InRanges(c as int, SPACE_RANGES)
  }

  predicate InRanges(n: int, rs: seq<(int, int)>) {
    rs != [] && (rs[0].0 <= n <= rs[0].1 || InRanges(n, rs[1..]))
  }

  lemma {:induction false} InRangesAt(n: int, rs: seq<(int, int)>)
    ensures InRanges(n, rs) <==> exists k :: 0 <= k < |rs| && rs[k].0 <= n <= rs[k].1
  {
    if rs != [] {
      InRangesAt(n, rs[1..]);
      forall k | 0 < k < |rs| ensures rs[k] == rs[1..][k - 1] {}
    }
  }

  lemma SpaceFacts(c: char)
    ensures IsSpace(' ')
    ensures IsLineBreak(c) ==> IsSpace(c)
    ensures '!' <= c <= '~' ==> !IsSpace(c)
  {
    InRangesAt(' ' as int, SPACE_RANGES);
    InRangesAt(c as int, SPACE_RANGES);
    var rs := SPACE_RANGES;
    assert rs[0] == (0x09, 0x0D) && rs[1] == (0x1C, 0x20) && rs[2] == (0x85, 0x85) && rs[6] == (0x2028, 0x2029);
    assert forall k :: 2 <= k < |rs| ==> rs[k].0 >= 0x85;
  }

  predicate IsWord(w: string) {
    w != "" && forall k :: 0 <= k < |w| ==> !IsSpace(w[k])
  }

  predicate AllWords(ws: seq<string>) {
    forall i :: 0 <= i < |ws| ==> IsWord(ws[i])
  }

  predicate Blank(s: string) {
    forall k :: 0 <= k < |s| ==> IsSpace(s[k])
  }

  /** `s.split()`. */
  function Words(s: string): (ws: seq<string>)
    ensures AllWords(ws)
    ensures s != "" && !IsSpace(s[0]) ==> ws != []
  {
    if s == "" then []
    else if IsSpace(s[0]) then Words(s[1..])
    else if |s| == 1 || IsSpace(s[1]) then [[s[0]]] + Words(s[1..])
    else var ws := Words(s[1..]); [[s[0]] + ws[0]] + ws[1..]
  }

  /** `" ".join(ws)`. */
  function Join(ws: seq<string>): (r: string) {
    if ws == [] then ""
    else if |ws| == 1 then ws[0]
    else Join(ws[..|ws| - 1]) + " " + ws[|ws| - 1]
  }

  /** `" ".join(s.split())`: the `_normalize_text`, `_compact` and `_text` helpers. */
  function Normalize(s: string): string {
    Join(Words(s))
  }

  /** `a or b` on texts. */
  function FirstOf(a: string, b: string): string {
    if a != "" then a else b
  }

  /** A word of the given length. */
  function Letters(n: nat): (w: string)
    ensures |w| == n && forall k :: 0 <= k < n ==> w[k] == 'x'
  {
    seq(n, i => 'x')
  }

  // ----- split -----

  lemma {:induction false} WordsAppend(a: string, b: string)
    requires a == "" || b == "" || IsSpace(a[|a| - 1]) || IsSpace(b[0])
    ensures Words(a + b) == Words(a) + Words(b)
  {
    hide IsSpace;
    if a == "" {
      assert a + b == b;
    } else if b == "" {
      assert a + b == a;
    } else {
      var t := a[1..];
      assert (a + b)[1..] == t + b;
      WordsAppend(t, b);
      if !IsSpace(a[0]) && |a| > 1 {
        assert (a + b)[1] == a[1];
      }
    }
  }

  /** The list with one more character on its last word. */
  function LastExtended(ws: seq<string>, c: char): seq<string>
    requires ws != []
  {
    ws[..|ws| - 1] + [ws[|ws| - 1] + [c]]
  }

  lemma LastExtendedCons(w: string, ws: seq<string>, c: char)
    requires ws != []
    ensures LastExtended([w] + ws, c) == [w] + LastExtended(ws, c)
  {
  }

  lemma LastExtendedHead(x: char, ws: seq<string>, c: char)
    requires ws != []
    ensures var u := LastExtended(ws, c);
            u != [] && LastExtended([[x] + ws[0]] + ws[1..], c) == [[x] + u[0]] + u[1..]
  {
    if |ws| == 1 {
      assert [x] + (ws[0] + [c]) == ([x] + ws[0]) + [c];
    }
  }

  lemma {:induction false} WordsExtend(s: string, c: char)
    requires s != "" && !IsSpace(s[|s| - 1]) && !IsSpace(c)
    ensures Words(s) != [] && Words(s + [c]) == LastExtended(Words(s), c)
  {
    hide IsSpace, LastExtended;
    if |s| == 1 {
      ExtendOne(s[0], c);
      assert s == [s[0]];
    } else {
      var t := s[1..];
      assert (s + [c])[1..] == t + [c];
      WordsExtend(t, c);
      LastExtendedCons([s[0]], Words(t), c);
      LastExtendedHead(s[0], Words(t), c);
    }
  }

  lemma ExtendOne(x: char, c: char)
    requires !IsSpace(x) && !IsSpace(c)
    ensures Words([x]) != [] && Words([x] + [c]) == LastExtended(Words([x]), c)
  {
    hide IsSpace;
    assert [x][1..] == "" && ([x] + [c])[1..] == [c];
    assert Words([c]) == [[c]] && Words([x]) == [[x]];
  }

  lemma {:induction false} WordsOfWord(w: string)
    requires IsWord(w)
    ensures Words(w) == [w]
  {
    if |w| > 1 {
      WordsOfWord(w[1..]);
      assert [w[0]] + w[1..] == w;
    } else {
      assert w == [w[0]];
    }
  }

  lemma {:induction false} WordsOfBlank(s: string)
    ensures Blank(s) <==> Words(s) == []
  {
    if s != "" {
      WordsOfBlank(s[1..]);
      if IsSpace(s[0]) {
        assert Blank(s[1..]) ==> forall k :: 0 <= k < |s| ==> k == 0 || s[k] == s[1..][k - 1];
      }
    }
  }

  // ----- join -----

  lemma {:induction false} WordsOfJoin(ws: seq<string>)
    requires AllWords(ws)
    ensures Words(Join(ws)) == ws
  {
    if ws == [] {
    } else if |ws| == 1 {
      WordsOfWord(ws[0]);
    } else {
      var front, w := ws[..|ws| - 1], ws[|ws| - 1];
      WordsOfJoin(front);
      WordsOfWord(w);
      WordsAppend(" ", w);
      WordsAppend(Join(front), " " + w);
      assert Join(ws) == Join(front) + (" " + w);
      assert Words(" ") == [] by { WordsOfBlank(" "); }
      assert front + [w] == ws;
    }
  }

  lemma {:induction false} JoinAppend(a: seq<string>, b: seq<string>)
    requires a != [] && b != []
    ensures Join(a + b) == Join(a) + " " + Join(b)
  {
    assert (a + b)[..|a + b| - 1] == a + b[..|b| - 1];
    if |b| == 1 {
      assert a + b[..0] == a;
    } else {
      JoinAppend(a, b[..|b| - 1]);
    }
  }

  /** `len(" ".join(ws))` as a sum that ignores where the words are cut. */
  function JoinLen(ws: seq<string>): (n: nat)
    ensures n == |Join(ws)|
  {
    if ws == [] then 0
    else if |ws| == 1 then |ws[0]|
    else JoinLen(ws[..|ws| - 1]) + 1 + |ws[|ws| - 1]|
  }

  lemma {:induction false} JoinLenPrefix(ws: seq<string>, k: nat)
    requires k <= |ws|
    ensures JoinLen(ws[..k]) <= JoinLen(ws)
  {
    if k < |ws| {
      JoinLenPrefix(ws[..|ws| - 1], k);
      assert ws[..|ws| - 1][..k] == ws[..k];
    } else {
      assert ws[..k] == ws;
    }
  }

  lemma {:induction false} JoinNonEmpty(ws: seq<string>)
    requires AllWords(ws)
    ensures Join(ws) == "" <==> ws == []
  {
    if |ws| == 1 { assert IsWord(ws[0]); }
  }

  /** The ends of a non-empty join of words are not whitespace. */
  lemma {:induction false} JoinEnds(ws: seq<string>)
    requires AllWords(ws) && ws != []
    ensures Join(ws) != "" && !IsSpace(Join(ws)[0]) && !IsSpace(Join(ws)[|Join(ws)| - 1])
  {
    assert IsWord(ws[|ws| - 1]);
    if |ws| > 1 {
      JoinEnds(ws[..|ws| - 1]);
    }
  }

  lemma NormalizeIdempotent(s: string)
    ensures Normalize(Normalize(s)) == Normalize(s)
    ensures Words(Normalize(s)) == Words(s)
    ensures Normalize(s) == "" <==> Blank(s)
  {
    WordsOfJoin(Words(s));
    WordsOfBlank(s);
    JoinNonEmpty(Words(s));
  }

  lemma NormalizeOfEmpty()
    ensures Normalize("") == ""
  {
  }

  // ----- normalising one more character -----

  lemma SnocSpace(s: string, c: char)
    requires IsSpace(c)
    ensures Words(s + [c]) == Words(s)
  {
    WordsAppend(s, [c]);
    assert [c][1..] == "";
  }

  lemma SnocNewWord(s: string, c: char)
    requires !IsSpace(c) && (s == "" || IsSpace(s[|s| - 1]))
    ensures Normalize(s + [c]) == if Normalize(s) == "" then [c] else Normalize(s) + " " + [c]
  {
    WordsAppend(s, [c]);
    WordsOfWord([c]);
    JoinNonEmpty(Words(s));
    var ws := Words(s);
    assert (ws + [[c]])[..|ws|] == ws;
  }

  lemma SnocSameWord(s: string, c: char)
    requires s != "" && !IsSpace(s[|s| - 1]) && !IsSpace(c)
    ensures Normalize(s + [c]) == Normalize(s) + [c]
    ensures Normalize(s) != ""
  {
    WordsExtend(s, c);
    JoinNonEmpty(Words(s));
    JoinLastExtended(Words(s), c);
  }

  lemma JoinLastExtended(ws: seq<string>, c: char)
    requires ws != []
    ensures Join(LastExtended(ws, c)) == Join(ws) + [c]
  {
    var n := |ws| - 1;
    assert LastExtended(ws, c)[..n] == ws[..n];
    if n > 0 {
      assert Join(ws[..n]) + " " + (ws[n] + [c]) == Join(ws) + [c];
    }
  }

  /** Normalising never lengthens a text. */
  lemma {:induction false} NormalizeShortens(s: string)
    ensures |Normalize(s)| <= |s|
    ensures s != "" && IsSpace(s[|s| - 1]) ==> |Normalize(s)| < |s|
  {
    if s == "" {
      assert Normalize(s) == "";
    } else {
      var n := |s| - 1;
      NormalizeShortens(s[..n]);
      assert s[..n] + [s[n]] == s;
      if IsSpace(s[n]) {
        SnocSpace(s[..n], s[n]);
      } else if n == 0 || IsSpace(s[n - 1]) {
        SnocNewWord(s[..n], s[n]);
      } else {
        SnocSameWord(s[..n], s[n]);
      }
    }
  }

  lemma DropOuterSpace(s: string)
    requires s != ""
    ensures IsSpace(s[0]) ==> Words(s[1..]) == Words(s)
    ensures IsSpace(s[|s| - 1]) ==> Words(s[..|s| - 1]) == Words(s)
  {
    var n := |s| - 1;
    if IsSpace(s[n]) {
      assert s[..n] + [s[n]] == s;
      SnocSpace(s[..n], s[n]);
    }
  }

  // ----- strip -----

  /** `s.strip()`. */
  function Strip(s: string): (r: string)
    ensures r != "" ==> !IsSpace(r[0]) && !IsSpace(r[|r| - 1])
    ensures |r| <= |s|
  {
    if s == "" then ""
    else if IsSpace(s[0]) then Strip(s[1..])
    else if IsSpace(s[|s| - 1]) then Strip(s[..|s| - 1])
    else s
  }

  predicate Stripped(s: string) {
    s != "" ==> !IsSpace(s[0]) && !IsSpace(s[|s| - 1])
  }

  lemma StripFixed(s: string)
    ensures Strip(s) == s <==> Stripped(s)
  {
  }

  lemma {:induction false} StripBlank(s: string)
    ensures Strip(s) == "" <==> Blank(s)
  {
    if s == "" {
    } else if IsSpace(s[0]) {
      StripBlank(s[1..]);
      assert Blank(s[1..]) ==> forall k :: 0 <= k < |s| ==> k == 0 || s[k] == s[1..][k - 1];
    } else if IsSpace(s[|s| - 1]) {
      StripBlank(s[..|s| - 1]);
      assert s[..|s| - 1][0] == s[0];
    }
  }

  /** Stripping takes whitespace off both ends and nothing else. */
  lemma {:induction false} StripExactly(s: string) returns (i: nat, j: nat)
    ensures i <= j <= |s| && Strip(s) == s[i..j]
    ensures forall k :: 0 <= k < i || j <= k < |s| ==> IsSpace(s[k])
  {
    hide IsSpace;
    if s != "" && IsSpace(s[0]) {
      var a, b := StripExactly(s[1..]);
      i, j := a + 1, b + 1;
      assert s[1..][a..b] == s[i..j] && forall k :: 0 < k < |s| ==> s[k] == s[1..][k - 1];
    } else if s != "" && IsSpace(s[|s| - 1]) {
      i, j := StripExactly(s[..|s| - 1]);
      assert s[..|s| - 1][i..j] == s[i..j] && forall k :: 0 <= k < |s| - 1 ==> s[k] == s[..|s| - 1][k];
    } else {
      i, j := 0, |s|;
    }
  }

  lemma {:induction false} WordsOfStrip(s: string)
    ensures Words(Strip(s)) == Words(s)
  {
    if s != "" {
      DropOuterSpace(s);
      if IsSpace(s[0]) {
        WordsOfStrip(s[1..]);
      } else if IsSpace(s[|s| - 1]) {
        WordsOfStrip(s[..|s| - 1]);
      }
    }
  }

  // ----- find -----

  predicate OccursAt(s: string, pat: string, i: int) {
    0 <= i && i + |pat| <= |s| && s[i..i + |pat|] == pat
  }

  /** `s.find(pat, start)`: the first occurrence at or after `start`, or -1. */
  function Find(s: string, pat: string, start: nat): (i: int)
    ensures i == -1 || start <= i
    ensures i != -1 ==> OccursAt(s, pat, i)
    ensures forall j :: start <= j && (i == -1 || j < i) ==> !OccursAt(s, pat, j)
    decreases |s| - start
  {
    if start + |pat| > |s| then -1
    else if OccursAt(s, pat, start) then start
    else Find(s, pat, start + 1)
  }

  /** `s.rfind(pat, lo, hi)`: the last occurrence inside `s[lo:hi]`, or -1. */
  function RFind(s: string, pat: string, lo: nat, hi: nat): (i: int)
    requires hi <= |s|
    ensures i != -1 ==> lo <= i && i + |pat| <= hi && OccursAt(s, pat, i)
    ensures forall j :: lo <= j && i < j && j + |pat| <= hi ==> !OccursAt(s, pat, j)
    decreases hi
  {
    if hi < lo + |pat| then -1
    else if OccursAt(s, pat, hi - |pat|) then hi - |pat|
    else if hi == 0 then -1
    else RFind(s, pat, lo, hi - 1)
  }

  // ----- lines -----

  /** Length of the first line of `s` without its terminator. */
  function LineBody(s: string): (n: nat)
    ensures n <= |s|
    ensures n < |s| ==> IsLineBreak(s[n])
    ensures forall k :: 0 <= k < n ==> !IsLineBreak(s[k])
  {
    if s == "" || IsLineBreak(s[0]) then 0 else 1 + LineBody(s[1..])
  }

  /** Length of the first line of `s` with its terminator; CR LF is one terminator. */
  function LineLength(s: string): (n: nat)
    requires s != ""
    ensures 0 < n <= |s|
  {
    var b := LineBody(s);
    if b == |s| then b
    else if s[b] == '\r' && b + 1 < |s| && s[b + 1] == '\n' then b + 2
    else b + 1
  }

  /** `s.splitlines(keepends=True)`. */
  function Lines(s: string): (ls: seq<string>)
    ensures forall i :: 0 <= i < |ls| ==> ls[i] != ""
  {
    if s == "" then [] else [s[..LineLength(s)]] + Lines(s[LineLength(s)..])
  }

  /** One line of `splitlines()` from the same line with its terminator kept. */
  function Chomp(line: string): string {
    line[..LineBody(line)]
  }

  function Concat(ls: seq<string>): string {
    if ls == [] then "" else ls[0] + Concat(ls[1..])
  }

  lemma {:induction false} LinesConcat(s: string)
    ensures Concat(Lines(s)) == s
  {
    if s != "" {
      LinesConcat(s[LineLength(s)..]);
      assert Lines(s)[1..] == Lines(s[LineLength(s)..]);
    }
  }

  /** A line with its terminator: one line break, or CR LF, at the end and nowhere else; only the last line of a text
      may have none. */
  predicate IsLine(line: string, last: bool) {
    var b := LineBody(line);
    && line != ""
    && (if b == |line| then last
        else if b + 1 == |line| then IsLineBreak(line[b])
        else b + 2 == |line| && line[b] == '\r' && line[b + 1] == '\n')
  }

  lemma LineAt(s: string)
    requires s != ""
    ensures var n := LineLength(s);
            IsLine(s[..n], n == |s|) && !(n < |s| && s[n - 1] == '\r' && s[n] == '\n')
  {
    var b, n := LineBody(s), LineLength(s);
    var c := LineBody(s[..n]);
    assert forall k :: 0 <= k < n ==> s[..n][k] == s[k];
    assert c == if b < n then b else n;
  }

  /** The lines are lines, and no CR LF is torn apart. */
  lemma {:induction false} LinesExactly(s: string)
    ensures forall i :: 0 <= i < |Lines(s)| ==> IsLine(Lines(s)[i], i == |Lines(s)| - 1)
    ensures forall i :: 0 <= i < |Lines(s)| - 1 ==> !(Lines(s)[i][|Lines(s)[i]| - 1] == '\r' && Lines(s)[i + 1][0] == '\n')
  {
    hide LineBody, IsLine, LineLength, IsLineBreak;
    if s != "" {
      var n := LineLength(s);
      var rest := s[n..];
      LineAt(s);
      LinesExactly(rest);
      LastLineLast(s[..n]);
      assert n < |s| ==> Lines(rest) != [] && Lines(rest)[0][0] == rest[0] == s[n];
      assert Lines(s) == [s[..n]] + Lines(rest);
    }
  }

  lemma LastLineLast(line: string)
    ensures IsLine(line, false) ==> IsLine(line, true)
  {
  }

  // ----- digests -----

  predicate IsHex(s: string) {
    s != "" && forall k :: 0 <= k < |s| ==> '0' <= s[k] <= '9' || 'a' <= s[k] <= 'f'
  }

  type HexDigest = s: string | IsHex(s) witness "0"

  /** A printable prefix with a digest is one word. */
  lemma DigestIsWord(prefix: string, digest: HexDigest)
    requires forall k :: 0 <= k < |prefix| ==> '!' <= prefix[k] <= '~'
    ensures IsWord(prefix + digest) && Normalize(prefix + digest) == prefix + digest
    ensures Strip(prefix + digest) == prefix + digest
  {
    var id := prefix + digest;
    forall k | 0 <= k < |id| ensures !IsSpace(id[k]) {
      assert id[k] == if k < |prefix| then prefix[k] else digest[k - |prefix|];
      SpaceFacts(id[k]);
    }
    WordsOfWord(id);
    hide IsSpace;
    assert Join([id]) == id;
  }

  // ----- str(int) -----

  function Digit(d: nat): (c: char)
    requires d < 10
    ensures '0' <= c <= '9'
  {
    '0' + d as char
  }

  function NatToString(n: nat): (s: string)
    ensures s != "" && forall k :: 0 <= k < |s| ==> '0' <= s[k] <= '9'
  {
    if n < 10 then [Digit(n)] else NatToString(n / 10) + [Digit(n % 10)]
  }

  /** The number that a decimal denotes. */
  function ValueOf(s: string): int {
    if s == "" then 0 else 10 * ValueOf(s[..|s| - 1]) + (s[|s| - 1] as int - '0' as int)
  }

  /** The decimal of a number denotes it and has no leading zero. */
  lemma {:induction false} DecimalExactly(n: nat)
    ensures ValueOf(NatToString(n)) == n
    ensures n > 0 ==> NatToString(n)[0] != '0'
  {
    var s := NatToString(n);
    if n >= 10 {
      DecimalExactly(n / 10);
      assert s[..|s| - 1] == NatToString(n / 10);
    } else {
      assert s[..|s| - 1] == "";
    }
  }

  function IntToString(n: int): string {
    if n < 0 then "-" + NatToString(-n) else NatToString(n)
  }

  lemma {:induction false} NatToStringInjective(m: nat, n: nat)
    ensures NatToString(m) == NatToString(n) ==> m == n
  {
    var s, t := NatToString(m), NatToString(n);
    assert s[|s| - 1] == Digit(m % 10) && t[|t| - 1] == Digit(n % 10);
    assert (m >= 10 <==> |s| > 1) && (n >= 10 <==> |t| > 1);
    if m >= 10 && n >= 10 {
      assert s[..|s| - 1] == NatToString(m / 10) && t[..|t| - 1] == NatToString(n / 10);
      NatToStringInjective(m / 10, n / 10);
    }
  }

  lemma IntToStringInjective(m: int, n: int)
    ensures IntToString(m) == IntToString(n) ==> m == n
  {
    var s, t := IntToString(m), IntToString(n);
    assert (m < 0 <==> s[0] == '-') && (n < 0 <==> t[0] == '-');
    if m < 0 && n < 0 {
      assert s[1..] == NatToString(-m) && t[1..] == NatToString(-n);
      NatToStringInjective(-m, -n);
    } else if m >= 0 && n >= 0 {
      NatToStringInjective(m, n);
    }
  }

  /** `prefix:n` names determine both parts, since a decimal holds no colon. */
  lemma ColonIdInjective(p: string, m: int, q: string, n: int)
    requires p + ":" + IntToString(m) == q + ":" + IntToString(n)
    ensures p == q && m == n
  {
    var x, y := IntToString(m), IntToString(n);
    assert NoColon(x) && NoColon(y);
    LastColon(p, x);
    LastColon(q, y);
    var s := p + ":" + x;
    assert s[..|p|] == p && s[..|q|] == q;
    assert s[|p| + 1..] == x && s[|q| + 1..] == y;
    IntToStringInjective(m, n);
  }

  lemma LastColon(p: string, x: string)
    requires NoColon(x)
    ensures var s := p + ":" + x; s[|p|] == ':' && forall k :: |p| < k < |s| ==> s[k] != ':'
  {
    var s := p + ":" + x;
    forall k | |p| < k < |s| ensures s[k] != ':' {
      assert s[k] == x[k - |p| - 1];
    }
  }

  predicate NoColon(s: string) {
    forall k :: 0 <= k < |s| ==> s[k] != ':'
  }
}
