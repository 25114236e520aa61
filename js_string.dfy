/**
  The JavaScript string built-ins that lib/devices.js relies on, over `string` (`seq<char>`):
  the `\s` character class (the same set `String.prototype.trim` strips), `startsWith`,
  `split(/\s+/g)`, `split(':')` / `split('\n')` with a one-character separator, and `trim()`.
 */
module JsString {

  /** The non-ASCII characters of the WhiteSpace and LineTerminator productions of ECMA-262:
      NO-BREAK SPACE, the Unicode space separators (category Zs) other than SPACE,
      LINE SEPARATOR, PARAGRAPH SEPARATOR and ZERO WIDTH NO-BREAK SPACE. */
  const WideWhitespace: set<char> := {
    '\U{00A0}', '\U{1680}',
    '\U{2000}', '\U{2001}', '\U{2002}', '\U{2003}', '\U{2004}', '\U{2005}',
    '\U{2006}', '\U{2007}', '\U{2008}', '\U{2009}', '\U{200A}',
    '\U{2028}', '\U{2029}', '\U{202F}', '\U{205F}', '\U{3000}', '\U{FEFF}'
  }

  /** The `\s` class of JavaScript regular expressions, which is also the set that
      `String.prototype.trim` strips: TAB, LF, VT, FF and CR, SPACE, and `WideWhitespace`. */
  predicate IsWhitespace(c: char) {
    || ('\t' <= c <= '\r')
    || c == ' '
    || ('\U{00A0}' <= c && c in WideWhitespace)
  }

  predicate NoWhitespace(s: string) {
    forall k :: 0 <= k < |s| ==> !IsWhitespace(s[k])
  }

  predicate AllWhitespace(s: string) {
    forall k :: 0 <= k < |s| ==> IsWhitespace(s[k])
  }

  /** `s.startsWith(prefix)` */
  predicate StartsWith(s: string, prefix: string) {
    prefix <= s
  }

  // ---------------------------------------------------------------------------
  // Scanning for runs of whitespace

  /** The end of the run of non-whitespace characters that starts at `i`. */
  function WordEnd(s: string, i: nat): (j: nat)
    requires i <= |s|
    ensures i <= j <= |s|
    ensures forall k :: i <= k < j ==> !IsWhitespace(s[k])
    ensures j < |s| ==> IsWhitespace(s[j])
    decreases |s| - i
  {
    if i == |s| || IsWhitespace(s[i]) then i else WordEnd(s, i + 1)
  }

  /** The end of the run of whitespace characters that starts at `i`. */
  function RunEnd(s: string, i: nat): (j: nat)
    requires i <= |s|
    ensures i <= j <= |s|
    ensures forall k :: i <= k < j ==> IsWhitespace(s[k])
    ensures j < |s| ==> !IsWhitespace(s[j])
    decreases |s| - i
  {
    if i == |s| || !IsWhitespace(s[i]) then i else RunEnd(s, i + 1)
  }

  /** The start of the run of whitespace characters that ends at `j`. */
  function RunStart(s: string, j: nat): (i: nat)
    requires j <= |s|
    ensures i <= j
    ensures forall k :: i <= k < j ==> IsWhitespace(s[k])
    ensures 0 < i ==> !IsWhitespace(s[i - 1])
    decreases j
  {
    if j == 0 || !IsWhitespace(s[j - 1]) then j else RunStart(s, j - 1)
  }

  // ---------------------------------------------------------------------------
  // s.split(/\s+/g)

  /** `s.split(/\s+/g)`: the pieces between maximal runs of whitespace. A leading
      (trailing) run yields an empty first (last) piece, and `""` yields `[""]`. */
  function SplitWhitespace(s: string): (tokens: seq<string>)
    ensures |tokens| >= 1
    ensures forall k :: 0 <= k < |tokens| ==> NoWhitespace(tokens[k])
    ensures forall k :: 0 < k < |tokens| - 1 ==> tokens[k] != ""
    ensures tokens[0] == "" <==> s == "" || IsWhitespace(s[0])
    ensures tokens[|tokens| - 1] == "" <==> s == "" || IsWhitespace(s[|s| - 1])
    decreases |s|
  {
    var i := WordEnd(s, 0);
    if i == |s| then [s]
    else
      var rest := SplitWhitespace(s[RunEnd(s, i)..]);
      [s[..i]] + rest
  }

  /** The whitespace runs that `SplitWhitespace` removes, in order. */
  function Separators(s: string): (seps: seq<string>)
    ensures |seps| + 1 == |SplitWhitespace(s)|
    ensures forall k :: 0 <= k < |seps| ==> seps[k] != "" && AllWhitespace(seps[k])
    decreases |s|
  {
    var i := WordEnd(s, 0);
    if i == |s| then []
    else
      var j := RunEnd(s, i);
      [s[i..j]] + Separators(s[j..])
  }

  /** `tokens[0] + seps[0] + tokens[1] + ... + seps[n-1] + tokens[n]` */
  function Interleave(tokens: seq<string>, seps: seq<string>): string
    requires |tokens| == |seps| + 1
  {
    if |seps| == 0 then tokens[0]
    else tokens[0] + seps[0] + Interleave(tokens[1..], seps[1..])
  }

  /** The shape of every output of `split(/\s+/g)` together with the runs it removed:
      whitespace-free pieces, non-empty pieces inside, non-empty whitespace runs between. */
  predicate WellSeparated(tokens: seq<string>, seps: seq<string>) {
    && |tokens| == |seps| + 1
    && (forall k :: 0 <= k < |tokens| ==> NoWhitespace(tokens[k]))
    && (forall k :: 0 < k < |tokens| - 1 ==> tokens[k] != "")
    && (forall k :: 0 <= k < |seps| ==> seps[k] != "" && AllWhitespace(seps[k]))
  }

  lemma InterleaveCons(t: string, w: string, tokens: seq<string>, seps: seq<string>)
    requires |tokens| == |seps| + 1
    ensures Interleave([t] + tokens, [w] + seps) == t + w + Interleave(tokens, seps)
  {
    assert ([t] + tokens)[1..] == tokens;
    assert ([w] + seps)[1..] == seps;
  }

  /** Nothing is lost: the pieces and the removed runs, interleaved, give back `s`. */
  lemma {:induction false} SplitWhitespaceLosesNothing(s: string)
    ensures WellSeparated(SplitWhitespace(s), Separators(s))
    ensures Interleave(SplitWhitespace(s), Separators(s)) == s
    decreases |s|
  {
    var i := WordEnd(s, 0);
    if i < |s| {
      var j := RunEnd(s, i);
      var t, w, rest := s[..i], s[i..j], s[j..];
      SplitWhitespaceLosesNothing(rest);
      assert SplitWhitespace(s) == [t] + SplitWhitespace(rest);
      assert Separators(s) == [w] + Separators(rest);
      InterleaveCons(t, w, SplitWhitespace(rest), Separators(rest));
      ThreeSlices(s, i, j);
    }
  }

  lemma InterleaveStartsWithFirst(tokens: seq<string>, seps: seq<string>)
    requires |tokens| == |seps| + 1
    ensures tokens[0] <= Interleave(tokens, seps)
  {
    if |seps| > 0 {
      assert Interleave(tokens, seps) == tokens[0] + (seps[0] + Interleave(tokens[1..], seps[1..]));
    }
  }

  lemma WordEndIs(s: string, i: nat, n: nat)
    requires i <= n <= |s|
    requires forall k :: i <= k < n ==> !IsWhitespace(s[k])
    requires n < |s| ==> IsWhitespace(s[n])
    ensures WordEnd(s, i) == n
  {
  }

  lemma RunEndIs(s: string, i: nat, n: nat)
    requires i <= n <= |s|
    requires forall k :: i <= k < n ==> IsWhitespace(s[k])
    requires n < |s| ==> !IsWhitespace(s[n])
    ensures RunEnd(s, i) == n
  {
  }

  /** An interleaving whose first piece is non-empty, or that is a single piece,
      does not start with whitespace. */
  lemma InterleaveStart(tokens: seq<string>, seps: seq<string>)
    requires WellSeparated(tokens, seps)
    requires |tokens| == 1 || tokens[0] != ""
    ensures var s := Interleave(tokens, seps); s != "" ==> !IsWhitespace(s[0])
  {
    InterleaveStartsWithFirst(tokens, seps);
  }

  /** One step of the split: a whitespace-free piece, a whitespace run, and a rest that
      does not start with whitespace. */
  lemma SplitWhitespaceStep(t: string, w: string, rest: string)
    requires NoWhitespace(t) && w != "" && AllWhitespace(w)
    requires rest != "" ==> !IsWhitespace(rest[0])
    ensures SplitWhitespace(t + w + rest) == [t] + SplitWhitespace(rest)
    ensures Separators(t + w + rest) == [w] + Separators(rest)
  {
    var s := t + w + rest;
    WordEndIs(s, 0, |t|);
    RunEndIs(s, |t|, |t| + |w|);
    assert s[..|t|] == t;
    assert s[|t|..|t| + |w|] == w;
    assert s[|t| + |w|..] == rest;
  }

  lemma SplitWhitespaceSingle(t: string)
    requires NoWhitespace(t)
    ensures SplitWhitespace(t) == [t]
  {
    WordEndIs(t, 0, |t|);
  }

  lemma WellSeparatedTail(tokens: seq<string>, seps: seq<string>)
    requires WellSeparated(tokens, seps) && |seps| > 0
    ensures WellSeparated(tokens[1..], seps[1..])
  {
  }

  /** The first piece and the first run of a well-separated interleaving are split off
      first. */
  lemma InterleaveStep(tokens: seq<string>, seps: seq<string>)
    requires WellSeparated(tokens, seps) && |seps| > 0
    ensures SplitWhitespace(Interleave(tokens, seps)) ==
      [tokens[0]] + SplitWhitespace(Interleave(tokens[1..], seps[1..]))
  {
    var t, w, ts, ws := tokens[0], seps[0], tokens[1..], seps[1..];
    var rest := Interleave(ts, ws);
    assert Interleave(tokens, seps) == t + w + rest;
    assert NoWhitespace(t) && w != "" && AllWhitespace(w);
    WellSeparatedTail(tokens, seps);
    InterleaveStart(ts, ws);
    SplitWhitespaceStep(t, w, rest);
  }

  /** The pieces are determined by the string: splitting any well-separated interleaving
      gives back exactly its pieces. */
  lemma {:induction false} SplitWhitespaceOfInterleave(tokens: seq<string>, seps: seq<string>)
    requires WellSeparated(tokens, seps)
    ensures SplitWhitespace(Interleave(tokens, seps)) == tokens
    decreases |seps|
  {
    if |seps| == 0 {
      SplitWhitespaceSingle(tokens[0]);
    } else {
      var t, ts, ws := tokens[0], tokens[1..], seps[1..];
      WellSeparatedTail(tokens, seps);
      SplitWhitespaceOfInterleave(ts, ws);
      InterleaveStep(tokens, seps);
      assert tokens == [t] + ts;
    }
  }

  // ---------------------------------------------------------------------------
  // s.split(sep) with a one-character separator

  /** `s.split(sep)`: the pieces between the occurrences of `sep`; `""` yields `[""]`. */
  function Split(s: string, sep: char): (pieces: seq<string>)
    ensures |pieces| >= 1
    ensures forall k :: 0 <= k < |pieces| ==> sep !in pieces[k]
    decreases |s|
  {
    if s == "" then [""]
    else
      var rest := Split(s[1..], sep);
      if s[0] == sep then [""] + rest
      else [[s[0]] + rest[0]] + rest[1..]
  }

  /** `pieces.join(sep)` */
  function Join(pieces: seq<string>, sep: char): string
    requires |pieces| >= 1
  {
    if |pieces| == 1 then pieces[0] else pieces[0] + [sep] + Join(pieces[1..], sep)
  }

  /** Joining the pieces with the separator gives back the string. */
  lemma {:induction false} JoinSplit(s: string, sep: char)
    ensures Join(Split(s, sep), sep) == s
    decreases |s|
  {
    if s != "" {
      var rest := Split(s[1..], sep);
      JoinSplit(s[1..], sep);
      if s[0] == sep {
        assert Split(s, sep)[1..] == rest;
      } else {
        var pieces := Split(s, sep);
        assert pieces[1..] == rest[1..];
        if |rest| > 1 {
          assert Join(rest, sep) == rest[0] + [sep] + Join(rest[1..], sep);
          assert Join(pieces, sep) == [s[0]] + rest[0] + [sep] + Join(rest[1..], sep);
        }
      }
    }
  }

  /** Splitting a join of separator-free pieces gives back the pieces. */
  lemma {:induction false} SplitJoin(pieces: seq<string>, sep: char)
    requires |pieces| >= 1
    requires forall k :: 0 <= k < |pieces| ==> sep !in pieces[k]
    ensures Split(Join(pieces, sep), sep) == pieces
    decreases |pieces|, |pieces[0]|
  {
    var s := Join(pieces, sep);
    if pieces[0] == "" {
      if |pieces| > 1 {
        SplitJoin(pieces[1..], sep);
        assert s == [sep] + Join(pieces[1..], sep);
        assert s[1..] == Join(pieces[1..], sep);
      }
    } else {
      var shorter := [pieces[0][1..]] + pieces[1..];
      SplitJoin(shorter, sep);
      assert shorter[1..] == pieces[1..];
      if |pieces| > 1 {
        assert s == [pieces[0][0]] + (pieces[0][1..] + [sep] + Join(pieces[1..], sep));
      } else {
        assert s == [pieces[0][0]] + pieces[0][1..];
      }
      assert s[1..] == Join(shorter, sep);
      assert pieces[0] == [pieces[0][0]] + pieces[0][1..];
    }
  }

  lemma JoinStartsWithFirst(pieces: seq<string>, sep: char)
    requires |pieces| >= 1
    ensures pieces[0] <= Join(pieces, sep)
  {
    if |pieces| > 1 {
      assert Join(pieces, sep) == pieces[0] + ([sep] + Join(pieces[1..], sep));
    }
  }

  /** Words joined by single spaces: no line break inside, and no whitespace at either end. */
  lemma {:induction false} SpacedLine(words: seq<string>)
    requires |words| >= 1
    requires forall k :: 0 <= k < |words| ==> words[k] != "" && NoWhitespace(words[k])
    ensures var line := Join(words, ' ');
      && '\n' !in line
      && line != "" && !IsWhitespace(line[0]) && !IsWhitespace(line[|line| - 1])
    decreases |words|
  {
    var line := Join(words, ' ');
    JoinStartsWithFirst(words, ' ');
    assert line[0] == words[0][0];
    assert '\n' !in words[0] by {
      assert IsWhitespace('\n');
    }
    if |words| > 1 {
      SpacedLine(words[1..]);
      var rest := Join(words[1..], ' ');
      assert line == words[0] + " " + rest;
      assert line[|line| - 1] == rest[|rest| - 1];
    }
  }

  /** Splitting words joined by single spaces gives back the words (the first may be empty). */
  lemma {:induction false} SplitWhitespaceOfSpaced(words: seq<string>)
    requires |words| >= 1
    requires forall k :: 0 <= k < |words| ==> NoWhitespace(words[k])
    requires forall k :: 0 < k < |words| ==> words[k] != ""
    ensures SplitWhitespace(Join(words, ' ')) == words
    decreases |words|
  {
    if |words| == 1 {
      SplitWhitespaceSingle(words[0]);
    } else {
      var tail := words[1..];
      SplitWhitespaceOfSpaced(tail);
      SplitWhitespaceSpaceStep(words[0], tail);
      assert words == [words[0]] + tail;
    }
  }

  /** One more word in front of a spaced line is one more token in front. */
  lemma SplitWhitespaceSpaceStep(word: string, tail: seq<string>)
    requires NoWhitespace(word) && |tail| >= 1 && tail[0] != "" && NoWhitespace(tail[0])
    ensures SplitWhitespace(Join([word] + tail, ' ')) == [word] + SplitWhitespace(Join(tail, ' '))
  {
    var rest := Join(tail, ' ');
    JoinStartsWithFirst(tail, ' ');
    assert rest[0] == tail[0][0];
    assert AllWhitespace(" ");
    SplitWhitespaceStep(word, " ", rest);
    assert ([word] + tail)[1..] == tail;
  }

  // ---------------------------------------------------------------------------
  // s.trim()

  /** `s.trim()`: `s` without its leading and trailing whitespace. */
  function Trim(s: string): (r: string)
    ensures r == "" || (!IsWhitespace(r[0]) && !IsWhitespace(r[|r| - 1]))
  {
    var i := RunEnd(s, 0);
    var j := RunStart(s, |s|);
    if i < j then s[i..j] else ""
  }

  /** Unless the whole string is whitespace, the leading run ends before the trailing
      run starts. */
  lemma RunsMeet(s: string)
    ensures RunEnd(s, 0) < |s| ==> RunEnd(s, 0) < RunStart(s, |s|)
  {
  }

  lemma ThreeSlices(s: string, i: nat, j: nat)
    requires i <= j <= |s|
    ensures s == s[..i] + s[i..j] + s[j..]
  {
  }

  /** `trim()` removes whitespace only: the string is the trimmed string with a run of
      whitespace before it and another after it. */
  lemma TrimRemovesWhitespace(s: string)
    ensures var i, r := RunEnd(s, 0), Trim(s);
      && i + |r| <= |s|
      && s == s[..i] + r + s[i + |r|..]
      && AllWhitespace(s[..i]) && AllWhitespace(s[i + |r|..])
  {
    var i, j := RunEnd(s, 0), RunStart(s, |s|);
    RunsMeet(s);
    if i < j {
      ThreeSlices(s, i, j);
    } else {
      ThreeSlices(s, i, i);
    }
  }

  /** A string with no whitespace at either end is left as it is. */
  lemma TrimKeepsUnpadded(s: string)
    requires s == "" || (!IsWhitespace(s[0]) && !IsWhitespace(s[|s| - 1]))
    ensures Trim(s) == s
  {
  }

  /** `trim()` is idempotent. */
  lemma TrimIdempotent(s: string)
    ensures Trim(Trim(s)) == Trim(s)
  {
    TrimKeepsUnpadded(Trim(s));
  }

  /** `trim()` gives `""` exactly for the all-whitespace strings. */
  lemma TrimEmpty(s: string)
    ensures Trim(s) == "" <==> AllWhitespace(s)
  {
  }
}
