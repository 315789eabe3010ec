/** The few Python `str` operations the line parser of
    src/machine/machine.py:128-163 relies on: `strip()`, `startswith`,
    `split(sep)`, `split()` with no argument, and recognising a decimal
    literal. Strings are sequences of characters. */
module Text {

  import opened Wrappers

  /** Python's `str.isspace` for one character. */
  predicate IsSpace(c: char) {
    c == ' ' || ('\t' <= c <= '\r') || ('\U{1c}' <= c <= '\U{1f}') || c == '\U{85}' || c == '\U{a0}'
    || c == '\U{1680}' || ('\U{2000}' <= c <= '\U{200a}') || c == '\U{2028}' || c == '\U{2029}'
    || c == '\U{202f}' || c == '\U{205f}' || c == '\U{3000}'
  }

  predicate NoSpace(s: string) {
    forall i :: 0 <= i < |s| ==> !IsSpace(s[i])
  }

  predicate AllSpace(s: string) {
    forall i :: 0 <= i < |s| ==> IsSpace(s[i])
  }

  function TrimStart(s: string): (r: string)
    ensures |r| <= |s| && r == s[|s| - |r|..]
    ensures AllSpace(s[..|s| - |r|])
    ensures r == [] || !IsSpace(r[0])
  {
    if s != [] && IsSpace(s[0]) then
      var r := TrimStart(s[1..]);
      assert s[..|s| - |r|] == [s[0]] + s[1..][..|s| - 1 - |r|];
      r
    else s
  }

  function TrimEnd(s: string): (r: string)
    ensures |r| <= |s| && r == s[..|r|]
    ensures AllSpace(s[|r|..])
    ensures r == [] || !IsSpace(r[|r| - 1])
  {
    if s != [] && IsSpace(s[|s| - 1]) then
      var r := TrimEnd(s[..|s| - 1]);
      assert s[|r|..] == s[..|s| - 1][|r|..] + [s[|s| - 1]];
      r
    else s
  }

  /** `s.strip()`: `s` without its leading and trailing whitespace. */
  function Strip(s: string): (r: string)
    ensures |r| <= |s|
    ensures r == [] || (!IsSpace(r[0]) && !IsSpace(r[|r| - 1]))
  {
    TrimEnd(TrimStart(s))
  }

  /** `s.startswith(prefix)`. */
  predicate StartsWith(s: string, prefix: string) {
    |prefix| <= |s| && s[..|prefix|] == prefix
  }

  /** The slice `s[n:]`, which is empty when `n` is past the end. */
  function Drop(s: string, n: nat): (r: string)
    ensures |r| == if n <= |s| then |s| - n else 0
  {
    if n <= |s| then s[n..] else []
  }

  predicate OccursAt(s: string, sep: string, k: int) {
    0 <= k && k + |sep| <= |s| && s[k..k + |sep|] == sep
  }

  /** The first index at which `sep` occurs in `s`, as `s.find(sep)`. */
  function IndexOf(s: string, sep: string): (r: Option<nat>)
    requires sep != []
    ensures r.Some? ==> OccursAt(s, sep, r.value)
    ensures r.Some? ==> forall j :: 0 <= j < r.value ==> !OccursAt(s, sep, j)
    ensures r.None? ==> forall j :: 0 <= j ==> !OccursAt(s, sep, j)
    decreases |s|
  {
    if |s| < |sep| then None
    else if s[..|sep|] == sep then Some(0)
    else
      match IndexOf(s[1..], sep)
      case Some(k) =>
        assert forall j :: 1 <= j ==> (OccursAt(s, sep, j) <==> OccursAt(s[1..], sep, j - 1));
        Some(k + 1)
      case None =>
        assert forall j :: 1 <= j ==> (OccursAt(s, sep, j) <==> OccursAt(s[1..], sep, j - 1));
        None
  }

  predicate Contains(s: string, sep: string)
    requires sep != []
  {
    IndexOf(s, sep).Some?
  }

  /** The pieces joined back with `sep` between them: the inverse of `Split`. */
  function Join(pieces: seq<string>, sep: string): string {
    if pieces == [] then []
    else if |pieces| == 1 then pieces[0]
    else pieces[0] + sep + Join(pieces[1..], sep)
  }

  /** `s.split(sep)`: cut `s` at every occurrence of `sep`, scanning left to
      right. There is always at least one piece. */
  function Split(s: string, sep: string): (r: seq<string>)
    requires sep != []
    ensures |r| >= 1
    decreases |s|
  {
    match IndexOf(s, sep)
    case None => [s]
    case Some(k) => [s[..k]] + Split(s[k + |sep|..], sep)
  }

  /** Joining the pieces with `sep` gives back the string, and no piece
      holds `sep`. */
  lemma SplitJoin(s: string, sep: string)
    requires sep != []
    ensures Join(Split(s, sep), sep) == s
    ensures forall i :: 0 <= i < |Split(s, sep)| ==> !Contains(Split(s, sep)[i], sep)
  {
    SplitRejoins(s, sep);
    SplitPiecesFree(s, sep);
  }

  lemma JoinCons(first: string, rest: seq<string>, sep: string)
    requires rest != []
    ensures Join([first] + rest, sep) == first + sep + Join(rest, sep)
  {
    assert ([first] + rest)[1..] == rest;
  }

  lemma {:induction false} SplitRejoins(s: string, sep: string)
    requires sep != []
    ensures Join(Split(s, sep), sep) == s
    decreases |s|, 1
  {
    if IndexOf(s, sep).Some? {
      SplitRejoinsAt(s, sep);
    }
  }

  /** The first occurrence of `sep` cuts `s` into the first piece and the
      text that the remaining pieces are split from. */
  lemma SplitFirst(s: string, sep: string, k: nat)
    requires sep != [] && IndexOf(s, sep) == Some(k)
    ensures Split(s, sep) == [s[..k]] + Split(s[k + |sep|..], sep)
  {
  }

  /** A string is the text before, at and after a span of it. */
  lemma Around(s: string, k: nat, n: nat)
    requires k + n <= |s|
    ensures s == s[..k] + s[k..k + n] + s[k + n..]
  {
    assert s[k..] == s[k..k + n] + s[k + n..];
    assert s == s[..k] + s[k..];
  }

  /** The step of `SplitRejoins` at the first occurrence of `sep`. */
  lemma {:induction false} SplitRejoinsAt(s: string, sep: string)
    requires sep != [] && IndexOf(s, sep).Some?
    ensures Join(Split(s, sep), sep) == s
    decreases |s|, 0
  {
    var k := IndexOf(s, sep).value;
    var tail := s[k + |sep|..];
    SplitFirst(s, sep, k);
    Around(s, k, |sep|);
    assert OccursAt(s, sep, k);
    SplitRejoins(tail, sep);
    JoinCons(s[..k], Split(tail, sep), sep);
  }

  lemma {:induction false} SplitPiecesFree(s: string, sep: string)
    requires sep != []
    ensures forall i :: 0 <= i < |Split(s, sep)| ==> !Contains(Split(s, sep)[i], sep)
    decreases |s|
  {
    match IndexOf(s, sep)
    case None =>
    case Some(k) =>
      var tail := s[k + |sep|..];
      SplitPiecesFree(tail, sep);
      forall j | 0 <= j && OccursAt(s[..k], sep, j)
        ensures j < k && OccursAt(s, sep, j)
      {
        assert s[..k][j..j + |sep|] == s[j..j + |sep|];
      }
      var r := Split(s, sep);
      assert !Contains(r[0], sep);
      forall i | 1 <= i < |r|
        ensures !Contains(r[i], sep)
      {
        assert r[i] == Split(tail, sep)[i - 1];
      }
  }

  /** A string without leading or trailing whitespace is its own strip. */
  lemma StripUnchanged(s: string)
    requires s == [] || (!IsSpace(s[0]) && !IsSpace(s[|s| - 1]))
    ensures Strip(s) == s
  {
    assert TrimStart(s) == s;
  }

  /** Trailing whitespace is dropped by `strip()`. */
  lemma StripTrailingSpace(s: string)
    requires s == [] || (!IsSpace(s[0]) && !IsSpace(s[|s| - 1]))
    ensures Strip(s + " ") == s
  {
    if s != [] {
      assert TrimStart(s + " ") == s + " ";
      assert (s + " ")[..|s|] == s;
      assert TrimEnd(s + " ") == TrimEnd(s);
      assert TrimEnd(s) == s;
    }
  }

  /** A single-character separator occurs exactly where that character does. */
  lemma ContainsChar(s: string, c: char)
    ensures Contains(s, [c]) <==> c in s
  {
    if c in s {
      var k :| 0 <= k < |s| && s[k] == c;
      assert OccursAt(s, [c], k);
    }
    if Contains(s, [c]) {
      var k := IndexOf(s, [c]).value;
      assert s[k..k + 1] == [c] && s[k] == s[k..k + 1][0];
    }
  }

  /** Splitting on a character that occurs once gives the text on each side. */
  lemma SplitOnce(a: string, c: char, b: string)
    requires c !in a && c !in b
    ensures Split(a + [c] + b, [c]) == [a, b]
  {
    var s := a + [c] + b;
    assert OccursAt(s, [c], |a|);
    forall j | 0 <= j < |a|
      ensures !OccursAt(s, [c], j)
    {
      assert s[j] == a[j];
    }
    assert IndexOf(s, [c]) == Some(|a|);
    assert s[..|a|] == a && s[|a| + 1..] == b;
    ContainsChar(b, c);
  }

  /** Two occurrences of a one-character separator make at least three pieces. */
  lemma SplitAtLeastThree(s: string, c: char, i: int, j: int)
    requires 0 <= i < j < |s| && s[i] == c && s[j] == c
    ensures |Split(s, [c])| >= 3
  {
    assert OccursAt(s, [c], i);
    var k := IndexOf(s, [c]).value;
    var rest := s[k + 1..];
    assert rest[j - k - 1] == c;
    ContainsChar(rest, c);
    SplitSecond(rest, [c]);
  }

  /** Total number of characters in a list of lines. */
  function TotalLength(lines: seq<string>): nat {
    if lines == [] then 0 else |lines[0]| + TotalLength(lines[1..])
  }

  lemma {:induction false} JoinLength(pieces: seq<string>, sep: string)
    requires pieces != []
    ensures |Join(pieces, sep)| == TotalLength(pieces) + (|pieces| - 1) * |sep|
  {
    if |pieces| > 1 {
      JoinLength(pieces[1..], sep);
    }
  }

  /** Splitting never makes text: the pieces are no longer than the input. */
  lemma SplitLength(s: string, sep: string)
    requires sep != []
    ensures TotalLength(Split(s, sep)) <= |s|
  {
    SplitJoin(s, sep);
    JoinLength(Split(s, sep), sep);
  }

  lemma {:induction false} TotalLengthBound(lines: seq<string>, i: int)
    requires 0 <= i < |lines|
    ensures |lines[i]| <= TotalLength(lines)
  {
    if i > 0 {
      TotalLengthBound(lines[1..], i - 1);
    }
  }

  /** The first piece of `Split(s, sep)` is the text before the first `sep`. */
  function Before(s: string, sep: string): (r: string)
    requires sep != []
    ensures !Contains(r, sep)
    ensures match IndexOf(s, sep)
      case Some(k) => r == s[..k]
      case None => r == s
  {
    SplitJoin(s, sep);
    Split(s, sep)[0]
  }

  /** The text after the first `sep`, if there is one. */
  function After(s: string, sep: string): (r: Option<string>)
    requires sep != []
    ensures r.Some? <==> Contains(s, sep)
    ensures r.Some? ==> s == Before(s, sep) + sep + r.value
  {
    match IndexOf(s, sep)
    case None => None
    case Some(k) => Some(s[k + |sep|..])
  }

  /** Piece number one of `Split(s, sep)` exists exactly when `sep` occurs,
      and is the text between the first and the second occurrence. */
  lemma SplitSecond(s: string, sep: string)
    requires sep != []
    ensures |Split(s, sep)| >= 2 <==> Contains(s, sep)
    ensures |Split(s, sep)| >= 2 ==> Split(s, sep)[1] == Before(After(s, sep).value, sep)
  {
  }

  /** Length of the leading run of non-space characters. */
  function WordEnd(s: string): (n: nat)
    ensures n <= |s| && NoSpace(s[..n])
    ensures n < |s| ==> IsSpace(s[n])
  {
    if s == [] || IsSpace(s[0]) then 0 else 1 + WordEnd(s[1..])
  }

  /** `s.split()` with no separator: the maximal runs of non-space characters. */
  function Words(s: string): (r: seq<string>)
    ensures forall i :: 0 <= i < |r| ==> r[i] != [] && NoSpace(r[i])
    decreases |s|
  {
    if s == [] then []
    else if IsSpace(s[0]) then Words(s[1..])
    else
      var n := WordEnd(s);
      [s[..n]] + Words(s[n..])
  }

  /** A string has no words exactly when it is all whitespace. */
  lemma {:induction false} WordsEmpty(s: string)
    ensures Words(s) == [] <==> AllSpace(s)
    decreases |s|
  {
    if s != [] && IsSpace(s[0]) {
      WordsEmpty(s[1..]);
      assert AllSpace(s) <==> AllSpace(s[1..]) by {
        assert forall i :: 0 < i < |s| ==> s[i] == s[1..][i - 1];
      }
    }
  }

  /** The word that starts a string ends where its first whitespace does. */
  lemma {:induction false} WordEndPrefix(a: string, t: string)
    requires WordEnd(a) < |a|
    ensures WordEnd(a + t) == WordEnd(a)
    decreases |a|
  {
    if !IsSpace(a[0]) {
      assert (a + t)[1..] == a[1..] + t;
      WordEndPrefix(a[1..], t);
    }
  }

  /** `split()` does not look across whitespace: the words of a text that
      ends in whitespace, followed by anything, are the words of each part. */
  lemma {:induction false} WordsAppend(a: string, t: string)
    requires a == [] || IsSpace(a[|a| - 1])
    ensures Words(a + t) == Words(a) + Words(t)
    decreases |a|
  {
    if a == [] {
      assert a + t == t;
    } else if IsSpace(a[0]) {
      assert (a + t)[1..] == a[1..] + t;
      WordsAppend(a[1..], t);
    } else {
      var n := WordEnd(a);
      assert n < |a| by {
        forall i | 0 <= i < n
          ensures !IsSpace(a[i])
        {
          assert a[..n][i] == a[i];
        }
      }
      WordEndPrefix(a, t);
      assert (a + t)[..n] == a[..n];
      assert (a + t)[n..] == a[n..] + t;
      WordsAppend(a[n..], t);
    }
  }

  /** `split()` yields the maximal runs of non-whitespace in order: a run
      `w` bounded by whitespace or the ends of the string is one word, with
      the words before it first and the words after it last. */
  lemma Words3(a: string, w: string, b: string)
    requires w != [] && NoSpace(w)
    requires a == [] || IsSpace(a[|a| - 1])
    requires b == [] || IsSpace(b[0])
    ensures Words(a + w + b) == Words(a) + [w] + Words(b)
  {
    var wb := w + b;
    assert a + w + b == a + wb;
    WordsAppend(a, wb);
    WordsOfWord(w, b);
    assert Words(a) + ([w] + Words(b)) == Words(a) + [w] + Words(b);
  }

  /** Words separated by single spaces: the inverse of `Words`. */
  function Unwords(words: seq<string>): string {
    Join(words, " ")
  }

  lemma {:induction false} WordsOfWord(w: string, tail: string)
    requires w != [] && NoSpace(w)
    requires tail == [] || IsSpace(tail[0])
    ensures Words(w + tail) == [w] + Words(tail)
  {
    assert (w + tail)[0] == w[0];
    WordEndOf(w, tail);
    assert (w + tail)[..|w|] == w;
    assert (w + tail)[|w|..] == tail;
  }

  lemma {:induction false} WordEndOf(w: string, tail: string)
    requires NoSpace(w)
    requires tail == [] || IsSpace(tail[0])
    ensures WordEnd(w + tail) == |w|
  {
    if w != [] {
      assert (w + tail)[1..] == w[1..] + tail;
      WordEndOf(w[1..], tail);
    }
  }

  lemma {:induction false} WordsUnwords(words: seq<string>)
    requires forall i :: 0 <= i < |words| ==> words[i] != [] && NoSpace(words[i])
    ensures Words(Unwords(words)) == words
  {
    if |words| == 1 {
      WordsOfWord(words[0], []);
      assert words[0] + [] == words[0];
    } else if |words| > 1 {
      var tail := " " + Unwords(words[1..]);
      assert Unwords(words) == words[0] + tail;
      WordsOfWord(words[0], tail);
      assert tail[1..] == Unwords(words[1..]);
      WordsUnwords(words[1..]);
    }
  }

  lemma WordsAfterSpace(s: string)
    ensures Words(" " + s) == Words(s)
  {
    assert (" " + s)[1..] == s;
  }

  /** Words joined by single spaces start and end with a non-space. */
  lemma {:induction false} UnwordsEnds(words: seq<string>)
    requires words != []
    requires forall i :: 0 <= i < |words| ==> words[i] != [] && NoSpace(words[i])
    ensures var u := Unwords(words); u != [] && !IsSpace(u[0]) && !IsSpace(u[|u| - 1])
  {
    if |words| > 1 {
      UnwordsEnds(words[1..]);
      var rest := Unwords(words[1..]);
      assert Unwords(words) == words[0] + " " + rest;
    }
  }

  /** A character that is in none of the words is not in their join. */
  lemma {:induction false} UnwordsNoChar(words: seq<string>, c: char)
    requires c != ' '
    requires forall i :: 0 <= i < |words| ==> c !in words[i]
    ensures c !in Unwords(words)
  {
    if |words| > 1 {
      UnwordsNoChar(words[1..], c);
      assert Unwords(words) == words[0] + " " + Unwords(words[1..]);
    }
  }

  /** The text after a keyword and one space. */
  lemma DropKeyword(keyword: string, rest: string)
    ensures var line := keyword + " " + rest;
      StartsWith(line, keyword) && Drop(line, |keyword| + 1) == rest
  {
    var line := keyword + " " + rest;
    assert line[..|keyword|] == keyword;
    assert line[|keyword| + 1..] == rest;
  }

  /** A line made of a keyword, a space and words joined by spaces is
      already stripped, and the words come back from the text after the
      keyword and its space. */
  lemma KeywordLine(keyword: string, words: seq<string>)
    requires keyword != [] && NoSpace(keyword)
    requires words != []
    requires forall i :: 0 <= i < |words| ==> words[i] != [] && NoSpace(words[i])
    ensures var line := keyword + " " + Unwords(words);
      Strip(line) == line && StartsWith(line, keyword) &&
      Words(Strip(Drop(line, |keyword| + 1))) == words
  {
    var u := Unwords(words);
    var line := keyword + " " + u;
    UnwordsEnds(words);
    assert line[0] == keyword[0] && line[|line| - 1] == u[|u| - 1];
    StripUnchanged(line);
    DropKeyword(keyword, u);
    StripUnchanged(u);
    WordsUnwords(words);
  }

  /** A line `name c words` with single spaces around the separator `c`:
      already stripped, and splitting on `c` gives back the stripped name and
      the words. */
  lemma SeparatedLine(name: string, c: char, words: seq<string>)
    requires name != [] && NoSpace(name) && c !in name && !IsSpace(c)
    requires words != []
    requires forall i :: 0 <= i < |words| ==> words[i] != [] && NoSpace(words[i]) && c !in words[i]
    ensures var line := name + " " + [c] + " " + Unwords(words);
      Strip(line) == line && c in line &&
      Split(line, [c]) == [name + " ", " " + Unwords(words)] &&
      Strip(name + " ") == name && Words(" " + Unwords(words)) == words
  {
    WordsUnwords(words);
    UnwordsEnds(words);
    UnwordsNoChar(words, c);
    var u := Unwords(words);
    SeparatedStripped(name, c, u);
    SeparatedSplit(name, c, u);
    StripTrailingSpace(name);
    WordsAfterSpace(u);
  }

  lemma SeparatedStripped(name: string, c: char, u: string)
    requires name != [] && !IsSpace(name[0])
    requires u != [] && !IsSpace(u[|u| - 1])
    ensures var line := name + " " + [c] + " " + u;
      Strip(line) == line && c in line
  {
    var line := name + " " + [c] + " " + u;
    assert line[0] == name[0] && line[|line| - 1] == u[|u| - 1];
    StripUnchanged(line);
    assert line[|name| + 1] == c;
  }

  lemma SeparatedSplit(name: string, c: char, u: string)
    requires c !in name && c != ' ' && c !in u
    ensures Split(name + " " + [c] + " " + u, [c]) == [name + " ", " " + u]
  {
    assert name + " " + [c] + " " + u == (name + " ") + [c] + (" " + u);
    SplitOnce(name + " ", c, " " + u);
  }

  predicate IsDigit(c: char) {
    '0' <= c <= '9'
  }

  /** A non-empty run of decimal digits: the tokens read as numeric literals. */
  predicate IsDecimal(s: string) {
    s != [] && forall i :: 0 <= i < |s| ==> IsDigit(s[i])
  }

  /** The number a run of digits spells, most significant digit first. */
  function DecimalValue(s: string): nat
    requires forall i :: 0 <= i < |s| ==> IsDigit(s[i])
  {
    if s == [] then 0
    else
      var last := s[|s| - 1];
      assert IsDigit(last);
      10 * DecimalValue(s[..|s| - 1]) + (last as int - '0' as int)
  }

  /** The shortest decimal spelling of `n`. */
  function DecimalString(n: nat): (r: string)
    ensures IsDecimal(r)
  {
    if n < 10 then [('0' as int + n) as char]
    else DecimalString(n / 10) + [('0' as int + n % 10) as char]
  }

  lemma {:induction false} DecimalRoundTrip(n: nat)
    ensures DecimalValue(DecimalString(n)) == n
  {
    if n >= 10 {
      var s := DecimalString(n);
      assert s[..|s| - 1] == DecimalString(n / 10);
      DecimalRoundTrip(n / 10);
    }
  }
}
