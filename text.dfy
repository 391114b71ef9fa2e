/** The Python string operations the core relies on: str.split, str.strip,
    str.replace, str.lower, int() on a decimal token, and their inverses
    where one exists. */
module Text {
  import opened Wrappers

  /** The ASCII characters str.split() and the regex class \s treat as whitespace. */
  predicate IsSpace(c: char) {
    c == ' ' || c == '\t' || c == '\n' || c == '\r' || c == '\U{B}' || c == '\U{C}'
  }

  /** The same characters as a set, for str.strip(). */
  const Whitespace: set<char> := {' ', '\t', '\n', '\r', '\U{B}', '\U{C}'}

  /** A token of str.split(): non-empty, with no whitespace. */
  predicate IsToken(w: string) {
    w != [] && forall i :: 0 <= i < |w| ==> !IsSpace(w[i])
  }

  /** Length of the leading run of non-whitespace characters. */
  function TokenLength(s: string): (k: nat)
    ensures k <= |s|
    ensures forall i :: 0 <= i < k ==> !IsSpace(s[i])
    ensures k < |s| ==> IsSpace(s[k])
  {
    if s == [] || IsSpace(s[0]) then 0 else 1 + TokenLength(s[1..])
  }

  /** str.split() with no argument: the maximal runs of non-whitespace, in order. */
  function Words(s: string): (ws: seq<string>)
    ensures forall i :: 0 <= i < |ws| ==> IsToken(ws[i])
    decreases |s|
  {
    if s == [] then []
    else if IsSpace(s[0]) then Words(s[1..])
    else
      var k := TokenLength(s);
      [s[..k]] + Words(s[k..])
  }

  /** ' '.join(ws) */
  function Unwords(ws: seq<string>): string {
    if ws == [] then []
    else if |ws| == 1 then ws[0]
    else ws[0] + [' '] + Unwords(ws[1..])
  }

  lemma WordsOfToken(w: string, rest: string)
    requires IsToken(w)
    requires rest == [] || IsSpace(rest[0])
    ensures Words(w + rest) == [w] + Words(rest)
  {
    var s := w + rest;
    assert s[..|w|] == w;
    assert s[|w|..] == rest;
    TokenLengthOf(w, rest);
  }

  lemma {:induction false} TokenLengthOf(w: string, rest: string)
    requires forall i :: 0 <= i < |w| ==> !IsSpace(w[i])
    requires rest == [] || IsSpace(rest[0])
    ensures TokenLength(w + rest) == |w|
  {
    if w != [] {
      assert (w + rest)[1..] == w[1..] + rest;
      TokenLengthOf(w[1..], rest);
    }
  }

  /** Splitting a space-joined list of tokens gives the tokens back. */
  lemma {:induction false} WordsUnwords(ws: seq<string>)
    requires forall i :: 0 <= i < |ws| ==> IsToken(ws[i])
    ensures Words(Unwords(ws)) == ws
  {
    if ws == [] {
    } else if |ws| == 1 {
      WordsOfToken(ws[0], []);
      assert ws[0] + [] == ws[0];
    } else {
      WordsUnwords(ws[1..]);
      var tail := [' '] + Unwords(ws[1..]);
      assert ws[0] + [' '] + Unwords(ws[1..]) == ws[0] + tail;
      WordsOfToken(ws[0], tail);
      assert tail[1..] == Unwords(ws[1..]);
    }
  }

  /** str.lstrip(cs) */
  function StripLeft(s: string, cs: set<char>): (r: string)
    ensures |r| <= |s| && r == s[|s| - |r|..]
    ensures r != [] ==> r[0] !in cs
    ensures forall i :: 0 <= i < |s| - |r| ==> s[i] in cs
  {
    if s != [] && s[0] in cs then
      var r := StripLeft(s[1..], cs);
      assert s[1..][|s| - 1 - |r|..] == s[|s| - |r|..];
      assert forall i :: 1 <= i < |s| - |r| ==> s[i] == s[1..][i - 1];
      r
    else s
  }

  /** str.rstrip(cs) */
  function StripRight(s: string, cs: set<char>): (r: string)
    ensures |r| <= |s| && r == s[..|r|]
    ensures r != [] ==> r[|r| - 1] !in cs
    ensures forall i :: |r| <= i < |s| ==> s[i] in cs
  {
    if s != [] && s[|s| - 1] in cs then
      var r := StripRight(s[..|s| - 1], cs);
      assert s[..|s| - 1][..|r|] == s[..|r|];
      assert forall i :: |r| <= i < |s| - 1 ==> s[i] == s[..|s| - 1][i];
      r
    else s
  }

  /** str.strip(cs): drop the longest prefix and then the longest suffix made of characters of cs. */
  function Strip(s: string, cs: set<char>): string {
    StripRight(StripLeft(s, cs), cs)
  }

  /** What lstrip then rstrip leave, stated of any l and r that satisfy
      their contracts: r is a slice of s with only characters of cs around it. */
  lemma StrippedSlice(s: string, cs: set<char>, l: string, r: string)
    requires |l| <= |s| && l == s[|s| - |l|..] && (l != [] ==> l[0] !in cs)
    requires forall i :: 0 <= i < |s| - |l| ==> s[i] in cs
    requires |r| <= |l| && r == l[..|r|] && (r != [] ==> r[|r| - 1] !in cs)
    requires forall i :: |r| <= i < |l| ==> l[i] in cs
    ensures var a := |s| - |l|; a + |r| <= |s| && r == s[a..a + |r|]
    ensures forall i :: |s| - |l| + |r| <= i < |s| ==> s[i] in cs
    ensures r != [] ==> r[0] !in cs
  {
    var a := |s| - |l|;
    forall k | 0 <= k < |r| ensures r[k] == s[a + k] {
      assert r[k] == l[k] == s[a + k];
    }
    forall i | a + |r| <= i < |s| ensures s[i] in cs {
      assert s[i] == l[i - a];
    }
  }

  /** str.strip(cs) keeps the slice s[a..a+|r|], where a counts the leading
      characters of cs; everything before and after that slice is in cs and
      the slice neither starts nor ends with a character of cs. */
  lemma StripIsSlice(s: string, cs: set<char>)
    ensures var r, a := Strip(s, cs), |s| - |StripLeft(s, cs)|; a + |r| <= |s| && r == s[a..a + |r|]
    ensures var a := |s| - |StripLeft(s, cs)|; forall i :: 0 <= i < a ==> s[i] in cs
    ensures var r, a := Strip(s, cs), |s| - |StripLeft(s, cs)|; forall i :: a + |r| <= i < |s| ==> s[i] in cs
    ensures var r := Strip(s, cs); r != [] ==> r[0] !in cs && r[|r| - 1] !in cs
  {
    StrippedSlice(s, cs, StripLeft(s, cs), Strip(s, cs));
  }

  /** str.replace(c, r) for a one-character old string. */
  function Replace(s: string, c: char, r: string): string {
    if s == [] then [] else (if s[0] == c then r else [s[0]]) + Replace(s[1..], c, r)
  }

  lemma {:induction false} ReplaceAppend(a: string, b: string, c: char, r: string)
    ensures Replace(a + b, c, r) == Replace(a, c, r) + Replace(b, c, r)
  {
    if a == [] {
      assert a + b == b;
    } else {
      assert (a + b)[1..] == a[1..] + b;
      ReplaceAppend(a[1..], b, c, r);
    }
  }

  lemma {:induction false} ReplaceAbsent(s: string, c: char, r: string)
    requires c !in s
    ensures Replace(s, c, r) == s
  {
    if s != [] {
      ReplaceAbsent(s[1..], c, r);
    }
  }

  /** The characters of s that are not in cs, in order. */
  function RemoveChars(s: string, cs: set<char>): (r: string)
    ensures forall i :: 0 <= i < |r| ==> r[i] !in cs
    ensures |r| <= |s|
  {
    if s == [] then [] else (if s[0] in cs then [] else [s[0]]) + RemoveChars(s[1..], cs)
  }

  /** Removing characters distributes over concatenation. */
  lemma {:induction false} RemoveCharsAppend(a: string, b: string, cs: set<char>)
    ensures RemoveChars(a + b, cs) == RemoveChars(a, cs) + RemoveChars(b, cs)
  {
    if a == [] {
      assert a + b == b;
    } else {
      assert (a + b)[1..] == a[1..] + b;
      RemoveCharsAppend(a[1..], b, cs);
    }
  }

  /** A character that is not removed keeps its count. */
  lemma {:induction false} CountRemoveChars(s: string, cs: set<char>, c: char)
    requires c !in cs
    ensures Count(RemoveChars(s, cs), c) == Count(s, c)
  {
    if s != [] {
      CountRemoveChars(s[1..], cs, c);
      var r := RemoveChars(s[1..], cs);
      if s[0] !in cs {
        var t := [s[0]] + r;
        assert RemoveChars(s, cs) == t;
        assert t[0] == s[0] && t[1..] == r;
      } else {
        assert RemoveChars(s, cs) == [] + r == r;
      }
    }
  }

  /** Number of occurrences of c in s. */
  function Count(s: string, c: char): (n: nat)
    ensures n <= |s|
  {
    if s == [] then 0 else (if s[0] == c then 1 else 0) + Count(s[1..], c)
  }

  /** Counting over a string grown by one character. */
  lemma {:induction false} CountSnoc(s: string, x: char, c: char)
    ensures Count(s + [x], c) == Count(s, c) + if x == c then 1 else 0
  {
    if s != [] {
      assert (s + [x])[1..] == s[1..] + [x];
      CountSnoc(s[1..], x, c);
    }
  }

  /** str.split(sep) for a one-character separator. */
  function SplitOn(s: string, sep: char): (pieces: seq<string>)
    ensures |pieces| >= 1
  {
    if s == [] then [[]]
    else
      var p := SplitOn(s[1..], sep);
      if s[0] == sep then [[]] + p else [[s[0]] + p[0]] + p[1..]
  }

  /** sep.join(pieces) */
  function Join(pieces: seq<string>, sep: char): string
    requires |pieces| >= 1
  {
    if |pieces| == 1 then pieces[0] else pieces[0] + [sep] + Join(pieces[1..], sep)
  }

  /** The pieces of s.split(sep): one more than the separators, none holding
      the separator, and joined by the separator they give s back. */
  lemma {:induction false} SplitOnJoin(s: string, sep: char)
    ensures |SplitOn(s, sep)| == Count(s, sep) + 1
    ensures Join(SplitOn(s, sep), sep) == s
    ensures forall k :: 0 <= k < |SplitOn(s, sep)| ==> sep !in SplitOn(s, sep)[k]
  {
    if s != [] {
      SplitOnJoin(s[1..], sep);
      var p := SplitOn(s[1..], sep);
      if s[0] != sep {
        var q := [[s[0]] + p[0]] + p[1..];
        assert |p| > 1 ==> Join(q, sep) == [s[0]] + p[0] + [sep] + Join(p[1..], sep) by {
          if |p| > 1 { assert q[1..] == p[1..]; }
        }
        assert s == [s[0]] + s[1..];
        forall k | 0 <= k < |q| ensures sep !in q[k] {
          if k > 0 { assert q[k] == p[k]; }
        }
      }
    }
  }

  /** Splitting a string that starts with a piece free of sep: the piece
      opens the first part of what the rest splits into. */
  lemma {:induction false} SplitOnPiece(w: string, rest: string, sep: char)
    requires sep !in w
    ensures var p := SplitOn(rest, sep); SplitOn(w + rest, sep) == [w + p[0]] + p[1..]
  {
    var p := SplitOn(rest, sep);
    if w == [] {
      assert w + rest == rest;
      assert w + p[0] == p[0];
      assert [p[0]] + p[1..] == p;
    } else {
      assert (w + rest)[1..] == w[1..] + rest;
      SplitOnPiece(w[1..], rest, sep);
      assert [w[0]] + (w[1..] + p[0]) == w + p[0];
    }
  }

  /** Splitting on sep undoes joining pieces that do not hold sep. */
  lemma {:induction false} SplitOnJoined(pieces: seq<string>, sep: char)
    requires |pieces| >= 1
    requires forall k :: 0 <= k < |pieces| ==> sep !in pieces[k]
    ensures SplitOn(Join(pieces, sep), sep) == pieces
  {
    if |pieces| == 1 {
      SplitOnPiece(pieces[0], [], sep);
      assert pieces[0] + [] == pieces[0];
    } else {
      var tail := Join(pieces[1..], sep);
      SplitOnJoined(pieces[1..], sep);
      var rest := [sep] + tail;
      SplitOnPiece(pieces[0], rest, sep);
      assert Join(pieces, sep) == pieces[0] + rest;
      assert rest[0] == sep && rest[1..] == tail;
      var p := SplitOn(rest, sep);
      assert p == [[]] + pieces[1..];
      assert pieces[0] + p[0] == pieces[0];
      assert [pieces[0]] + pieces[1..] == pieces;
    }
  }

  /** The ends of a joined string are the ends of its first and last pieces. */
  lemma {:induction false} JoinEnds(pieces: seq<string>, sep: char)
    requires |pieces| >= 1 && pieces[|pieces| - 1] != []
    ensures var s, w := Join(pieces, sep), pieces[|pieces| - 1]; s != [] && s[|s| - 1] == w[|w| - 1]
    ensures pieces[0] != [] ==> Join(pieces, sep)[0] == pieces[0][0]
  {
    if |pieces| > 1 {
      JoinEnds(pieces[1..], sep);
    }
  }

  /** A space-joined list of tokens starts with the first token's first
      character, ends with the last token's last character, and holds no
      whitespace but the spaces between the tokens. */
  lemma {:induction false} UnwordsShape(ws: seq<string>)
    requires ws != []
    requires forall i :: 0 <= i < |ws| ==> IsToken(ws[i])
    ensures var s := Unwords(ws); ws[0] != [] && s != [] && s[0] == ws[0][0]
    ensures var s, w := Unwords(ws), ws[|ws| - 1]; w != [] && s != [] && s[|s| - 1] == w[|w| - 1]
    ensures var s := Unwords(ws); forall i :: 0 <= i < |s| && IsSpace(s[i]) ==> s[i] == ' '
  {
    if |ws| > 1 {
      var t := Unwords(ws[1..]);
      UnwordsShape(ws[1..]);
      var s := ws[0] + [' '] + t;
      forall i | 0 <= i < |s| && IsSpace(s[i]) ensures s[i] == ' ' {
        if i > |ws[0]| {
          assert s[i] == t[i - |ws[0]| - 1];
        }
      }
    }
  }

  /** str.strip leaves a string alone when neither end is to be stripped. */
  lemma StripUnchanged(s: string, cs: set<char>)
    requires s != [] && s[0] !in cs && s[|s| - 1] !in cs
    ensures Strip(s, cs) == s
  {
  }

  /** Every character of every piece comes from the split string. */
  lemma {:induction false} SplitOnChars(s: string, sep: char)
    ensures forall k, x :: 0 <= k < |SplitOn(s, sep)| && x in SplitOn(s, sep)[k] ==> x in s
  {
    if s != [] {
      SplitOnChars(s[1..], sep);
      var p := SplitOn(s[1..], sep);
      var q := SplitOn(s, sep);
      assert s == [s[0]] + s[1..];
      forall k, x | 0 <= k < |q| && x in q[k] ensures x in s {
        if s[0] == sep {
          if k > 0 { assert q[k] == p[k - 1]; }
        } else if k == 0 {
          assert q[0] == [s[0]] + p[0];
        } else {
          assert q[k] == p[k];
        }
      }
    }
  }

  /** ASCII str.lower() */
  function Lower(s: string): (r: string)
    ensures |r| == |s|
  {
    if s == [] then []
    else [if 'A' <= s[0] <= 'Z' then (s[0] as int + 32) as char else s[0]] + Lower(s[1..])
  }

  predicate IsDigit(c: char) { '0' <= c <= '9' }

  predicate IsDigits(s: string) { s != [] && forall i :: 0 <= i < |s| ==> IsDigit(s[i]) }

  function DigitValue(c: char): nat
    requires IsDigit(c)
  {
    c as int - '0' as int
  }

  function DigitsValue(s: string): nat
    requires forall i :: 0 <= i < |s| ==> IsDigit(s[i])
  {
    if s == [] then 0 else DigitsValue(s[..|s| - 1]) * 10 + DigitValue(s[|s| - 1])
  }

  /** int(token) for a token without whitespace: an optional sign and decimal digits;
      anything else raises ValueError. */
  function ParseInt(s: string): Option<int> {
    if |s| > 1 && (s[0] == '-' || s[0] == '+') && IsDigits(s[1..]) then
      var v: int := DigitsValue(s[1..]);
      Some(if s[0] == '-' then -v else v)
    else if IsDigits(s) then Some(DigitsValue(s))
    else None
  }

  /** str(n) for a natural number. */
  function ShowNat(n: nat): (s: string)
    ensures IsDigits(s)
  {
    if n < 10 then [('0' as int + n) as char] else ShowNat(n / 10) + [('0' as int + n % 10) as char]
  }

  /** str(n) */
  function ShowInt(n: int): string {
    if n < 0 then ['-'] + ShowNat(-n) else ShowNat(n)
  }

  lemma {:induction false} DigitsValueShowNat(n: nat)
    ensures DigitsValue(ShowNat(n)) == n
  {
    if n >= 10 {
      DigitsValueShowNat(n / 10);
      var s := ShowNat(n);
      assert s[..|s| - 1] == ShowNat(n / 10);
    }
  }

  /** int(str(n)) == n */
  lemma ParseShowInt(n: int)
    ensures ParseInt(ShowInt(n)) == Some(n)
  {
    if n < 0 {
      DigitsValueShowNat(-n);
      var s := ShowInt(n);
      assert s[0] == '-' && s[1..] == ShowNat(-n);
      assert IsDigits(s[1..]);
    } else {
      DigitsValueShowNat(n);
      var s := ShowNat(n);
      assert IsDigit(s[0]);
      assert !(s[0] == '-' || s[0] == '+');
    }
  }
}
