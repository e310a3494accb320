/**
 * The handful of Python string operations the address code relies on:
 * `str.isspace`, `str.upper` (ASCII letters only), `str.strip` and
 * `" ".join(s.split())`.
 */
module Text {

  /** Python's `str.isspace()`: ASCII controls \t..\r and \x1c..\x1f, the
      space, and the Unicode space separators. */
  predicate IsSpace(c: char)
  {
    || c == ' '
    || ('\t' <= c <= '\r')
    || ('\U{1C}' <= c <= '\U{1F}')
    || c == '\U{85}' || c == '\U{A0}' || c == '\U{1680}'
    || ('\U{2000}' <= c <= '\U{200A}')
    || c == '\U{2028}' || c == '\U{2029}' || c == '\U{202F}' || c == '\U{205F}'
    || c == '\U{3000}'
  }

  predicate IsLowerAscii(c: char) { 'a' <= c <= 'z' }

  /** `c.upper()` on ASCII letters; every other character is kept. */
  function UpperChar(c: char): (u: char)
    ensures !IsLowerAscii(u)
    ensures IsSpace(u) <==> IsSpace(c)
    ensures !IsLowerAscii(c) ==> u == c
  {
    if IsLowerAscii(c) then (c as int - 32) as char else c
  }

  function Upper(s: string): (u: string)
    ensures |u| == |s|
    ensures forall i | 0 <= i < |s| :: u[i] == UpperChar(s[i])
  {
    seq(|s|, i requires 0 <= i < |s| => UpperChar(s[i]))
  }

  /** Removes the leading characters that satisfy `drop`. */
  function DropLeading(s: string, drop: char -> bool): (r: string)
    ensures |r| <= |s| && r == s[|s| - |r|..]
    ensures r != [] ==> !drop(r[0])
    ensures forall i | 0 <= i < |s| - |r| :: drop(s[i])
    decreases |s|
  {
    if s != [] && drop(s[0]) then DropLeading(s[1..], drop) else s
  }

  /** Removes the trailing characters that satisfy `drop`. */
  function DropTrailing(s: string, drop: char -> bool): (r: string)
    ensures |r| <= |s| && r == s[..|r|]
    ensures r != [] ==> !drop(r[|r| - 1])
    ensures forall i | |r| <= i < |s| :: drop(s[i])
    decreases |s|
  {
    if s != [] && drop(s[|s| - 1]) then DropTrailing(s[..|s| - 1], drop) else s
  }

  /** Python's `s.strip(chars)` where `drop` tells the stripped characters. */
  function StripWhere(s: string, drop: char -> bool): (r: string)
    ensures r != [] ==> !drop(r[0]) && !drop(r[|r| - 1])
  {
    DropTrailing(DropLeading(s, drop), drop)
  }

  /** Python's `s.strip()`. */
  function Strip(s: string): string
  {
    StripWhere(s, IsSpace)
  }

  lemma StripWhereOfStripped(s: string, drop: char -> bool)
    requires s != [] ==> !drop(s[0]) && !drop(s[|s| - 1])
    ensures StripWhere(s, drop) == s
  {
  }

  lemma UpperIdempotent(s: string)
    ensures Upper(Upper(s)) == Upper(s)
  {
  }

  lemma UpperKeepsEnds(s: string)
    requires s != [] ==> !IsSpace(s[0]) && !IsSpace(s[|s| - 1])
    ensures Upper(s) != [] ==> !IsSpace(Upper(s)[0]) && !IsSpace(Upper(s)[|s| - 1])
  {
  }

  /** Stripping then upper-casing (`s.strip().upper()`) is idempotent. */
  lemma UpperStripIdempotent(s: string)
    ensures Upper(Strip(Upper(Strip(s)))) == Upper(Strip(s))
  {
    var r := Strip(s);
    UpperKeepsEnds(r);
    StripWhereOfStripped(Upper(r), IsSpace);
    UpperIdempotent(r);
  }

  predicate SpaceFree(w: string)
  {
    forall i | 0 <= i < |w| :: !IsSpace(w[i])
  }

  /** Length of the longest prefix of `s` without whitespace. */
  function SpaceFreePrefix(s: string): (n: nat)
    ensures n <= |s|
    ensures forall i | 0 <= i < n :: !IsSpace(s[i])
    ensures n < |s| ==> IsSpace(s[n])
    decreases |s|
  {
    if s == [] || IsSpace(s[0]) then 0 else 1 + SpaceFreePrefix(s[1..])
  }

  /** Python's `s.split()`: the maximal runs of non-whitespace characters. */
  function Words(s: string): (ws: seq<string>)
    ensures forall k | 0 <= k < |ws| :: ws[k] != [] && SpaceFree(ws[k])
    decreases |s|
  {
    if s == [] then []
    else if IsSpace(s[0]) then Words(s[1..])
    else
      var n := SpaceFreePrefix(s);
      [s[..n]] + Words(s[n..])
  }

  /** Python's `sep.join(parts)`. */
  function Join(sep: string, parts: seq<string>): string
    decreases |parts|
  {
    if parts == [] then ""
    else if |parts| == 1 then parts[0]
    else parts[0] + sep + Join(sep, parts[1..])
  }

  /** `" ".join(s.split())`: whitespace runs become one space, ends trimmed. */
  function CollapseSpaces(s: string): string
  {
    Join(" ", Words(s))
  }

  /** Every whitespace character is a single interior space. */
  predicate Tidy(s: string)
  {
    forall i | 0 <= i < |s| && IsSpace(s[i]) :: s[i] == ' ' && 0 < i < |s| - 1 && !IsSpace(s[i + 1])
  }

  /** The non-whitespace characters of `s`, in order. */
  function Visible(s: string): string
    decreases |s|
  {
    if s == [] then "" else (if IsSpace(s[0]) then "" else [s[0]]) + Visible(s[1..])
  }

  function Concat(ws: seq<string>): string
    decreases |ws|
  {
    if ws == [] then "" else ws[0] + Concat(ws[1..])
  }

  lemma {:induction false} VisibleConcat(a: string, b: string)
    ensures Visible(a + b) == Visible(a) + Visible(b)
    decreases |a|
  {
    if a == [] {
      assert a + b == b;
    } else {
      var head := if IsSpace(a[0]) then "" else [a[0]];
      assert (a + b)[0] == a[0];
      assert (a + b)[1..] == a[1..] + b;
      VisibleConcat(a[1..], b);
      calc {
        Visible(a + b);
        head + Visible(a[1..] + b);
        head + (Visible(a[1..]) + Visible(b));
        (head + Visible(a[1..])) + Visible(b);
      }
    }
  }

  lemma {:induction false} VisibleOfSpaceFree(w: string)
    requires SpaceFree(w)
    ensures Visible(w) == w
    decreases |w|
  {
    if w != [] {
      VisibleOfSpaceFree(w[1..]);
    }
  }

  /** Joining space-free, non-empty words with single spaces gives a tidy text
      whose first character is visible exactly when there is a word. */
  lemma {:induction false} JoinTidy(ws: seq<string>)
    requires forall k | 0 <= k < |ws| :: ws[k] != [] && SpaceFree(ws[k])
    ensures Tidy(Join(" ", ws))
    ensures Join(" ", ws) != [] <==> ws != []
    ensures ws != [] ==> !IsSpace(Join(" ", ws)[0])
    decreases |ws|
  {
    if |ws| > 1 {
      var w, rest := ws[0], ws[1..];
      JoinTidy(rest);
      var j := Join(" ", rest);
      var s := w + " " + j;
      assert Join(" ", ws) == s;
      TidyAfterWord(w, j);
    }
  }

  lemma TidyAfterWord(w: string, j: string)
    requires w != [] && SpaceFree(w)
    requires Tidy(j) && j != [] && !IsSpace(j[0])
    ensures Tidy(w + " " + j) && !IsSpace((w + " " + j)[0])
  {
    var s := w + " " + j;
    assert forall k | 0 <= k < |w| :: s[k] == w[k];
    assert forall k | |w| < k < |s| :: s[k] == j[k - |w| - 1];
    forall i | 0 <= i < |s| && IsSpace(s[i])
      ensures s[i] == ' ' && 0 < i < |s| - 1 && !IsSpace(s[i + 1])
    {
      if i == |w| {
        assert s[i + 1] == j[0];
      } else {
        assert s[i + 1] == j[i - |w|];
      }
    }
  }

  /** Joining with spaces loses no visible character. */
  lemma {:induction false} JoinVisible(ws: seq<string>)
    requires forall k | 0 <= k < |ws| :: SpaceFree(ws[k])
    ensures Visible(Join(" ", ws)) == Concat(ws)
    decreases |ws|
  {
    if ws == [] {
    } else if |ws| == 1 {
      VisibleOfSpaceFree(ws[0]);
      assert Join(" ", ws) == ws[0];
      assert Concat(ws[1..]) == "";
    } else {
      var w, rest := ws[0], ws[1..];
      JoinVisible(rest);
      var j := Join(" ", rest);
      assert Join(" ", ws) == (w + " ") + j;
      VisibleConcat(w + " ", j);
      VisibleConcat(w, " ");
      VisibleOfSpaceFree(w);
      assert Visible(" ") == "";
    }
  }

  /** The words of `s` carry all of its visible characters. */
  lemma {:induction false} VisibleWords(s: string)
    ensures Visible(s) == Concat(Words(s))
    decreases |s|
  {
    if s == [] {
    } else if IsSpace(s[0]) {
      VisibleWords(s[1..]);
    } else {
      var n := SpaceFreePrefix(s);
      VisibleWords(s[n..]);
      assert s == s[..n] + s[n..];
      VisibleConcat(s[..n], s[n..]);
      VisibleOfSpaceFree(s[..n]);
      assert ([s[..n]] + Words(s[n..]))[1..] == Words(s[n..]);
    }
  }

  lemma {:induction false} TidySuffix(s: string, n: nat)
    requires Tidy(s) && n < |s| && s[n] == ' '
    ensures Tidy(s[n + 1..]) && s[n + 1..] != [] && !IsSpace(s[n + 1])
  {
    var t := s[n + 1..];
    forall i | 0 <= i < |t| && IsSpace(t[i])
      ensures t[i] == ' ' && 0 < i < |t| - 1 && !IsSpace(t[i + 1])
    {
      assert t[i] == s[n + 1 + i];
    }
  }

  lemma WordsOfWord(s: string)
    requires s != [] && !IsSpace(s[0])
    ensures Words(s) == [s[..SpaceFreePrefix(s)]] + Words(s[SpaceFreePrefix(s)..])
  {
  }

  lemma WordsOfSpace(s: string)
    requires s != [] && IsSpace(s[0])
    ensures Words(s) == Words(s[1..])
  {
  }

  lemma JoinCons(w: string, rest: seq<string>)
    requires rest != []
    ensures Join(" ", [w] + rest) == w + " " + Join(" ", rest)
  {
    assert ([w] + rest)[1..] == rest;
  }

  /** A tidy text is left unchanged by collapsing its whitespace. */
  lemma {:induction false} CollapseOfTidy(s: string)
    requires Tidy(s)
    ensures CollapseSpaces(s) == s
    decreases |s|
  {
    if s != [] {
      var n := SpaceFreePrefix(s);
      WordsOfWord(s);
      if n == |s| {
        assert s[..n] == s;
        assert Words(s[n..]) == [];
      } else {
        var rest := s[n + 1..];
        assert Words(s) == [s[..n]] + Words(rest) by {
          WordsOfSpace(s[n..]);
          assert s[n..][1..] == rest;
        }
        assert Words(rest) != [] && Join(" ", Words(rest)) == rest by {
          TidySuffix(s, n);
          WordsOfWord(rest);
          CollapseOfTidy(rest);
        }
        JoinCons(s[..n], Words(rest));
        assert s == s[..n] + " " + rest;
      }
    }
  }

  /** `" ".join(s.split())` leaves single interior spaces and keeps every
      visible character in order; the result is empty exactly when `s` is
      blank, and collapsing again changes nothing. */
  lemma CollapseSpacesSpec(s: string)
    ensures Tidy(CollapseSpaces(s))
    ensures Visible(CollapseSpaces(s)) == Visible(s)
    ensures CollapseSpaces(s) == [] <==> Visible(s) == []
    ensures CollapseSpaces(CollapseSpaces(s)) == CollapseSpaces(s)
  {
    JoinTidy(Words(s));
    JoinVisible(Words(s));
    VisibleWords(s);
    var c := CollapseSpaces(s);
    if c != [] {
      assert !IsSpace(c[0]);
      assert c == c[..1] + c[1..];
      VisibleConcat(c[..1], c[1..]);
      assert Visible(c[..1]) == [c[0]];
    }
    CollapseOfTidy(c);
  }

  // Lower case, tokens and `str.split(sep)`

  predicate IsUpperAscii(c: char) { 'A' <= c <= 'Z' }

  /** `c.lower()` on ASCII letters; every other character is kept. */
  function LowerChar(c: char): (l: char)
    ensures !IsUpperAscii(l)
    ensures !IsUpperAscii(c) ==> l == c
  {
    if IsUpperAscii(c) then (c as int + 32) as char else c
  }

  function Lower(s: string): (l: string)
    ensures |l| == |s|
    ensures forall i | 0 <= i < |s| :: l[i] == LowerChar(s[i])
  {
    seq(|s|, i requires 0 <= i < |s| => LowerChar(s[i]))
  }

  /** Length of the longest prefix of `s` without a character of `sep`. */
  function TokenPrefix(s: string, sep: char -> bool): (n: nat)
    ensures n <= |s|
    ensures forall i | 0 <= i < n :: !sep(s[i])
    ensures n < |s| ==> sep(s[n])
    decreases |s|
  {
    if s == [] || sep(s[0]) then 0 else 1 + TokenPrefix(s[1..], sep)
  }

  /** The maximal runs of characters outside `sep`, in order: splitting on
      a character class and dropping the empty pieces. */
  function Tokens(s: string, sep: char -> bool): (ws: seq<string>)
    ensures forall k | 0 <= k < |ws| :: ws[k] != [] && forall i | 0 <= i < |ws[k]| :: !sep(ws[k][i])
    decreases |s|
  {
    if s == [] then []
    else if sep(s[0]) then Tokens(s[1..], sep)
    else
      var n := TokenPrefix(s, sep);
      [s[..n]] + Tokens(s[n..], sep)
  }

  /** Position of the first `c` in `s`, or `|s|`. */
  function UntilChar(s: string, c: char): (n: nat)
    ensures n <= |s|
    ensures forall i | 0 <= i < n :: s[i] != c
    ensures n < |s| ==> s[n] == c
    decreases |s|
  {
    if s == [] || s[0] == c then 0 else 1 + UntilChar(s[1..], c)
  }

  /** Python's `s.split(c)`: the pieces between the occurrences of `c`,
      empty ones included. */
  function SplitOn(s: string, c: char): (parts: seq<string>)
    ensures parts != []
    decreases |s|
  {
    var n := UntilChar(s, c);
    if n == |s| then [s] else [s[..n]] + SplitOn(s[n + 1..], c)
  }

  predicate Without(w: string, c: char)
  {
    forall i | 0 <= i < |w| :: w[i] != c
  }

  lemma SplitOfPiece(w: string, c: char)
    requires Without(w, c)
    ensures SplitOn(w, c) == [w]
  {
    assert UntilChar(w, c) == |w|;
  }

  lemma SplitAfterPiece(w: string, c: char, rest: string)
    requires Without(w, c)
    ensures SplitOn(w + [c] + rest, c) == [w] + SplitOn(rest, c)
  {
    var s := w + [c] + rest;
    var n := UntilChar(s, c);
    assert s[|w|] == c;
    assert forall i | 0 <= i < |w| :: s[i] == w[i];
    assert n == |w|;
    assert s[..n] == w;
    assert s[n + 1..] == rest;
  }

  /** Splitting on `c` undoes joining pieces free of `c`. */
  lemma {:induction false} SplitJoin(ws: seq<string>, c: char)
    requires ws != []
    requires forall k | 0 <= k < |ws| :: Without(ws[k], c)
    ensures SplitOn(Join([c], ws), c) == ws
    decreases |ws|
  {
    if |ws| == 1 {
      SplitOfPiece(ws[0], c);
    } else {
      SplitJoin(ws[1..], c);
      SplitAfterPiece(ws[0], c, Join([c], ws[1..]));
      assert [ws[0]] + ws[1..] == ws;
    }
  }

  /** Lower-casing commutes with joining on a separator that is not an
      upper-case letter. */
  lemma {:induction false} LowerJoin(ws: seq<string>, c: char)
    requires !IsUpperAscii(c)
    ensures Lower(Join([c], ws)) == Join([c], seq(|ws|, k requires 0 <= k < |ws| => Lower(ws[k])))
    decreases |ws|
  {
    var lws := seq(|ws|, k requires 0 <= k < |ws| => Lower(ws[k]));
    if |ws| > 1 {
      LowerJoin(ws[1..], c);
      var rest := Join([c], ws[1..]);
      assert lws[1..] == seq(|ws| - 1, k requires 0 <= k < |ws| - 1 => Lower(ws[1..][k]));
      assert Lower(ws[0] + [c] + rest) == Lower(ws[0]) + [c] + Lower(rest);
    }
  }
}
