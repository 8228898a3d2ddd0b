/** The string operations the parsers use: `re.sub(r'\s+', ' ', s)`,
    `str.strip()` and `str.split(sep)`. */
module Text {

  /** Python's whitespace (`str.isspace`, and what `\s` matches in a `str`
      pattern). */
  predicate IsSpace(c: char)
  {
    || c == ' ' || c == '\t' || c == '\n' || c == '\r'
    || c == '\U{0B}' || c == '\U{0C}'
    || ('\U{1C}' <= c <= '\U{1F}')
    || c == '\U{85}' || c == '\U{A0}' || c == '\U{1680}'
    || ('\U{2000}' <= c <= '\U{200A}')
    || c == '\U{2028}' || c == '\U{2029}' || c == '\U{202F}' || c == '\U{205F}' || c == '\U{3000}'
  }

  /** `s` without its leading whitespace. */
  function DropSpaces(s: string): (r: string)
    ensures |r| <= |s| && r == s[|s| - |r|..]
    ensures |r| > 0 ==> !IsSpace(r[0])
    ensures forall i :: 0 <= i < |s| - |r| ==> IsSpace(s[i])
  {
    if |s| > 0 && IsSpace(s[0]) then DropSpaces(s[1..]) else s
  }

  /** `re.sub(r'\s+', ' ', s)`: every maximal run of whitespace becomes one
      space. */
  function Collapse(s: string): (r: string)
    ensures |r| <= |s|
    decreases |s|
  {
    if |s| == 0 then []
    else if IsSpace(s[0]) then [' '] + Collapse(DropSpaces(s[1..]))
    else [s[0]] + Collapse(s[1..])
  }

  /** A string in which the only whitespace is the space, and no two spaces
      are adjacent. */
  predicate Collapsed(t: string)
  {
    && (forall i :: 0 <= i < |t| && IsSpace(t[i]) ==> t[i] == ' ')
    && (forall i :: 0 <= i < |t| - 1 ==> !(t[i] == ' ' && t[i + 1] == ' '))
  }

  /** A string of whitespace only (or empty). */
  predicate Blank(s: string)
  {
    forall i :: 0 <= i < |s| ==> IsSpace(s[i])
  }

  /** The result of `Collapse` is collapsed, and it is empty, or starts with
      whitespace, exactly when `s` is or does. */
  lemma {:induction false} CollapseCollapsed(s: string)
    ensures Collapsed(Collapse(s))
    ensures |Collapse(s)| > 0 <==> |s| > 0
    ensures |s| > 0 ==> (IsSpace(Collapse(s)[0]) <==> IsSpace(s[0]))
    ensures |s| > 0 ==> (IsSpace(Collapse(s)[|Collapse(s)| - 1]) <==> IsSpace(s[|s| - 1]))
    decreases |s|
  {
    if |s| > 0 {
      var r := Collapse(s);
      var t := if IsSpace(s[0]) then DropSpaces(s[1..]) else s[1..];
      CollapseCollapsed(t);
      var c := Collapse(t);
      assert r == [r[0]] + c;
      assert forall i :: 1 <= i < |r| ==> r[i] == c[i - 1];
      assert IsSpace(s[0]) && |c| > 0 ==> !IsSpace(c[0]);
      // The last character of `t`, when there is one, is the last of `s`;
      // otherwise everything after `s[0]` was whitespace, or nothing.
      if |t| > 0 {
        assert t[|t| - 1] == s[|s| - 1];
      } else if |s| > 1 {
        assert IsSpace(s[0]) && IsSpace(s[|s| - 1]) by {
          assert s[|s| - 1] == s[1..][|s| - 2];
        }
      }
    }
  }

  /** `Collapse` keeps a string blank exactly when it was blank. */
  lemma CollapseBlank(s: string)
    ensures Blank(Collapse(s)) <==> Blank(s)
  {
    if |s| > 0 {
      var r := Collapse(s);
      if IsSpace(s[0]) {
        var d := DropSpaces(s[1..]);
        CollapseCollapsed(d);
        var c := Collapse(d);
        assert r == [' '] + c;
        assert |c| > 0 ==> r[1] == c[0] && !IsSpace(c[0]);
        // What is left after the leading whitespace is empty or starts with
        // a non-space.
        assert |d| > 0 ==> d[0] == s[|s| - |d|];
        if |d| == 0 {
          forall i | 1 <= i < |s|
            ensures IsSpace(s[i])
          {
            assert s[i] == s[1..][i - 1];
          }
        }
      } else {
        assert !IsSpace(r[0]);
      }
    }
  }

  /** The number of leading whitespace characters. */
  function LeadingSpaces(s: string): (n: nat)
    ensures n <= |s|
    ensures forall i :: 0 <= i < n ==> IsSpace(s[i])
    ensures n < |s| ==> !IsSpace(s[n])
  {
    if |s| > 0 && IsSpace(s[0]) then 1 + LeadingSpaces(s[1..]) else 0
  }

  /** The number of trailing whitespace characters. */
  function TrailingSpaces(s: string): (n: nat)
    ensures n <= |s|
    ensures forall i :: |s| - n <= i < |s| ==> IsSpace(s[i])
    ensures n < |s| ==> !IsSpace(s[|s| - 1 - n])
  {
    if |s| > 0 && IsSpace(s[|s| - 1]) then 1 + TrailingSpaces(s[..|s| - 1]) else 0
  }

  /** `str.strip()`: the string without leading and trailing whitespace. */
  function Strip(s: string): (r: string)
    ensures |r| > 0 ==> !IsSpace(r[0]) && !IsSpace(r[|r| - 1])
    ensures |r| > 0 <==> !Blank(s)
    ensures exists a, b :: 0 <= a <= b <= |s| && r == s[a..b] && Blank(s[..a]) && Blank(s[b..])
  {
    var a := LeadingSpaces(s);
    if a == |s| then
      assert s[..|s|] == s && s[|s|..|s|] == [];
      []
    else
      var b := |s| - TrailingSpaces(s);
      assert Blank(s[..a]) && Blank(s[b..]);
      s[a..b]
  }

  /** Stripping a collapsed string leaves it collapsed. */
  lemma StripCollapsed(t: string)
    requires Collapsed(t)
    ensures Collapsed(Strip(t))
  {
    var a := LeadingSpaces(t);
    if a < |t| {
      var r := Strip(t);
      assert forall i :: 0 <= i < |r| ==> r[i] == t[a + i];
    }
  }

  /** `s.split(sep)`: the pieces between occurrences of `sep`; the empty
      string gives one empty piece. */
  function Split(s: string, sep: char): (parts: seq<string>)
    ensures |parts| >= 1
    ensures forall k :: 0 <= k < |parts| ==> sep !in parts[k]
    decreases |s|
  {
    if |s| == 0 then [[]]
    else
      var rest := Split(s[1..], sep);
      if s[0] == sep then [[]] + rest else [[s[0]] + rest[0]] + rest[1..]
  }

  /** `sep.join(parts)`. */
  function Join(parts: seq<string>, sep: char): string
    requires |parts| >= 1
  {
    if |parts| == 1 then parts[0] else parts[0] + [sep] + Join(parts[1..], sep)
  }

  /** Joining the pieces again gives back the string. */
  lemma {:induction false} JoinSplit(s: string, sep: char)
    ensures Join(Split(s, sep), sep) == s
    decreases |s|
  {
    if |s| > 0 {
      var rest := Split(s[1..], sep);
      JoinSplit(s[1..], sep);
      if s[0] == sep {
        assert ([[]] + rest)[1..] == rest;
      } else {
        var parts := [[s[0]] + rest[0]] + rest[1..];
        if |rest| > 1 {
          assert parts[1..] == rest[1..];
          assert Join(rest, sep) == rest[0] + [sep] + Join(rest[1..], sep);
        }
      }
    }
  }

  /** Splitting at a character never adjacent to itself, and neither first
      nor last, gives no empty piece. */
  lemma {:induction false} SplitNoEmptyPiece(s: string, sep: char)
    requires |s| > 0 && s[0] != sep && s[|s| - 1] != sep
    requires forall i :: 0 <= i < |s| - 1 ==> !(s[i] == sep && s[i + 1] == sep)
    ensures forall k :: 0 <= k < |Split(s, sep)| ==> |Split(s, sep)[k]| > 0
    decreases |s|
  {
    var t := s[1..];
    var rest := Split(t, sep);
    if |t| > 0 {
      if t[0] == sep {
        // The piece after a separator starts after it.
        assert |t| > 1 && t[1] != sep by {
          assert s[1] == sep && s[2] != sep;
        }
        var u := t[1..];
        assert Split(t, sep) == [[]] + Split(u, sep);
        SplitNoEmptyPiece(u, sep);
        assert rest[1..] == Split(u, sep);
      } else {
        SplitNoEmptyPiece(t, sep);
      }
    }
  }

  /** The maximal runs of non-whitespace characters of `s`, in order: each
      run is a word, and whitespace only separates them. */
  function Words(s: string): (ws: seq<string>)
    ensures forall k :: 0 <= k < |ws| ==> |ws[k]| > 0
    ensures |s| > 0 && !IsSpace(s[0]) ==> |ws| > 0 && ws[0][0] == s[0]
    decreases |s|
  {
    if |s| == 0 then []
    else
      var rest := Words(s[1..]);
      if IsSpace(s[0]) then rest
      else if |s| > 1 && !IsSpace(s[1]) then [[s[0]] + rest[0]] + rest[1..]
      else [[s[0]]] + rest
  }

  /** The words joined without separators. */
  function Concat(ws: seq<string>): string
  {
    if |ws| == 0 then [] else ws[0] + Concat(ws[1..])
  }

  /** The non-whitespace characters of `s`, in order. */
  function NonSpace(s: string): string
  {
    if |s| == 0 then [] else (if IsSpace(s[0]) then [] else [s[0]]) + NonSpace(s[1..])
  }

  /** There are no words exactly when `s` is blank. */
  lemma {:induction false} WordsNone(s: string)
    ensures |Words(s)| == 0 <==> Blank(s)
    decreases |s|
  {
    if |s| > 0 {
      WordsNone(s[1..]);
      assert Blank(s) <==> IsSpace(s[0]) && Blank(s[1..]) by {
        assert forall i :: 1 <= i < |s| ==> s[i] == s[1..][i - 1];
      }
    }
  }

  /** No word holds whitespace. */
  lemma {:induction false} WordsNoSpace(s: string)
    ensures forall k, j :: 0 <= k < |Words(s)| && 0 <= j < |Words(s)[k]| ==> !IsSpace(Words(s)[k][j])
    decreases |s|
  {
    if |s| > 0 && !IsSpace(s[0]) {
      var rest := Words(s[1..]);
      WordsNoSpace(s[1..]);
      var ws := Words(s);
      if |s| > 1 && !IsSpace(s[1]) {
        assert ws == [[s[0]] + rest[0]] + rest[1..];
        assert forall k :: 1 <= k < |ws| ==> ws[k] == rest[k];
        assert forall j :: 1 <= j < |ws[0]| ==> ws[0][j] == rest[0][j - 1];
      } else {
        assert ws == [[s[0]]] + rest;
        assert forall k :: 1 <= k < |ws| ==> ws[k] == rest[k - 1];
      }
    } else if |s| > 0 {
      WordsNoSpace(s[1..]);
    }
  }

  /** The words joined again are the non-whitespace characters of `s`, in
      order. */
  lemma {:induction false} WordsConcat(s: string)
    ensures Concat(Words(s)) == NonSpace(s)
    decreases |s|
  {
    if |s| > 0 {
      var rest := Words(s[1..]);
      WordsConcat(s[1..]);
      if !IsSpace(s[0]) {
        var ws := Words(s);
        if |s| > 1 && !IsSpace(s[1]) {
          assert ws == [[s[0]] + rest[0]] + rest[1..];
          assert Concat(rest) == rest[0] + Concat(rest[1..]);
          assert ws[1..] == rest[1..];
        } else {
          assert ws == [[s[0]]] + rest;
          assert ws[1..] == rest;
        }
      }
    }
  }

  /** Leading whitespace does not change the words. */
  lemma {:induction false} WordsBlankPrefix(p: string, x: string)
    requires Blank(p)
    ensures Words(p + x) == Words(x)
    decreases |p|
  {
    if |p| > 0 {
      assert (p + x)[0] == p[0] && IsSpace(p[0]);
      assert (p + x)[1..] == p[1..] + x;
      assert Words(p + x) == Words(p[1..] + x);
      assert Blank(p[1..]) by {
        assert forall i :: 0 <= i < |p| - 1 ==> p[1..][i] == p[i + 1];
      }
      WordsBlankPrefix(p[1..], x);
    } else {
      assert p + x == x;
    }
  }

  /** Trailing whitespace does not change the words. */
  lemma {:induction false} WordsBlankSuffix(x: string, q: string)
    requires Blank(q)
    ensures Words(x + q) == Words(x)
    decreases |x|
  {
    if |x| == 0 {
      assert x + q == q;
      WordsNone(q);
    } else {
      assert (x + q)[1..] == x[1..] + q;
      WordsBlankSuffix(x[1..], q);
      if |x| == 1 && |q| > 0 {
        assert (x + q)[1] == q[0];
      }
    }
  }

  /** Dropping the leading whitespace does not change the words. */
  lemma {:induction false} WordsDropSpaces(s: string)
    ensures Words(DropSpaces(s)) == Words(s)
  {
    var d := DropSpaces(s);
    var p := s[..|s| - |d|];
    assert s == p + d;
    assert Blank(p);
    WordsBlankPrefix(p, d);
  }

  /** `re.sub(r'\s+', ' ', s)` keeps the words of `s`: it only shortens the
      whitespace between them. */
  lemma {:induction false} CollapseWords(s: string)
    ensures Words(Collapse(s)) == Words(s)
    decreases |s|
  {
    if |s| > 0 {
      var r := Collapse(s);
      if IsSpace(s[0]) {
        var d := DropSpaces(s[1..]);
        CollapseWords(d);
        WordsDropSpaces(s[1..]);
        assert r[1..] == Collapse(d);
      } else {
        var c := Collapse(s[1..]);
        CollapseWords(s[1..]);
        CollapseCollapsed(s[1..]);
        assert r[1..] == c;
        assert |r| > 1 ==> r[1] == c[0];
      }
    }
  }

  /** `str.strip()` keeps the words. */
  lemma StripWords(s: string)
    ensures Words(Strip(s)) == Words(s)
  {
    var a, b :| 0 <= a <= b <= |s| && Strip(s) == s[a..b] && Blank(s[..a]) && Blank(s[b..]);
    assert s == s[..a] + (s[a..b] + s[b..]);
    WordsBlankPrefix(s[..a], s[a..b] + s[b..]);
    WordsBlankSuffix(s[a..b], s[b..]);
  }

  /** A collapsed string stays collapsed without its first character. */
  lemma CollapsedTail(t: string)
    requires Collapsed(t) && |t| > 0
    ensures Collapsed(t[1..])
  {
    assert forall i :: 0 <= i < |t| - 1 ==> t[1..][i] == t[i + 1];
  }

  /** Splitting a collapsed string that starts and ends with a non-space at
      the space gives exactly its words. */
  lemma {:induction false} SplitCollapsedWords(t: string)
    requires Collapsed(t) && |t| > 0 && !IsSpace(t[0]) && !IsSpace(t[|t| - 1])
    ensures Split(t, ' ') == Words(t)
    decreases |t|
  {
    var u := t[1..];
    if |u| == 0 {
      assert u == [] && Split(u, ' ') == [[]];
      assert [t[0]] + Split(u, ' ')[0] == [t[0]] && Split(u, ' ')[1..] == [];
      assert Split(t, ' ') == [[t[0]]];
    } else {
      CollapsedTail(t);
      if !IsSpace(u[0]) {
        SplitCollapsedWords(u);
      } else {
        assert t[1] == ' ' && |t| > 2 && !IsSpace(t[2]);
        var v := u[1..];
        CollapsedTail(u);
        SplitCollapsedWords(v);
        assert Split(u, ' ') == [[]] + Split(v, ' ');
        assert Split(u, ' ')[0] == [] && Split(u, ' ')[1..] == Split(v, ' ');
        assert [t[0]] + Split(u, ' ')[0] == [t[0]];
        assert Split(t, ' ') == [[t[0]]] + Split(v, ' ');
        assert Words(u) == Words(v);
        assert Words(t) == [[t[0]]] + Words(u);
      }
    }
  }

  /** The tokens a particle line is split into:
      `re.sub(r'\s+', ' ', line).strip().split(' ')`. A line with a
      non-whitespace character splits into non-empty tokens without
      whitespace; a blank line gives the single empty token. */
  function Tokens(line: string): (ts: seq<string>)
    ensures !Blank(line) ==> forall k :: 0 <= k < |ts| ==> |ts[k]| > 0
    ensures forall k, j :: 0 <= k < |ts| && 0 <= j < |ts[k]| ==> !IsSpace(ts[k][j])
    ensures Blank(line) ==> ts == [[]]
    ensures !Blank(line) ==> ts == Words(line)
  {
    var c := Collapse(line);
    CollapseCollapsed(line);
    CollapseBlank(line);
    StripCollapsed(c);
    var t := Strip(c);
    SplitPiecesOf(t, ' ');
    if Blank(line) then Split(t, ' ')
    else
      SplitNoEmptyPiece(t, ' ');
      CollapseWords(line);
      StripWords(c);
      SplitCollapsedWords(t);
      Split(t, ' ')
  }

  /** Every character of a piece is a character of the string other than
      `sep`. */
  lemma {:induction false} SplitPiecesOf(s: string, sep: char)
    ensures forall k, j :: 0 <= k < |Split(s, sep)| && 0 <= j < |Split(s, sep)[k]| ==>
              Split(s, sep)[k][j] in s
    decreases |s|
  {
    if |s| > 0 {
      SplitPiecesOf(s[1..], sep);
      assert forall c :: c in s[1..] ==> c in s;
    }
  }
}
