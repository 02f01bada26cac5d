/** Text: the two string operations the status listing is read with —
    splitting on a separator character (`str::split`) and splitting into
    whitespace-separated words (`str::split_whitespace`). */
module Text {

  /** `str::split(sep)`: the pieces between separators, in order. There is
      always at least one piece, and a separator at either end yields an
      empty piece there. */
  function Split(s: string, sep: char): (r: seq<string>)
    ensures |r| >= 1
    decreases |s|
  {
    if s == [] then [[]]
    else
      var rest := Split(s[1..], sep);
      if s[0] == sep then [[]] + rest
      else [[s[0]] + rest[0]] + rest[1..]
  }

  /** No piece holds the separator, and joining the pieces with it gives
      back the string. */
  lemma {:induction false} SplitPieces(s: string, sep: char)
    ensures forall k :: 0 <= k < |Split(s, sep)| ==> sep !in Split(s, sep)[k]
    ensures Join(Split(s, sep), sep) == s
    decreases |s|
  {
    if s != [] {
      SplitPieces(s[1..], sep);
      var rest := Split(s[1..], sep);
      var r := Split(s, sep);
      if s[0] == sep {
        assert r[1..] == rest;
        assert s == [sep] + s[1..];
        forall k | 0 <= k < |r|
          ensures sep !in r[k]
        {
          if k > 0 {
            assert r[k] == rest[k - 1];
          }
        }
      } else {
        var first := [s[0]] + rest[0];
        assert r[0] == first && r[1..] == rest[1..];
        assert s == [s[0]] + s[1..];
        if |rest| == 1 {
          assert Join(r, sep) == first;
        } else {
          assert Join(rest, sep) == rest[0] + [sep] + Join(rest[1..], sep);
          assert Join(r, sep) == first + [sep] + Join(rest[1..], sep);
        }
        forall k | 0 <= k < |r|
          ensures sep !in r[k]
        {
          if k > 0 {
            assert r[k] == rest[k];
          } else {
            assert sep !in rest[0];
          }
        }
      }
    }
  }

  /** The pieces put back together with the separator between each two. */
  function Join(pieces: seq<string>, sep: char): string
    requires |pieces| >= 1
  {
    if |pieces| == 1 then pieces[0] else pieces[0] + [sep] + Join(pieces[1..], sep)
  }

  /** Joining pieces whose first is not empty starts with that piece's
      first character. */
  lemma {:induction false} JoinCons(pieces: seq<string>, sep: char)
    requires |pieces| >= 1 && pieces[0] != []
    ensures Join(pieces, sep) == [pieces[0][0]] + Join([pieces[0][1..]] + pieces[1..], sep)
  {
    var p, shorter := pieces[0], [pieces[0][1..]] + pieces[1..];
    assert p == [p[0]] + p[1..];
    if |pieces| > 1 {
      assert shorter[1..] == pieces[1..];
    }
  }

  /** Dropping the first character of the first piece keeps every piece
      free of the separator. */
  lemma {:induction false} SeparatorFreeTail(pieces: seq<string>, sep: char)
    requires |pieces| >= 1 && pieces[0] != []
    requires forall k :: 0 <= k < |pieces| ==> sep !in pieces[k]
    ensures var shorter := [pieces[0][1..]] + pieces[1..];
            forall k :: 0 <= k < |shorter| ==> sep !in shorter[k]
  {
    var shorter := [pieces[0][1..]] + pieces[1..];
    forall k | 0 <= k < |shorter|
      ensures sep !in shorter[k]
    {
      if k > 0 {
        assert shorter[k] == pieces[k];
      } else {
        assert forall c :: c in pieces[0][1..] ==> c in pieces[0];
      }
    }
  }

  /** Splitting what was joined gives back the pieces, as long as no piece
      holds the separator. */
  lemma {:induction false} SplitJoin(pieces: seq<string>, sep: char)
    requires |pieces| >= 1
    requires forall k :: 0 <= k < |pieces| ==> sep !in pieces[k]
    ensures Split(Join(pieces, sep), sep) == pieces
    decreases |pieces|, |pieces[0]|
  {
    var p := pieces[0];
    if p == [] {
      if |pieces| > 1 {
        var tail := Join(pieces[1..], sep);
        assert Join(pieces, sep) == [sep] + tail;
        assert ([sep] + tail)[1..] == tail;
        SplitJoin(pieces[1..], sep);
      }
    } else {
      var shorter := [p[1..]] + pieces[1..];
      JoinCons(pieces, sep);
      SeparatorFreeTail(pieces, sep);
      SplitJoin(shorter, sep);
      var j := Join(pieces, sep);
      assert j[1..] == Join(shorter, sep);
      assert p[0] != sep by {
        assert p[0] in p;
      }
      assert [p[0]] + shorter[0] == p;
      assert pieces == [p] + shorter[1..];
    }
  }

  /** `char::is_whitespace`: the Unicode White_Space property. */
  predicate IsWhitespace(c: char)
  {
    || ('\t' <= c <= '\r')
    || c == ' '
    || c == '\U{85}'
    || c == '\U{A0}'
    || c == '\U{1680}'
    || ('\U{2000}' <= c <= '\U{200A}')
    || c == '\U{2028}'
    || c == '\U{2029}'
    || c == '\U{202F}'
    || c == '\U{205F}'
    || c == '\U{3000}'
  }

  predicate IsWord(w: string)
  {
    w != [] && forall i :: 0 <= i < |w| ==> !IsWhitespace(w[i])
  }

  /** The length of the longest prefix of `s` without whitespace. */
  function WordLen(s: string): (n: nat)
    ensures n <= |s|
  {
    if s == [] || IsWhitespace(s[0]) then 0 else 1 + WordLen(s[1..])
  }

  /** The prefix WordLen measures is free of whitespace and cannot be
      extended: the next character, if any, is whitespace. */
  lemma {:induction false} WordLenIsMaximal(s: string)
    ensures forall i :: 0 <= i < WordLen(s) ==> !IsWhitespace(s[i])
    ensures WordLen(s) < |s| ==> IsWhitespace(s[WordLen(s)])
    decreases |s|
  {
    if s != [] && !IsWhitespace(s[0]) {
      WordLenIsMaximal(s[1..]);
      forall i | 0 <= i < WordLen(s)
        ensures !IsWhitespace(s[i])
      {
        if i > 0 {
          assert s[i] == s[1..][i - 1];
        }
      }
    }
  }

  /** `str::split_whitespace`: the maximal runs of non-whitespace characters,
      in order. */
  function Tokens(s: string): seq<string>
    decreases |s|
  {
    if s == [] then []
    else if IsWhitespace(s[0]) then Tokens(s[1..])
    else
      var n := WordLen(s);
      [s[..n]] + Tokens(s[n..])
  }

  /** Every token is a word, and together they hold exactly the
      non-whitespace characters of the string, in order. */
  lemma {:induction false} TokensAreWords(s: string)
    ensures forall k :: 0 <= k < |Tokens(s)| ==> IsWord(Tokens(s)[k])
    ensures Concat(Tokens(s)) == Squeeze(s)
    decreases |s|
  {
    if s != [] {
      if IsWhitespace(s[0]) {
        TokensAreWords(s[1..]);
      } else {
        var n := WordLen(s);
        WordLenIsMaximal(s);
        TokensAreWords(s[n..]);
        SqueezeAppend(s[..n], s[n..]);
        SqueezeWord(s[..n]);
        assert s[..n] + s[n..] == s;
        var r := Tokens(s);
        assert r == [s[..n]] + Tokens(s[n..]);
        forall k | 0 <= k < |r|
          ensures IsWord(r[k])
        {
          if k > 0 {
            assert r[k] == Tokens(s[n..])[k - 1];
          }
        }
      }
    }
  }

  /** The characters of `s` that are not whitespace. */
  function Squeeze(s: string): string
  {
    if s == [] then [] else (if IsWhitespace(s[0]) then [] else [s[0]]) + Squeeze(s[1..])
  }

  function Concat(ws: seq<string>): string
  {
    if ws == [] then [] else ws[0] + Concat(ws[1..])
  }

  lemma {:induction false} SqueezeAppend(a: string, b: string)
    ensures Squeeze(a + b) == Squeeze(a) + Squeeze(b)
    decreases |a|
  {
    if a != [] {
      assert (a + b)[1..] == a[1..] + b;
      SqueezeAppend(a[1..], b);
    } else {
      assert a + b == b;
    }
  }

  lemma {:induction false} SqueezeWord(w: string)
    requires forall i :: 0 <= i < |w| ==> !IsWhitespace(w[i])
    ensures Squeeze(w) == w
    decreases |w|
  {
    if w != [] {
      SqueezeWord(w[1..]);
    }
  }

  /** All of `g` is whitespace. */
  predicate Blank(g: string)
  {
    forall i :: 0 <= i < |g| ==> IsWhitespace(g[i])
  }

  /** Words, each with the whitespace that follows it: every word but the
      last is followed by at least one whitespace character. */
  predicate Separated(ws: seq<string>, gaps: seq<string>)
  {
    && |gaps| == |ws|
    && (forall k :: 0 <= k < |ws| ==> IsWord(ws[k]) && Blank(gaps[k]))
    && (forall k :: 0 <= k < |ws| - 1 ==> gaps[k] != [])
  }

  /** Each word followed by its gap, in order. */
  function Laid(ws: seq<string>, gaps: seq<string>): string
    requires |gaps| == |ws|
  {
    if ws == [] then [] else ws[0] + gaps[0] + Laid(ws[1..], gaps[1..])
  }

  /** A word followed by whitespace or nothing comes off as the first token. */
  lemma {:induction false} TokensOfWord(w: string, rest: string)
    requires IsWord(w)
    requires rest == [] || IsWhitespace(rest[0])
    ensures Tokens(w + rest) == [w] + Tokens(rest)
  {
    var s := w + rest;
    assert !IsWhitespace(s[0]);
    WordLenOfWord(w, rest);
    assert s[..|w|] == w && s[|w|..] == rest;
  }

  lemma {:induction false} WordLenOfWord(w: string, rest: string)
    requires forall i :: 0 <= i < |w| ==> !IsWhitespace(w[i])
    requires rest == [] || IsWhitespace(rest[0])
    ensures WordLen(w + rest) == |w|
    decreases |w|
  {
    if w != [] {
      assert (w + rest)[1..] == w[1..] + rest;
      WordLenOfWord(w[1..], rest);
    } else {
      assert w + rest == rest;
    }
  }

  /** Whitespace in front changes no token. */
  lemma {:induction false} TokensAfterBlank(lead: string, s: string)
    requires Blank(lead)
    ensures Tokens(lead + s) == Tokens(s)
    decreases |lead|
  {
    if lead == [] {
      assert lead + s == s;
    } else {
      assert (lead + s)[0] == lead[0] && (lead + s)[1..] == lead[1..] + s;
      TokensAfterBlank(lead[1..], s);
    }
  }

  /** A laid-out text starts with its first word. */
  lemma {:induction false} LaidStart(ws: seq<string>, gaps: seq<string>)
    requires |gaps| == |ws| && ws != [] && ws[0] != []
    ensures Laid(ws, gaps) != [] && Laid(ws, gaps)[0] == ws[0][0]
  {
    var rest := gaps[0] + Laid(ws[1..], gaps[1..]);
    assert Laid(ws, gaps) == ws[0] + rest;
  }

  /** Dropping the first word and its gap keeps a layout well formed. */
  lemma {:induction false} SeparatedTail(ws: seq<string>, gaps: seq<string>)
    requires Separated(ws, gaps) && ws != []
    ensures Separated(ws[1..], gaps[1..])
  {
    forall k | 0 <= k < |ws| - 1
      ensures IsWord(ws[1..][k]) && Blank(gaps[1..][k])
    {
      assert ws[1..][k] == ws[k + 1] && gaps[1..][k] == gaps[k + 1];
    }
    forall k | 0 <= k < |ws| - 2
      ensures gaps[1..][k] != []
    {
      assert gaps[1..][k] == gaps[k + 1];
    }
  }

  /** What follows the first word of a layout is empty or starts with
      whitespace. */
  lemma {:induction false} AfterFirstWord(ws: seq<string>, gaps: seq<string>)
    requires Separated(ws, gaps) && ws != []
    ensures var rest := gaps[0] + Laid(ws[1..], gaps[1..]);
            rest == [] || IsWhitespace(rest[0])
  {
    if |ws| == 1 {
      assert Laid(ws[1..], gaps[1..]) == [];
    } else {
      assert gaps[0] != [];
    }
  }

  /** Splitting on whitespace gives back the words of any layout: whatever
      whitespace comes first, and however wide the runs between the words
      and after the last one. */
  lemma {:induction false} TokensOfLaid(lead: string, ws: seq<string>, gaps: seq<string>)
    requires Blank(lead) && Separated(ws, gaps)
    ensures Tokens(lead + Laid(ws, gaps)) == ws
    decreases |ws|
  {
    TokensAfterBlank(lead, Laid(ws, gaps));
    if ws != [] {
      var rest := gaps[0] + Laid(ws[1..], gaps[1..]);
      SeparatedTail(ws, gaps);
      TokensOfLaid(gaps[0], ws[1..], gaps[1..]);
      AfterFirstWord(ws, gaps);
      TokensOfWord(ws[0], rest);
      assert Laid(ws, gaps) == ws[0] + rest;
    }
  }

  /** A text that starts with whitespace, laid out as words, has whitespace
      in front of its first word. */
  lemma {:induction false} GapBeforeWord(rest: string, l: string, ws: seq<string>, gaps: seq<string>)
    requires Separated(ws, gaps) && ws != []
    requires rest == l + Laid(ws, gaps)
    requires rest == [] || IsWhitespace(rest[0])
    ensures l != []
  {
    if l == [] {
      assert rest == Laid(ws, gaps);
      LaidStart(ws, gaps);
      assert false;
    }
  }

  lemma {:induction false} SeparatedCons(w: string, l: string, ws: seq<string>, gaps: seq<string>)
    requires IsWord(w) && Blank(l) && Separated(ws, gaps)
    requires ws != [] ==> l != []
    ensures Separated([w] + ws, [l] + gaps)
  {
    forall k | 0 <= k < |ws| + 1
      ensures IsWord(([w] + ws)[k]) && Blank(([l] + gaps)[k])
    {
      if k > 0 {
        assert ([w] + ws)[k] == ws[k - 1] && ([l] + gaps)[k] == gaps[k - 1];
      }
    }
    forall k | 0 <= k < |ws|
      ensures ([l] + gaps)[k] != []
    {
      if k > 0 {
        assert ([l] + gaps)[k] == gaps[k - 1];
      }
    }
  }

  lemma {:induction false} LaidCons(w: string, l: string, ws: seq<string>, gaps: seq<string>)
    requires |gaps| == |ws|
    ensures Laid([w] + ws, [l] + gaps) == w + l + Laid(ws, gaps)
  {
    assert ([w] + ws)[1..] == ws && ([l] + gaps)[1..] == gaps;
  }

  /** A whitespace character in front joins the leading whitespace. */
  lemma {:induction false} LayoutAfterSpace(s: string, l: string, g: seq<string>)
    requires s != [] && IsWhitespace(s[0])
    requires Blank(l) && Separated(Tokens(s[1..]), g)
    requires s[1..] == l + Laid(Tokens(s[1..]), g)
    ensures Blank([s[0]] + l) && Separated(Tokens(s), g)
    ensures s == ([s[0]] + l) + Laid(Tokens(s), g)
  {
    assert Tokens(s) == Tokens(s[1..]);
    assert s == [s[0]] + s[1..];
  }

  /** A text that starts with a word splits into that word, as its first
      token, and a rest that is empty or starts with whitespace. */
  lemma {:induction false} FirstWord(s: string)
    requires s != [] && !IsWhitespace(s[0])
    ensures IsWord(s[..WordLen(s)])
    ensures s[WordLen(s)..] == [] || IsWhitespace(s[WordLen(s)..][0])
    ensures Tokens(s) == [s[..WordLen(s)]] + Tokens(s[WordLen(s)..])
  {
    WordLenIsMaximal(s);
  }

  /** A word in front becomes the first token, and the leading whitespace
      of the rest becomes the gap after it. */
  lemma {:induction false} LayoutAfterWord(w: string, rest: string, l: string, g: seq<string>)
    requires IsWord(w) && (rest == [] || IsWhitespace(rest[0]))
    requires Blank(l) && Separated(Tokens(rest), g)
    requires rest == l + Laid(Tokens(rest), g)
    ensures Separated([w] + Tokens(rest), [l] + g)
    ensures w + rest == Laid([w] + Tokens(rest), [l] + g)
  {
    var ts := Tokens(rest);
    if ts != [] {
      GapBeforeWord(rest, l, ts, g);
    }
    SeparatedCons(w, l, ts, g);
    LaidCons(w, l, ts, g);
  }

  /** Every text is laid out as its tokens: some whitespace, then each token
      followed by whitespace, at least one character of it between two
      tokens. */
  lemma {:induction false} TokensLayout(s: string) returns (lead: string, gaps: seq<string>)
    ensures Blank(lead) && Separated(Tokens(s), gaps)
    ensures s == lead + Laid(Tokens(s), gaps)
    decreases |s|
  {
    if s == [] {
      lead, gaps := [], [];
    } else if IsWhitespace(s[0]) {
      var l, g := TokensLayout(s[1..]);
      LayoutAfterSpace(s, l, g);
      lead, gaps := [s[0]] + l, g;
    } else {
      var n := WordLen(s);
      FirstWord(s);
      var l, g := TokensLayout(s[n..]);
      LayoutAfterWord(s[..n], s[n..], l, g);
      lead, gaps := [], [l] + g;
      assert s == lead + (s[..n] + s[n..]);
    }
  }

}
