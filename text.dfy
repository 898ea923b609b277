/**
  The operations on Rust strings that the session parser and the password check use:
  `str::split` on one character, `str::trim`, `str::starts_with` and `str::len`.
  A Rust string is a sequence of Unicode scalar values stored as UTF-8; here it is a
  `string`, and its byte length is computed from the UTF-8 width of each character.
 */
module Text {

  /**
    `char::is_whitespace`: the characters with the Unicode White_Space property. Among ASCII
    characters these are the space and U+0009 to U+000D, the vertical tab included, and none
    lies above U+3000.
   */
  predicate IsWhitespace(c: char)
    ensures c as int < 0x80 ==> (IsWhitespace(c) <==> c == ' ' || 0x09 <= c as int <= 0x0D)
    ensures IsWhitespace(c) ==> c as int <= 0x3000
  {
    || c == ' ' || c == '\t' || c == '\n' || c == '\r' || c == '\U{000B}' || c == '\U{000C}'
    || c == '\U{0085}' || c == '\U{00A0}' || c == '\U{1680}'
    || ('\U{2000}' <= c <= '\U{200A}')
    || c == '\U{2028}' || c == '\U{2029}' || c == '\U{202F}' || c == '\U{205F}' || c == '\U{3000}'
  }

  /**
    `str::starts_with` with a string pattern: exact, case-sensitive, anchored at the start.
    The text is then the prefix followed by the rest.
   */
  predicate StartsWith(s: string, prefix: string)
    ensures StartsWith(s, prefix) ==> |prefix| <= |s| && prefix + s[|prefix|..] == s
  {
    |prefix| <= |s| && s[..|prefix|] == prefix
  }

  /** `str::trim_start`: drops the leading whitespace and nothing else. */
  function TrimStart(s: string): (r: string)
    ensures |r| <= |s| && r == s[|s| - |r|..]
    ensures forall i :: 0 <= i < |s| - |r| ==> IsWhitespace(s[i])
    ensures r != [] ==> !IsWhitespace(r[0])
    decreases |s|
  {
    if s != [] && IsWhitespace(s[0]) then TrimStart(s[1..]) else s
  }

  /** `str::trim_end`: drops the trailing whitespace and nothing else. */
  function TrimEnd(s: string): (r: string)
    ensures |r| <= |s| && r == s[..|r|]
    ensures forall i :: |r| <= i < |s| ==> IsWhitespace(s[i])
    ensures r != [] ==> !IsWhitespace(r[|r| - 1])
    decreases |s|
  {
    if s != [] && IsWhitespace(s[|s| - 1]) then TrimEnd(s[..|s| - 1]) else s
  }

  /** `str::trim`: the text between the leading and the trailing whitespace. */
  function Trim(s: string): (r: string)
    ensures |r| <= |s|
    ensures forall c :: c in r ==> c in s
    ensures r != [] ==> !IsWhitespace(r[0]) && !IsWhitespace(r[|r| - 1])
  {
    var t := TrimStart(s);
    var r := TrimEnd(t);
    assert forall c :: c in r ==> c in t;
    r
  }

  /**
    What `Trim` removes is whitespace and nothing else: the result is, character by character,
    the input from just after its leading whitespace, and everything after it is whitespace.
    With the result's own ends not being whitespace, this leaves one possible result.
   */
  lemma TrimStripsOnlyWhitespace(s: string)
    ensures var r := Trim(s); var a := |s| - |TrimStart(s)|;
      a + |r| <= |s| && (forall i :: 0 <= i < |r| ==> r[i] == s[a + i])
      && (forall i :: 0 <= i < a ==> IsWhitespace(s[i]))
      && (forall i :: a + |r| <= i < |s| ==> IsWhitespace(s[i]))
  {
    var t := TrimStart(s);
    assert Trim(s) == TrimEnd(t);
    WhitespaceAfterSlice(s, t, TrimEnd(t));
  }

  /** A prefix `r` of the suffix `t` of `s` sits in `s` where `t` starts, and what follows `r` in `t` follows it in `s`. */
  lemma WhitespaceAfterSlice(s: string, t: string, r: string)
    requires |t| <= |s| && t == s[|s| - |t|..]
    requires |r| <= |t| && r == t[..|r|]
    requires forall i :: |r| <= i < |t| ==> IsWhitespace(t[i])
    ensures var a := |s| - |t|; (forall i :: 0 <= i < |r| ==> r[i] == s[a + i]) && forall i :: a + |r| <= i < |s| ==> IsWhitespace(s[i])
  {
    var a := |s| - |t|;
    forall i | a + |r| <= i < |s|
      ensures IsWhitespace(s[i])
    {
      assert s[i] == t[i - a];
    }
  }

  /** Every character of `w` is whitespace. */
  predicate AllWhitespace(w: string) {
    forall i :: 0 <= i < |w| ==> IsWhitespace(w[i])
  }

  /**
    `TrimStart` drops exactly the leading run of whitespace: a cut after which the text does
    not start with whitespace, and before which everything is whitespace, is its cut.
   */
  lemma TrimStartAt(x: string, j: nat)
    requires j <= |x|
    requires forall i :: 0 <= i < j ==> IsWhitespace(x[i])
    requires j < |x| ==> !IsWhitespace(x[j])
    ensures TrimStart(x) == x[j..]
  {
    var k := |x| - |TrimStart(x)|;
    var atJ := if j < |x| then x[j] else ' ';
    var atK := if k < |x| then x[k] else ' ';
    assert j < |x| && j < k ==> IsWhitespace(atJ);
    assert k < |x| ==> TrimStart(x)[0] == atK && (k < j ==> IsWhitespace(atK));
    assert k == j;
  }

  /** `TrimEnd` drops exactly the trailing run of whitespace, in the same sense. */
  lemma TrimEndAt(x: string, j: nat)
    requires j <= |x|
    requires forall i :: j <= i < |x| ==> IsWhitespace(x[i])
    requires 0 < j ==> !IsWhitespace(x[j - 1])
    ensures TrimEnd(x) == x[..j]
  {
    var k := |TrimEnd(x)|;
    var beforeJ := if 0 < j then x[j - 1] else ' ';
    var beforeK := if 0 < k then x[k - 1] else ' ';
    assert 0 < j && k < j ==> IsWhitespace(beforeJ);
    assert 0 < k ==> TrimEnd(x)[k - 1] == beforeK && (j < k ==> IsWhitespace(beforeK));
    assert k == j;
  }

  /** Leading whitespace in front of a text is dropped by `TrimStart` along with the text's own. */
  lemma TrimStartSkipsWhitespace(w: string, s: string)
    requires AllWhitespace(w)
    ensures TrimStart(w + s) == TrimStart(s)
  {
    var x := w + s;
    var j := |w| + |s| - |TrimStart(s)|;
    forall i | 0 <= i < j
      ensures IsWhitespace(x[i])
    {
      if i >= |w| {
        assert x[i] == s[i - |w|];
      }
    }
    assert j < |x| ==> x[j] == TrimStart(s)[0];
    TrimStartAt(x, j);
    assert x[j..] == s[|s| - |TrimStart(s)|..];
  }

  /** Trailing whitespace after a text is dropped by `TrimEnd` along with the text's own. */
  lemma TrimEndSkipsWhitespace(s: string, w: string)
    requires AllWhitespace(w)
    ensures TrimEnd(s + w) == TrimEnd(s)
  {
    var x := s + w;
    var j := |TrimEnd(s)|;
    forall i | j <= i < |x|
      ensures IsWhitespace(x[i])
    {
      if i >= |s| {
        assert x[i] == w[i - |s|];
      }
    }
    assert 0 < j ==> x[j - 1] == TrimEnd(s)[j - 1];
    TrimEndAt(x, j);
    assert x[..j] == s[..j];
  }

  /** `TrimStart` of a text that is not all whitespace, followed by more, keeps what follows whole. */
  lemma TrimStartAppend(s: string, w: string)
    requires TrimStart(s) != []
    ensures TrimStart(s + w) == TrimStart(s) + w
  {
    var j := |s| - |TrimStart(s)|;
    DropFromAppend(s, w, j);
    TrimStartAt(s + w, j);
  }

  /** Dropping from the front of `s + w` no more than `s` holds drops from `s` alone. */
  lemma DropFromAppend(s: string, w: string, j: nat)
    requires j <= |s|
    ensures (s + w)[j..] == s[j..] + w
    ensures forall i :: 0 <= i < j ==> (s + w)[i] == s[i]
  {
    var u := (s + w)[j..];
    forall i | 0 <= i < |u|
      ensures u[i] == (s[j..] + w)[i]
    {
      if i < |s| - j {
        assert u[i] == s[j + i];
      }
    }
    assert u == s[j..] + w;
  }

  /** Whitespace followed by whitespace leaves nothing after `TrimStart`. */
  lemma TrimStartAllWhitespace(s: string, w: string)
    requires TrimStart(s) == [] && AllWhitespace(w)
    ensures TrimStart(s + w) == []
  {
    var x := s + w;
    forall i | 0 <= i < |x|
      ensures IsWhitespace(x[i])
    {
      if i >= |s| {
        assert x[i] == w[i - |s|];
      }
    }
    TrimStartAt(x, |x|);
  }

  /** Whitespace around a text does not change what `Trim` gives. */
  lemma TrimIgnoresSurroundingWhitespace(pre: string, s: string, post: string)
    requires AllWhitespace(pre) && AllWhitespace(post)
    ensures Trim(pre + s + post) == Trim(s)
  {
    var x := pre + s + post;
    assert x == pre + (s + post);
    TrimStartSkipsWhitespace(pre, s + post);
    var t := TrimStart(s);
    assert Trim(x) == TrimEnd(TrimStart(s + post));
    assert Trim(s) == TrimEnd(t);
    if t != [] {
      TrimStartAppend(s, post);
      TrimEndSkipsWhitespace(t, post);
    } else {
      TrimStartAllWhitespace(s, post);
    }
  }

  /** Text that neither starts nor ends with whitespace is its own trim. */
  lemma TrimUntouched(s: string)
    requires s != [] ==> !IsWhitespace(s[0]) && !IsWhitespace(s[|s| - 1])
    ensures Trim(s) == s
  {
  }

  /**
    `str::split` on one character: the pieces between the separators, in order. There is
    always one piece more than there are separators, so "" splits into [""].
   */
  function Split(s: string, sep: char): (pieces: seq<string>)
    ensures |pieces| >= 1
    ensures forall i :: 0 <= i < |pieces| ==> sep !in pieces[i]
    decreases |s|
  {
    if s == [] then [""]
    else
      var rest := Split(s[1..], sep);
      if s[0] == sep then [""] + rest
      else [[s[0]] + rest[0]] + rest[1..]
  }

  /** The pieces put back together with the separator between neighbours. */
  function Join(pieces: seq<string>, sep: char): string
    decreases |pieces|
  {
    if pieces == [] then ""
    else if |pieces| == 1 then pieces[0]
    else pieces[0] + [sep] + Join(pieces[1..], sep)
  }

  /** Splitting loses nothing: joining the pieces gives back the text. */
  lemma {:induction false} JoinSplit(s: string, sep: char)
    ensures Join(Split(s, sep), sep) == s
    decreases |s|
  {
    if s != [] {
      JoinSplit(s[1..], sep);
      var rest := Split(s[1..], sep);
      if s[0] == sep {
        assert Split(s, sep) == [""] + rest;
        assert s == [sep] + s[1..];
      } else {
        var pieces := Split(s, sep);
        assert pieces == [[s[0]] + rest[0]] + rest[1..];
        if |rest| == 1 {
          assert s == [s[0]] + rest[0];
        } else {
          assert pieces[1..] == rest[1..];
          assert Join(rest, sep) == rest[0] + [sep] + Join(rest[1..], sep);
          assert s == [s[0]] + s[1..];
        }
      }
    }
  }

  /** Text without the separator is a single piece. */
  lemma {:induction false} SplitWithoutSeparator(s: string, sep: char)
    requires sep !in s
    ensures Split(s, sep) == [s]
    decreases |s|
  {
    if s != [] {
      SplitWithoutSeparator(s[1..], sep);
      assert [s[0]] + s[1..] == s;
    }
  }

  /** A piece followed by the separator is split off as the first piece. */
  lemma {:induction false} SplitAtFirstSeparator(a: string, b: string, sep: char)
    requires sep !in a
    ensures Split(a + [sep] + b, sep) == [a] + Split(b, sep)
    decreases |a|
  {
    if a == [] {
      assert a + [sep] + b == [sep] + b;
      assert ([sep] + b)[1..] == b;
    } else {
      SplitAtFirstSeparator(a[1..], b, sep);
      var s := a + [sep] + b;
      assert s[0] == a[0] && s[1..] == a[1..] + [sep] + b;
      assert [a[0]] + a[1..] == a;
    }
  }

  /** How many bytes the UTF-8 encoding of one character takes. */
  function Utf8Width(c: char): nat {
    if c as int < 0x80 then 1
    else if c as int < 0x800 then 2
    else if c as int < 0x10000 then 3
    else 4
  }

  /** `str::len`: the length of the UTF-8 encoding, in bytes; every character takes one to four. */
  function Utf8Len(s: string): (n: nat)
    ensures |s| <= n <= 4 * |s|
    decreases |s|
  {
    if s == [] then 0 else Utf8Width(s[0]) + Utf8Len(s[1..])
  }

  /** For ASCII text the byte length is the character count. */
  lemma {:induction false} Utf8LenAscii(s: string)
    requires forall i :: 0 <= i < |s| ==> s[i] as int < 0x80
    ensures Utf8Len(s) == |s|
    decreases |s|
  {
    if s != [] {
      Utf8LenAscii(s[1..]);
    }
  }
}
