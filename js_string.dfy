/** The two JavaScript string built-ins the analysis request relies on:
    `String.prototype.split` with a one-character separator and
    `String.prototype.trim`. */
module JsString {
  import opened Wrappers

  // ---------------------------------------------------------------- split

  /** `s.split(sep)`: the pieces of `s` between occurrences of `sep`.
      There is always at least one piece; the pieces never contain `sep`;
      there is exactly one piece iff `sep` does not occur. */
  function Split(s: string, sep: char): (parts: seq<string>)
    ensures |parts| >= 1
    ensures forall i :: 0 <= i < |parts| ==> sep !in parts[i]
    ensures |parts| == 1 <==> sep !in s
    decreases |s|
  {
    if s == [] then [""]
    else
      var rest := Split(s[1..], sep);
      if s[0] == sep then [""] + rest
      else [[s[0]] + rest[0]] + rest[1..]
  }

  /** `parts.join(sep)`: the inverse of Split. */
  function Join(parts: seq<string>, sep: char): string
    requires |parts| >= 1
    decreases |parts|
  {
    if |parts| == 1 then parts[0] else parts[0] + [sep] + Join(parts[1..], sep)
  }

  /** Splitting a string and joining the pieces gives the string back. */
  lemma {:induction false} SplitJoin(s: string, sep: char)
    ensures Join(Split(s, sep), sep) == s
    decreases |s|
  {
    if s != [] {
      SplitJoin(s[1..], sep);
      var rest := Split(s[1..], sep);
      if s[0] == sep {
        assert Split(s, sep)[1..] == rest;
      } else {
        var parts := Split(s, sep);
        assert parts[0] == [s[0]] + rest[0];
        if |rest| == 1 {
          assert Join(parts, sep) == [s[0]] + rest[0];
        } else {
          assert parts[1..] == rest[1..];
          assert Join(parts, sep) == [s[0]] + rest[0] + [sep] + Join(rest[1..], sep);
        }
      }
    }
  }

  /** A prefix free of the separator glues onto the first piece of the rest. */
  lemma {:induction false} SplitAfterPlainPrefix(a: string, t: string, sep: char)
    requires sep !in a
    ensures Split(a + t, sep) == [a + Split(t, sep)[0]] + Split(t, sep)[1..]
    decreases |a|
  {
    if a != [] {
      SplitAfterPlainPrefix(a[1..], t, sep);
      assert (a + t)[1..] == a[1..] + t;
      assert (a + t)[0] == a[0];
      assert [a[0]] + (a[1..] + Split(t, sep)[0]) == a + Split(t, sep)[0];
    } else {
      assert a + t == t;
      assert a + Split(t, sep)[0] == Split(t, sep)[0];
    }
  }

  /** Joining pieces that are free of the separator and splitting again gives
      the pieces back. */
  lemma {:induction false} JoinSplit(parts: seq<string>, sep: char)
    requires |parts| >= 1
    requires forall i :: 0 <= i < |parts| ==> sep !in parts[i]
    ensures Split(Join(parts, sep), sep) == parts
    decreases |parts|
  {
    if |parts| == 1 {
      SplitAfterPlainPrefix(parts[0], "", sep);
      assert parts[0] + "" == parts[0];
    } else {
      var tail := Join(parts[1..], sep);
      JoinSplit(parts[1..], sep);
      SplitAfterPlainPrefix(parts[0], [sep] + tail, sep);
      assert parts[0] + [sep] + tail == parts[0] + ([sep] + tail);
      assert ([sep] + tail)[1..] == tail;
      assert Split([sep] + tail, sep) == [""] + parts[1..];
      assert parts[0] + "" == parts[0];
      assert parts == [parts[0]] + parts[1..];
    }
  }

  // ---------------------------------------------------------------- search

  /** `s.indexOf(c)`, with `None` for -1. */
  function IndexOf(s: string, c: char): (r: Option<nat>)
    ensures r.None? <==> c !in s
    ensures r.Some? ==> r.value < |s| && s[r.value] == c && c !in s[..r.value]
  {
    if s == [] then None
    else if s[0] == c then Some(0)
    else match IndexOf(s[1..], c)
      case None => None
      case Some(i) =>
        assert s[..i + 1] == [s[0]] + s[1..][..i];
        Some(i + 1)
  }

  /** The longest prefix of `s` that does not contain `c`. */
  function UpTo(s: string, c: char): (r: string)
    ensures c !in r
    ensures r <= s
    ensures |r| == |s| || s[|r|] == c
  {
    match IndexOf(s, c)
    case None => s
    case Some(i) => s[..i]
  }

  /** The first piece of a split is the text before the first separator. */
  lemma FirstPiece(s: string, sep: char)
    ensures Split(s, sep)[0] == UpTo(s, sep)
  {
    var u := UpTo(s, sep);
    var t := s[|u|..];
    assert s == u + t;
    SplitAfterPlainPrefix(u, t, sep);
    if t != [] {
      assert t == [sep] + t[1..];
      assert Split(t, sep)[0] == "";
    }
    assert u + "" == u;
  }

  /** The second piece of a split, when there is one, is the text between
      the first and the second separator. */
  lemma SecondPiece(s: string, sep: char, i: nat)
    requires IndexOf(s, sep) == Some(i)
    ensures |Split(s, sep)| >= 2
    ensures Split(s, sep)[1] == UpTo(s[i + 1..], sep)
  {
    var t := s[i..];
    assert s == s[..i] + t;
    SplitAfterPlainPrefix(s[..i], t, sep);
    assert t == [sep] + s[i + 1..];
    assert Split(t, sep) == [""] + Split(s[i + 1..], sep);
    FirstPiece(s[i + 1..], sep);
  }

  // ---------------------------------------------------------------- trim

  /** The characters `trim` removes: ECMAScript WhiteSpace and LineTerminator
      (tab, line tabulation, form feed, space, no-break space, byte order mark,
      the Unicode space separators, line feed, carriage return, and the line
      and paragraph separators). */
  predicate IsWhitespace(c: char)
  {
    || c == '\t' || c == '\n' || c == '\U{000B}' || c == '\U{000C}' || c == '\r'
    || c == ' ' || c == '\U{00A0}' || c == '\U{1680}'
    || ('\U{2000}' <= c <= '\U{200A}')
    || c == '\U{2028}' || c == '\U{2029}' || c == '\U{202F}' || c == '\U{205F}'
    || c == '\U{3000}' || c == '\U{FEFF}'
  }

  predicate AllWhitespace(s: string)
  {
    forall i :: 0 <= i < |s| ==> IsWhitespace(s[i])
  }

  /** Leading whitespace removed: a suffix of `s`, everything cut off is
      whitespace, and what is left does not start with whitespace. */
  function TrimStart(s: string): (r: string)
    ensures |r| <= |s| && r == s[|s| - |r|..]
    ensures AllWhitespace(s[..|s| - |r|])
    ensures r != [] ==> !IsWhitespace(r[0])
    decreases |s|
  {
    if s != [] && IsWhitespace(s[0]) then
      var r := TrimStart(s[1..]);
      assert s[..|s| - |r|] == [s[0]] + s[1..][..|s| - 1 - |r|];
      r
    else s
  }

  /** Trailing whitespace removed: a prefix of `s`, everything cut off is
      whitespace, and what is left does not end with whitespace. */
  function TrimEnd(s: string): (r: string)
    ensures |r| <= |s| && r == s[..|r|]
    ensures AllWhitespace(s[|r|..])
    ensures r != [] ==> !IsWhitespace(r[|r| - 1])
    decreases |s|
  {
    if s != [] && IsWhitespace(s[|s| - 1]) then
      var r := TrimEnd(s[..|s| - 1]);
      assert s[|r|..] == s[..|s| - 1][|r|..] + [s[|s| - 1]];
      r
    else s
  }

  /** `s.trim()`. */
  function Trim(s: string): (r: string)
    ensures |r| <= |s|
    ensures r != [] ==> !IsWhitespace(r[0]) && !IsWhitespace(r[|r| - 1])
  {
    TrimEnd(TrimStart(s))
  }

  lemma {:induction false} TrimStartSkipsWhitespace(a: string, x: string)
    requires AllWhitespace(a)
    ensures TrimStart(a + x) == TrimStart(x)
    decreases |a|
  {
    if a != [] {
      assert (a + x)[0] == a[0];
      assert (a + x)[1..] == a[1..] + x;
      TrimStartSkipsWhitespace(a[1..], x);
    } else {
      assert a + x == x;
    }
  }

  lemma {:induction false} TrimEndSkipsWhitespace(x: string, b: string)
    requires AllWhitespace(b)
    ensures TrimEnd(x + b) == TrimEnd(x)
    decreases |b|
  {
    if b != [] {
      var n := |x + b|;
      assert (x + b)[n - 1] == b[|b| - 1];
      assert (x + b)[..n - 1] == x + b[..|b| - 1];
      TrimEndSkipsWhitespace(x, b[..|b| - 1]);
    } else {
      assert x + b == x;
    }
  }

  /** Trim is characterised by its result: whenever `s` is whitespace, then a
      middle part that neither starts nor ends with whitespace, then
      whitespace, trim returns exactly that middle part. */
  lemma TrimUnique(a: string, m: string, b: string)
    requires AllWhitespace(a) && AllWhitespace(b)
    requires m != [] ==> !IsWhitespace(m[0]) && !IsWhitespace(m[|m| - 1])
    ensures Trim(a + m + b) == m
  {
    assert a + m + b == a + (m + b);
    TrimStartSkipsWhitespace(a, m + b);
    if m == [] {
      assert m + b == b && b == [] + b;
      TrimStartSkipsWhitespace(b, []);
      assert b + [] == b;
    } else {
      assert (m + b)[0] == m[0];
    }
    TrimEndSkipsWhitespace(m, b);
  }

  lemma AllWhitespaceConcat(x: string, y: string)
    requires AllWhitespace(x) && AllWhitespace(y)
    ensures AllWhitespace(x + y)
  {
    forall i | 0 <= i < |x + y| ensures IsWhitespace((x + y)[i]) {
      if i < |x| { assert (x + y)[i] == x[i]; } else { assert (x + y)[i] == y[i - |x|]; }
    }
  }

  /** Regroupings of concatenations. They are stated apart so that the proofs
      of TrimDecompose and TrimAbsorbsPadding do not redo them next to the
      trim terms, where the solver runs out of resource. */
  lemma Associate(a: string, m: string, b: string)
    ensures a + (m + b) == a + m + b
  {
  }

  lemma Regroup(pre: string, a: string, m: string, b: string, post: string)
    ensures pre + (a + m + b) + post == (pre + a) + m + (b + post)
  {
  }

  lemma TrimStartDecompose(t: string) returns (a: string)
    ensures AllWhitespace(a) && t == a + TrimStart(t)
  {
    a := t[..|t| - |TrimStart(t)|];
  }

  lemma TrimEndDecompose(u: string) returns (b: string)
    ensures AllWhitespace(b) && u == TrimEnd(u) + b
  {
    b := u[|TrimEnd(u)|..];
  }

  /** Every string is leading whitespace, then its trimmed text, then
      trailing whitespace. */
  lemma TrimDecompose(t: string) returns (a: string, b: string)
    ensures AllWhitespace(a) && AllWhitespace(b)
    ensures t == a + Trim(t) + b
  {
    var u := TrimStart(t);
    a := TrimStartDecompose(t);
    b := TrimEndDecompose(u);
    assert t == a + (Trim(t) + b);
    Associate(a, Trim(t), b);
  }

  /** A text that neither starts nor ends with whitespace is left as it is. */
  lemma TrimmedIsFixed(m: string)
    requires m != [] ==> !IsWhitespace(m[0]) && !IsWhitespace(m[|m| - 1])
    ensures Trim(m) == m
  {
    assert TrimStart(m) == m;
    assert TrimEnd(m) == m;
  }

  /** Trimming twice is trimming once. */
  lemma TrimIdempotent(s: string)
    ensures Trim(Trim(s)) == Trim(s)
  {
    TrimmedIsFixed(Trim(s));
  }

  /** Whitespace added around a text does not change what trim returns. */
  lemma TrimAbsorbsPadding(pre: string, t: string, post: string)
    requires AllWhitespace(pre) && AllWhitespace(post)
    ensures Trim(pre + t + post) == Trim(t)
  {
    var m := Trim(t);
    var a, b := TrimDecompose(t);
    Regroup(pre, a, m, b, post);
    AllWhitespaceConcat(pre, a);
    AllWhitespaceConcat(b, post);
    TrimUnique(pre + a, m, b + post);
  }
}
