/** The few Python string operations the sync script relies on. */
module Text {

  /** Python's str.isspace() for a single character. */
  predicate IsSpace(c: char) {
    || c == ' '
    || ('\t' <= c <= '\r')
    || ('\U{1c}' <= c <= '\U{1f}')
    || c == '\U{85}' || c == '\U{a0}' || c == '\U{1680}'
    || ('\U{2000}' <= c <= '\U{200a}')
    || c == '\U{2028}' || c == '\U{2029}' || c == '\U{202f}' || c == '\U{205f}' || c == '\U{3000}'
  }

  /** Python's s.rstrip(): drop every trailing whitespace character. */
  function RStrip(s: string): (r: string)
    ensures r <= s
    ensures r == [] || !IsSpace(r[|r| - 1])
    ensures forall i | |r| <= i < |s| :: IsSpace(s[i])
  {
    if |s| > 0 && IsSpace(s[|s| - 1]) then RStrip(s[..|s| - 1]) else s
  }

  /** Python's s.rstrip(c) for one character c. */
  function RStripChar(s: string, c: char): (r: string)
    ensures r <= s
    ensures r == [] || r[|r| - 1] != c
    ensures forall i | |r| <= i < |s| :: s[i] == c
  {
    if |s| > 0 && s[|s| - 1] == c then RStripChar(s[..|s| - 1], c) else s
  }

  /** Python's s.strip(c) for one character c: no c left at either end (StripKeepsMiddle says what is kept). */
  function StripChar(s: string, c: char): (r: string)
    ensures r == [] || (r[0] != c && r[|r| - 1] != c)
    ensures c !in s ==> r == s
  {
    if |s| > 0 && s[0] == c then StripChar(s[1..], c)
    else if |s| > 0 && s[|s| - 1] == c then StripChar(s[..|s| - 1], c)
    else s
  }

  /** How many c the string `s` starts with. */
  function LeadingRun(s: string, c: char): nat
  {
    if |s| > 0 && s[0] == c then 1 + LeadingRun(s[1..], c) else 0
  }

  /** `r` is the slice of `s` from `k` on, and only c comes before and after it in `s`. */
  predicate Framed(s: string, c: char, k: int, r: string) {
    && 0 <= k && k + |r| <= |s| && r == s[k..k + |r|]
    && (forall i | 0 <= i < k :: s[i] == c)
    && (forall i | k + |r| <= i < |s| :: s[i] == c)
  }

  /**
   * strip(c) removes nothing but the leading and the trailing run of c:
   * what it keeps starts after the leading run, and only c follows it.
   */
  lemma {:induction false} StripKeepsMiddle(s: string, c: char)
    ensures Framed(s, c, LeadingRun(s, c), StripChar(s, c))
  {
    if |s| > 0 && s[0] == c {
      StripKeepsMiddle(s[1..], c);
      FramedAfterHead(s, c, LeadingRun(s[1..], c), StripChar(s, c));
    } else if |s| > 0 && s[|s| - 1] == c {
      var p := s[..|s| - 1];
      StripKeepsMiddle(p, c);
      assert p == [] || p[0] == s[0];
      FramedBeforeLast(s, c, StripChar(s, c));
    } else {
      assert s[0..|s|] == s;
    }
  }

  /** What is framed in the tail is framed, one place further on, in `s` itself when `s` starts with c. */
  lemma FramedAfterHead(s: string, c: char, k: int, r: string)
    requires s != [] && s[0] == c && Framed(s[1..], c, k, r)
    ensures Framed(s, c, k + 1, r)
  {
    assert r == s[1..][k..k + |r|] == s[k + 1..k + 1 + |r|];
    forall i | 0 < i < k + 1 ensures s[i] == c {
      assert s[i] == s[1..][i - 1];
    }
    forall i | k + 1 + |r| <= i < |s| ensures s[i] == c {
      assert s[i] == s[1..][i - 1];
    }
  }

  /** What is framed from the start of `s` without its last character, a c, is framed in `s`. */
  lemma FramedBeforeLast(s: string, c: char, r: string)
    requires s != [] && s[|s| - 1] == c && Framed(s[..|s| - 1], c, 0, r)
    ensures Framed(s, c, 0, r)
  {
    var p := s[..|s| - 1];
    assert r == p[..|r|] == s[..|r|];
    forall i | |r| <= i < |s| ensures s[i] == c {
      if i < |p| {
        assert s[i] == p[i];
      }
    }
  }

  /** The pieces joined back with `sep` between them (the inverse of Split). */
  function Join(pieces: seq<string>, sep: char): string
    requires |pieces| >= 1
  {
    if |pieces| == 1 then pieces[0] else pieces[0] + [sep] + Join(pieces[1..], sep)
  }

  /** Python's s.split(sep) for a one-character separator. */
  function Split(s: string, sep: char): (r: seq<string>)
    ensures |r| >= 1
    ensures forall i | 0 <= i < |r| :: sep !in r[i]
    ensures Join(r, sep) == s
  {
    if |s| == 0 then [""]
    else
      var rest := Split(s[1..], sep);
      if s[0] == sep then [""] + rest
      else
        assert Join([[s[0]] + rest[0]] + rest[1..], sep) == [s[0]] + Join(rest, sep) by {
          if |rest| > 1 {
            assert ([[s[0]] + rest[0]] + rest[1..])[1..] == rest[1..];
          }
        }
        [[s[0]] + rest[0]] + rest[1..]
  }

  /** A string without the separator is split into itself alone. */
  lemma {:induction false} SplitWithoutSep(s: string, sep: char)
    requires sep !in s
    ensures Split(s, sep) == [s]
  {
    if |s| > 0 {
      SplitWithoutSep(s[1..], sep);
    }
  }

  /** Splitting at the first separator peels off the text before it. */
  lemma {:induction false} SplitAtFirst(a: string, b: string, sep: char)
    requires sep !in a
    ensures Split(a + [sep] + b, sep) == [a] + Split(b, sep)
  {
    var s := a + [sep] + b;
    if |a| == 0 {
      assert s[1..] == b;
    } else {
      assert s[1..] == a[1..] + [sep] + b;
      SplitAtFirst(a[1..], b, sep);
      var rest := Split(s[1..], sep);
      assert rest[0] == a[1..] && rest[1..] == Split(b, sep);
      assert [a[0]] + a[1..] == a;
    }
  }
}
